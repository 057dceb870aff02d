/**
 * The engine's state as a value, and its operations `movePiece`,
 * `selectSquare` and `resetGame` as functions from state to state. The
 * `ChessGameState` class is proved to follow these functions; the lemmas
 * here state what the operations guarantee.
 */
module GameSpec {
  import opened Wrappers
  import opened Pieces
  import opened Board
  import opened MoveRules

  /** Kotlin's 32-bit `Int`, the type of the version counter. */
  newtype int32 = x: int | -0x8000_0000 <= x < 0x8000_0000

  /** `boardVersion++`: one more, wrapping from the largest `Int` to the smallest. */
  function NextVersion(v: int32): (r: int32)
    ensures (r as int - v as int) % 0x1_0000_0000 == 1
    ensures v < 0x7fff_ffff ==> r as int == v as int + 1
  {
    if v == 0x7fff_ffff then -0x8000_0000 else v + 1
  }

  /** Back-rank piece types from column 0 to column 7. */
  function BackRank(col: int): PieceType
    requires 0 <= col < 8
  {
    [Rook, Knight, Bishop, Queen, King, Bishop, Knight, Rook][col]
  }

  /** The standard starting placement of one square. */
  function InitialCell(row: int, col: int): Cell
    requires 0 <= col < 8
  {
    if row == 0 then Some(ChessPiece(BackRank(col), Black))
    else if row == 1 then Some(ChessPiece(Pawn, Black))
    else if row == 6 then Some(ChessPiece(Pawn, White))
    else if row == 7 then Some(ChessPiece(BackRank(col), White))
    else None
  }

  /** The board `initializeBoard` produces on an empty board. */
  function InitialGrid(): (g: Grid)
    ensures IsGrid(g)
    ensures forall p :: OnBoard(p) ==> At(g, p) == InitialCell(p.row, p.col)
  {
    seq(8, r => seq(8, c requires 0 <= c < 8 => InitialCell(r, c)))
  }

  /**
   * The start position is colour-symmetric: the square mirrored across the
   * middle of the board holds the same kind of piece in the other colour.
   */
  lemma InitialGridMirrored(p: Position)
    requires OnBoard(p)
    ensures var m := Position(7 - p.row, p.col);
            (At(InitialGrid(), p).None? <==> At(InitialGrid(), m).None?) &&
            (At(InitialGrid(), p).Some? ==>
               At(InitialGrid(), m) == Some(ChessPiece(At(InitialGrid(), p).value.kind,
                                                       Opponent(At(InitialGrid(), p).value.color))))
  {
  }

  /** The start position has exactly one king per colour, on column 4 of its back rank. */
  lemma InitialKings(p: Position, c: ChessColor)
    requires OnBoard(p)
    ensures At(InitialGrid(), p) == Some(ChessPiece(King, c)) <==>
              p == Position(if c == White then 7 else 0, 4)
  {
    assert BackRank(4) == King;
    if At(InitialGrid(), p) == Some(ChessPiece(King, c)) {
      assert p.row == 0 || p.row == 7;
      assert BackRank(p.col) == King;
    }
  }

  /** The observable state of a `ChessGameState`. */
  datatype GameView = GameView(
    cells: Grid,
    selected: Option<Position>,
    moves: seq<Position>,
    whiteToMove: bool,
    gameOver: bool,
    winner: Option<ChessColor>,
    captured: seq<ChessPiece>,
    version: int32)

  /** The square holds a piece of the side to move. */
  predicate OwnsSquare(v: GameView, p: Position)
    requires IsGrid(v.cells)
  {
    OnBoard(p) && At(v.cells, p).Some? && ToBoolean(At(v.cells, p).value.color) == v.whiteToMove
  }

  /**
   * The object invariant: an 8x8 board; nothing selected means no moves
   * offered; a selection is a square holding a piece of the side to move;
   * offered moves are on the board; no game ever ends (nothing sets
   * `gameOver` or `winner`).
   */
  predicate Inv(v: GameView)
  {
    IsGrid(v.cells) &&
    (v.selected.None? ==> v.moves == []) &&
    (v.selected.Some? ==> OwnsSquare(v, v.selected.value)) &&
    (forall q :: q in v.moves ==> OnBoard(q)) &&
    !v.gameOver && v.winner.None?
  }

  /** The offered moves are exactly the generator's output for the selected square on the current board. */
  predicate Synced(v: GameView)
    requires Inv(v)
  {
    v.selected.Some? ==> Targets(v.cells, v.selected.value) == Ok(v.moves)
  }

  /**
   * `movePiece`: on an empty source nothing changes; otherwise the piece moves
   * to `to`, `from` becomes empty, the prior occupant of `to` (if any) is
   * appended to the captured pieces, and the version goes up by one.
   */
  function Move(v: GameView, from: Position, to: Position): (w: GameView)
    requires IsGrid(v.cells) && OnBoard(from) && OnBoard(to)
    ensures IsGrid(w.cells)
    ensures At(v.cells, from).None? ==> w == v
    ensures At(v.cells, from).Some? && from != to ==>
              At(w.cells, to) == At(v.cells, from) && At(w.cells, from).None? &&
              (forall q :: OnBoard(q) && q != from && q != to ==> At(w.cells, q) == At(v.cells, q)) &&
              w.captured == v.captured + (if At(v.cells, to).Some? then [At(v.cells, to).value] else []) &&
              w.version == NextVersion(v.version) &&
              w == v.(cells := w.cells, captured := w.captured, version := w.version)
    ensures At(v.cells, from).Some? && from == to ==>
              At(w.cells, from).None? &&
              (forall q :: OnBoard(q) && q != from ==> At(w.cells, q) == At(v.cells, q)) &&
              w.captured == v.captured + [At(v.cells, from).value] &&
              w.version == NextVersion(v.version) &&
              w == v.(cells := w.cells, captured := w.captured, version := w.version)
  {
    match At(v.cells, from)
    case None => v
    case Some(piece) =>
      var captured := At(v.cells, to);
      v.(cells := Put(Put(v.cells, to, Some(piece)), from, None),
         captured := if captured.Some? then v.captured + [captured.value] else v.captured,
         version := NextVersion(v.version))
  }

  /** How a call to `selectSquare` ended. */
  datatype Outcome = Completed | Crashed(fault: Fault)

  /**
   * Select `pos` and compute its moves. If the generator fails, the selection
   * has already been recorded and the offered moves are left as they were.
   */
  function Choose(v: GameView, pos: Position): (GameView, Outcome)
    requires IsGrid(v.cells) && OnBoard(pos)
  {
    match Targets(v.cells, pos)
    case Ok(ms) => (v.(selected := Some(pos), moves := ms), Completed)
    case Err(f) => (v.(selected := Some(pos)), Crashed(f))
  }

  /** Clear the selection and the offered moves. */
  function Deselect(v: GameView): GameView
  {
    v.(selected := None, moves := [])
  }

  /** The move branch of `selectSquare` applies: a selection exists, `pos` is another square and is offered. */
  predicate MovesTo(v: GameView, pos: Position)
  {
    v.selected.Some? && v.selected != Some(pos) && pos in v.moves
  }

  /**
   * `selectSquare`: with nothing selected, select a piece of the side to move
   * (anything else is ignored); with a selection, clicking it again deselects,
   * clicking an offered square moves there and passes the turn, clicking
   * another own piece reselects, and anything else deselects.
   */
  function Select(v: GameView, pos: Position): (GameView, Outcome)
    requires Inv(v) && OnBoard(pos)
  {
    if v.selected.None? then
      if OwnsSquare(v, pos) then Choose(v, pos) else (v, Completed)
    else if v.selected == Some(pos) then
      (Deselect(v), Completed)
    else if pos in v.moves then
      var w := Move(v, v.selected.value, pos);
      (Deselect(w).(whiteToMove := !v.whiteToMove), Completed)
    else if OwnsSquare(v, pos) then
      Choose(v, pos)
    else
      (Deselect(v), Completed)
  }

  /** `resetGame`: the start position, White to move, nothing selected or captured, version plus one. */
  function Reset(v: GameView): GameView
  {
    GameView(InitialGrid(), None, [], true, false, None, [], NextVersion(v.version))
  }

  /** `selectSquare` keeps the object invariant, also when the generator fails. */
  lemma SelectKeepsInv(v: GameView, pos: Position)
    requires Inv(v) && OnBoard(pos)
    ensures Inv(Select(v, pos).0)
  {
    if !MovesTo(v, pos) && OwnsSquare(v, pos) && (v.selected.None? || v.selected != Some(pos)) {
      var r := Targets(v.cells, pos);
      if r.Ok? {
        forall q | q in r.value
          ensures OnBoard(q)
        {
          TargetsSound(v.cells, pos, q);
        }
      }
    }
  }

  /**
   * Only the move branch touches the board, the captured pieces, the version
   * and the side to move; every other branch changes at most the selection
   * and the offered moves.
   */
  lemma SelectFrame(v: GameView, pos: Position)
    requires Inv(v) && OnBoard(pos)
    ensures var w := Select(v, pos).0;
            !MovesTo(v, pos) ==> w == v.(selected := w.selected, moves := w.moves)
    ensures var w := Select(v, pos).0;
            MovesTo(v, pos) ==>
              w == Move(v, v.selected.value, pos).(selected := None, moves := [], whiteToMove := !v.whiteToMove)
  {
  }

  /** The generator fails inside `selectSquare` exactly when a pawn on its far rank is being selected. */
  lemma SelectCrashesOnFarRankPawn(v: GameView, pos: Position)
    requires Inv(v) && OnBoard(pos)
    ensures Select(v, pos).1.Crashed? <==>
              !MovesTo(v, pos) && v.selected != Some(pos) && OwnsSquare(v, pos) &&
              At(v.cells, pos).value.kind == Pawn &&
              pos.row == (if v.whiteToMove then 0 else 7)
  {
    TargetsFailOnlyOnFarRank(v.cells, pos);
  }

  /**
   * Unless the generator fails, the offered moves remain the generator's
   * output for the selected square on the current board.
   */
  lemma SelectKeepsSynced(v: GameView, pos: Position)
    requires Inv(v) && Synced(v) && OnBoard(pos)
    requires Select(v, pos).1 == Completed
    ensures Inv(Select(v, pos).0) && Synced(Select(v, pos).0)
  {
    SelectKeepsInv(v, pos);
  }

  /**
   * A move made by `selectSquare` on a synced state is one the generator
   * offered for the selected piece: it leaves the piece's square for an
   * on-board square holding no piece of the mover's colour.
   */
  lemma SelectMovesOwnPieceToTarget(v: GameView, pos: Position)
    requires Inv(v) && Synced(v) && OnBoard(pos) && MovesTo(v, pos)
    ensures var from := v.selected.value;
            var piece := At(v.cells, from).value;
            ToBoolean(piece.color) == v.whiteToMove &&
            pos in Targets(v.cells, from).value && pos != from &&
            !Holds(v.cells, piece.color, pos)
  {
    TargetsSound(v.cells, v.selected.value, pos);
  }

  /** After a move the other side is to move, and the moved piece belongs to the side that just moved. */
  lemma SelectPassesTurn(v: GameView, pos: Position)
    requires Inv(v) && Synced(v) && OnBoard(pos) && MovesTo(v, pos)
    ensures var w := Select(v, pos).0;
            w.whiteToMove == !v.whiteToMove && w.selected.None? && w.moves == [] &&
            At(w.cells, pos) == At(v.cells, v.selected.value) && At(w.cells, v.selected.value).None? &&
            ToBoolean(At(w.cells, pos).value.color) != w.whiteToMove &&
            w.version == NextVersion(v.version)
  {
    SelectMovesOwnPieceToTarget(v, pos);
  }

  /**
   * The generator's fault is reachable through a move the generator itself
   * offers: a White pawn on row 1 in front of an empty square may step to row
   * 0, and from there its moves can no longer be computed.
   */
  lemma FarRankFaultReachable(g: Grid, col: int)
    requires IsGrid(g) && 0 <= col < 8
    requires At(g, Position(1, col)) == Some(ChessPiece(Pawn, White)) && Empty(g, Position(0, col))
    ensures Position(0, col) in Targets(g, Position(1, col)).value
    ensures var after := Put(Put(g, Position(0, col), Some(ChessPiece(Pawn, White))), Position(1, col), None);
            Targets(after, Position(0, col)).Err?
  {
    var after := Put(Put(g, Position(0, col), Some(ChessPiece(Pawn, White))), Position(1, col), None);
    assert At(after, Position(0, col)) == Some(ChessPiece(Pawn, White));
  }

  /** `resetGame` establishes the invariant and the synced state from any state. */
  lemma ResetEstablishesInv(v: GameView)
    ensures Inv(Reset(v)) && Synced(Reset(v))
    ensures Reset(v).cells == InitialGrid() && Reset(v).whiteToMove
    ensures Reset(v).version == NextVersion(v.version)
  {
  }
}
