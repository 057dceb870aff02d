/**
 * `ChessGameState`: the mutable engine. The board is an 8x8 array owned by
 * the object; the Compose state delegates of `ChessGameState.kt` are plain fields.
 * Each mutating method is proved to follow the corresponding function of
 * `GameSpec`; each move-generating method to return the corresponding
 * function of `MoveRules`.
 */
module GameState {
  import opened Wrappers
  import opened Pieces
  import opened Board
  import opened MoveRules
  import opened GameSpec

  class ChessGameState {
    const board: array2<Cell>
    var selectedPosition: Option<Position>
    var validMoves: seq<Position>
    var whiteToMove: bool
    var gameOver: bool
    var winner: Option<ChessColor>
    var capturedPieces: seq<ChessPiece>
    var boardVersion: int32

    /** The board array has the fixed 8x8 extent. */
    predicate Dims()
    {
      board.Length0 == 8 && board.Length1 == 8
    }

    /** The board's contents as a grid value. */
    ghost function Cells(): (g: Grid)
      reads board
      requires Dims()
      ensures IsGrid(g)
      ensures forall p :: OnBoard(p) ==> At(g, p) == board[p.row, p.col]
    {
      var b := board;
      seq(8, r requires 0 <= r < 8 reads b => seq(8, c requires 0 <= c < 8 reads b => b[r, c]))
    }

    /** The whole observable state as a value. */
    ghost function View(): GameView
      reads this, board
      requires Dims()
    {
      GameView(Cells(), selectedPosition, validMoves, whiteToMove, gameOver, winner, capturedPieces, boardVersion)
    }

    ghost predicate Valid()
      reads this, board
    {
      Dims() && Inv(View())
    }

    /** A new game: the start position, White to move, version 0. */
    constructor ()
      ensures Valid() && Synced(View()) && fresh(board)
      ensures View() == GameView(InitialGrid(), None, [], true, false, None, [], 0)
    {
      board := new Cell[8, 8]((r, c) => None);
      selectedPosition := None;
      validMoves := [];
      whiteToMove := true;
      gameOver := false;
      winner := None;
      capturedPieces := [];
      boardVersion := 0;
      new;
      InitializeBoard();
      GridExtensionality(Cells(), InitialGrid());
    }

    /** Places the 32 pieces of the start position; rows 2 to 5 are not touched. */
    method InitializeBoard()
      requires Dims()
      modifies board
      ensures forall p :: OnBoard(p) ==>
                board[p.row, p.col] == if 2 <= p.row < 6 then old(board[p.row, p.col]) else InitialCell(p.row, p.col)
    {
      // Black pieces
      PlaceBackRank(0, Black);
      PlacePawns(1, Black);
      // White pieces
      PlacePawns(6, White);
      PlaceBackRank(7, White);
    }

    /** Rook, knight, bishop, queen, king, bishop, knight, rook of `color` on `row`. */
    method PlaceBackRank(row: int, color: ChessColor)
      requires Dims() && 0 <= row < 8
      modifies board
      ensures forall p :: OnBoard(p) ==>
                board[p.row, p.col] ==
                  if p.row == row then Some(ChessPiece(BackRank(p.col), color)) else old(board[p.row, p.col])
    {
      board[row, 0] := Some(ChessPiece(Rook, color));
      board[row, 1] := Some(ChessPiece(Knight, color));
      board[row, 2] := Some(ChessPiece(Bishop, color));
      board[row, 3] := Some(ChessPiece(Queen, color));
      board[row, 4] := Some(ChessPiece(King, color));
      board[row, 5] := Some(ChessPiece(Bishop, color));
      board[row, 6] := Some(ChessPiece(Knight, color));
      board[row, 7] := Some(ChessPiece(Rook, color));
    }

    /** A pawn of `color` on every column of `row`. */
    method PlacePawns(row: int, color: ChessColor)
      requires Dims() && 0 <= row < 8
      modifies board
      ensures forall p :: OnBoard(p) ==>
                board[p.row, p.col] ==
                  if p.row == row then Some(ChessPiece(Pawn, color)) else old(board[p.row, p.col])
    {
      for col := 0 to 8
        invariant forall p :: OnBoard(p) ==>
                    board[p.row, p.col] ==
                      if p.row == row && p.col < col then Some(ChessPiece(Pawn, color)) else old(board[p.row, p.col])
      {
        board[row, col] := Some(ChessPiece(Pawn, color));
      }
    }

    /** `getPiece`: the cell at (row, col); callers pass coordinates in 0..7. */
    function GetPiece(row: int, col: int): (cell: Cell)
      reads board
      requires Dims() && 0 <= row < 8 && 0 <= col < 8
      ensures cell == At(Cells(), Position(row, col))
    {
      board[row, col]
    }

    /** `selectSquare`, with the generator's failure reported as `Crashed`. */
    method SelectSquare(pos: Position) returns (outcome: Outcome)
      requires Valid() && OnBoard(pos)
      modifies this, board
      ensures Valid()
      ensures (View(), outcome) == Select(old(View()), pos)
    {
      SelectKeepsInv(View(), pos);
      var piece := GetPiece(pos.row, pos.col);
      outcome := Completed;
      if selectedPosition.None? {
        if piece.Some? && ToBoolean(piece.value.color) == whiteToMove {
          outcome := ChooseSquare(pos);
        }
      } else if selectedPosition == Some(pos) {
        ClearSelection();
      } else if pos in validMoves {
        var from := selectedPosition.value;
        MovePiece(from, pos);
        ClearSelection();
        whiteToMove := !whiteToMove;
      } else if piece.Some? && ToBoolean(piece.value.color) == whiteToMove {
        outcome := ChooseSquare(pos);
      } else {
        ClearSelection();
      }
    }

    /**
     * The selecting branches of `selectSquare`: record `pos` as selected, then
     * offer its moves; a failing generator leaves the old moves in place.
     */
    method ChooseSquare(pos: Position) returns (outcome: Outcome)
      requires Dims() && OnBoard(pos)
      modifies this
      ensures (View(), outcome) == Choose(old(View()), pos)
    {
      selectedPosition := Some(pos);
      var r := CalculateValidMoves(pos);
      if r.Err? {
        return Crashed(r.error);
      }
      validMoves := r.value;
      outcome := Completed;
    }

    /** The deselecting branches of `selectSquare`: no selection and no offered moves. */
    method ClearSelection()
      requires Dims()
      modifies this
      ensures View() == Deselect(old(View()))
    {
      selectedPosition := None;
      validMoves := [];
    }

    /** `movePiece`: relocate the piece on `from` to `to`, recording a capture. */
    method MovePiece(from: Position, to: Position)
      requires Dims() && OnBoard(from) && OnBoard(to)
      modifies this, board
      ensures View() == Move(old(View()), from, to)
    {
      var piece := board[from.row, from.col];
      if piece.None? {
        assert Cells() == old(Cells());
        return;
      }
      var captured := board[to.row, to.col];
      if captured.Some? {
        capturedPieces := capturedPieces + [captured.value];
      }
      board[to.row, to.col] := piece;
      board[from.row, from.col] := None;
      boardVersion := NextVersion(boardVersion);
      GridExtensionality(Cells(), Put(Put(old(Cells()), to, piece), from, None));
    }

    /** `calculateValidMoves`: the destinations of the piece on `pos`. */
    method CalculateValidMoves(pos: Position) returns (r: Result<seq<Position>, Fault>)
      requires Dims() && OnBoard(pos)
      ensures r == Targets(Cells(), pos)
    {
      var cell := GetPiece(pos.row, pos.col);
      if cell.None? {
        return Ok([]);
      }
      var piece := cell.value;
      match piece.kind {
        case Pawn =>
          r := PawnMoves(pos, piece.color);
        case Rook =>
          var moves := SlideMoves(pos, piece.color, RookDirs);
          r := Ok(moves);
        case Knight =>
          var moves := JumpMoves(pos, piece.color, KnightJumps);
          r := Ok(moves);
        case Bishop =>
          var moves := SlideMoves(pos, piece.color, BishopDirs);
          r := Ok(moves);
        case Queen =>
          var straight := SlideMoves(pos, piece.color, RookDirs);
          var diagonal := SlideMoves(pos, piece.color, BishopDirs);
          r := Ok(straight + diagonal);
        case King =>
          var moves := KingMoves(pos, piece.color);
          r := Ok(moves);
      }
    }

    /** One ray: step along `d` while on the board, stopping at the first piece (taken if it is an enemy). */
    method SlideRay(pos: Position, color: ChessColor, d: Dir) returns (moves: seq<Position>)
      requires Dims() && IsUnit(d)
      ensures moves == Ray(Cells(), color, Shift(pos, d), d)
    {
      ghost var g := Cells();
      ghost var start := Shift(pos, d);
      moves := [];
      var r, c := pos.row + d.dr, pos.col + d.dc;
      while 0 <= r < 8 && 0 <= c < 8
        invariant moves + Ray(g, color, Position(r, c), d) == Ray(g, color, start, d)
        decreases |Ray(g, color, Position(r, c), d)|
      {
        var target := GetPiece(r, c);
        RayScanStep(g, color, start, Position(r, c), d, moves);
        if target.None? {
          moves := moves + [Position(r, c)];
        } else {
          if target.value.color != color {
            moves := moves + [Position(r, c)];
          }
          break;
        }
        r, c := r + d.dr, c + d.dc;
      }
    }

    /** The rays along each of `dirs`, in order. */
    method SlideMoves(pos: Position, color: ChessColor, dirs: seq<UnitDir>) returns (moves: seq<Position>)
      requires Dims()
      ensures moves == Rays(Cells(), color, pos, dirs)
    {
      moves := [];
      for i := 0 to |dirs|
        invariant moves == Rays(Cells(), color, pos, dirs[..i])
      {
        var ray := SlideRay(pos, color, dirs[i]);
        assert dirs[..i + 1][..i] == dirs[..i];
        moves := moves + ray;
      }
      assert dirs[..|dirs|] == dirs;
    }

    /** The square one offset away, kept if it is on the board and not held by an own piece. */
    method LandingMove(pos: Position, color: ChessColor, o: Dir) returns (moves: seq<Position>)
      requires Dims()
      ensures moves == Landing(Cells(), color, pos, o)
    {
      moves := [];
      var newRow, newCol := pos.row + o.dr, pos.col + o.dc;
      if 0 <= newRow < 8 && 0 <= newCol < 8 {
        var cell := GetPiece(newRow, newCol);
        if cell.None? || cell.value.color != color {
          moves := [Position(newRow, newCol)];
        }
      }
    }

    /** Knight moves: each offset whose square is on the board and not held by an own piece. */
    method JumpMoves(pos: Position, color: ChessColor, offs: seq<Dir>) returns (moves: seq<Position>)
      requires Dims()
      ensures moves == Candidates(Cells(), color, pos, offs)
    {
      moves := [];
      for i := 0 to |offs|
        invariant moves == Candidates(Cells(), color, pos, offs[..i])
      {
        CandidatesPrefixStep(Cells(), color, pos, offs, i);
        var landing := LandingMove(pos, color, offs[i]);
        moves := moves + landing;
      }
      assert offs[..|offs|] == offs;
    }

    /** King moves: the nested row/column delta loops of `ChessGameState.kt`, skipping (0, 0). */
    method KingMoves(pos: Position, color: ChessColor) returns (moves: seq<Position>)
      requires Dims()
      ensures moves == Candidates(Cells(), color, pos, KingSteps)
    {
      ghost var g := Cells();
      moves := [];
      for dr := -1 to 2
        invariant moves == Candidates(g, color, pos, KingSteps[..KingIndex(dr, -1)])
      {
        for dc := -1 to 2
          invariant moves == Candidates(g, color, pos, KingSteps[..KingIndex(dr, dc)])
        {
          if dr == 0 && dc == 0 {
            continue;
          }
          KingIndexAt(dr, dc);
          CandidatesPrefixStep(g, color, pos, KingSteps, KingIndex(dr, dc));
          var landing := LandingMove(pos, color, Dir(dr, dc));
          moves := moves + landing;
        }
      }
      assert KingSteps[..8] == KingSteps;
    }

    /** Pawn moves; the capture probe fails on a row outside the board. */
    method PawnMoves(pos: Position, color: ChessColor) returns (r: Result<seq<Position>, Fault>)
      requires Dims() && OnBoard(pos)
      ensures r == PawnTargets(Cells(), pos, color)
    {
      var direction := if color == White then -1 else 1;
      var moves := PawnAdvanceMoves(pos, color);
      ghost var advances := moves;
      var cols := [pos.col - 1, pos.col + 1];
      for i := 0 to 2
        invariant !(0 <= pos.row + direction < 8) ==> forall j :: 0 <= j < i ==> !(0 <= cols[j] < 8)
        invariant 0 <= pos.row + direction < 8 ==>
                    moves == advances + (if i >= 1 then PawnCapture(Cells(), pos, color, cols[0]) else [])
                                      + (if i >= 2 then PawnCapture(Cells(), pos, color, cols[1]) else [])
      {
        var col := cols[i];
        if 0 <= col < 8 {
          var captureRow := pos.row + direction;
          if !(0 <= captureRow < 8) {
            return Err(CaptureRowOutOfRange(captureRow));
          }
          var target := GetPiece(captureRow, col);
          if target.Some? && target.value.color != color {
            moves := moves + [Position(captureRow, col)];
          }
        }
      }
      assert 0 <= pos.row + direction < 8;
      r := Ok(moves);
    }

    /** The pawn's forward steps: one square if empty, two from the start row if both are empty. */
    method PawnAdvanceMoves(pos: Position, color: ChessColor) returns (moves: seq<Position>)
      requires Dims() && OnBoard(pos)
      ensures moves == PawnAdvances(Cells(), pos, color)
    {
      var direction := if color == White then -1 else 1;
      var startRow := if color == White then 6 else 1;
      moves := [];
      var nextRow := pos.row + direction;
      if 0 <= nextRow < 8 && GetPiece(nextRow, pos.col).None? {
        moves := moves + [Position(nextRow, pos.col)];
      }
      if pos.row == startRow {
        var twoRow := pos.row + 2 * direction;
        if GetPiece(pos.row + direction, pos.col).None? && GetPiece(twoRow, pos.col).None? {
          moves := moves + [Position(twoRow, pos.col)];
        }
      }
    }

    /** `resetGame`: clear every square, place the start position and reset every field. */
    method ResetGame()
      requires Dims()
      modifies this, board
      ensures Valid() && Synced(View())
      ensures View() == Reset(old(View()))
    {
      for r := 0 to 8
        invariant unchanged(this)
        invariant forall p :: OnBoard(p) ==> board[p.row, p.col] == if p.row < r then None else old(board[p.row, p.col])
      {
        for c := 0 to 8
          invariant unchanged(this)
          invariant forall p :: OnBoard(p) ==>
                      board[p.row, p.col] == if p.row < r || (p.row == r && p.col < c) then None
                                             else old(board[p.row, p.col])
        {
          board[r, c] := None;
        }
      }
      InitializeBoard();
      selectedPosition := None;
      validMoves := [];
      whiteToMove := true;
      gameOver := false;
      winner := None;
      capturedPieces := [];
      boardVersion := NextVersion(boardVersion);
      GridExtensionality(Cells(), InitialGrid());
      ResetEstablishesInv(old(View()));
    }
  }

  /** Index in `KingSteps` of the delta (dr, dc), counting row by row and skipping the centre. */
  function KingIndex(dr: int, dc: int): int
  {
    3 * (dr + 1) + (dc + 1) - (if dr > 0 || (dr == 0 && dc > 0) then 1 else 0)
  }

  lemma KingIndexAt(dr: int, dc: int)
    requires -1 <= dr <= 1 && -1 <= dc <= 1 && (dr != 0 || dc != 0)
    ensures 0 <= KingIndex(dr, dc) < 8 && KingSteps[KingIndex(dr, dc)] == Dir(dr, dc)
    ensures KingIndex(dr, dc + 1) == KingIndex(dr, dc) + 1
  {
  }
}
