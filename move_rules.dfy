/**
 * Destination squares for the piece on a square, as `calculateValidMoves`
 * computes them: pseudo-legal moves with no check or king-safety filtering.
 * Each generator is a function over the grid whose contract characterises
 * its result; the engine's loops are proved equal to these functions.
 */
module MoveRules {
  import opened Wrappers
  import opened Pieces
  import opened Board

  /** A step (row delta, column delta). */
  datatype Dir = Dir(dr: int, dc: int)

  /** One of the eight king-step directions used by the sliding pieces. */
  predicate IsUnit(d: Dir)
  {
    -1 <= d.dr <= 1 && -1 <= d.dc <= 1 && (d.dr != 0 || d.dc != 0)
  }

  /** A direction a sliding piece moves along. */
  type UnitDir = d: Dir | IsUnit(d) witness Dir(1, 0)

  function Shift(p: Position, d: Dir): Position
  {
    Position(p.row + d.dr, p.col + d.dc)
  }

  /** `k` times a unit delta `x` (one of -1, 0, 1). */
  function Scale(k: int, x: int): int
  {
    if x > 0 then k else if x < 0 then -k else 0
  }

  /** The square `k` steps along the unit direction `d` from `s`. */
  function Walk(s: Position, d: Dir, k: int): Position
  {
    Position(s.row + Scale(k, d.dr), s.col + Scale(k, d.dc))
  }

  /** Distance to the board's edge along `d`, summed over the axes `d` moves on. */
  function EdgeDistance(p: Position, d: Dir): int
  {
    (if d.dr > 0 then 8 - p.row else if d.dr < 0 then p.row + 1 else 0) +
    (if d.dc > 0 then 8 - p.col else if d.dc < 0 then p.col + 1 else 0)
  }

  /** A step along a unit direction from an on-board square brings the edge closer. */
  lemma EdgeDistanceShrinks(p: Position, d: Dir)
    requires OnBoard(p) && IsUnit(d)
    ensures 0 < EdgeDistance(p, d)
    ensures OnBoard(Shift(p, d)) ==> EdgeDistance(Shift(p, d), d) < EdgeDistance(p, d)
  {
  }

  /**
   * The squares a sliding piece of colour `color` reaches along `d`, starting
   * with square `s` (the first square next to the piece): each is on the board
   * and holds no piece of the mover's colour. `RayIsWalk`, `RayPrefixEmpty`
   * and `RayExactly` give the full picture.
   */
  function Ray(g: Grid, color: ChessColor, s: Position, d: Dir): (ray: seq<Position>)
    requires IsGrid(g) && IsUnit(d)
    ensures forall i :: 0 <= i < |ray| ==> OnBoard(ray[i]) && !Holds(g, color, ray[i])
    decreases if OnBoard(s) then EdgeDistance(s, d) else 0
  {
    if !OnBoard(s) then []
    else match At(g, s)
      case None => [s] + Ray(g, color, Shift(s, d), d)
      case Some(target) => if target.color != color then [s] else []
  }

  /** One step of a ray from an on-board square. */
  lemma RayStep(g: Grid, color: ChessColor, s: Position, d: Dir)
    requires IsGrid(g) && IsUnit(d) && OnBoard(s)
    ensures At(g, s).None? ==> Ray(g, color, s, d) == [s] + Ray(g, color, Shift(s, d), d)
    ensures At(g, s).Some? ==> Ray(g, color, s, d) == if At(g, s).value.color != color then [s] else []
  {
  }

  /**
   * Scanning a ray square by square: if `done` is the part of the ray from `s`
   * collected before `here`, one more look at `here` either extends it by
   * `here` and moves on, or finishes it.
   */
  lemma RayScanStep(g: Grid, color: ChessColor, s: Position, here: Position, d: Dir, done: seq<Position>)
    requires IsGrid(g) && IsUnit(d) && OnBoard(here)
    requires done + Ray(g, color, here, d) == Ray(g, color, s, d)
    ensures At(g, here).None? ==> (done + [here]) + Ray(g, color, Shift(here, d), d) == Ray(g, color, s, d)
    ensures At(g, here).Some? && At(g, here).value.color != color ==> done + [here] == Ray(g, color, s, d)
    ensures At(g, here).Some? && At(g, here).value.color == color ==> done == Ray(g, color, s, d)
  {
    RayStep(g, color, here, d);
    if At(g, here).None? {
      assert (done + [here]) + Ray(g, color, Shift(here, d), d) == done + ([here] + Ray(g, color, Shift(here, d), d));
    }
  }

  /** The i-th square of a ray is `i` steps beyond its first square `s`. */
  lemma {:induction false} RayIsWalk(g: Grid, color: ChessColor, s: Position, d: Dir)
    requires IsGrid(g) && IsUnit(d)
    ensures forall i :: 0 <= i < |Ray(g, color, s, d)| ==> Ray(g, color, s, d)[i] == Walk(s, d, i)
    decreases if OnBoard(s) then EdgeDistance(s, d) else 0
  {
    var ray := Ray(g, color, s, d);
    if OnBoard(s) && At(g, s).None? {
      var t := Shift(s, d);
      var rest := Ray(g, color, t, d);
      RayIsWalk(g, color, t, d);
      assert ray == [s] + rest;
      forall i | 0 <= i < |ray|
        ensures ray[i] == Walk(s, d, i)
      {
        if i > 0 {
          assert ray[i] == rest[i - 1] == Walk(t, d, i - 1);
        }
      }
    }
  }

  /**
   * Every square of a ray but the last is empty, so nothing beyond the first
   * occupied square is ever included.
   */
  lemma {:induction false} RayPrefixEmpty(g: Grid, color: ChessColor, s: Position, d: Dir)
    requires IsGrid(g) && IsUnit(d)
    ensures forall i :: 0 <= i < |Ray(g, color, s, d)| - 1 ==> Empty(g, Ray(g, color, s, d)[i])
    decreases |Ray(g, color, s, d)|
  {
    var ray := Ray(g, color, s, d);
    if OnBoard(s) && At(g, s).None? {
      var rest := Ray(g, color, Shift(s, d), d);
      RayPrefixEmpty(g, color, Shift(s, d), d);
      assert ray == [s] + rest;
      forall i | 0 <= i < |ray| - 1
        ensures Empty(g, ray[i])
      {
        if i > 0 {
          assert ray[i] == rest[i - 1];
        }
      }
    }
  }

  /**
   * A ray that does not end on an enemy piece stops because the next square
   * along the line is off the board or holds an own piece.
   */
  lemma {:induction false} RayEndsAtStop(g: Grid, color: ChessColor, s: Position, d: Dir)
    requires IsGrid(g) && IsUnit(d)
    ensures Ray(g, color, s, d) == [] ==> !OnBoard(s) || Holds(g, color, s)
    ensures var ray := Ray(g, color, s, d);
            |ray| > 0 && Empty(g, ray[|ray| - 1]) ==>
              !OnBoard(Shift(ray[|ray| - 1], d)) || Holds(g, color, Shift(ray[|ray| - 1], d))
    decreases if OnBoard(s) then EdgeDistance(s, d) else 0
  {
    if OnBoard(s) {
      RayStep(g, color, s, d);
      if At(g, s).None? {
        var t := Shift(s, d);
        var rest := Ray(g, color, t, d);
        EdgeDistanceShrinks(s, d);
        RayEndsAtStop(g, color, t, d);
        assert Ray(g, color, s, d)[|rest|] == if |rest| == 0 then s else rest[|rest| - 1];
      }
    }
  }

  /**
   * The square `k` steps beyond `s` is on the ray exactly when it is on the
   * board, holds no own piece, and every square before it on the line is empty.
   */
  lemma RayExactly(g: Grid, color: ChessColor, s: Position, d: Dir, k: nat)
    requires IsGrid(g) && IsUnit(d)
    ensures Walk(s, d, k) in Ray(g, color, s, d) <==>
              OnBoard(Walk(s, d, k)) && !Holds(g, color, Walk(s, d, k)) &&
              forall j :: 0 <= j < k ==> Empty(g, Walk(s, d, j))
  {
    if Walk(s, d, k) in Ray(g, color, s, d) {
      RayOnlyPastEmptySquares(g, color, s, d, k);
    }
    if OnBoard(Walk(s, d, k)) && !Holds(g, color, Walk(s, d, k)) &&
       forall j :: 0 <= j < k ==> Empty(g, Walk(s, d, j)) {
      RayReachesClearSquare(g, color, s, d, k);
    }
  }

  /** A square on the ray lies past empty squares only. */
  lemma RayOnlyPastEmptySquares(g: Grid, color: ChessColor, s: Position, d: Dir, k: nat)
    requires IsGrid(g) && IsUnit(d) && Walk(s, d, k) in Ray(g, color, s, d)
    ensures forall j :: 0 <= j < k ==> Empty(g, Walk(s, d, j))
  {
    var ray := Ray(g, color, s, d);
    RayIsWalk(g, color, s, d);
    RayPrefixEmpty(g, color, s, d);
    var m :| 0 <= m < |ray| && ray[m] == Walk(s, d, k);
    WalkInjective(s, d, m, k);
    forall j | 0 <= j < k
      ensures Empty(g, Walk(s, d, j))
    {
      assert ray[j] == Walk(s, d, j);
    }
  }

  /** A square on the board, free of own pieces, past empty squares only, is on the ray. */
  lemma RayReachesClearSquare(g: Grid, color: ChessColor, s: Position, d: Dir, k: nat)
    requires IsGrid(g) && IsUnit(d)
    requires OnBoard(Walk(s, d, k)) && !Holds(g, color, Walk(s, d, k))
    requires forall j :: 0 <= j < k ==> Empty(g, Walk(s, d, j))
    ensures Walk(s, d, k) in Ray(g, color, s, d)
  {
    var ray := Ray(g, color, s, d);
    RayIsWalk(g, color, s, d);
    RayNextStops(g, color, s, d);
    assert k < |ray|;
    assert ray[k] == Walk(s, d, k);
  }

  /** The square just past a ray that ends on an empty square is off the board or holds an own piece. */
  lemma RayNextStops(g: Grid, color: ChessColor, s: Position, d: Dir)
    requires IsGrid(g) && IsUnit(d)
    ensures var ray := Ray(g, color, s, d);
            var next := Walk(s, d, |ray|);
            (|ray| == 0 || Empty(g, Walk(s, d, |ray| - 1))) ==> !OnBoard(next) || Holds(g, color, next)
  {
    var ray := Ray(g, color, s, d);
    RayIsWalk(g, color, s, d);
    RayEndsAtStop(g, color, s, d);
    WalkStep(s, d, |ray| - 1);
    assert Walk(s, d, 0) == s;
  }

  /** One more step beyond the square `k` steps along the line. */
  lemma WalkStep(s: Position, d: Dir, k: int)
    requires IsUnit(d)
    ensures Shift(Walk(s, d, k), d) == Walk(s, d, k + 1)
  {
  }

  /** Distinct step counts along a unit direction reach distinct squares. */
  lemma WalkInjective(s: Position, d: Dir, m: int, k: int)
    requires IsUnit(d) && Walk(s, d, m) == Walk(s, d, k)
    ensures m == k
  {
  }

  /** Orthogonal directions in the order the engine scans them: up, down, left, right. */
  const RookDirs: seq<UnitDir> := [Dir(-1, 0), Dir(1, 0), Dir(0, -1), Dir(0, 1)]

  /** Diagonal directions in the order the engine scans them. */
  const BishopDirs: seq<UnitDir> := [Dir(-1, -1), Dir(-1, 1), Dir(1, -1), Dir(1, 1)]

  /** The rays from `p` along each of `dirs`, concatenated in order. */
  function Rays(g: Grid, color: ChessColor, p: Position, dirs: seq<UnitDir>): seq<Position>
    requires IsGrid(g)
    decreases |dirs|
  {
    if dirs == [] then []
    else
      var last := dirs[|dirs| - 1];
      Rays(g, color, p, dirs[..|dirs| - 1]) + Ray(g, color, Shift(p, last), last)
  }

  /** A square is among the rays exactly when it is on the ray along one of the directions. */
  lemma {:induction false} RaysMembers(g: Grid, color: ChessColor, p: Position, dirs: seq<UnitDir>, q: Position)
    requires IsGrid(g)
    ensures q in Rays(g, color, p, dirs) <==>
              exists i :: 0 <= i < |dirs| && q in Ray(g, color, Shift(p, dirs[i]), dirs[i])
    decreases |dirs|
  {
    if dirs != [] {
      var init := dirs[..|dirs| - 1];
      RaysMembers(g, color, p, init, q);
      if exists i :: 0 <= i < |dirs| && q in Ray(g, color, Shift(p, dirs[i]), dirs[i]) {
        var i :| 0 <= i < |dirs| && q in Ray(g, color, Shift(p, dirs[i]), dirs[i]);
        if i < |dirs| - 1 {
          assert init[i] == dirs[i];
        }
      }
      if exists i :: 0 <= i < |init| && q in Ray(g, color, Shift(p, init[i]), init[i]) {
        var i :| 0 <= i < |init| && q in Ray(g, color, Shift(p, init[i]), init[i]);
        assert dirs[i] == init[i];
      }
    }
  }

  /**
   * Fixed-offset targets (knight and king): for each offset in order, the
   * square it lands on if that is on the board and holds no own piece.
   */
  function Candidates(g: Grid, color: ChessColor, p: Position, offs: seq<Dir>): seq<Position>
    requires IsGrid(g)
    decreases |offs|
  {
    if offs == [] then []
    else Candidates(g, color, p, offs[..|offs| - 1]) + Landing(g, color, p, offs[|offs| - 1])
  }

  /** Scanning one more offset appends its landing square, if any. */
  lemma CandidatesPrefixStep(g: Grid, color: ChessColor, p: Position, offs: seq<Dir>, k: int)
    requires IsGrid(g) && 0 <= k < |offs|
    ensures Candidates(g, color, p, offs[..k + 1]) == Candidates(g, color, p, offs[..k]) + Landing(g, color, p, offs[k])
  {
    assert offs[..k + 1][..k] == offs[..k];
  }

  /** A fixed-offset target is exactly an offset square that is on the board and holds no own piece. */
  lemma {:induction false} CandidatesMembers(g: Grid, color: ChessColor, p: Position, offs: seq<Dir>, q: Position)
    requires IsGrid(g)
    ensures q in Candidates(g, color, p, offs) <==>
              OnBoard(q) && !Holds(g, color, q) && exists i :: 0 <= i < |offs| && q == Shift(p, offs[i])
    decreases |offs|
  {
    if offs != [] {
      var init := offs[..|offs| - 1];
      CandidatesMembers(g, color, p, init, q);
      if exists i :: 0 <= i < |offs| && q == Shift(p, offs[i]) {
        var i :| 0 <= i < |offs| && q == Shift(p, offs[i]);
        if i < |offs| - 1 {
          assert init[i] == offs[i];
        }
      }
      if exists i :: 0 <= i < |init| && q == Shift(p, init[i]) {
        var i :| 0 <= i < |init| && q == Shift(p, init[i]);
        assert offs[i] == init[i];
      }
    }
  }

  /** The square one offset away, if it is on the board and holds no own piece. */
  function Landing(g: Grid, color: ChessColor, p: Position, o: Dir): seq<Position>
    requires IsGrid(g)
  {
    var q := Shift(p, o);
    if OnBoard(q) && !Holds(g, color, q) then [q] else []
  }

  /** Knight offsets in the engine's order. */
  const KnightJumps: seq<Dir> :=
    [Dir(-2, -1), Dir(-2, 1), Dir(-1, -2), Dir(-1, 2), Dir(1, -2), Dir(1, 2), Dir(2, -1), Dir(2, 1)]

  /** King offsets in the order of the engine's nested loops (row delta outer, centre skipped). */
  const KingSteps: seq<Dir> :=
    [Dir(-1, -1), Dir(-1, 0), Dir(-1, 1), Dir(0, -1), Dir(0, 1), Dir(1, -1), Dir(1, 0), Dir(1, 1)]

  function Abs(x: int): nat
  {
    if x < 0 then -x else x
  }

  /** `q` is a knight's jump away from `p`: (1, 2) or (2, 1) in absolute row and column distance. */
  predicate IsKnightJump(p: Position, q: Position)
  {
    var dr, dc := Abs(q.row - p.row), Abs(q.col - p.col);
    (dr == 1 && dc == 2) || (dr == 2 && dc == 1)
  }

  /** `q` is at Chebyshev distance exactly 1 from `p`. */
  predicate IsKingStep(p: Position, q: Position)
  {
    Abs(q.row - p.row) <= 1 && Abs(q.col - p.col) <= 1 && q != p
  }

  /** The row delta a pawn of colour `c` moves by: White towards row 0, Black towards row 7. */
  function Forward(c: ChessColor): int
  {
    if c == White then -1 else 1
  }

  /** The row from which a pawn of colour `c` may advance two squares. */
  function StartRow(c: ChessColor): int
  {
    if c == White then 6 else 1
  }

  /** The failure of the pawn's diagonal probe on a row outside the board. */
  datatype Fault = CaptureRowOutOfRange(row: int)

  /** The diagonal-forward square in column `col`, if it holds an enemy piece. */
  function PawnCapture(g: Grid, p: Position, color: ChessColor, col: int): seq<Position>
    requires IsGrid(g)
  {
    var q := Position(p.row + Forward(color), col);
    if Holds(g, Opponent(color), q) then [q] else []
  }

  /** The single step and then the double step from the start row, each onto an empty square. */
  function PawnAdvances(g: Grid, p: Position, color: ChessColor): seq<Position>
    requires IsGrid(g)
  {
    var one := Position(p.row + Forward(color), p.col);
    var two := Position(p.row + 2 * Forward(color), p.col);
    (if Empty(g, one) then [one] else [])
    + (if p.row == StartRow(color) && Empty(g, one) && Empty(g, two) then [two] else [])
  }

  /**
   * Pawn targets in the engine's order: single step, double step, capture to
   * the left, capture to the right. The capture probe does not check its row,
   * so a pawn on its far rank makes the generator fail.
   */
  function PawnTargets(g: Grid, p: Position, color: ChessColor): Result<seq<Position>, Fault>
    requires IsGrid(g) && OnBoard(p)
  {
    var row := p.row + Forward(color);
    if !(0 <= row < 8) then Err(CaptureRowOutOfRange(row))
    else
      Ok(PawnAdvances(g, p, color)
         + PawnCapture(g, p, color, p.col - 1)
         + PawnCapture(g, p, color, p.col + 1))
  }

  /**
   * `calculateValidMoves`: the destinations of the piece on `p` (none for an
   * empty square), or the fault of a pawn standing on its far rank.
   */
  function Targets(g: Grid, p: Position): Result<seq<Position>, Fault>
    requires IsGrid(g) && OnBoard(p)
  {
    match At(g, p)
    case None => Ok([])
    case Some(piece) =>
      match piece.kind
      case Pawn => PawnTargets(g, p, piece.color)
      case Rook => Ok(Rays(g, piece.color, p, RookDirs))
      case Knight => Ok(Candidates(g, piece.color, p, KnightJumps))
      case Bishop => Ok(Rays(g, piece.color, p, BishopDirs))
      case Queen => Ok(Rays(g, piece.color, p, RookDirs) + Rays(g, piece.color, p, BishopDirs))
      case King => Ok(Candidates(g, piece.color, p, KingSteps))
  }

  /** The generator fails exactly for a White pawn on row 0 or a Black pawn on row 7. */
  lemma TargetsFailOnlyOnFarRank(g: Grid, p: Position)
    requires IsGrid(g) && OnBoard(p)
    ensures Targets(g, p).Err? <==>
              At(g, p).Some? && At(g, p).value.kind == Pawn &&
              p.row == (if At(g, p).value.color == White then 0 else 7)
  {
  }

  /** Every square on a ray is on the board and holds no piece of the mover's colour. */
  lemma RaysSound(g: Grid, color: ChessColor, p: Position, dirs: seq<UnitDir>, q: Position)
    requires IsGrid(g)
    requires q in Rays(g, color, p, dirs)
    ensures OnBoard(q) && !Holds(g, color, q)
  {
    RaysMembers(g, color, p, dirs, q);
    var i :| 0 <= i < |dirs| && q in Ray(g, color, Shift(p, dirs[i]), dirs[i]);
    var ray := Ray(g, color, Shift(p, dirs[i]), dirs[i]);
    var k :| 0 <= k < |ray| && ray[k] == q;
  }

  /** The same for the queen's orthogonal rays followed by its diagonal rays. */
  lemma QueenRaysSound(g: Grid, color: ChessColor, p: Position, q: Position)
    requires IsGrid(g)
    requires q in Rays(g, color, p, RookDirs) + Rays(g, color, p, BishopDirs)
    ensures OnBoard(q) && !Holds(g, color, q)
  {
    if q in Rays(g, color, p, RookDirs) {
      RaysSound(g, color, p, RookDirs, q);
    } else {
      RaysSound(g, color, p, BishopDirs, q);
    }
  }

  /**
   * Every destination is on the board, differs from the piece's square and
   * holds no piece of the mover's colour: captures land on enemy pieces only.
   */
  lemma TargetsSound(g: Grid, p: Position, q: Position)
    requires IsGrid(g) && OnBoard(p) && Targets(g, p).Ok? && q in Targets(g, p).value
    ensures At(g, p).Some?
    ensures OnBoard(q) && q != p && !Holds(g, At(g, p).value.color, q)
  {
    var piece := At(g, p).value;
    var c := piece.color;
    match piece.kind
    case Pawn =>
      PawnTargetsExactly(g, p, c, q);
    case Rook =>
      RaysSound(g, c, p, RookDirs, q);
    case Knight =>
      CandidatesMembers(g, c, p, KnightJumps, q);
    case Bishop =>
      RaysSound(g, c, p, BishopDirs, q);
    case Queen =>
      QueenRaysSound(g, c, p, q);
    case King =>
      CandidatesMembers(g, c, p, KingSteps, q);
  }

  /**
   * A rook (or bishop) of colour `c` put on a square held by colour `c` reaches
   * exactly the orthogonal (or diagonal) rays of that square.
   */
  lemma SameColourRookRays(g: Grid, p: Position, c: ChessColor, t: PieceType)
    requires IsGrid(g) && OnBoard(p) && Holds(g, c, p) && (t == Rook || t == Bishop)
    ensures Targets(Put(g, p, Some(ChessPiece(t, c))), p) ==
              Ok(Rays(g, c, p, if t == Rook then RookDirs else BishopDirs))
  {
    var h := Put(g, p, Some(ChessPiece(t, c)));
    assert At(h, p) == Some(ChessPiece(t, c));
    RaysIgnoreOrigin(g, h, c, p, if t == Rook then RookDirs else BishopDirs);
  }

  /** A queen reaches exactly the squares a rook or a bishop of its colour on its square would reach. */
  lemma QueenIsRookAndBishop(g: Grid, p: Position, q: Position)
    requires IsGrid(g) && OnBoard(p) && At(g, p).Some? && At(g, p).value.kind == Queen
    ensures q in Targets(g, p).value <==>
              q in Targets(Put(g, p, Some(ChessPiece(Rook, At(g, p).value.color))), p).value ||
              q in Targets(Put(g, p, Some(ChessPiece(Bishop, At(g, p).value.color))), p).value
  {
    var c := At(g, p).value.color;
    SameColourRookRays(g, p, c, Rook);
    SameColourRookRays(g, p, c, Bishop);
  }

  /** Rays depend only on the colour at the origin, not on which piece stands there. */
  lemma RaysIgnoreOrigin(g: Grid, h: Grid, color: ChessColor, p: Position, dirs: seq<UnitDir>)
    requires IsGrid(g) && IsGrid(h) && OnBoard(p)
    requires Holds(g, color, p) && Holds(h, color, p)
    requires forall q :: OnBoard(q) && q != p ==> At(g, q) == At(h, q)
    ensures Rays(g, color, p, dirs) == Rays(h, color, p, dirs)
    decreases |dirs|
  {
    if dirs != [] {
      RaysIgnoreOrigin(g, h, color, p, dirs[..|dirs| - 1]);
      var last := dirs[|dirs| - 1];
      RayIgnoresOrigin(g, h, color, p, Shift(p, last), last);
    }
  }

  /** A single ray is the same whichever piece of the mover's colour stands on the origin. */
  lemma {:induction false} RayIgnoresOrigin(g: Grid, h: Grid, color: ChessColor, p: Position, s: Position, d: Dir)
    requires IsGrid(g) && IsGrid(h) && OnBoard(p) && IsUnit(d)
    requires Holds(g, color, p) && Holds(h, color, p)
    requires forall q :: OnBoard(q) && q != p ==> At(g, q) == At(h, q)
    ensures Ray(g, color, s, d) == Ray(h, color, s, d)
    decreases if OnBoard(s) then EdgeDistance(s, d) else 0
  {
    if OnBoard(s) && At(g, s).None? {
      RayIgnoresOrigin(g, h, color, p, Shift(s, d), d);
    }
  }

  /** Knight destinations: exactly the on-board knight jumps not holding an own piece. */
  lemma KnightTargets(g: Grid, color: ChessColor, p: Position, q: Position)
    requires IsGrid(g)
    ensures q in Candidates(g, color, p, KnightJumps) <==>
              OnBoard(q) && !Holds(g, color, q) && IsKnightJump(p, q)
  {
    CandidatesMembers(g, color, p, KnightJumps, q);
    if IsKnightJump(p, q) {
      var d := Dir(q.row - p.row, q.col - p.col);
      assert q == Shift(p, d);
      assert d in KnightJumps;
    }
  }

  /** King destinations: exactly the on-board neighbours not holding an own piece. */
  lemma KingTargets(g: Grid, color: ChessColor, p: Position, q: Position)
    requires IsGrid(g)
    ensures q in Candidates(g, color, p, KingSteps) <==>
              OnBoard(q) && !Holds(g, color, q) && IsKingStep(p, q)
  {
    CandidatesMembers(g, color, p, KingSteps, q);
    if IsKingStep(p, q) {
      var d := Dir(q.row - p.row, q.col - p.col);
      assert q == Shift(p, d);
      assert -1 <= d.dr <= 1 && -1 <= d.dc <= 1 && d != Dir(0, 0);
      assert d in KingSteps by {
        if d.dr == -1 {
          assert d == KingSteps[d.dc + 1];
        } else if d.dr == 0 {
          assert d == KingSteps[if d.dc < 0 then 3 else 4];
        } else {
          assert d == KingSteps[d.dc + 6];
        }
      }
    }
  }

  /**
   * Pawn destinations: the square ahead if empty; two squares ahead from the
   * start row if both are empty; a diagonal-forward square only if it holds an
   * enemy piece.
   */
  lemma PawnTargetsExactly(g: Grid, p: Position, color: ChessColor, q: Position)
    requires IsGrid(g) && OnBoard(p) && PawnTargets(g, p, color).Ok?
    ensures q in PawnTargets(g, p, color).value <==>
              (q == Position(p.row + Forward(color), p.col) && Empty(g, q)) ||
              (p.row == StartRow(color) && q == Position(p.row + 2 * Forward(color), p.col) &&
               Empty(g, Position(p.row + Forward(color), p.col)) && Empty(g, q)) ||
              (q.row == p.row + Forward(color) && Abs(q.col - p.col) == 1 &&
               Holds(g, Opponent(color), q))
  {
  }
}
