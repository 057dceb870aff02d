/** Squares and the 8x8 grid of optional pieces the engine owns. */
module Board {
  import opened Wrappers
  import opened Pieces

  /** A square as (row, column); row 0 is Black's back rank, row 7 White's. */
  datatype Position = Position(row: int, col: int)

  /** Both coordinates lie in 0..7. */
  predicate OnBoard(p: Position)
  {
    0 <= p.row < 8 && 0 <= p.col < 8
  }

  /** A board cell: a piece or nothing. */
  type Cell = Option<ChessPiece>

  /** Rows of cells; `IsGrid` says the extent is 8x8. */
  type Grid = seq<seq<Cell>>

  predicate IsGrid(g: Grid)
  {
    |g| == 8 && forall r :: 0 <= r < 8 ==> |g[r]| == 8
  }

  /** The cell at an on-board square. */
  function At(g: Grid, p: Position): Cell
    requires IsGrid(g) && OnBoard(p)
  {
    g[p.row][p.col]
  }

  /** The square is on the board and holds no piece. */
  predicate Empty(g: Grid, p: Position)
    requires IsGrid(g)
  {
    OnBoard(p) && At(g, p).None?
  }

  /** The square is on the board and holds a piece of colour `c`. */
  predicate Holds(g: Grid, c: ChessColor, p: Position)
    requires IsGrid(g)
  {
    OnBoard(p) && At(g, p).Some? && At(g, p).value.color == c
  }

  /** The opposing colour. */
  function Opponent(c: ChessColor): (o: ChessColor)
    ensures o != c
  {
    if c == White then Black else White
  }

  /** The grid with one cell replaced; every other cell keeps its content. */
  function Put(g: Grid, p: Position, x: Cell): (h: Grid)
    requires IsGrid(g) && OnBoard(p)
    ensures IsGrid(h)
    ensures forall q :: OnBoard(q) ==> At(h, q) == if q == p then x else At(g, q)
  {
    g[p.row := g[p.row][p.col := x]]
  }

  /** Two grids that agree on every square are the same grid. */
  lemma GridExtensionality(g: Grid, h: Grid)
    requires IsGrid(g) && IsGrid(h)
    requires forall q :: OnBoard(q) ==> At(g, q) == At(h, q)
    ensures g == h
  {
    forall r | 0 <= r < 8
      ensures g[r] == h[r]
    {
      forall c | 0 <= c < 8
        ensures g[r][c] == h[r][c]
      {
        assert At(g, Position(r, c)) == At(h, Position(r, c));
      }
    }
  }
}
