/** The editor's board: a fixed 20 by 20 array of cell kinds, addressed by
    (row, column) coordinates, with the four orthogonal moves. */
module Board {
  import opened Base

  /** Number of rows and of columns (the app's `grid_size`). */
  const Size: int := 20

  /** The six tags a cell can carry; the source spells them as strings. */
  datatype Cell = Empty | Start | End | Obstacle | TeleportIn | TeleportOut

  /** A coordinate; moves may leave the board, so components are unbounded. */
  datatype Coord = Coord(row: int, col: int)

  type Grid = seq<seq<Cell>>

  /** The grid has Size rows of Size cells each. */
  predicate WellFormed(g: Grid) {
    |g| == Size && forall r :: 0 <= r < Size ==> |g[r]| == Size
  }

  predicate InBounds(p: Coord) {
    0 <= p.row < Size && 0 <= p.col < Size
  }

  function At(g: Grid, p: Coord): Cell
    requires WellFormed(g) && InBounds(p)
  {
    g[p.row][p.col]
  }

  /** The grid with the cell at p replaced by v. */
  function WithCell(g: Grid, p: Coord, v: Cell): (r: Grid)
    requires WellFormed(g) && InBounds(p)
    ensures WellFormed(r)
    ensures At(r, p) == v
    ensures forall q :: InBounds(q) && q != p ==> At(r, q) == At(g, q)
  {
    g[p.row := g[p.row][p.col := v]]
  }

  /** The all-empty board the app starts from and returns to on clearing. */
  function EmptyGrid(): (g: Grid)
    ensures WellFormed(g)
    ensures forall q :: InBounds(q) ==> At(g, q) == Empty
  {
    seq(Size, _ => seq(Size, _ => Empty))
  }

  /** A move lands on a cell that can be occupied: on the board and not an obstacle. */
  predicate Passable(g: Grid, n: Coord)
    requires WellFormed(g)
  {
    InBounds(n) && At(g, n) != Obstacle
  }

  /** The four orthogonal neighbours, in the order up, down, left, right. */
  function Neighbors(p: Coord): seq<Coord> {
    [Coord(p.row - 1, p.col), Coord(p.row + 1, p.col),
     Coord(p.row, p.col - 1), Coord(p.row, p.col + 1)]
  }

  function Abs(x: int): nat {
    if x < 0 then -x else x
  }

  /** Cells at Manhattan distance one. */
  predicate Adjacent(p: Coord, q: Coord) {
    Abs(p.row - q.row) + Abs(p.col - q.col) == 1
  }

  /** The four moves reach exactly the cells at Manhattan distance one. */
  lemma NeighborsAreAdjacent(p: Coord, q: Coord)
    ensures q in Neighbors(p) <==> Adjacent(p, q)
  {
  }

  /** Every coordinate of the board. */
  function Cells(): set<Coord> {
    set r: int, c: int | 0 <= r < Size && 0 <= c < Size :: Coord(r, c)
  }

  lemma InCells(p: Coord)
    ensures p in Cells() <==> InBounds(p)
  {
    if InBounds(p) {
      assert p == Coord(p.row, p.col);
    }
  }

  function RowPrefix(r: int, k: nat): set<Coord> {
    set c: int | 0 <= c < k :: Coord(r, c)
  }

  function RowsPrefix(k: nat): set<Coord> {
    set r: int, c: int | 0 <= r < k && 0 <= c < Size :: Coord(r, c)
  }

  lemma {:induction false} RowPrefixCard(r: int, k: nat)
    ensures |RowPrefix(r, k)| == k
    decreases k
  {
    if k > 0 {
      RowPrefixCard(r, k - 1);
      assert RowPrefix(r, k) == RowPrefix(r, k - 1) + {Coord(r, k - 1)};
      assert Coord(r, k - 1) !in RowPrefix(r, k - 1);
    }
  }

  lemma {:induction false} RowsPrefixCard(k: nat)
    ensures |RowsPrefix(k)| == k * Size
    decreases k
  {
    if k > 0 {
      RowsPrefixCard(k - 1);
      RowPrefixCard(k - 1, Size);
      var a := RowsPrefix(k - 1);
      var b := RowPrefix(k - 1, Size);
      assert RowsPrefix(k) == a + b by {
        forall x | x in RowsPrefix(k) ensures x in a + b {
          if x.row < k - 1 {
            assert x == Coord(x.row, x.col);
          } else {
            assert x == Coord(k - 1, x.col);
          }
        }
      }
      assert a * b == {};
    }
  }

  /** The board has Size * Size cells: a bound on how many cells a search can visit. */
  lemma CellsCard()
    ensures |Cells()| == Size * Size
  {
    RowsPrefixCard(Size);
    assert Cells() == RowsPrefix(Size);
  }
}
