/** The 8x8 playing field as a value, shared by the scene and the piece generator. */
module BoardGrid {

  const GRID_WIDTH: int := 8
  const GRID_HEIGHT: int := 8

  /** A piece shape: rows of cells, non-zero for an occupied cell. Rows are not required to have equal length. */
  type Matrix = seq<seq<int>>

  /** A snapshot of the board: 8 rows of 8 cells, 0 for an empty cell. */
  type Grid = g: seq<seq<int>> | |g| == 8 && forall y :: 0 <= y < |g| ==> |g[y]| == 8
    witness seq(8, _ => seq(8, _ => 0))

  /** The board of a freshly started round. */
  function EmptyGrid(): Grid
  {
    seq(8, _ => seq(8, _ => 0))
  }

  predicate InBounds(x: int, y: int)
  {
    0 <= x < GRID_WIDTH && 0 <= y < GRID_HEIGHT
  }

  /** Cell (x, y) lies on the board and is empty; the bounds are tested before the cell is read. */
  predicate FreeCell(g: Grid, x: int, y: int)
  {
    InBounds(x, y) && g[y][x] == 0
  }

  /** Every cell of the shape is 0 or 1. */
  predicate IsBinary(m: Matrix)
  {
    forall j, i :: 0 <= j < |m| && 0 <= i < |m[j]| ==> m[j][i] == 0 || m[j][i] == 1
  }

  /** Two boards that agree on every cell are equal. */
  lemma GridsEqual(a: Grid, b: Grid)
    requires forall y, x :: 0 <= y < 8 && 0 <= x < 8 ==> a[y][x] == b[y][x]
    ensures a == b
  {
    forall y | 0 <= y < 8
      ensures a[y] == b[y]
    {
      assert forall x :: 0 <= x < 8 ==> a[y][x] == b[y][x];
    }
  }
}
