/** The scene's rules for the board as a value: where a shape fits, what committing it does, which lines are
    full and what clearing them leaves (the `GameScene` grid operations). */
module BoardRules {
  import opened BoardGrid

  /** The scene's placement test: every shape cell equal to 1, put at origin (ox, oy), lands on a free cell. */
  ghost predicate Fits(g: Grid, m: Matrix, ox: int, oy: int)
  {
    forall j, i :: 0 <= j < |m| && 0 <= i < |m[j]| && m[j][i] == 1 ==> FreeCell(g, ox + i, oy + j)
  }

  /** The shape fits at some origin of the board. */
  ghost predicate HasMove(g: Grid, m: Matrix)
  {
    exists y, x :: 0 <= y < 8 && 0 <= x < 8 && Fits(g, m, x, y)
  }

  /** Board cell (x, y) is covered by a 1 of the shape put at (ox, oy). */
  predicate Covered(m: Matrix, ox: int, oy: int, x: int, y: int)
  {
    0 <= y - oy < |m| && 0 <= x - ox < |m[y - oy]| && m[y - oy][x - ox] == 1
  }

  /** The board after the shape is written at (ox, oy): covered cells hold 1, all others are as before. */
  ghost function Committed(g: Grid, m: Matrix, ox: int, oy: int): Grid
  {
    seq(8, y requires 0 <= y < 8 => seq(8, x requires 0 <= x < 8 => if Covered(m, ox, oy, x, y) then 1 else g[y][x]))
  }

  /** After a commit, every occupied cell of the shape is filled, filled cells stay filled, and the same
      shape no longer fits at the same origin. */
  lemma CommitFills(g: Grid, m: Matrix, ox: int, oy: int)
    requires Fits(g, m, ox, oy)
    ensures forall j, i :: 0 <= j < |m| && 0 <= i < |m[j]| && m[j][i] == 1 ==>
      InBounds(ox + i, oy + j) && Committed(g, m, ox, oy)[oy + j][ox + i] == 1
    ensures forall y, x :: 0 <= y < 8 && 0 <= x < 8 && g[y][x] != 0 ==> Committed(g, m, ox, oy)[y][x] != 0
    ensures (exists j, i :: 0 <= j < |m| && 0 <= i < |m[j]| && m[j][i] == 1) ==> !Fits(Committed(g, m, ox, oy), m, ox, oy)
  {
    forall j, i | 0 <= j < |m| && 0 <= i < |m[j]| && m[j][i] == 1
      ensures InBounds(ox + i, oy + j) && Committed(g, m, ox, oy)[oy + j][ox + i] == 1
    {
      assert FreeCell(g, ox + i, oy + j);
      assert Covered(m, ox, oy, ox + i, oy + j);
    }
  }

  // ---------------------------------------------------------------------------------------------
  // Full lines.

  ghost predicate FullRow(g: Grid, y: int)
    requires 0 <= y < 8
  {
    forall x :: 0 <= x < 8 ==> g[y][x] != 0
  }

  ghost predicate FullCol(g: Grid, x: int)
    requires 0 <= x < 8
  {
    forall y :: 0 <= y < 8 ==> g[y][x] != 0
  }

  /** The full rows among 0 .. n-1, in increasing order (the scene's `rowsToClear`). */
  ghost function FullRowsBelow(g: Grid, n: int): seq<int>
    requires 0 <= n <= 8
  {
    if n == 0 then [] else FullRowsBelow(g, n - 1) + (if FullRow(g, n - 1) then [n - 1] else [])
  }

  /** The full columns among 0 .. n-1, in increasing order (the scene's `colsToClear`). */
  ghost function FullColsBelow(g: Grid, n: int): seq<int>
    requires 0 <= n <= 8
  {
    if n == 0 then [] else FullColsBelow(g, n - 1) + (if FullCol(g, n - 1) then [n - 1] else [])
  }

  /** Full rows plus full columns; a cell on a full row and a full column counts towards both. */
  ghost function LineCount(g: Grid): int
  {
    |FullRowsBelow(g, 8)| + |FullColsBelow(g, 8)|
  }

  /** The board after clearing: every cell on a full row or a full column is 0, all others are as before. */
  ghost function Cleared(g: Grid): Grid
  {
    seq(8, y requires 0 <= y < 8 => seq(8, x requires 0 <= x < 8 => if FullRow(g, y) || FullCol(g, x) then 0 else g[y][x]))
  }

  /** The row list holds exactly the full rows below n, each once. */
  lemma {:induction false} FullRowsBelowSpec(g: Grid, n: int)
    requires 0 <= n <= 8
    ensures forall y :: y in FullRowsBelow(g, n) <==> 0 <= y < n && FullRow(g, y)
    ensures |FullRowsBelow(g, n)| <= n
    ensures forall i, j :: 0 <= i < j < |FullRowsBelow(g, n)| ==> FullRowsBelow(g, n)[i] < FullRowsBelow(g, n)[j]
  {
    if n > 0 {
      FullRowsBelowSpec(g, n - 1);
      var before := FullRowsBelow(g, n - 1);
      assert forall i :: 0 <= i < |before| ==> before[i] in before;
    }
  }

  /** The column list holds exactly the full columns below n, each once. */
  lemma {:induction false} FullColsBelowSpec(g: Grid, n: int)
    requires 0 <= n <= 8
    ensures forall x :: x in FullColsBelow(g, n) <==> 0 <= x < n && FullCol(g, x)
    ensures |FullColsBelow(g, n)| <= n
    ensures forall i, j :: 0 <= i < j < |FullColsBelow(g, n)| ==> FullColsBelow(g, n)[i] < FullColsBelow(g, n)[j]
  {
    if n > 0 {
      FullColsBelowSpec(g, n - 1);
      var before := FullColsBelow(g, n - 1);
      assert forall i :: 0 <= i < |before| ==> before[i] in before;
    }
  }

  /** At most 16 lines clear at once; none clear exactly when no row and no column is full, and then the
      board is left as it was. */
  lemma LineCountBounds(g: Grid)
    ensures 0 <= LineCount(g) <= 16
    ensures LineCount(g) == 0 <==> (forall y :: 0 <= y < 8 ==> !FullRow(g, y)) && (forall x :: 0 <= x < 8 ==> !FullCol(g, x))
    ensures LineCount(g) == 0 ==> Cleared(g) == g
  {
    FullRowsBelowSpec(g, 8);
    FullColsBelowSpec(g, 8);
    if LineCount(g) == 0 {
      assert FullRowsBelow(g, 8) == [] && FullColsBelow(g, 8) == [];
      GridsEqual(Cleared(g), g);
    } else if |FullRowsBelow(g, 8)| > 0 {
      assert FullRowsBelow(g, 8)[0] in FullRowsBelow(g, 8);
    } else {
      assert FullColsBelow(g, 8)[0] in FullColsBelow(g, 8);
    }
  }

  /** Clearing leaves no full line behind, so clearing again changes nothing. */
  lemma ClearedHasNoFullLine(g: Grid)
    ensures forall y :: 0 <= y < 8 ==> !FullRow(Cleared(g), y)
    ensures forall x :: 0 <= x < 8 ==> !FullCol(Cleared(g), x)
    ensures LineCount(Cleared(g)) == 0
    ensures Cleared(Cleared(g)) == Cleared(g)
  {
    var c := Cleared(g);
    forall y | 0 <= y < 8
      ensures !FullRow(c, y)
    {
      if FullRow(g, y) {
        assert c[y][0] == 0;
      } else {
        var x :| 0 <= x < 8 && g[y][x] == 0;
        assert c[y][x] == 0;
      }
    }
    forall x | 0 <= x < 8
      ensures !FullCol(c, x)
    {
      if FullCol(g, x) {
        assert c[0][x] == 0;
      } else {
        var y :| 0 <= y < 8 && g[y][x] == 0;
        assert c[y][x] == 0;
      }
    }
    LineCountBounds(c);
  }
}
