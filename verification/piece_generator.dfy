/** Weighted random draw of three distinct pieces, each placeable on the current board (PieceGenerator.js). */
module PieceGenerator {
  import opened BoardGrid
  import opened Catalog

  // ---------------------------------------------------------------------------------------------
  // Placement queries. The generator treats any non-zero shape cell as occupied.

  /** Every non-zero cell of the shape, put at origin (ox, oy), lands on a free board cell. */
  ghost predicate NonzeroFits(g: Grid, m: Matrix, ox: int, oy: int)
  {
    forall j, i :: 0 <= j < |m| && 0 <= i < |m[j]| && m[j][i] != 0 ==> FreeCell(g, ox + i, oy + j)
  }

  /** Scan of one shape row from column i on, stopping at the first cell that is off the board or blocked. */
  function RowPlaceable(g: Grid, row: seq<int>, ox: int, ty: int, i: nat): (r: bool)
    requires i <= |row|
    decreases |row| - i
    ensures r <==> forall k :: i <= k < |row| && row[k] != 0 ==> FreeCell(g, ox + k, ty)
  {
    if i == |row| then true
    else if row[i] != 0 && !FreeCell(g, ox + i, ty) then false
    else RowPlaceable(g, row, ox, ty, i + 1)
  }

  /** Scan of the shape's rows from row j on. */
  function RowsPlaceable(g: Grid, m: Matrix, ox: int, oy: int, j: nat): (r: bool)
    requires j <= |m|
    decreases |m| - j
    ensures r <==> forall jj, i :: j <= jj < |m| && 0 <= i < |m[jj]| && m[jj][i] != 0 ==> FreeCell(g, ox + i, oy + jj)
  {
    if j == |m| then true
    else if !RowPlaceable(g, m[j], ox, oy + j, 0) then false
    else RowsPlaceable(g, m, ox, oy, j + 1)
  }

  /** `_isValidPlacement`: the row-major scan with early return decides NonzeroFits. */
  function IsValidPlacement(g: Grid, m: Matrix, ox: int, oy: int): (r: bool)
    ensures r == NonzeroFits(g, m, ox, oy)
  {
    RowsPlaceable(g, m, ox, oy, 0)
  }

  /** Scan of the origins (x, y) of row y with x from x0 on. */
  function CanPlaceInRow(g: Grid, m: Matrix, y: int, x0: nat): (r: bool)
    requires x0 <= 8
    decreases 8 - x0
    ensures r <==> exists x :: x0 <= x < 8 && NonzeroFits(g, m, x, y)
  {
    if x0 == 8 then false
    else if IsValidPlacement(g, m, x0, y) then true
    else CanPlaceInRow(g, m, y, x0 + 1)
  }

  /** The shape fits at some origin (x, y) of row y with x in [0,8). */
  ghost predicate FitsInRow(g: Grid, m: Matrix, y: int)
  {
    exists x :: 0 <= x < 8 && NonzeroFits(g, m, x, y)
  }

  /** Scan of the origins in rows y0 .. 7. */
  function CanPlaceFrom(g: Grid, m: Matrix, y0: nat): (r: bool)
    requires y0 <= 8
    decreases 8 - y0
    ensures r <==> exists y :: y0 <= y < 8 && FitsInRow(g, m, y)
  {
    if y0 == 8 then false
    else if CanPlaceInRow(g, m, y0, 0) then assert FitsInRow(g, m, y0); true
    else CanPlaceFrom(g, m, y0 + 1)
  }

  /** Scanning row by row, from row 0, covers the same origins as the square [0,8) x [0,8). */
  lemma RowScanCoversSquare(g: Grid, m: Matrix)
    ensures CanPlaceFrom(g, m, 0) <==> exists y, x :: 0 <= y < 8 && 0 <= x < 8 && NonzeroFits(g, m, x, y)
  {
    if CanPlaceFrom(g, m, 0) {
      var y :| 0 <= y < 8 && FitsInRow(g, m, y);
      var x :| 0 <= x < 8 && NonzeroFits(g, m, x, y);
    }
    if y, x :| 0 <= y < 8 && 0 <= x < 8 && NonzeroFits(g, m, x, y) {
      assert FitsInRow(g, m, y);
    }
  }

  /** `_canPlace`: some origin in [0,8) x [0,8) is a valid placement. */
  function CanPlace(g: Grid, m: Matrix): (r: bool)
    ensures r <==> exists y, x :: 0 <= y < 8 && 0 <= x < 8 && NonzeroFits(g, m, x, y)
  {
    RowScanCoversSquare(g, m);
    CanPlaceFrom(g, m, 0)
  }

  /** A shape touching the top and left edges of its box can only fit at an origin on the board. */
  lemma AnchoredOriginOnBoard(g: Grid, m: Matrix, ox: int, oy: int)
    requires Anchored(m)
    requires NonzeroFits(g, m, ox, oy)
    ensures InBounds(ox, oy)
  {
    var i :| 0 <= i < |m[0]| && m[0][i] == 1;
    assert FreeCell(g, ox + i, oy);
    var col := FirstColumn(m);
    var j :| 0 <= j < |col| && col[j] == 1;
    assert FreeCell(g, ox, oy + j);
  }

  /** For an anchored shape the 8x8 origin scan misses no placement: it succeeds iff the shape fits at
      some origin anywhere, on the board or off it. */
  lemma CanPlaceScansEveryOrigin(g: Grid, m: Matrix)
    requires Anchored(m)
    ensures CanPlace(g, m) <==> exists oy: int, ox: int :: NonzeroFits(g, m, ox, oy)
  {
    if oy: int, ox: int :| NonzeroFits(g, m, ox, oy) {
      AnchoredOriginOnBoard(g, m, ox, oy);
    }
  }

  // ---------------------------------------------------------------------------------------------
  // The weighted pool.

  function Repeat(d: PieceDef, n: nat): seq<PieceDef>
  {
    seq(n, _ => d)
  }

  /** Each definition, in order, repeated `weight` times. */
  function Pool(defs: seq<PieceDef>): seq<PieceDef>
    decreases |defs|
  {
    if defs == [] then []
    else Pool(defs[..|defs| - 1]) + Repeat(defs[|defs| - 1], defs[|defs| - 1].weight)
  }

  function TotalWeight(defs: seq<PieceDef>): nat
    decreases |defs|
  {
    if defs == [] then 0 else TotalWeight(defs[..|defs| - 1]) + defs[|defs| - 1].weight
  }

  lemma {:induction false} RepeatCount(d: PieceDef, n: nat, e: PieceDef)
    ensures multiset(Repeat(d, n))[e] == if e == d then n else 0
  {
    if n > 0 {
      RepeatCount(d, n - 1, e);
      assert Repeat(d, n) == Repeat(d, n - 1) + [d];
    }
  }

  /** The pool is as long as the sum of the weights. */
  lemma {:induction false} PoolLength(defs: seq<PieceDef>)
    ensures |Pool(defs)| == TotalWeight(defs)
  {
    if defs != [] {
      PoolLength(defs[..|defs| - 1]);
    }
  }

  /** A piece is in the pool iff it is a definition with a positive weight. */
  lemma {:induction false} PoolMembers(defs: seq<PieceDef>)
    ensures forall p :: p in Pool(defs) <==> p in defs && p.weight > 0
  {
    if defs != [] {
      var init, last := defs[..|defs| - 1], defs[|defs| - 1];
      PoolMembers(init);
      assert defs == init + [last];
      forall p
        ensures p in Pool(defs) <==> p in defs && p.weight > 0
      {
        if p == last && last.weight > 0 {
          assert Repeat(last, last.weight)[0] == p;
        }
      }
    }
  }

  /** With distinct keys, the pool holds each definition exactly `weight` times and nothing else. */
  lemma {:induction false} PoolMultiplicity(defs: seq<PieceDef>, e: PieceDef)
    requires DistinctKeys(defs)
    ensures multiset(Pool(defs))[e] == if e in defs then e.weight else 0
  {
    if defs != [] {
      var init, last := defs[..|defs| - 1], defs[|defs| - 1];
      assert defs == init + [last];
      assert DistinctKeys(init);
      PoolMultiplicity(init, e);
      RepeatCount(last, last.weight, e);
      if e == last {
        assert e !in init;
      }
    }
  }

  /** The catalog's own pool holds each entry exactly `weight` times, nothing else, and is as long as
      the sum of the weights. */
  lemma CatalogPoolMultiplicity(e: PieceDef)
    ensures multiset(Pool(Definitions()))[e] == if e in Definitions() then e.weight else 0
    ensures |Pool(Definitions())| == TotalWeight(Definitions())
  {
    CatalogKeysDistinct();
    PoolMultiplicity(Definitions(), e);
    PoolLength(Definitions());
  }

  // ---------------------------------------------------------------------------------------------
  // Drawing. Math.random is replaced by an injected sequence of pool indices; `Drawn` is the selection
  // that processing a sequence of draws in order yields.

  predicate DrawsInRange(pool: seq<PieceDef>, draws: seq<int>)
  {
    forall k :: 0 <= k < |draws| ==> 0 <= draws[k] < |pool|
  }

  function KeySet(pieces: seq<PieceDef>): set<string>
  {
    set p | p in pieces :: p.key
  }

  /** Appending a piece adds exactly its key. */
  lemma KeySetAppend(pieces: seq<PieceDef>, p: PieceDef)
    ensures KeySet(pieces + [p]) == KeySet(pieces) + {p.key}
  {
    assert forall q :: q in pieces + [p] <==> q in pieces || q == p;
  }

  /** One draw: the piece is kept while fewer than three are selected, its key is new and it can be
      placed somewhere on the board; otherwise the draw is discarded. */
  function Consider(g: Grid, selected: seq<PieceDef>, piece: PieceDef): seq<PieceDef>
  {
    if |selected| < 3 && piece.key !in KeySet(selected) && CanPlace(g, piece.matrix)
    then selected + [piece]
    else selected
  }

  function Drawn(g: Grid, pool: seq<PieceDef>, draws: seq<int>): seq<PieceDef>
    requires DrawsInRange(pool, draws)
    decreases |draws|
  {
    if draws == [] then []
    else Consider(g, Drawn(g, pool, draws[..|draws| - 1]), pool[draws[|draws| - 1]])
  }

  /** At most three pieces, pairwise distinct keys, each one a pool entry that can be placed on g. */
  ghost predicate GoodSelection(g: Grid, pool: seq<PieceDef>, selected: seq<PieceDef>)
  {
    && |selected| <= 3
    && DistinctKeys(selected)
    && forall p :: p in selected ==> p in pool && CanPlace(g, p.matrix)
  }

  /** Whatever the draws, the selection is a good one. */
  lemma {:induction false} DrawnIsGood(g: Grid, pool: seq<PieceDef>, draws: seq<int>)
    requires DrawsInRange(pool, draws)
    ensures GoodSelection(g, pool, Drawn(g, pool, draws))
  {
    if draws != [] {
      var init := draws[..|draws| - 1];
      DrawnIsGood(g, pool, init);
      var before, piece := Drawn(g, pool, init), pool[draws[|draws| - 1]];
      if |before| < 3 && piece.key !in KeySet(before) && CanPlace(g, piece.matrix) {
        assert forall k :: 0 <= k < |before| ==> before[k].key in KeySet(before);
      }
    }
  }

  /** A draw whose key is already selected, or that cannot be placed, or that comes after the third
      piece, leaves the selection as it was; any other draw appends its piece. */
  lemma DrawStep(g: Grid, pool: seq<PieceDef>, draws: seq<int>, d: int)
    requires DrawsInRange(pool, draws) && 0 <= d < |pool|
    ensures DrawsInRange(pool, draws + [d])
    ensures var before, piece := Drawn(g, pool, draws), pool[d];
      Drawn(g, pool, draws + [d])
        == if |before| < 3 && piece.key !in KeySet(before) && CanPlace(g, piece.matrix)
           then before + [piece]
           else before
  {
    assert (draws + [d])[..|draws|] == draws;
  }

  /** Once three pieces are selected, later draws change nothing. */
  lemma {:induction false} DrawnSaturates(g: Grid, pool: seq<PieceDef>, draws: seq<int>, more: seq<int>)
    requires DrawsInRange(pool, draws) && DrawsInRange(pool, more)
    requires |Drawn(g, pool, draws)| == 3
    ensures DrawsInRange(pool, draws + more)
    ensures Drawn(g, pool, draws + more) == Drawn(g, pool, draws)
  {
    if more != [] {
      var init := more[..|more| - 1];
      DrawnSaturates(g, pool, draws, init);
      assert (draws + more)[..|draws + more| - 1] == draws + init;
    } else {
      assert draws + more == draws;
    }
  }

  /** A prefix of the draws that is all of them, or that already selects three pieces, selects what all
      of them select. */
  lemma DrawnStopsEarly(g: Grid, pool: seq<PieceDef>, draws: seq<int>, used: nat)
    requires DrawsInRange(pool, draws) && used <= |draws|
    requires used == |draws| || |Drawn(g, pool, draws[..used])| == 3
    ensures Drawn(g, pool, draws) == Drawn(g, pool, draws[..used])
  {
    if used < |draws| {
      DrawnSaturates(g, pool, draws[..used], draws[used..]);
      assert draws[..used] + draws[used..] == draws;
    } else {
      assert draws[..used] == draws;
    }
  }

  class PieceGenerator {
    /** Every catalog entry, repeated `weight` times. */
    var weightedPieces: seq<PieceDef>

    constructor ()
      ensures weightedPieces == Pool(Definitions())
    {
      var defs := Definitions();
      var pool: seq<PieceDef> := [];
      var n := 0;
      while n < |defs|
        invariant 0 <= n <= |defs|
        invariant pool == Pool(defs[..n])
      {
        var piece := defs[n];
        var i := 0;
        while i < piece.weight
          invariant 0 <= i <= piece.weight
          invariant pool == Pool(defs[..n]) + Repeat(piece, i)
        {
          pool := pool + [piece];
          i := i + 1;
          assert Repeat(piece, i) == Repeat(piece, i - 1) + [piece];
        }
        assert defs[..n + 1][..n] == defs[..n];
        n := n + 1;
      }
      assert defs[..|defs|] == defs;
      weightedPieces := pool;
    }

    /** `generateNewPieces`: draws until three distinct placeable pieces are selected or the draws run out
        (the source keeps drawing forever; there the selection is complete). */
    method GenerateNewPieces(grid: Grid, draws: seq<int>) returns (selectedPieces: seq<PieceDef>, used: nat)
      requires DrawsInRange(weightedPieces, draws)
      ensures used <= |draws|
      ensures selectedPieces == Drawn(grid, weightedPieces, draws[..used])
      ensures selectedPieces == Drawn(grid, weightedPieces, draws)
      ensures |selectedPieces| == 3 || used == |draws|
      ensures used == 0 || |Drawn(grid, weightedPieces, draws[..used - 1])| < 3
      ensures |selectedPieces| <= 3 && DistinctKeys(selectedPieces)
      ensures forall p :: p in selectedPieces ==> p in weightedPieces && CanPlace(grid, p.matrix)
    {
      selectedPieces := [];
      var selectedKeys: set<string> := {};
      used := 0;
      ghost var previous: seq<PieceDef> := [];
      while |selectedPieces| < 3 && used < |draws|
        invariant used <= |draws|
        invariant selectedPieces == Drawn(grid, weightedPieces, draws[..used])
        invariant selectedKeys == KeySet(selectedPieces)
        invariant used == 0 || (previous == Drawn(grid, weightedPieces, draws[..used - 1]) && |previous| < 3)
      {
        previous := selectedPieces;
        var randomIndex := draws[used];
        var piece := weightedPieces[randomIndex];
        assert draws[..used + 1] == draws[..used] + [randomIndex];
        DrawStep(grid, weightedPieces, draws[..used], randomIndex);
        if piece.key !in selectedKeys && CanPlace(grid, piece.matrix) {
          KeySetAppend(selectedPieces, piece);
          selectedPieces := selectedPieces + [piece];
          selectedKeys := selectedKeys + {piece.key};
        }
        used := used + 1;
      }
      DrawnIsGood(grid, weightedPieces, draws[..used]);
      DrawnStopsEarly(grid, weightedPieces, draws, used);
    }
  }
}
