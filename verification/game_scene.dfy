/** The scene's game logic: the board it mutates, line clearing, game-over detection and the placement step
    (`GameScene`; drawing, input and animation are not part of it). */
module GameScene {
  import opened BoardGrid
  import opened BoardRules
  import opened Catalog
  import PG = PieceGenerator
  import opened Scoring

  /** No piece of the set fits anywhere on the board; true of an empty set. */
  ghost predicate NoMoves(g: Grid, pieces: seq<PieceDef>)
  {
    forall p :: 0 <= p < |pieces| ==> !HasMove(g, pieces[p].matrix)
  }

  /** For 0/1 shapes the scene's test (cells equal to 1) and the generator's (non-zero cells) agree. */
  lemma PlacementTestsAgree(g: Grid, m: Matrix, ox: int, oy: int)
    requires IsBinary(m)
    ensures Fits(g, m, ox, oy) <==> PG.NonzeroFits(g, m, ox, oy)
  {
  }

  /** Every piece of a freshly drawn set fits somewhere on the board it was drawn against, so a complete
      set never leaves the player without a move. */
  lemma FreshSetHasMoves(g: Grid, pool: seq<PieceDef>, draws: seq<int>)
    requires forall p :: p in pool ==> IsBinary(p.matrix)
    requires PG.DrawsInRange(pool, draws)
    ensures forall p :: p in PG.Drawn(g, pool, draws) ==> HasMove(g, p.matrix)
    ensures |PG.Drawn(g, pool, draws)| == 3 ==> !NoMoves(g, PG.Drawn(g, pool, draws))
  {
    var drawn := PG.Drawn(g, pool, draws);
    PG.DrawnIsGood(g, pool, draws);
    forall p | p in drawn
      ensures HasMove(g, p.matrix)
    {
      var y, x :| 0 <= y < 8 && 0 <= x < 8 && PG.NonzeroFits(g, p.matrix, x, y);
      PlacementTestsAgree(g, p.matrix, x, y);
    }
    if |drawn| == 3 {
      assert drawn[0] in drawn;
    }
  }

  /** On a board with a single empty cell, a shape with two different occupied cells fits at no origin. */
  lemma TwoCellShapeStuck(g: Grid, ex: int, ey: int, m: Matrix, j1: int, i1: int, j2: int, i2: int)
    requires forall y, x :: 0 <= y < 8 && 0 <= x < 8 && (y != ey || x != ex) ==> g[y][x] != 0
    requires 0 <= j1 < |m| && 0 <= i1 < |m[j1]| && m[j1][i1] == 1
    requires 0 <= j2 < |m| && 0 <= i2 < |m[j2]| && m[j2][i2] == 1
    requires j1 != j2 || i1 != i2
    ensures forall oy, ox :: !Fits(g, m, ox, oy)
  {
    forall oy, ox
      ensures !Fits(g, m, ox, oy)
    {
      if ox + i1 == ex && oy + j1 == ey {
        assert !FreeCell(g, ox + i2, oy + j2);
      } else {
        assert !FreeCell(g, ox + i1, oy + j1);
      }
    }
  }

  /** On a board with a single empty cell, an offer made only of 2-cell pieces has no move left, while any
      offer that holds the monomino still has one. */
  lemma SingleEmptyCellGameOver(g: Grid, ex: int, ey: int, pieces: seq<PieceDef>)
    requires InBounds(ex, ey) && g[ey][ex] == 0
    requires forall y, x :: 0 <= y < 8 && 0 <= x < 8 && (y != ey || x != ex) ==> g[y][x] != 0
    ensures (forall p :: p in pieces ==> p == DominoH() || p == DominoV()) ==> NoMoves(g, pieces)
    ensures Mono() in pieces ==> !NoMoves(g, pieces)
  {
    TwoCellShapeStuck(g, ex, ey, DominoH().matrix, 0, 0, 0, 1);
    TwoCellShapeStuck(g, ex, ey, DominoV().matrix, 0, 0, 1, 0);
    if forall p :: p in pieces ==> p == DominoH() || p == DominoV() {
      forall k | 0 <= k < |pieces|
        ensures !HasMove(g, pieces[k].matrix)
      {
        assert pieces[k] in pieces;
      }
    }
    if Mono() in pieces {
      var k :| 0 <= k < |pieces| && pieces[k] == Mono();
      assert Fits(g, Mono().matrix, ex, ey);
      assert HasMove(g, pieces[k].matrix);
    }
  }

  /** Every entry of the catalog's weighted pool is well formed. */
  lemma CatalogPoolWellFormed(pool: seq<PieceDef>)
    requires pool == PG.Pool(Definitions())
    ensures forall p :: p in pool ==> WellFormed(p)
  {
    PG.PoolMembers(Definitions());
    CatalogWellFormed();
  }

  /** The cells of an 8 by 8 array as a value; it depends on the array alone, so it is unchanged by
      anything that leaves the array's cells alone. */
  function Snapshot(a: array2<int>): (g: Grid)
    reads a
    requires a.Length0 == 8 && a.Length1 == 8
    ensures forall y, x :: 0 <= y < 8 && 0 <= x < 8 ==> g[y][x] == a[y, x]
  {
    seq(8, y requires 0 <= y < 8 reads a => seq(8, x requires 0 <= x < 8 reads a => a[y, x]))
  }

  class GameScene {
    /** 8 rows of 8 cells, 0 for empty and 1 for filled. */
    const grid: array2<int>
    /** The pieces still on offer, in slot order. */
    var currentPieces: seq<PieceDef>
    /** Never reset: the turn boundary is every multiple of 3. */
    var piecesPlacedThisTurn: int
    const pieceGenerator: PG.PieceGenerator
    const scoringSystem: ScoringSystem

    ghost predicate Valid()
      reads this, grid, pieceGenerator, scoringSystem
    {
      && grid.Length0 == GRID_HEIGHT && grid.Length1 == GRID_WIDTH
      && (forall y, x :: 0 <= y < 8 && 0 <= x < 8 ==> grid[y, x] == 0 || grid[y, x] == 1)
      && (forall p :: p in currentPieces ==> WellFormed(p))
      && (forall p :: p in pieceGenerator.weightedPieces ==> WellFormed(p))
      && scoringSystem.Valid()
    }

    /** The board as a value, which is what the generator is handed. It is `Snapshot(grid)` rather than
        its own definition so that proofs about it depend on the array's cells alone and stay cheap. */
    function Board(): (g: Grid)
      reads this, grid
      requires grid.Length0 == 8 && grid.Length1 == 8
      ensures forall y, x :: 0 <= y < 8 && 0 <= x < 8 ==> g[y][x] == grid[y, x]
    {
      Snapshot(grid)
    }

    /** `init`: an empty board, no pieces, a fresh generator and a fresh scorer. */
    constructor (storedHighScore: int)
      ensures Valid() && fresh(grid) && fresh(scoringSystem)
      ensures pieceGenerator.weightedPieces == PG.Pool(Definitions())
      ensures Board() == EmptyGrid() && currentPieces == [] && piecesPlacedThisTurn == 0
      ensures scoringSystem.score == 0 && scoringSystem.streakMultiplier == 1 && !scoringSystem.lineClearedThisTurn
      ensures scoringSystem.highScore == storedHighScore
    {
      grid := new int[GRID_HEIGHT, GRID_WIDTH]((y, x) => 0);
      currentPieces := [];
      pieceGenerator := new PG.PieceGenerator();
      scoringSystem := new ScoringSystem(storedHighScore);
      piecesPlacedThisTurn := 0;
      new;
      CatalogPoolWellFormed(pieceGenerator.weightedPieces);
      GridsEqual(Board(), EmptyGrid());
    }

    /** `isValidPlacement`: every cell equal to 1 maps to an on-board empty cell. Bounds are tested
        before the grid is read. */
    method IsValidPlacement(pieceMatrix: Matrix, targetGridX: int, targetGridY: int) returns (valid: bool)
      requires grid.Length0 == 8 && grid.Length1 == 8
      ensures valid == Fits(Board(), pieceMatrix, targetGridX, targetGridY)
    {
      var y := 0;
      while y < |pieceMatrix|
        invariant 0 <= y <= |pieceMatrix|
        invariant forall j, i :: 0 <= j < y && 0 <= i < |pieceMatrix[j]| && pieceMatrix[j][i] == 1 ==>
          FreeCell(Board(), targetGridX + i, targetGridY + j)
      {
        var x := 0;
        while x < |pieceMatrix[y]|
          invariant 0 <= x <= |pieceMatrix[y]|
          invariant forall j, i :: 0 <= j < y && 0 <= i < |pieceMatrix[j]| && pieceMatrix[j][i] == 1 ==>
            FreeCell(Board(), targetGridX + i, targetGridY + j)
          invariant forall i :: 0 <= i < x && pieceMatrix[y][i] == 1 ==> FreeCell(Board(), targetGridX + i, targetGridY + y)
        {
          if pieceMatrix[y][x] == 1 {
            var checkX := targetGridX + x;
            var checkY := targetGridY + y;
            if checkX < 0 || checkX >= GRID_WIDTH || checkY < 0 || checkY >= GRID_HEIGHT {
              return false;
            }
            if grid[checkY, checkX] != 0 {
              return false;
            }
          }
          x := x + 1;
        }
        y := y + 1;
      }
      return true;
    }

    /** `commitPieceToGrid`: writes 1 into every cell the piece covers; the caller has validated the
        placement. */
    method CommitPieceToGrid(piece: PieceDef, gridX: int, gridY: int)
      requires Valid()
      requires Fits(Board(), piece.matrix, gridX, gridY)
      modifies grid
      ensures Valid()
      ensures Board() == Committed(old(Board()), piece.matrix, gridX, gridY)
    {
      ghost var g0 := Board();
      var matrix := piece.matrix;
      var y := 0;
      while y < |matrix|
        invariant 0 <= y <= |matrix|
        invariant forall r, c :: 0 <= r < 8 && 0 <= c < 8 ==>
          grid[r, c] == if r - gridY < y && Covered(matrix, gridX, gridY, c, r) then 1 else g0[r][c]
      {
        var x := 0;
        while x < |matrix[y]|
          invariant 0 <= x <= |matrix[y]|
          invariant forall r, c :: 0 <= r < 8 && 0 <= c < 8 ==>
            grid[r, c] == if (r - gridY < y || (r - gridY == y && c - gridX < x)) && Covered(matrix, gridX, gridY, c, r)
                          then 1 else g0[r][c]
        {
          if matrix[y][x] == 1 {
            var finalX := gridX + x;
            var finalY := gridY + y;
            assert FreeCell(g0, finalX, finalY);
            grid[finalY, finalX] := 1;
          }
          x := x + 1;
        }
        y := y + 1;
      }
      GridsEqual(Board(), Committed(g0, matrix, gridX, gridY));
    }

    /** `clearRow`: empties row y. */
    method ClearRow(y: int)
      requires grid.Length0 == 8 && grid.Length1 == 8 && 0 <= y < 8
      modifies grid
      ensures forall r, c :: 0 <= r < 8 && 0 <= c < 8 ==> grid[r, c] == if r == y then 0 else old(grid[r, c])
    {
      var x := 0;
      while x < GRID_WIDTH
        invariant 0 <= x <= 8
        invariant forall r, c :: 0 <= r < 8 && 0 <= c < 8 ==>
          grid[r, c] == if r == y && c < x then 0 else old(grid[r, c])
      {
        grid[y, x] := 0;
        x := x + 1;
      }
    }

    /** `clearCol`: empties column x. */
    method ClearCol(x: int)
      requires grid.Length0 == 8 && grid.Length1 == 8 && 0 <= x < 8
      modifies grid
      ensures forall r, c :: 0 <= r < 8 && 0 <= c < 8 ==> grid[r, c] == if c == x then 0 else old(grid[r, c])
    {
      var y := 0;
      while y < GRID_HEIGHT
        invariant 0 <= y <= 8
        invariant forall r, c :: 0 <= r < 8 && 0 <= c < 8 ==>
          grid[r, c] == if c == x && r < y then 0 else old(grid[r, c])
      {
        grid[y, x] := 0;
        y := y + 1;
      }
    }

    /** The row scan of `clearLines`: the indices of the full rows, in increasing order. */
    method FindFullRows() returns (rowsToClear: seq<int>)
      requires grid.Length0 == 8 && grid.Length1 == 8
      ensures rowsToClear == FullRowsBelow(Board(), 8)
    {
      rowsToClear := [];
      var y := 0;
      while y < GRID_HEIGHT
        invariant 0 <= y <= 8
        invariant rowsToClear == FullRowsBelow(Board(), y)
      {
        var every := true;
        var x := 0;
        while x < GRID_WIDTH && every
          invariant 0 <= x <= 8
          invariant every <==> forall xx :: 0 <= xx < x ==> Board()[y][xx] != 0
        {
          every := grid[y, x] != 0;
          x := x + 1;
        }
        if every {
          rowsToClear := rowsToClear + [y];
        }
        y := y + 1;
      }
    }

    /** The column scan of `clearLines`: the indices of the full columns, in increasing order. */
    method FindFullCols() returns (colsToClear: seq<int>)
      requires grid.Length0 == 8 && grid.Length1 == 8
      ensures colsToClear == FullColsBelow(Board(), 8)
    {
      colsToClear := [];
      var x := 0;
      while x < GRID_WIDTH
        invariant 0 <= x <= 8
        invariant colsToClear == FullColsBelow(Board(), x)
      {
        var isFull := true;
        var yy := 0;
        while yy < GRID_HEIGHT
          invariant 0 <= yy <= 8
          invariant isFull && forall r :: 0 <= r < yy ==> Board()[r][x] != 0
        {
          if grid[yy, x] == 0 {
            isFull := false;
            break;
          }
          yy := yy + 1;
        }
        if isFull {
          colsToClear := colsToClear + [x];
        }
        x := x + 1;
      }
    }

    /** The first clearing loop of `clearLines`: empties every listed row. */
    method ClearRows(rows: seq<int>)
      requires grid.Length0 == 8 && grid.Length1 == 8
      requires forall k :: 0 <= k < |rows| ==> 0 <= rows[k] < 8
      modifies grid
      ensures forall r, c :: 0 <= r < 8 && 0 <= c < 8 ==> grid[r, c] == if r in rows then 0 else old(grid[r, c])
    {
      var i := 0;
      while i < |rows|
        invariant 0 <= i <= |rows|
        invariant forall r, c :: 0 <= r < 8 && 0 <= c < 8 ==>
          grid[r, c] == if r in rows[..i] then 0 else old(grid[r, c])
      {
        ClearRow(rows[i]);
        assert rows[..i + 1] == rows[..i] + [rows[i]];
        i := i + 1;
      }
      assert rows[..i] == rows;
    }

    /** The second clearing loop of `clearLines`: empties every listed column. */
    method ClearCols(cols: seq<int>)
      requires grid.Length0 == 8 && grid.Length1 == 8
      requires forall k :: 0 <= k < |cols| ==> 0 <= cols[k] < 8
      modifies grid
      ensures forall r, c :: 0 <= r < 8 && 0 <= c < 8 ==> grid[r, c] == if c in cols then 0 else old(grid[r, c])
    {
      var i := 0;
      while i < |cols|
        invariant 0 <= i <= |cols|
        invariant forall r, c :: 0 <= r < 8 && 0 <= c < 8 ==>
          grid[r, c] == if c in cols[..i] then 0 else old(grid[r, c])
      {
        ClearCol(cols[i]);
        assert cols[..i + 1] == cols[..i] + [cols[i]];
        i := i + 1;
      }
      assert cols[..i] == cols;
    }

    /** `clearLines`: finds every full row and column on the board as it is, then empties them all, and
        returns how many lines were full. */
    method ClearLines() returns (totalLines: int)
      requires Valid()
      modifies grid
      ensures Valid()
      ensures totalLines == LineCount(old(Board()))
      ensures Board() == Cleared(old(Board()))
    {
      ghost var g0 := Board();
      var rowsToClear := FindFullRows();
      var colsToClear := FindFullCols();

      totalLines := |rowsToClear| + |colsToClear|;
      FullRowsBelowSpec(g0, 8);
      FullColsBelowSpec(g0, 8);
      assert forall k :: 0 <= k < |rowsToClear| ==> rowsToClear[k] in rowsToClear;
      assert forall k :: 0 <= k < |colsToClear| ==> colsToClear[k] in colsToClear;
      ClearRows(rowsToClear);
      ClearCols(colsToClear);
      GridsEqual(Board(), Cleared(g0));
    }

    /** `isGameOver`: no remaining piece fits at any origin of the board. */
    method IsGameOver() returns (over: bool)
      requires grid.Length0 == 8 && grid.Length1 == 8
      ensures over <==> NoMoves(Board(), currentPieces)
      ensures currentPieces == [] ==> over
    {
      var p := 0;
      while p < |currentPieces|
        invariant 0 <= p <= |currentPieces|
        invariant forall q :: 0 <= q < p ==> !HasMove(Board(), currentPieces[q].matrix)
      {
        var piece := currentPieces[p];
        var y := 0;
        while y < GRID_HEIGHT
          invariant 0 <= y <= 8
          invariant forall yy, xx :: 0 <= yy < y && 0 <= xx < 8 ==> !Fits(Board(), piece.matrix, xx, yy)
        {
          var x := 0;
          while x < GRID_WIDTH
            invariant 0 <= x <= 8
            invariant forall yy, xx :: 0 <= yy < y && 0 <= xx < 8 ==> !Fits(Board(), piece.matrix, xx, yy)
            invariant forall xx :: 0 <= xx < x ==> !Fits(Board(), piece.matrix, xx, y)
          {
            var valid := IsValidPlacement(piece.matrix, x, y);
            if valid {
              return false;
            }
            x := x + 1;
          }
          y := y + 1;
        }
        p := p + 1;
      }
      return true;
    }

    /** `handleGameOver`, logic part: commit the high score. Pausing and the game-over screen are not
        modelled. */
    method HandleGameOver() returns (isNewHighScore: bool)
      modifies scoringSystem
      ensures isNewHighScore <==> old(scoringSystem.score) > old(scoringSystem.highScore)
      ensures scoringSystem.highScore == if isNewHighScore then scoringSystem.score else old(scoringSystem.highScore)
      ensures scoringSystem.score == old(scoringSystem.score)
      ensures scoringSystem.streakMultiplier == old(scoringSystem.streakMultiplier)
      ensures scoringSystem.lineClearedThisTurn == old(scoringSystem.lineClearedThisTurn)
    {
      isNewHighScore := scoringSystem.CheckAndSaveHighScore();
    }

    /** `generateNewPieceSet`: replaces the offer with three freshly drawn pieces, then checks for game
        over. When the draws run out before three pieces are found (the source would keep drawing),
        nothing changes. The check never fires: every drawn piece fits on the board it was drawn
        against, so the scorer is never touched here. */
    method GenerateNewPieceSet(draws: seq<int>) returns (generated: bool, over: bool)
      requires Valid()
      requires PG.DrawsInRange(pieceGenerator.weightedPieces, draws)
      modifies this, scoringSystem
      ensures Valid()
      ensures piecesPlacedThisTurn == old(piecesPlacedThisTurn)
      ensures generated <==> |PG.Drawn(Board(), pieceGenerator.weightedPieces, draws)| == 3
      ensures currentPieces == if generated then PG.Drawn(Board(), pieceGenerator.weightedPieces, draws) else old(currentPieces)
      ensures over <==> generated && NoMoves(Board(), currentPieces)
      ensures !over
      ensures unchanged(scoringSystem)
    {
      ghost var placed := piecesPlacedThisTurn;
      var board := Board();
      var pieceDataArray, used := pieceGenerator.GenerateNewPieces(board, draws);
      generated := |pieceDataArray| == 3;
      over := false;
      if generated {
        currentPieces := pieceDataArray;
        over := IsGameOver();
        if over {
          var isNewHighScore := HandleGameOver();
        }
        assert piecesPlacedThisTurn == placed;
        FreshSetHasMoves(board, pieceGenerator.weightedPieces, draws);
      }
    }

    /** `create`, logic part: the first piece set, then a scoring reset. */
    method Create(draws: seq<int>) returns (generated: bool)
      requires Valid()
      requires PG.DrawsInRange(pieceGenerator.weightedPieces, draws)
      modifies this, scoringSystem
      ensures Valid()
      ensures Board() == old(Board())
      ensures generated <==> |PG.Drawn(Board(), pieceGenerator.weightedPieces, draws)| == 3
      ensures currentPieces == if generated then PG.Drawn(Board(), pieceGenerator.weightedPieces, draws) else old(currentPieces)
      ensures scoringSystem.score == 0 && scoringSystem.streakMultiplier == 1 && !scoringSystem.lineClearedThisTurn
      ensures piecesPlacedThisTurn == old(piecesPlacedThisTurn) && scoringSystem.highScore == old(scoringSystem.highScore)
    {
      var over;
      generated, over := GenerateNewPieceSet(draws);
      scoringSystem.Reset();
    }

    /** The valid-drop branch of `placePiece` up to the regeneration check: commit the piece, take it out
        of the offer, count it, score it, clear lines, score them and end the turn. */
    method PlaceAndScore(pieceIndex: int, gridX: int, gridY: int) returns (linesCleared: int)
      requires Valid()
      requires 0 <= pieceIndex < |currentPieces|
      requires Fits(Board(), currentPieces[pieceIndex].matrix, gridX, gridY)
      modifies this, grid, scoringSystem
      ensures Valid()
      ensures
        var piece := old(currentPieces[pieceIndex]);
        var committed := Committed(old(Board()), piece.matrix, gridX, gridY);
        var count := old(piecesPlacedThisTurn) + 1;
        var clearedThisTurn := old(scoringSystem.lineClearedThisTurn) || linesCleared > 0;
        && linesCleared == LineCount(committed)
        && Board() == Cleared(committed)
        && currentPieces == old(currentPieces[..pieceIndex] + currentPieces[pieceIndex + 1..])
        && piecesPlacedThisTurn == count
        && scoringSystem.score
             == old(scoringSystem.score) + piece.size + ComboPoints(linesCleared) * old(scoringSystem.streakMultiplier)
        && scoringSystem.streakMultiplier
             == (if !IsTurnBoundary(count) then old(scoringSystem.streakMultiplier)
                 else if clearedThisTurn then old(scoringSystem.streakMultiplier) + 1
                 else 1)
        && scoringSystem.lineClearedThisTurn == (!IsTurnBoundary(count) && clearedThisTurn)
        && scoringSystem.highScore == old(scoringSystem.highScore)
    {
      var piece := currentPieces[pieceIndex];
      CommitPieceToGrid(piece, gridX, gridY);
      currentPieces := currentPieces[..pieceIndex] + currentPieces[pieceIndex + 1..];

      piecesPlacedThisTurn := piecesPlacedThisTurn + 1;
      scoringSystem.AddPiecePlacementScore(piece.size);

      linesCleared := ClearLines();
      scoringSystem.AddLineClearScore(linesCleared);

      scoringSystem.EndOfTurn(piecesPlacedThisTurn);
    }

    /** `placePiece` with the drop point already converted to grid cell (gridX, gridY): validate, then
        place and score, and draw a new set once the offer is empty. */
    method PlacePiece(pieceIndex: int, gridX: int, gridY: int, draws: seq<int>) returns (placed: bool, linesCleared: int)
      requires Valid()
      requires 0 <= pieceIndex < |currentPieces|
      requires PG.DrawsInRange(pieceGenerator.weightedPieces, draws)
      modifies this, grid, scoringSystem
      ensures Valid()
      ensures placed == Fits(old(Board()), old(currentPieces[pieceIndex].matrix), gridX, gridY)
      ensures !placed ==>
        && Board() == old(Board())
        && currentPieces == old(currentPieces)
        && piecesPlacedThisTurn == old(piecesPlacedThisTurn)
        && unchanged(scoringSystem)
      ensures placed ==>
        var piece := old(currentPieces[pieceIndex]);
        var committed := Committed(old(Board()), piece.matrix, gridX, gridY);
        var remaining := old(currentPieces[..pieceIndex] + currentPieces[pieceIndex + 1..]);
        var count := old(piecesPlacedThisTurn) + 1;
        var clearedThisTurn := old(scoringSystem.lineClearedThisTurn) || linesCleared > 0;
        && linesCleared == LineCount(committed)
        && Board() == Cleared(committed)
        && piecesPlacedThisTurn == count
        && scoringSystem.score
             == old(scoringSystem.score) + piece.size + ComboPoints(linesCleared) * old(scoringSystem.streakMultiplier)
        && scoringSystem.streakMultiplier
             == (if !IsTurnBoundary(count) then old(scoringSystem.streakMultiplier)
                 else if clearedThisTurn then old(scoringSystem.streakMultiplier) + 1
                 else 1)
        && scoringSystem.lineClearedThisTurn == (!IsTurnBoundary(count) && clearedThisTurn)
        && scoringSystem.highScore == old(scoringSystem.highScore)
        && currentPieces
             == if remaining != [] then remaining
                else if |PG.Drawn(Board(), pieceGenerator.weightedPieces, draws)| == 3 then PG.Drawn(Board(), pieceGenerator.weightedPieces, draws)
                else []
    {
      placed := IsValidPlacement(currentPieces[pieceIndex].matrix, gridX, gridY);
      linesCleared := 0;
      if placed {
        linesCleared := PlaceAndScore(pieceIndex, gridX, gridY);
        if |currentPieces| == 0 {
          var generated, over := GenerateNewPieceSet(draws);
        }
      }
    }
  }
}
