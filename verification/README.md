# Block-placement puzzle: rules engine model

This project models the rules of an 8×8 block-placement puzzle. The game is written in JavaScript on Phaser.
The player drags one of three offered polyomino pieces onto the board.

- A drop is accepted only when every occupied cell of the piece lands on an empty board cell.
- After a drop, every full row and every full column is emptied.
- Points are awarded for the piece's cells and for the cleared lines. A combo table and a streak multiplier
  scale the line points.
- The streak is settled every third placement.
- Once all three pieces are used, a new set of three is drawn. Each piece in the set has a distinct key and
  fits somewhere on the current board.

The model is split into these modules:

- `BoardGrid` (`grid.dfy`): the board as a value (`Grid`, 8 rows of 8 cells).
- `Catalog` (`catalog.dfy`): the 25 piece definitions, with their matrix, size, tier, weight and colour.
- `PieceGenerator` (`piece_generator.dfy`): three parts.
  - Pure functions for the generator's placement scans.
  - The weighted pool as a function.
  - A `PieceGenerator` class whose constructor builds the pool with nested loops, and whose
    `GenerateNewPieces` method runs the drawing loop.
- `Scoring` (`scoring_system.dfy`): the `ScoringSystem` class, whose methods update `score`,
  `streakMultiplier`, `lineClearedThisTurn` and `highScore` in place.
- `BoardRules` (`board_rules.dfy`): the scene's board rules as value-level specifications.
  - `Fits`: the placement test.
  - `Committed`: the board after a piece is written.
  - `FullRowsBelow` / `FullColsBelow`: the full lines.
  - `LineCount`: how many lines clear.
  - `Cleared`: the board after clearing.
- `GameScene` (`game_scene.dfy`): the scene as a class.
  - The board is an `array2<int>` that `CommitPieceToGrid`, `ClearRow`, `ClearCol` and `ClearLines` change
    cell by cell.
  - The board-level methods (`IsValidPlacement`, `CommitPieceToGrid`, `FindFullRows`, `FindFullCols`,
    `ClearLines`, `IsGameOver`, `PlaceAndScore`, `PlacePiece`) are proved against the `BoardRules` functions,
    applied to the board's value `Board()`. `ClearRow`, `ClearCol`, `ClearRows` and `ClearCols` are stated
    cell by cell.

Random draws are an input. `Math.random` is replaced by a sequence `draws` of pool indices.

- `Drawn(g, pool, draws)` is the selection that processing those draws in order produces.
- The generator's loop is proved to compute it and to stop as soon as three pieces are selected: the draws
  before the last one it used had selected fewer than three.

Main results:

- Every drawn selection has at most three pieces, distinct keys, and only pool entries that fit on the board.
- The pool holds each catalog entry exactly `weight` times.
- Every catalog entry is a rectangular 0/1 shape anchored at its top-left edges. Its weight is positive and
  its size equals its number of cells.
- For such shapes, the generator's 8×8 origin scan misses no placement.
- Clearing lines leaves no full line behind.
- A placement updates the board, the offer, the count and the scorer exactly as a function of the old state.
- The game-over check in `generateNewPieceSet` can never succeed, because every freshly drawn piece fits on
  the board it was drawn against (`GenerateNewPieceSet` ensures `!over`).
- The scene calls `isGameOver` only right after drawing a new set (src/scenes/GameScene.js:72, reached from
  114-116), never after a placement that leaves pieces on offer. Together with the previous point, leftover
  pieces that no longer fit never end the round.

## Model

| member | source | states |
|---|---|---|
| Catalog.Definitions | src/systems/PieceGenerator.js:1-38 | The catalog has 25 entries, listed in declaration order. |
| Catalog.CatalogWellFormed | src/systems/PieceGenerator.js:3-37 | Every entry has a rectangular, non-empty 0/1 matrix with a 1 in its first row and its first column. Its weight is positive and its `size` equals the number of 1s in its matrix. |
| Catalog.CatalogKeysDistinct | src/systems/PieceGenerator.js:1-38 | No two catalog entries share a key. |
| PieceGenerator.RowPlaceable | src/systems/PieceGenerator.js:53-64 | The scan of one matrix row, which stops at the first blocked or off-board cell, is true iff every non-zero cell of the row lands on a free board cell. |
| PieceGenerator.RowsPlaceable | src/systems/PieceGenerator.js:52-67 | The scan of the rows from row j on is true iff every non-zero cell in those rows lands on a free board cell. |
| PieceGenerator.IsValidPlacement | src/systems/PieceGenerator.js:51-68 | `_isValidPlacement` is true iff every non-zero matrix cell, placed at the origin, lands in [0,8)×[0,8) on a cell equal to 0. |
| PieceGenerator.CanPlaceInRow | src/systems/PieceGenerator.js:72-76 | The inner scan of `_canPlace` over x from x0 on is true iff the shape fits at some (x, y) with x0 ≤ x < 8. |
| PieceGenerator.CanPlaceFrom | src/systems/PieceGenerator.js:71-78 | The outer scan from row y0 on is true iff the shape fits at an origin in some row y0 ≤ y < 8. |
| PieceGenerator.RowScanCoversSquare | src/systems/PieceGenerator.js:71-78 | The row-by-row scan from row 0 succeeds iff the shape fits at some origin in [0,8)×[0,8). |
| PieceGenerator.CanPlace | src/systems/PieceGenerator.js:70-79 | `_canPlace` is true iff some origin (x, y) in [0,8)×[0,8) is a valid placement. It is a function of the board value, so it changes nothing. |
| PieceGenerator.AnchoredOriginOnBoard | src/systems/PieceGenerator.js:58 | For a shape with a 1 in its first row and its first column, any origin where it fits lies on the board. |
| PieceGenerator.CanPlaceScansEveryOrigin | src/systems/PieceGenerator.js:70-79 | For such anchored shapes, `_canPlace` is true iff the shape fits at some integer origin anywhere. The 8×8 scan misses no placement. |
| PieceGenerator.RepeatCount | src/systems/PieceGenerator.js:45-47 | Pushing a piece `weight` times adds exactly `weight` copies of it and nothing else. |
| PieceGenerator.PoolLength | src/systems/PieceGenerator.js:42-48 | The pool's length is the sum of the weights. |
| PieceGenerator.PoolMembers | src/systems/PieceGenerator.js:42-48 | A piece is in the pool iff it is a definition with positive weight. |
| PieceGenerator.PoolMultiplicity | src/systems/PieceGenerator.js:42-48 | With distinct keys, the pool holds each definition exactly `weight` times and nothing that is not a definition. |
| PieceGenerator.CatalogPoolMultiplicity | src/systems/PieceGenerator.js:42-48 | In the pool built from the catalog, each entry appears exactly `weight` times, nothing else appears, and the length is the sum of the weights. |
| PieceGenerator.PieceGenerator.constructor | src/systems/PieceGenerator.js:41-49 | The nested push loops build exactly the pool: each definition, in order, repeated `weight` times. |
| PieceGenerator.KeySetAppend | src/systems/PieceGenerator.js:90-91 | Appending a piece to the selection adds exactly its key to the set of selected keys. |
| PieceGenerator.DrawStep | src/systems/PieceGenerator.js:86-92 | One more draw appends the drawn piece iff fewer than 3 are selected, its key is new and `_canPlace` holds. Otherwise the selection is unchanged. |
| PieceGenerator.DrawnIsGood | src/systems/PieceGenerator.js:85-94 | Whatever the draws, the selection has at most 3 pieces with pairwise distinct keys, and each is a pool entry that passes `_canPlace` on the board. |
| PieceGenerator.DrawnSaturates | src/systems/PieceGenerator.js:85 | Once 3 pieces are selected, further draws change nothing. |
| PieceGenerator.DrawnStopsEarly | src/systems/PieceGenerator.js:85 | Stopping after the third selection, or at the end of the draws, gives the same selection as processing every draw. |
| PieceGenerator.PieceGenerator.GenerateNewPieces | src/systems/PieceGenerator.js:81-95 | The loop returns the selection the draws determine: at most 3 pieces with distinct keys, each a pool entry placeable on the board. It stops at the draw that completes the third piece, or when the draws run out. |
| Scoring.ComboPoints | src/systems/ScoringSystem.js:36 | The table lookup, 0 for a count missing from the table, is positive iff the count is between 1 and 6. |
| Scoring.ScoringSystem.constructor | src/systems/ScoringSystem.js:13-19 | Score is 0, streak is 1 and no line is cleared this turn. The high score is the stored value. |
| Scoring.ScoringSystem.Reset | src/systems/ScoringSystem.js:21-27 | Score is 0, streak is 1 and no line is cleared this turn. The high score is kept. |
| Scoring.ScoringSystem.AddPiecePlacementScore | src/systems/ScoringSystem.js:29-32 | Adds exactly `blockCount` to the score and changes no other field. The score does not decrease for a non-negative count. |
| Scoring.ScoringSystem.AddLineClearScore | src/systems/ScoringSystem.js:34-42 | A count ≤ 0 changes nothing. Otherwise the method adds `ComboPoints(lineCount) × streak` and sets `lineClearedThisTurn`. The streak stays ≥ 1 and the score never decreases. |
| Scoring.ScoringSystem.EndOfTurn | src/systems/ScoringSystem.js:44-55 | Off a multiple of 3, nothing changes. At a multiple of 3, the streak increments if a line was cleared and otherwise resets to 1, and `lineClearedThisTurn` becomes false. Score and high score are untouched. |
| Scoring.ScoringSystem.CheckAndSaveHighScore | src/systems/ScoringSystem.js:69-76 | Returns true iff score > high score, and in that case sets high score to score. Otherwise nothing changes, so the high score never decreases. |
| BoardRules.CommitFills | src/scenes/GameScene.js:148-165 | After a valid commit, every cell of the shape is on the board and holds 1, filled cells stay filled, and the same non-empty shape no longer fits at that origin. |
| BoardRules.FullRowsBelowSpec | src/scenes/GameScene.js:168-173 | `rowsToClear` holds exactly the full rows, each once and in increasing order. |
| BoardRules.FullColsBelowSpec | src/scenes/GameScene.js:175-187 | `colsToClear` holds exactly the full columns, each once and in increasing order. |
| BoardRules.LineCountBounds | src/scenes/GameScene.js:189-197 | The line count is between 0 and 16. It is 0 iff no row and no column is full, and then clearing leaves the board unchanged. |
| BoardRules.ClearedHasNoFullLine | src/scenes/GameScene.js:194-218 | After clearing, no row or column is full, so a second clear changes nothing and counts 0. |
| GameScene.PlacementTestsAgree | src/scenes/GameScene.js:130-146 | For 0/1 matrices the scene's test (cells `=== 1`) and the generator's test (cells `!== 0`) agree. |
| GameScene.FreshSetHasMoves | src/scenes/GameScene.js:56-75 | Every piece of a freshly drawn set has a valid origin on the board it was drawn against, so a complete set is never a game over. |
| GameScene.TwoCellShapeStuck | src/scenes/GameScene.js:230-241 | On a board with one empty cell, any shape with two different cells equal to 1 has no valid origin, so `isGameOver` finds no move for it. |
| GameScene.SingleEmptyCellGameOver | src/scenes/GameScene.js:230-241 | On a board with one empty cell, an offer made only of the two 2-cell pieces (`domino_h`, `domino_v`) has no move, while any offer that contains the 1-cell piece has one. |
| GameScene.CatalogPoolWellFormed | src/systems/PieceGenerator.js:41-49 | Every entry of the generator's pool is a well-formed catalog shape. |
| GameScene.GameScene.constructor | src/scenes/GameScene.js:17-24 | `init`: an all-zero 8×8 board, no pieces, a count of 0, the catalog pool and a fresh scorer. |
| GameScene.GameScene.IsValidPlacement | src/scenes/GameScene.js:130-146 | True iff every matrix cell equal to 1 maps to an in-bounds board cell holding 0. Bounds are tested before the array is read. |
| GameScene.GameScene.CommitPieceToGrid | src/scenes/GameScene.js:148-165 | Sets exactly the cells covered by a 1 of the shape to 1 and leaves every other cell unchanged. |
| GameScene.GameScene.ClearRow | src/scenes/GameScene.js:200-208 | Row y becomes all 0 and every other cell is unchanged. |
| GameScene.GameScene.ClearCol | src/scenes/GameScene.js:210-218 | Column x becomes all 0 and every other cell is unchanged. |
| GameScene.GameScene.FindFullRows | src/scenes/GameScene.js:168-173 | Returns the full rows in increasing order, with an early stop at the first empty cell, as `every` does. |
| GameScene.GameScene.FindFullCols | src/scenes/GameScene.js:175-187 | Returns the full columns in increasing order, with the `break` at the first empty cell. |
| GameScene.GameScene.ClearRows | src/scenes/GameScene.js:194 | Empties exactly the cells on a listed row. |
| GameScene.GameScene.ClearCols | src/scenes/GameScene.js:195 | Empties exactly the cells on a listed column. |
| GameScene.GameScene.ClearLines | src/scenes/GameScene.js:167-198 | Returns the number of full rows plus full columns, both measured before clearing, so an intersection counts twice. Every cell on a full line becomes 0 and every other cell is unchanged. |
| GameScene.GameScene.IsGameOver | src/scenes/GameScene.js:230-241 | True iff no remaining piece has a valid origin in [0,8)×[0,8). True for an empty offer. |
| GameScene.GameScene.HandleGameOver | src/scenes/GameScene.js:243-252 | Commits the high score as `checkAndSaveHighScore` does, and reports whether it is a new record. |
| GameScene.GameScene.GenerateNewPieceSet | src/scenes/GameScene.js:56-75 | The offer becomes the drawn set when three pieces were found, with the count untouched. The game-over check is true iff no offered piece fits, and it is always false, so the scorer is untouched. |
| GameScene.GameScene.Create | src/scenes/GameScene.js:26-36 | The first set is drawn on the unchanged board, then the scorer is reset to score 0, streak 1 and no line cleared. The placement count and the high score are kept. |
| GameScene.GameScene.PlaceAndScore | src/scenes/GameScene.js:100-113 | A valid drop: the board becomes `Cleared(Committed(old board))` and the returned count is that board's line count. Exactly the placed piece leaves the offer, the others keep their order, and the count rises by 1. The score rises by `size + ComboPoints(lines) × old streak`, the streak and `lineClearedThisTurn` follow `endOfTurn`, and the high score is kept. |
| GameScene.GameScene.PlacePiece | src/scenes/GameScene.js:96-128 | Accepted iff the piece fits at (gridX, gridY). A rejected drop leaves the board, the offer, the count and the scorer unchanged. An accepted drop has the effects of `PlaceAndScore`, and the offer is replaced by the drawn set only when it became empty. |

## Left out

- Rendering, sprites, the ghost preview, tweens and the blast animation are left out. They have no effect on
  game state.
- The pointer-to-grid mapping with `Math.floor` over pixel coordinates is left out. Placements take integer
  grid coordinates.
- The `Polyomino` container and the tray slot positions are left out. The offer is a sequence of piece
  definitions, and the dragged piece is identified by its index. This matches the identity filter, which
  removes exactly that piece.
- The `localStorage` read and write of the high score are left out. The stored value is a constructor
  parameter, and the write is not modelled.
- Event emission to the UI is left out. These are observers with no effect on state.
- The scene pause and the launch of the game-over scene in `handleGameOver` are left out. They are scene
  lifecycle with no effect on the rules.
- `Math.random` and the probabilities of a draw are left out. The draws are an injected sequence of pool
  indices, and the model states what any sequence yields, not how likely it is.
- PieceGenerator.PieceGenerator.GenerateNewPieces may return fewer than three pieces when the injected draws
  run out. The source keeps drawing forever, and never returns at all when the board admits fewer than three
  distinct placeable pieces.
- GameScene.GameScene.GenerateNewPieceSet keeps the previous offer when the draws run out before three pieces
  are selected, where the source would still be drawing.
- The getters `getScore`, `getHighScore` and `getStreak` are plain reads of the fields and carry no contract.
- Numbers are unbounded integers. JavaScript's double-precision limits on the score are not modelled.
- A piece's tier and colour are kept as data. Only the colour of the drawn sprite depended on them.
