# Game 2048: the board engine and its save format

This project models the rule engine of the Android game "2048" (package
`com.hydr10n.game2048`) and proves properties of it. The grid is square with
side 4, 5 or 6. A swipe moves every tile toward one edge. Two equal tiles that
meet merge into one tile of twice the value, and each tile merges at most once
per move. The score grows by the value of every merged tile. A merge that
reaches 2048 wins the game. A move that changes the grid without winning adds
a tile 2 in an empty cell. The game is over when every cell is occupied and
no two neighbouring cells hold equal values; once it is over, no move can
change the grid. The progress of each layout (score, best score, grid) is kept
in a key-value store. The grid is kept there as text: rows joined by `;`, and
the values of a row joined by `,`.

Modules, one concept each:

- `Rotation` (rotation.dfy): `rotateCell`. It maps slot `k` of logical line
  `row` to a physical cell, so that one compaction loop serves all four
  directions. `Unrotate` is its inverse.
- `Compaction` (line.dfy): what a move does to one line, as a pure function
  `CompactLine`. The non-empty tiles are paired greedily from slot 0 into
  pieces (`Merge`) and written packed toward slot 0. `Flatten` undoes the
  pairing, and `Flatten` together with `Greedy` characterise `Merge`
  completely.
- `LineScan` (line_scan.dfy): the in-place `a`/`b`/`next` loop of
  `moveTiles` over one line, described on values. It includes the
  reassignments `a = b` and `a = next` and the early `break`s. Each branch of
  the loop body is a lemma showing that the branch keeps the scan
  description, so when the loop stops the line is `CompactLine` of the
  original line.
- `Board` (board.dfy): whole grids. `Moved` compacts every logical line. The
  module also defines the game-over predicate and the count of occupied last
  slots, and proves the laws of a move: the sum is kept, `moved` means the
  grid changed, and a finished game cannot change.
- `Codec` (codec.dfy): `Integer.toString`, `Integer.parseInt` and
  `String.split` on a one-character delimiter, as functions on strings. It
  defines the grid text `Encode`/`Decode` and proves the round trip.
- `Persistence` (game_save.dfy): class `GameSave` over a `map` from key to a
  stored int or string, with the source's encoder and decoder loops proved
  equal to `Encode`/`Decode`.
- `Engine` (game.dfy): class `Game`, the state of `MainActivity`. The grid is
  an `array2<int>`, with 0 where the source holds `null` and the tile's value
  elsewhere. Score, best score and game state are fields of the class, and
  `GameSave` is the store. The methods are `moveTiles` and its helpers,
  `isGameOver`, `addRandomTile`, `removeAllTiles`, `startNewGame`,
  `saveGameProgress`, and layout selection with resume.

`Game.Valid()` is the invariant every public method keeps:

- the side and key index agree;
- every cell holds 0 or a power of two at least 2;
- a started game holds no tile of 2048 or more;
- the store is consistent: every layout's keys hold values that load
  (`StoreConsistent`).

The game itself keeps the store consistent (`SaveIntConsistent`,
`SaveGridConsistent`).

Three behaviours of the source are worth noting:

- Compaction is not idempotent: `[2, 2, 2, 2]` becomes `[4, 4, 0, 0]` and,
  on the next move in the same direction, `[8, 0, 0, 0]`
  (`ExampleMergesAgain`). A line is left unchanged exactly when it is settled
  (`CompactLineFixedPoint`).
- The new tile's cell is found by drawing random cells until one is empty.
  The model picks any empty cell.
- `isGameOver` is consulted whenever at most one line ended in an empty slot,
  not only when the grid is full. The outcome is the same: `MoveTiles` ends
  in `Over` exactly when `GameOver` holds of the final grid, because two
  lines with an empty last slot leave an empty cell after the new tile
  (`SpawnLeavesEmpty`).

In the table, `MainActivity.java` and `GameSave.java` both stand for files in
`app/src/main/java/com/hydr10n/game2048/`.

## Model

| member | source | states |
|---|---|---|
| Rotation.Angle | app/src/main/java/com/hydr10n/game2048/MainActivity.java:279-295 | each direction selects a right angle, and Left is the only one that selects 0 |
| Rotation.RotateCell | app/src/main/java/com/hydr10n/game2048/MainActivity.java:228-239 | a slot inside the n x n grid maps to a cell inside the grid |
| Rotation.RotateCellFormula | app/src/main/java/com/hydr10n/game2048/MainActivity.java:228-239 | RotateCell is the identity at angle 0, and otherwise the source's rotation by the truncated cosine and sine with the offsets n - 1 (row unless 90, column unless 270) |
| Rotation.RotationBijection | app/src/main/java/com/hydr10n/game2048/MainActivity.java:228-239 | for every angle, RotateCell is a bijection of the grid, with Unrotate as its two-sided inverse |
| Rotation.RotateCellInjective | app/src/main/java/com/hydr10n/game2048/MainActivity.java:228-239 | two slots that map to the same cell are the same slot |
| Rotation.RotateCellDistinct | app/src/main/java/com/hydr10n/game2048/MainActivity.java:301-324 | two different slots of one line are two different cells, so moveTile never moves a tile onto itself |
| Compaction.MergeFlatten | app/src/main/java/com/hydr10n/game2048/MainActivity.java:304-331 | every scanned tile ends up in exactly one piece, in scan order, so no tile takes part in two merges of one move |
| Compaction.MergeGreedy | app/src/main/java/com/hydr10n/game2048/MainActivity.java:309-318 | no tile is left single when the next tile in scan order has the same value |
| Compaction.MergeUnique | app/src/main/java/com/hydr10n/game2048/MainActivity.java:304-331 | the greedy pairing is the only partition of the scanned tiles that both flattens back to them and leaves no merge undone |
| Compaction.CompactLinePacked | app/src/main/java/com/hydr10n/game2048/MainActivity.java:298-344 | after a move a line is packed: the piece values, in scan order, fill slots 0..k-1, and the slots from k on are empty |
| Compaction.CompactLineSum | app/src/main/java/com/hydr10n/game2048/MainActivity.java:308-315 | a move keeps the sum of a line's tile values, since two tiles v become one tile 2v |
| Compaction.CompactLineFixedPoint | app/src/main/java/com/hydr10n/game2048/MainActivity.java:298-344 | a move leaves a line unchanged exactly when the line is settled (packed, no equal neighbours), and then it earns nothing and cannot win |
| Compaction.WinChangesLine | app/src/main/java/com/hydr10n/game2048/MainActivity.java:316-317 | a line in which a merge reaches 2048 is changed by the move |
| Compaction.CompactLineTiles | app/src/main/java/com/hydr10n/game2048/MainActivity.java:310 | merging keeps every value 0 or a power of two; without a winning merge, tiles below 2048 stay below 2048 |
| Compaction.DoubleIsTile | app/src/main/java/com/hydr10n/game2048/MainActivity.java:310 | twice a tile value is a tile value |
| Compaction.ExampleFourEqual | app/src/main/java/com/hydr10n/game2048/MainActivity.java:298-344 | [2,2,2,2] becomes [4,4,0,0] and earns 8 |
| Compaction.ExampleThreeEqual | app/src/main/java/com/hydr10n/game2048/MainActivity.java:298-344 | [2,2,2,0] becomes [4,2,0,0] and earns 4 |
| Compaction.ExampleMiddlePair | app/src/main/java/com/hydr10n/game2048/MainActivity.java:298-344 | [4,2,2,4] becomes [4,4,4,0] and earns 4 |
| Compaction.ExampleGaps | app/src/main/java/com/hydr10n/game2048/MainActivity.java:298-344 | [0,2,0,2] becomes [4,0,0,0] and earns 4 |
| Compaction.ExampleWin | app/src/main/java/com/hydr10n/game2048/MainActivity.java:316-317 | [1024,1024,0,0] becomes [2048,0,0,0], earns 2048 and wins |
| Compaction.ExampleMergesAgain | app/src/main/java/com/hydr10n/game2048/MainActivity.java:298-344 | a compacted line can merge again on the next move: [4,4,0,0] becomes [8,0,0,0] |
| LineScan.NextTile | app/src/main/java/com/hydr10n/game2048/MainActivity.java:304-307 | the inner loop finds the first occupied slot after a, or the line's end when there is none |
| LineScan.ScanStepKeeps | app/src/main/java/com/hydr10n/game2048/MainActivity.java:301-341 | one pass of the loop body (merge, slide of a pair, last tile, empty slot) keeps the scan description: slots before next hold the pieces written so far, and the merge of the tiles from a on is what remains |
| LineScan.PairRank | app/src/main/java/com/hydr10n/game2048/MainActivity.java:319-327 | sliding an unequal pair sets `moved` exactly when the line changes |
| LineScan.ScanEnd | app/src/main/java/com/hydr10n/game2048/MainActivity.java:300-344 | when the scan reaches the end of the line, the line is CompactLine of the original, with its gain and win flag |
| LineScan.AfterEnds | app/src/main/java/com/hydr10n/game2048/MainActivity.java:298-344 | a finished scan leaves the compacted line, adds its gain, and reports `moved` exactly when the line changed |
| Board.MovedAt | app/src/main/java/com/hydr10n/game2048/MainActivity.java:298-344 | each cell of the moved grid is its slot of its compacted logical line |
| Board.MovedSum | app/src/main/java/com/hydr10n/game2048/MainActivity.java:298-348 | a move keeps the sum of all tile values |
| Board.MovedChanged | app/src/main/java/com/hydr10n/game2048/MainActivity.java:298-348 | the grid changes exactly when some logical line changes |
| Board.ChangedUpToWitness | app/src/main/java/com/hydr10n/game2048/MainActivity.java:298-344 | the move's `moved` flag over the first lines holds exactly when one of them changes |
| Board.UnchangedEarnsNothing | app/src/main/java/com/hydr10n/game2048/MainActivity.java:308-320 | a move that changes nothing earns nothing, and a winning move changes the grid |
| Board.MovedTiles | app/src/main/java/com/hydr10n/game2048/MainActivity.java:308-317 | a move keeps every cell a tile value, and a move that does not win keeps every tile below 2048 |
| Board.MovePlan | app/src/main/java/com/hydr10n/game2048/MainActivity.java:298-348 | for the moved grid h: h differs from g exactly when a line changed, tiles stay tiles, a non-winning move keeps a playing grid, and fewer than n lines end in a tile exactly when h has an empty cell |
| Board.CompactedPlan | app/src/main/java/com/hydr10n/game2048/MainActivity.java:298-348 | the same facts for any grid whose every logical line is the compacted line of g |
| Board.CompactedIsMoved | app/src/main/java/com/hydr10n/game2048/MainActivity.java:298-348 | a grid whose logical lines are the compacted lines of g is the moved grid |
| Board.CountLastWitness | app/src/main/java/com/hydr10n/game2048/MainActivity.java:345-347 | count is below the number of lines exactly when one of them ends in an empty slot |
| Board.CountLastEmpty | app/src/main/java/com/hydr10n/game2048/MainActivity.java:345-361 | after a move, count < n exactly when the grid has an empty cell, which is when addRandomTile may be called |
| Board.SpawnLeavesEmpty | app/src/main/java/com/hydr10n/game2048/MainActivity.java:360-363 | when at least two lines end in an empty slot, the new tile leaves an empty cell and the game cannot be over, so skipping isGameOver there loses nothing |
| Board.GameOverLineSettled | app/src/main/java/com/hydr10n/game2048/MainActivity.java:241-258 | in a finished game every logical line of every direction is settled |
| Board.GameOverUnchanged | app/src/main/java/com/hydr10n/game2048/MainActivity.java:241-258 | no move changes a grid in which the game is over |
| Board.SpawnedOnEmpty | app/src/main/java/com/hydr10n/game2048/MainActivity.java:383-384 | the first tile of a new game leaves an empty cell for the second |
| Board.SpawnedTwice | app/src/main/java/com/hydr10n/game2048/MainActivity.java:383-385 | the two tiles of a new game sit in two different cells, and the grid is a playing grid |
| Codec.ParseInt | app/src/main/java/com/hydr10n/game2048/GameSave.java:56 | Integer.parseInt succeeds only on an optional sign followed by decimal digits, with a value in the int range |
| Codec.ParseIntToString | app/src/main/java/com/hydr10n/game2048/GameSave.java:35-56 | parseInt reads back what StringBuilder.append(int) wrote, for every int |
| Codec.ParseIntOutOfRange | app/src/main/java/com/hydr10n/game2048/GameSave.java:56 | parseInt rejects the text of any value outside the int range |
| Codec.ParseIntExamples | app/src/main/java/com/hydr10n/game2048/GameSave.java:56 | "+7", "07" and "-0" parse; "", "-" and "1,2" throw |
| Codec.SplitJoin | app/src/main/java/com/hydr10n/game2048/GameSave.java:50-53 | String.split undoes a join whose last part is not empty |
| Codec.SplitExamples | app/src/main/java/com/hydr10n/game2048/GameSave.java:50-53 | split drops trailing empty pieces, and a text without the delimiter splits into itself |
| Codec.Decode | app/src/main/java/com/hydr10n/game2048/GameSave.java:46-59 | loading gives no grid exactly for the empty text; a decoded grid has one row per `;`-piece, and row i has one value per `,`-piece of piece i |
| Codec.EncodeDecode | app/src/main/java/com/hydr10n/game2048/GameSave.java:30-59 | a grid with at least one row, no empty row and int values is saved as a non-empty text that loads back as the same grid |
| Codec.ZeroGridRoundTrip | app/src/main/java/com/hydr10n/game2048/GameSave.java:30-59 | a grid without tiles is saved as non-empty text and reloads as that grid, not as "no saved game" |
| Codec.EmptyRowIsLost | app/src/main/java/com/hydr10n/game2048/GameSave.java:32-49 | a grid of one empty row is saved as "" and loads as no grid, which is why the round trip needs non-empty rows |
| Codec.EmptyLastRowIsLost | app/src/main/java/com/hydr10n/game2048/GameSave.java:30-53 | an empty last row is saved as a trailing `;`, which the split drops |
| Codec.ParseRowErr | app/src/main/java/com/hydr10n/game2048/GameSave.java:55-56 | a row fails exactly when one of its tokens does not parse |
| Codec.DecodeRowsErr | app/src/main/java/com/hydr10n/game2048/GameSave.java:52-57 | the rows fail to load exactly when one of them fails |
| Codec.DecodeErr | app/src/main/java/com/hydr10n/game2048/GameSave.java:46-59 | loadInt2DData throws exactly when the stored text is not empty and one of its tokens is not a decimal int; nothing recovers |
| Persistence.IntSaveLoad | app/src/main/java/com/hydr10n/game2048/GameSave.java:42-44 | an int saved under a key loads back, a missing key loads as 0, and saving leaves every other key as it was |
| Persistence.EncodeRowLoop | app/src/main/java/com/hydr10n/game2048/GameSave.java:34-35 | the inner StringBuilder loop writes the row's values joined by `,` |
| Persistence.EncodeGrid | app/src/main/java/com/hydr10n/game2048/GameSave.java:30-38 | the StringBuilder loops write exactly Encode of the grid, and "" for null |
| Persistence.ParseRowLoop | app/src/main/java/com/hydr10n/game2048/GameSave.java:53-56 | the inner loop parses the row's tokens, failing on the first bad one |
| Persistence.DecodeGrid | app/src/main/java/com/hydr10n/game2048/GameSave.java:46-59 | the decoder loops return exactly Decode of the stored text |
| Persistence.GameSave.SaveInt | app/src/main/java/com/hydr10n/game2048/GameSave.java:25-28 | the store maps the key to the int and is otherwise unchanged |
| Persistence.GameSave.SaveGrid | app/src/main/java/com/hydr10n/game2048/GameSave.java:30-40 | the store maps the key to the grid's text and is otherwise unchanged |
| Persistence.GameSave.LoadInt | app/src/main/java/com/hydr10n/game2048/GameSave.java:42-44 | returns the stored int, or 0 when the key is missing |
| Persistence.GameSave.LoadGrid | app/src/main/java/com/hydr10n/game2048/GameSave.java:46-59 | returns Decode of the stored text, or of "" when the key is missing |
| Engine.KeysDistinct | app/src/main/java/com/hydr10n/game2048/MainActivity.java:37-41 | the nine store keys are pairwise different, so saving one never overwrites another |
| Engine.LayoutLoads | app/src/main/java/com/hydr10n/game2048/MainActivity.java:157-158 | in a consistent store, every layout's scores load as ints and its grid loads without an exception, as a playing grid of that layout's side when there is one |
| Engine.SaveIntConsistent | app/src/main/java/com/hydr10n/game2048/MainActivity.java:271-272 | saving a score keeps the store consistent |
| Engine.SaveGridConsistent | app/src/main/java/com/hydr10n/game2048/MainActivity.java:273 | saving no grid, or a playing grid of the layout's side, keeps the store consistent |
| Engine.PlayingGridEncodable | app/src/main/java/com/hydr10n/game2048/MainActivity.java:263-273 | a started game's grid satisfies the round-trip precondition |
| Engine.PlaceTiles | app/src/main/java/com/hydr10n/game2048/MainActivity.java:374-377 | filling the fresh array from the loaded values gives exactly that grid |
| Engine.Game.MoveTile | app/src/main/java/com/hydr10n/game2048/MainActivity.java:210-215 | the source cell becomes empty and the target cell takes its tile; nothing else changes |
| Engine.Game.MergeTiles | app/src/main/java/com/hydr10n/game2048/MainActivity.java:217-226 | both source cells become empty and the target holds the merged value; nothing else changes |
| Engine.Game.FindSecond | app/src/main/java/com/hydr10n/game2048/MainActivity.java:304-309 | the loop over b stops at the next occupied slot of the line |
| Engine.Game.SlideTile | app/src/main/java/com/hydr10n/game2048/MainActivity.java:334-340 | a tile moves only when it is not already at `next`, and `moved` is set exactly then |
| Engine.Game.MergePair | app/src/main/java/com/hydr10n/game2048/MainActivity.java:309-315 | both tiles leave their slots and the doubled value lands at `next`, on this line only |
| Engine.Game.PlacePair | app/src/main/java/com/hydr10n/game2048/MainActivity.java:319-327 | an unequal pair slides to `next` and `next + 1`, with `moved` set exactly when one of them moved |
| Engine.Game.ScanSlot | app/src/main/java/com/hydr10n/game2048/MainActivity.java:301-343 | one pass of the loop body over the array is the value-level step ScanStep, score included |
| Engine.Game.ScanIteration | app/src/main/java/com/hydr10n/game2048/MainActivity.java:300-343 | one iteration advances the scan and keeps its description, with a strictly decreasing measure |
| Engine.Game.ScanLine | app/src/main/java/com/hydr10n/game2048/MainActivity.java:299-344 | the loop over one line finishes its scan, adds the scan's gain to the score, and reports its moved and won flags |
| Engine.Game.MoveLine | app/src/main/java/com/hydr10n/game2048/MainActivity.java:299-344 | the line becomes CompactLine of the line, the score grows by its gain, `won` and `moved` (the line changed) are reported, and every other line is unchanged |
| Engine.Game.LastTileCount | app/src/main/java/com/hydr10n/game2048/MainActivity.java:345-347 | count grows by one exactly when the line's last slot holds a tile |
| Engine.Game.MoveRow | app/src/main/java/com/hydr10n/game2048/MainActivity.java:298-348 | one more line compacted: score, moved, won and count follow the whole-grid definitions one line further |
| Engine.Game.MoveAllLines | app/src/main/java/com/hydr10n/game2048/MainActivity.java:296-348 | the row loop leaves the moved grid; the score grows by the move's gain; moved, won and count are the move's |
| Engine.Game.SaveBestScore | app/src/main/java/com/hydr10n/game2048/MainActivity.java:349-353 | best score becomes max(best, score), and it is saved only when the score beat it |
| Engine.Game.SpawnAfterMove | app/src/main/java/com/hydr10n/game2048/MainActivity.java:360-363 | a tile 2 appears in an empty cell if there is one; the state becomes Over exactly when the game is over |
| Engine.Game.FinishMove | app/src/main/java/com/hydr10n/game2048/MainActivity.java:354-363 | an unchanged grid ends the move; a winning move sets Won without a new tile; otherwise SpawnAfterMove |
| Engine.Game.SettleMove | app/src/main/java/com/hydr10n/game2048/MainActivity.java:349-363 | the end of the move after the rows: best score and the state transition, as MoveOutcome states |
| Engine.Game.EndMove | app/src/main/java/com/hydr10n/game2048/MainActivity.java:349-363 | the same outcome, knowing only that every line of the new grid is compacted |
| Engine.Game.MoveStarted | app/src/main/java/com/hydr10n/game2048/MainActivity.java:296-363 | a move in a started game: the grid compacts, score, best score and store update, then the no-change, Won and spawn/Over outcomes |
| Engine.Game.MoveTiles | app/src/main/java/com/hydr10n/game2048/MainActivity.java:276-364 | outside a started game nothing changes. Otherwise: score += the merged values; best = max(best, score), saved when beaten; no change ends the move in Started; a win ends it in Won with no new tile; else a tile 2 appears in an empty cell and the state is Over exactly when the game is over |
| Engine.Game.IsGameOver | app/src/main/java/com/hydr10n/game2048/MainActivity.java:241-258 | true exactly when every cell is occupied and no two horizontally or vertically adjacent cells are equal |
| Engine.Game.AddRandomTile | app/src/main/java/com/hydr10n/game2048/MainActivity.java:191-199 | some empty cell becomes 2, and every other cell is unchanged |
| Engine.Game.RemoveAllTiles | app/src/main/java/com/hydr10n/game2048/MainActivity.java:201-208 | every cell becomes empty |
| Engine.Game.PlaceStartTiles | app/src/main/java/com/hydr10n/game2048/MainActivity.java:383-385 | the emptied grid receives two tiles 2 in two different cells |
| Engine.Game.StartNewGame | app/src/main/java/com/hydr10n/game2048/MainActivity.java:382-388 | the grid holds exactly two tiles 2, in different cells; score 0; Started; best score kept |
| Engine.Game.SaveGameProgress | app/src/main/java/com/hydr10n/game2048/MainActivity.java:260-274 | the layout's keys get the score (0 unless Started), max(score, best) and the grid (none unless Started); the saved text loads back as that grid |
| Engine.Game.InitializeGameLayout | app/src/main/java/com/hydr10n/game2048/MainActivity.java:366-380 | a fresh n x n grid holds the layout's saved tiles, or nothing; it reports a resume exactly when a saved grid was loaded |
| Engine.Game.LoadLayout | app/src/main/java/com/hydr10n/game2048/MainActivity.java:150-160 | the layout's score and best score are loaded; its saved grid resumes as Started, otherwise the grid is empty and NotStarted |
| Engine.Game.SelectLayout | app/src/main/java/com/hydr10n/game2048/MainActivity.java:127-161 | choosing the current side changes nothing; another side switches to it and loads as LoadLayout states; the store is not written |

## Left out

- AddRandomTile: the random draw is not modelled. The source redraws random cells until one is empty (`MainActivity.java:194-197`). The model chooses any empty cell, and its precondition is that one exists. No claim about probabilities is made.
- RotateCell: the floating-point `Math.cos`/`Math.sin` of the source are replaced by the table of their truncated values at 0, 90, 180 and 270 degrees (`Cos`, `Sin`).
- MoveTile, MergeTiles: the Tile views are not modelled: their position, colour, text size and scale animation. A cell holds only its value. `addTile`, `getTileColorIndex` and `TILE_COLORS` are not part of this model.
- SaveInt, SaveGrid: the boolean that `editor.commit()` returns is not modelled; the store always takes the write. The file behind SharedPreferences is not modelled either.
- MoveTiles: cell values and the score are unbounded integers, not 32-bit Java ints. Overflow cannot happen in play (a started game holds no tile of 2048 or more), and only `Encodable` asks for values in the int range.
- StartNewGame: requires a chosen layout (`n != 0`). With no layout the source throws in `random.nextInt(0)` (`MainActivity.java:195`), and this crash is not modelled.
- InitializeGameLayout: assumes that the store was written only by this game (`StoreConsistent`). Stores that break this are not modelled. A bad token makes `Integer.parseInt` throw (`GameSave.java:56`). A saved grid smaller than the side throws an index exception (`MainActivity.java:376`). A larger one is cut to the side. A value such as 3 or 4096 is loaded and played.
- SelectLayout: assumes the same consistent store. In the source, a key holding the wrong type makes `getInt`/`getString` throw (`GameSave.java:43`, `GameSave.java:47`). The view work is not modelled: removing the views, the padding and pixel sizes, and `maxTextSize`.
- LoadInt, LoadGrid: require that the key is missing or holds a value of the type asked for (`HoldsInt`, `HoldsString`). In the source, `getInt`/`getString` throw a ClassCastException on a key of the other type (`GameSave.java:43`, `GameSave.java:47`), and this exception is not modelled.
- ParseInt: accepts ASCII digits only. Java's `Integer.parseInt` also accepts the decimal digits of other Unicode scripts, and the model reads such text as a failed parse. The game itself writes only ASCII digits.
- `onCreate`, the menus, the about dialog, the swipe listener (`OnSwipeTouchListener.java`), `Tile.java` and the observable `ViewModel.java` are not part of this model. The engine takes a resolved `Direction`, and the ViewModel's score, best score and state are fields of `Game`.
- `newGameButton_onClick` is `SaveGameProgress` followed by `StartNewGame` and has no member of its own. `viewModel.setLayoutReady` is a view flag and is not modelled.
