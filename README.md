# 2048 rule engine, modelled and verified in Dafny

This project models the rule engine of the Android 2048 game in
`app/src/main/java/com/example/a2048/MainActivity.kt`. The engine has these parts:

- the 4x4 board;
- `moveLeft`, the compress-merge-pad scan over each row;
- `moveRight`, `moveUp` and `moveDown`, which reuse `moveLeft` through row reversal and transposition;
- `addRandomTile` and `newBoard`;
- `isGameOver`;
- the turn and restart rules that `Game2048` applies to its `board` and `score` state.

Layout, one module per file:

- `grid.dfy` (`Grid`): the board type, the 4x4 shape, the cell values (0 or a power of two that is at
  least 2), row reversal, columns and transposition.
- `line.dfy` (`Line`): what a move does to one row, as functions. `Compress` is the `filter`,
  `Merge` is the greedy left-to-right scan and `Pad` is the zero padding. `Slide` is their composition
  and `Gain` is the row's score. The module also holds the lemmas about one row.
- `moves.dfy` (`Moves`): `CollapseRow` and `MoveLeft` do what `moveLeft` does, as imperative code: the
  in-place scan that leaves a 0 placeholder where a right partner was merged, then `removeAll`, then
  the padding loop. `MoveRight`, `MoveUp` and `MoveDown` call `MoveLeft` or `MoveRight` the way the
  source does. All four are proved against `Shift`, a single description that works for every
  direction: read every line starting from the wall the tiles move towards, and slide it.
- `game_over.dfy` (`GameOver`): `IsGameOver` with its nested loops and early returns, and the proof
  that a board is over exactly when it holds a tile and no move changes it.
- `placement.dfy` (`Placement`): `AddRandomTile` and `NewBoard`. The two random choices are inputs:
  - `pick` is an index into the list of empty cells;
  - `value` must be 2 or 4.
- `game.dfy` (`Session`): the class `Game`. Its fields `board` and `score` are the state the UI holds.
  `Play` is one direction button and `Restart` is the restart button.

A move keeps the sum of the board. Two tiles worth v become one tile worth 2v, and the score grows by
2v. So a move leaves the board's sum unchanged (`Moves.ShiftConservesSum`), and its score is the sum of
the tiles its merges create.

Only a board with at least one tile can be over. The all-empty board is the one board that no move
changes but that `isGameOver` does not report as over, because line 269 returns false as soon as it
sees an empty cell (`GameOver.EmptyBoardNotOver`).

## Model

| member | source | states |
|---|---|---|
| `Grid.EmptyBoard` | app/src/main/java/com/example/a2048/MainActivity.kt:208 | the starting board is 4x4 with every cell 0 |
| `Grid.DoubleTile` | app/src/main/java/com/example/a2048/MainActivity.kt:235 | doubling a non-zero cell value (a power of two that is at least 2) gives another such value |
| `Grid.ReverseTwice` | app/src/main/java/com/example/a2048/MainActivity.kt:248-250 | reversing a row twice gives the row back, so `moveRight` returns rows in their own orientation |
| `Grid.Transpose` | app/src/main/java/com/example/a2048/MainActivity.kt:254 | the transposed board is 4x4 and its cell (i, j) is cell (j, i) of the board |
| `Grid.TransposeTwice` | app/src/main/java/com/example/a2048/MainActivity.kt:254-256 | transposition is an involution, so transposing back restores the orientation |
| `Line.Compress` | app/src/main/java/com/example/a2048/MainActivity.kt:232 | the filtered row holds no 0 and is no longer than the row |
| `Line.Merge` | app/src/main/java/com/example/a2048/MainActivity.kt:233-239 | the merge scan never lengthens the tile list |
| `Line.Slide` | app/src/main/java/com/example/a2048/MainActivity.kt:231-242 | a row of at most 4 cells comes back with exactly 4 cells |
| `Line.SlidePacked` | app/src/main/java/com/example/a2048/MainActivity.kt:232-241 | every tile of the moved row comes before every 0; the tiles are the merged tiles of the row, in order; a cell is non-zero exactly when it lies before the end of the merged list |
| `Line.SlideConservesSum` | app/src/main/java/com/example/a2048/MainActivity.kt:233-238 | a move keeps the sum of a row |
| `Line.GainBounds` | app/src/main/java/com/example/a2048/MainActivity.kt:236 | for non-negative cells, a row's score is between 0 and the row's sum, and it is 0 exactly when the row loses no tile, i.e. nothing merged |
| `Line.SlideTiles` | app/src/main/java/com/example/a2048/MainActivity.kt:235 | if every cell is 0 or a power of two that is at least 2, the moved row has the same property |
| `Line.SlidePairs` | app/src/main/java/com/example/a2048/MainActivity.kt:233-239 | no tile merges twice. The tiles are consumed left to right. Each moved tile is either one input tile or the double of two equal neighbouring input tiles. The score is the sum of those doubles |
| `Line.MergeFixed` | app/src/main/java/com/example/a2048/MainActivity.kt:233-239 | the scan keeps the length of a tile list exactly when no two neighbours are equal; then it returns the list unchanged with score 0 |
| `Line.SlideFixed` | app/src/main/java/com/example/a2048/MainActivity.kt:231-243 | a 4-cell row comes back unchanged exactly when its tiles are packed to the left and no tile equals its right neighbour; an unchanged row scores 0 |
| `Line.ExamplePair` | app/src/main/java/com/example/a2048/MainActivity.kt:233-239 | [2,2,0,0] moves to [4,0,0,0] with score 4 |
| `Line.ExampleTriple` | app/src/main/java/com/example/a2048/MainActivity.kt:233-239 | [2,2,2,0] moves to [4,2,0,0] with score 4: the leftmost pair merges, the third tile stays |
| `Line.ExampleQuad` | app/src/main/java/com/example/a2048/MainActivity.kt:233-239 | [2,2,2,2] moves to [4,4,0,0] with score 8: two separate pairs, no tile merges twice |
| `Line.ExampleGap` | app/src/main/java/com/example/a2048/MainActivity.kt:232-239 | [2,0,2,4] moves to [4,4,0,0] with score 4: tiles separated by a 0 merge, and the new 4 does not merge again |
| `Line.ExampleAlternating` | app/src/main/java/com/example/a2048/MainActivity.kt:233-239 | [2,4,2,4] is unchanged with score 0 |
| `Moves.Shift` | app/src/main/java/com/example/a2048/MainActivity.kt:229-265 | after a move in any direction the board is 4x4, and each of its lines (read from the wall the tiles move towards) is the slid input line |
| `Moves.CollapseRow` | app/src/main/java/com/example/a2048/MainActivity.kt:232-242 | the in-place scan, placeholder removal and padding of one row give `Slide(row)` with score `Gain(row)` |
| `Moves.MoveLeft` | app/src/main/java/com/example/a2048/MainActivity.kt:229-245 | each output row is the slide of the corresponding input row alone; the score is the sum of the row scores; on a 4x4 board this is `Shift(b, Left)` |
| `Moves.MoveRight` | app/src/main/java/com/example/a2048/MainActivity.kt:247-251 | each output row, reversed, is the slide of the reversed input row; the score is the sum of the scores of the reversed rows; on a 4x4 board this is `Shift(b, Right)` with its score |
| `Moves.MoveUp` | app/src/main/java/com/example/a2048/MainActivity.kt:253-258 | the result is `Shift(b, Up)`: every column slid towards the top, with the column scores summed |
| `Moves.MoveDown` | app/src/main/java/com/example/a2048/MainActivity.kt:260-265 | the result is `Shift(b, Down)`: every column slid towards the bottom, with the column scores summed |
| `Moves.MoveIn` | app/src/main/java/com/example/a2048/MainActivity.kt:92-93 | the move a direction button makes is `Shift(b, d)` for that direction, with score `ShiftGain(b, d)` |
| `Moves.RightByReversal` | app/src/main/java/com/example/a2048/MainActivity.kt:247-251 | moving right equals reversing rows, moving left and reversing back, with the same score |
| `Moves.UpByTransposition` | app/src/main/java/com/example/a2048/MainActivity.kt:253-258 | moving up equals transposing, moving left and transposing back, with the same score |
| `Moves.DownByTransposition` | app/src/main/java/com/example/a2048/MainActivity.kt:260-265 | moving down equals transposing, moving right and transposing back, with the same score |
| `Moves.ShiftTiles` | app/src/main/java/com/example/a2048/MainActivity.kt:229-265 | a board whose cells are 0 or powers of two (at least 2) keeps that property after any move, and the move's score is at least 0 |
| `Moves.ShiftConservesSum` | app/src/main/java/com/example/a2048/MainActivity.kt:229-265 | every move keeps the sum of the whole board |
| `Moves.ShiftFixed` | app/src/main/java/com/example/a2048/MainActivity.kt:229-265 | a move leaves the board equal to itself exactly when it leaves every line unchanged |
| `GameOver.IsGameOver` | app/src/main/java/com/example/a2048/MainActivity.kt:267-286 | the result is true exactly when no cell is 0 and no horizontally or vertically adjacent pair is equal |
| `GameOver.TerminalIsStuck` | app/src/main/java/com/example/a2048/MainActivity.kt:267-286 | on a game-over board each of the four moves returns the board unchanged |
| `GameOver.StuckIsFull` | app/src/main/java/com/example/a2048/MainActivity.kt:269 | a board that holds a tile and that no move changes has no empty cell |
| `GameOver.TerminalIffStuck` | app/src/main/java/com/example/a2048/MainActivity.kt:267-286 | a board is game over exactly when it holds a tile and none of the four moves changes it |
| `GameOver.EmptyBoardNotOver` | app/src/main/java/com/example/a2048/MainActivity.kt:269 | no move changes the all-empty board, yet it is not game over |
| `GameOver.CheckerboardOver` | app/src/main/java/com/example/a2048/MainActivity.kt:267-286 | the full 2/4 checkerboard is game over |
| `Placement.EmptyInRow` | app/src/main/java/com/example/a2048/MainActivity.kt:217-219 | what the inner loop lists after `c` steps: cells of row `r` left of column `c`, each of them empty |
| `Placement.EmptyRows` | app/src/main/java/com/example/a2048/MainActivity.kt:216-220 | what the outer loop lists after `r` steps: cells on the board in rows above `r`, each of them empty |
| `Placement.ListEmptyCells` | app/src/main/java/com/example/a2048/MainActivity.kt:215-220 | the nested loops list exactly `EmptyCells(b)` |
| `Placement.EmptyCellsExact` | app/src/main/java/com/example/a2048/MainActivity.kt:215-220 | the empty-cell list names every empty cell and only empty cells, in row-major order, with no cell twice |
| `Placement.AddRandomTile` | app/src/main/java/com/example/a2048/MainActivity.kt:214-226 | listing the empty cells and writing into the picked one gives the board `Spawn(b, pick, value)` |
| `Placement.SpawnEffect` | app/src/main/java/com/example/a2048/MainActivity.kt:214-226 | with no empty cell the board is returned unchanged. Otherwise the picked cell was empty and now holds the value (2 or 4). Every other cell is unchanged. There is one empty cell fewer. Cell values stay 0 or powers of two |
| `Placement.Spawns` | app/src/main/java/com/example/a2048/MainActivity.kt:208-210 | a run of spawns into the empty board, each pick in range for the cells left, gives a 4x4 board |
| `Placement.SpawnsCount` | app/src/main/java/com/example/a2048/MainActivity.kt:214-226 | each spawn of the run fills one empty cell: after `n` spawns the empty board has `16 - n` empty cells |
| `Placement.SpawnsValues` | app/src/main/java/com/example/a2048/MainActivity.kt:214-226 | after spawns into the empty board every cell is 0, 2 or 4 |
| `Placement.Seeded` | app/src/main/java/com/example/a2048/MainActivity.kt:207-212 | the board `newBoard` builds, two spawns into the empty board, is 4x4 |
| `Placement.SeededShape` | app/src/main/java/com/example/a2048/MainActivity.kt:207-212 | a new board has exactly 14 empty cells, so exactly two tiles; every cell is 0, 2 or 4, so it is a board of tiles |
| `Placement.FirstSpawn` | app/src/main/java/com/example/a2048/MainActivity.kt:208-209 | the first pick (below 16) names an empty cell of the empty board; the first spawn is `Spawn(EmptyBoard(), pick1, value1)` and leaves 15 empty cells |
| `Placement.SecondSpawn` | app/src/main/java/com/example/a2048/MainActivity.kt:209-210 | the second pick (below 15) names an empty cell of the board the first spawn left, so a new board is `Spawn(Spawn(EmptyBoard(), pick1, value1), pick2, value2)` |
| `Placement.NewBoard` | app/src/main/java/com/example/a2048/MainActivity.kt:207-212 | `newBoard` returns `Seeded(pick1, value1, pick2, value2)`: the empty board with `addRandomTile` applied twice with the given choices |
| `Session.Game.constructor` | app/src/main/java/com/example/a2048/MainActivity.kt:59-60 | the game starts with a score of 0 on the board `newBoard` builds for the given choices: the empty board with a tile of 2 or 4 spawned into the first picked empty cell, then another into the second |
| `Session.Game.Play` | app/src/main/java/com/example/a2048/MainActivity.kt:93-100 | a move that leaves the board equal changes neither board nor score and shows no notice. Otherwise the board becomes a spawn of the moved board and the score grows by the move's score. The game-over notice is shown exactly when the new board is over. The score never decreases, and the board stays 4x4 with cell values 0 or powers of two. On a board that is already over, every direction button leaves board and score as they are and shows no notice |
| `Session.Game.Restart` | app/src/main/java/com/example/a2048/MainActivity.kt:143-146 | restart sets the score to 0 and the board to what `newBoard` builds for the given choices, the same board the game starts on |

## Left out

- The Compose UI is not modelled: `MainActivity.onCreate`, the layout of `Game2048`, `CircleButton` and `Tile`. It only renders.
- `tileColor` is not modelled. It maps cell values to display colours and holds no game logic.
- The `Toast` notices are I/O. `Play` returns the condition under which the game-over notice is shown; the "New Game" notice is dropped.
- Probabilities are not modelled: the 90% / 10% split of `Random.nextInt(100) < 90` and the uniform choice of `emptyCells.random()`. The choices are inputs, constrained to the values the source can produce.
- `remember` / `mutableStateOf` are not modelled. Only the update rule on the two state variables is kept, as the fields of `Game`.
- CollapseRow: does not model Kotlin's 32-bit `Int` wrap-around of the doubled tile and of the score. Cells and scores are unbounded integers. A 4x4 board cannot build a tile anywhere near 2^31.
- MoveUp: takes only 4x4 boards. The source reads indices 0..3, so it would fail on a smaller board and ignore extra rows or columns of a larger one.
- MoveDown: takes only 4x4 boards, for the same reason as `MoveUp`.
- IsGameOver: takes only 4x4 boards, and so do `ListEmptyCells`, `AddRandomTile` and `Game.Play` (through `Valid`). The source reads indices 0..3 (MainActivity.kt:218, 274), so it would fail on a smaller board and ignore extra cells of a larger one; every caller passes a 4x4 board.
