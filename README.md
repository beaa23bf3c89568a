# Minesweeper board engine in Dafny

This project models the board engine of a React Minesweeper game and the small
formatters of its counters. It covers:

- **Bomb placement** (`shuffle`). Cells are drawn one at a time from a shrinking
  pool. One safe cell is inserted at an index computed from the first click.
- **Neighbour counts** (`setBombCount`).
- **The right-click flag cycle** (`nextState`).
- **The board session** (`Board/index.tsx`), a class whose fields are the
  component's state: `boardSurfaces`, `started`, `startPosition`,
  `currentPosition`, `gameStatus` and the current `modeInfo`. Its methods are
  `initialBoard`, `setBoardItems`, `updateCell`, `openCell` and `changeCell`,
  plus the effects React runs after a state change.
- **The three-glyph counters**: elapsed seconds (molecules/Time and atoms/Time)
  and remaining bombs (molecules/BombCount).
- **The table of difficulty modes**.

Modules:

| module | file | models |
|---|---|---|
| `Wrappers` | wrappers.dfy | `Option`, for the nullable state fields |
| `ModeConstraints` | modes.dfy | src/constraints/Modes/index.ts |
| `CellTypes` | cells.dfy | `CellStates`, `CellType`, `PositionType`, `initialCell` |
| `Digits` | digits.dfy | `String(n)` and `("000" + s).slice(s.length)` |
| `TimeDisplay` | time_display.dfy | src/components/molecules/Time/index.tsx |
| `TimeLabel` | time_label.dfy | src/components/atoms/Time/index.tsx |
| `BombCounter` | bomb_counter.dfy | src/components/molecules/BombCount/index.tsx |
| `BoardModule` | board_module.dfy | src/components/templates/Board/Module/index.tsx |
| `Board` | board.dfy | src/components/templates/Board/index.tsx |

The random draw `Math.floor(Math.random() * n)` of `shuffle` becomes a parameter
`picks`. Entry `t` of `picks` is any index below the size of the pool at
iteration `t` (`ValidPicks`). The clock of the time counters becomes the
parameter `nowSeconds`, in whole unix seconds.

The three helpers `openAroundSafeCells`, `openedBombCells` and
`changedBombCellsToFlag` are imported by Board/index.tsx, but their bodies are
not part of this model. The effects that call them take them as
function-valued parameters, and the only thing required of them is that they
keep the shape of the grid.

The code is followed where it differs from what its own comments say it intends:

- The comment at src/components/templates/Board/index.tsx:71 says the pool is
  one cell short so that the first selected cell holds no bomb. The code
  inserts the safe cell at output index `(i+1)*(j+1)-1`, not at the click's
  own index `i*x+j`, and the model does the same. See "## Findings".
- The comment at src/components/templates/Board/Module/index.tsx:14 names
  Durstenfeld's method (the improved Fisher-Yates shuffle). The code does not
  swap in place. It draws a cell, moves the last cell into the drawn slot and
  truncates. The model does the same.

The React effect chain is modelled as methods that a caller runs in the order
React would: `OpenCell` (first click), `StartEffect`, `StartedEffect`,
`PositionEffect`, `StatusEffect`.

## Model

| member | source | states |
|---|---|---|
| ModeConstraints.ModesTable | src/constraints/Modes/index.ts:11-27 | The table has exactly the keys easy, normal and hard, with bombs/width/height 10/10/7, 40/18/14 and 99/24/20. |
| ModeConstraints.ModesPlayable | src/constraints/Modes/index.ts:11-27 | Every mode has a positive width and height and at most `x*y-1` bombs, which is what the bomb list of `setBoardItems` needs. |
| Digits.NatToString | src/components/molecules/Time/index.tsx:26 | `String(n)` for `n >= 0` is a non-empty string of decimal digits, with no leading zero unless `n == 0`. |
| Digits.IntToString | src/components/molecules/BombCount/index.tsx:10 | `String(count)` starts with a minus sign exactly when `count < 0`. The digits after it read back as `count`'s absolute value, with no leading zero unless `count == 0`. |
| Digits.ValueOfNatToString | src/components/molecules/Time/index.tsx:26 | Reading the decimal numeral `String(n)` back as a number gives `n`. |
| Digits.NatToStringLength | src/components/molecules/Time/index.tsx:26 | `String(n)` has one glyph iff `n < 10`, at most two iff `n < 100`, and at most three iff `n < 1000`. |
| Digits.ZeroPad | src/components/molecules/Time/index.tsx:30-32 | `("000" + s).slice(s.length)` always has length 3. It is `s` left-padded with '0' when `s` has at most three glyphs, and the last three glyphs of `s` otherwise. |
| Digits.ZeroPadNatToString | src/components/molecules/BombCount/index.tsx:10-12 | Padding the numeral of any `n >= 0` gives the three-digit numeral of `n mod 1000`. |
| TimeDisplay.Clamp | src/components/molecules/Time/index.tsx:20-28 | The shown seconds lie in 0..999. They are 0 for negative times, 999 from 999 on, and the time itself in between. |
| TimeDisplay.TimeStr | src/components/molecules/Time/index.tsx:20-28 | `timeStr` is the decimal numeral of the clamped time: one to three digits whose value is the clamped time. |
| TimeDisplay.ShownTime | src/components/molecules/Time/index.tsx:30-32 | `zeroPaddingTime(timeStr(t))` is the three-digit zero-padded numeral of the clamped time. |
| TimeDisplay.DisplayTime | src/components/molecules/Time/index.tsx:34-44 | The display is always three digits. It is "000" while `startUnixTime` is 0. Once finished, its value is the clamped `finished - start`; otherwise it is the clamped `now - start`. |
| TimeDisplay.FinishedIgnoresClock | src/components/molecules/Time/index.tsx:39-41 | Once `finishedUnixTime` is set, the display does not depend on the clock. |
| TimeLabel.Render | src/components/atoms/Time/index.tsx:19-41 | The label is "000" before the start, then the three-digit numeral of the clamped finished or running time. |
| TimeLabel.SameAsDisplayTime | src/components/atoms/Time/index.tsx:19-41 | The label and the molecule counter show the same three glyphs for every input. |
| BombCounter.ZeroPaddingCount | src/components/molecules/BombCount/index.tsx:9-13 | The counter is the last three glyphs of `"000" + String(count)`, so it has three glyphs. Counts >= 0 show their last three digits. -9..-1 show "0-d" and -99..-10 show "-dd". From -100 down, the minus sign is lost and the last three digits show. |
| BombCounter.PadLongNegative | src/components/molecules/BombCount/index.tsx:10-12 | For a count of -100 or less, padding drops the minus sign and keeps the last three digits of the number. |
| BombCounter.ShowsSmallCounts | src/components/molecules/BombCount/index.tsx:9-13 | Every count from 0 to 999 shows as its three-digit numeral, whose value is the count. |
| BombCounter.ThousandWrapsToZero | src/components/molecules/BombCount/index.tsx:12 | A count of 1000 shows as "000". |
| BoardModule.TakeOut | src/components/templates/Board/Module/index.tsx:23-25 | Moving the last cell into slot `k` and truncating leaves a pool one shorter that has lost exactly the drawn cell (multiset). |
| BoardModule.DrawnPermutation | src/components/templates/Board/Module/index.tsx:15-26 | For any valid draws, the cells pushed from the pool are a permutation of the input. |
| BoardModule.Shuffle | src/components/templates/Board/Module/index.tsx:11-29 | The loop ends, because the pool shrinks each iteration. Its output is the cells in draw order, with `initialCell` inserted at index `(i+1)*(j+1)-1` when that index is below the input length. |
| BoardModule.ShuffledCells | src/components/templates/Board/Module/index.tsx:19-21 | If `p` is below the input length `n`, the output has length `n+1` and `initialCell` at index `p`, and removing index `p` leaves a permutation of the input. Otherwise the output is a permutation of length `n`. |
| BoardModule.ShuffledBombs | src/components/templates/Board/Module/index.tsx:19-23 | `shuffle` neither adds nor loses a bomb. |
| BoardModule.BombsAroundNeighbours | src/components/templates/Board/Module/index.tsx:46-77 | The number of bomb cells adjacent to (i, j), counted over the whole grid, is the sum over the eight positions the source tests, in its order. It is at most 8. |
| BoardModule.PushIfInside | src/components/templates/Board/Module/index.tsx:47-49 | One bounds test pushes `array[a][b]` exactly when (a, b) is on the board. It adds that cell's bomb, if any, to the count. |
| BoardModule.PushUpperAndRight | src/components/templates/Board/Module/index.tsx:46-61 | The upper-left, up, upper-right and right tests push at most four cells, and add the bombs at those four positions. |
| BoardModule.PushLowerAndLeft | src/components/templates/Board/Module/index.tsx:62-77 | The lower-right, down, lower-left and left tests push at most four cells, and add the bombs at those four positions. |
| BoardModule.AroundCells | src/components/templates/Board/Module/index.tsx:41-80 | `targetCellsIndex` holds at most 8 cells. `filter(bomb).length` on it is the number of bombs adjacent to (i, j). |
| BoardModule.SetBombCount | src/components/templates/Board/Module/index.tsx:31-93 | The result has the input's shape. Bomb cells are copied. Every other cell is copied with `value` set to its neighbouring bomb count. |
| BoardModule.CountedCells | src/components/templates/Board/Module/index.tsx:38-85 | After counting, every cell keeps its state and bomb flag, bomb cells are unchanged, and every safe cell holds its exact neighbour count, in 0..8. |
| BoardModule.NextState | src/components/templates/Board/Module/index.tsx:116-127 | `nextState` yields open exactly for open. |
| BoardModule.NextStateCycle | src/components/templates/Board/Module/index.tsx:116-127 | close goes to flag, flag to onHold, and onHold back to close. Three steps are the identity, and open is the only fixed state. |
| Board.ChunkedFlatten | src/components/templates/Board/index.tsx:51-53 | Concatenating the rows of the reshaped list gives back the list. |
| Board.ChunkedCount | src/components/templates/Board/index.tsx:77-79 | The reshape makes `ceil(len/x)` rows: `(rows-1)*x < len <= rows*x`, and no rows for an empty list. |
| Board.ChunkedGrid | src/components/templates/Board/index.tsx:51-53 | A list of `x*y` cells reshapes into `y` rows of `x`. Cell (r, c) is the list's cell `r*x+c`. |
| Board.Reshape | src/components/templates/Board/index.tsx:77-79 | The `for (i = 0; i < len; i += x) push(slice(i, i+x))` loop computes the chunking into rows of `x`. |
| Board.Pool | src/components/templates/Board/index.tsx:69-72 | The bomb list holds `x*y-1` cells, exactly `bomb` of them bombs, and every cell is the bomb cell or `initialCell`. |
| Board.PlacedBombs | src/components/templates/Board/index.tsx:74-80 | The board `setBoardItems` builds holds exactly `bomb` bombs. |
| Board.SafeCellInserted | src/components/templates/Board/Module/index.tsx:19-21 | The safe cell is inserted exactly when the first click is not on the bottom-right cell. |
| Board.StartIndexIsRowMajor | src/components/templates/Board/Module/index.tsx:19 | The insertion index `(i+1)*(j+1)-1` equals the click's row-major index `i*x+j` exactly when `i == 0` or `j == x-1`. |
| Board.FirstClickCanHitBomb | src/components/templates/Board/Module/index.tsx:19-21 | On a 2 by 2 board with one bomb, a first click at (1, 0) with draws [1, 0, 0] gets the board [[safe, safe], [bomb, safe]], so the clicked cell is the bomb. |
| Board.ShuffledAtClickIsSafe | src/components/templates/Board/Module/index.tsx:19-21 | With the safe cell at the row-major index, every first click gets a full `y` by `x` board whose clicked cell is the safe cell and which holds all `bomb` bombs. |
| Board.WinTestIsFilter | src/components/templates/Board/index.tsx:98-105 | The source's win test `closeSafeCellRows.length === 0` holds exactly when no cell is both safe and closed. Flagged or question-marked safe cells do not block a win. |
| Board.WithState | src/components/templates/Board/index.tsx:125-135 | Updating (i, j) keeps the shape, gives that cell the new state with its bomb and value, and leaves every other cell as it was. |
| Board.WithSameState | src/components/templates/Board/index.tsx:164-170 | Setting a cell to its current state (a right click on an open cell) changes nothing. |
| Board.Board.constructor | src/components/templates/Board/index.tsx:62-64 | Mounting the board leaves it reset for its mode. |
| Board.Board.InitialBoard | src/components/templates/Board/index.tsx:45-60 | `initialBoard` yields `y` rows of `x` copies of `initialCell`. It clears `started`, `startPosition`, `currentPosition` and `gameStatus`. |
| Board.Board.ChangeMode | src/components/templates/Board/index.tsx:60-64 | A new mode rebuilds the reset board for that mode. |
| Board.Board.SetBoardItems | src/components/templates/Board/index.tsx:66-82 | The board becomes the counted reshape of the shuffled bomb list, with exactly `bomb` bombs. It fails exactly for a first click on the bottom-right cell, and then changes nothing. No other field changes. |
| Board.Board.StartEffect | src/components/templates/Board/index.tsx:84-89 | Once `startPosition` is set, the bombs are placed and `started` becomes true, except for the refused bottom-right first click, where nothing changes. Before that nothing changes. |
| Board.Board.UpdateCell | src/components/templates/Board/index.tsx:125-135 | Only the state of cell (i, j) changes. |
| Board.Board.OpenCell | src/components/templates/Board/index.tsx:137-152 | Nothing happens once the game is decided. The first click only records `startPosition` and `currentPosition`. Later clicks open a closed cell and record it; flagged, question-marked and open cells are left alone. |
| Board.Board.StartedEffect | src/components/templates/Board/index.tsx:154-158 | Once started, the first clicked cell is opened as `openCell` would open it. |
| Board.Board.PositionEffect | src/components/templates/Board/index.tsx:91-112 | Opening a bomb loses. Otherwise the game is won when no safe cell is closed. Otherwise an open cell with count 0 has its surroundings opened. Nothing else changes. |
| Board.Board.StatusEffect | src/components/templates/Board/index.tsx:114-123 | On a loss the board becomes `openedBombCells(board)`, on a win `changedBombCellsToFlag(board)`, and otherwise it stays. |
| Board.Board.ChangeCell | src/components/templates/Board/index.tsx:164-170 | After the first click and while undecided, the cell moves one step along the flag cycle. An open cell stays as it is. Nothing else changes. |

## Left out

- Rendering is not modelled. This covers `cellLabel`, the cell, digit, button and
  message components, and internationalisation. They only display the state.
- `Math.random` and `Math.floor` are not modelled. The draws are the parameter
  `picks`, and nothing is claimed about their distribution.
- The clock is not modelled. `new Date()`, `setInterval` and
  `Math.floor(getTime()/1000)` become the integer parameter `nowSeconds`.
- React's scheduling and batching of effects is not modelled, and neither is
  stale-closure behaviour. The effects are methods called in sequence.
- The bodies of `openAroundSafeCells`, `openedBombCells` and
  `changedBombCellsToFlag` are not part of this model. They are parameters that
  only have to keep the grid's shape.
- Board.Board.SetBoardItems: a first click on the bottom-right cell gets a
  list one cell short of the board. For `x > 1` the source builds a last row
  missing its final cell, and for `x == 1` it builds one row fewer. Counting
  neighbours then fails at the first safe cell that pushes the missing cell.
  No cell pushes it when `x == 1`, when `y == 1`, or when the cells
  (y-2, x-2) and (y-2, x-1) are both bombs. Then `setBombCount` completes,
  `started` becomes true (src/components/templates/Board/index.tsx:87), and
  the game fails later, when `openCell` reads the state of the missing start
  cell (src/components/templates/Board/index.tsx:141). The model reports
  `false` and keeps the old board in every one of these cases.
- Board.Board.StartEffect: for the refused bottom-right first click the model
  leaves `started` false and the board unchanged. In the cases above where
  `setBombCount` completes, the source sets `started` to true on a short
  board.
- BoardModule.SetBombCount requires a rectangular grid. The failure on ragged
  grids, reachable only through the bottom-right case above, is not modelled.
- The `modeInfo` that `setBoardItems` passes along with the start position is
  ignored by `shuffle`, and so it is absent from `Shuffle`.
- Numbers are unbounded integers. `NatToString` and `IntToString` are
  `String(n)` only for integers with `|n| < 10^21`. From there on JavaScript
  prints exponent notation (`"1e+21"`), which is not modelled. The game's bomb
  counts and clamped times stay far below that bound.
- BoardModule.Shuffle works on values. On its first iteration the source's
  `cells[k] = cells[n - 1]` (src/components/templates/Board/Module/index.tsx:24)
  writes into the caller's array before `cells` is rebound to a copy. The
  model does not capture that write. `setBoardItems` never reads its array
  again after the call.

## Findings

| source | as written | input that shows it | evidently intended | confidence | as-written member | corrected member |
|---|---|---|---|---|---|---|
| src/components/templates/Board/Module/index.tsx:19 | The safe cell is inserted at output index `(i+1)*(j+1)-1`. | 2 by 2 board, 1 bomb, first click at row 1, column 0, draws [1, 0, 0]: the safe cell goes to (0, 1) and the bomb to (1, 0), under the click. | Insert the safe cell at the click's row-major index `i*x+j`, so the first click is never a bomb. | not executed | Board.FirstClickCanHitBomb | Board.ShuffledAtClickIsSafe |

The two differ except in the top row and the rightmost column
(`Board.StartIndexIsRowMajor`). The corrected placement is `Board.ShuffledAtClick`.
The session class keeps the placement as written, so that its methods describe
the game as it behaves.
