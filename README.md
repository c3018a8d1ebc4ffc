# Tic-Tac-Toe on an R x C board with a target of k in a row

This project is a Dafny model of the game logic in `src/index.js`. That file is a React component for tic-tac-toe generalised to R rows, C columns and a target run of k marks. Cells are numbered row-major: cell `row * C + col`. The model covers four things:

- **The winning-line generator** (`calculatePossibilities`). It lists every column, row, down-left diagonal and down-right diagonal as a list of cell numbers. Diagonals are walked from start cells on one border until they reach a cell of an end-point list. Module `LineGenerator`, file `line_generator.dfy`. It holds two things:
  - the generator itself, as methods with loops;
  - the closed-form lines `Lines(R, C)` the methods are proved to compute.
- **The win scanner** (`calculateWinner`) and `isBoardFull`. Module `WinScanner`, file `win_scanner.dfy`. It holds:
  - the scan as methods with loops;
  - the functions `ScanLine` and `Winner` that specify those methods;
  - lemmas on what a reported win is and which of several wins is reported.
- **How the generator and the scanner fit together.** Module `Coverage`, file `coverage.dfy`. Every run of k same marks on the board, in any of the four directions, lies on a generated line, so the scan never misses a win.
- **The component's state and transitions.** Module `GameState`, file `game.dfy`. These are pure functions over a state record:
  - a click on a cell;
  - the restart button;
  - the effect that rebuilds the board when its size changes;
  - the status line.

Module `Board` (`board.dfy`) holds the marks, the reading of a cell, and the cell numbering shared by all modules. The numbering is the order in which `drawBoard` lays out the squares. The highlighting code inverts it with remainder and division.

Where the code and a plain reading of tic-tac-toe differ, the model follows the code:

- **A 3 x 3 board has 12 lines, not 8.** The diagonal passes also produce the corner-cut diagonals `[1,3]`, `[5,7]`, `[1,5]` and `[3,7]` (`LineGenerator.ThreeByThree`).
- **An empty cell does not break a run.** Only the opponent's mark clears it (`WinScanner.EmptyCellDoesNotBreakRun`, `WinScanner.OpponentBreaksRun`).
- **The last winning line is reported.** The scanner's `break` leaves only the inner loop, so when several lines win, the one scanned last is reported (`WinScanner.WinnerIsLastWinningLine`, `Coverage.LastWinningLineReported`).

## Model

| member | source | states |
|---|---|---|
| Board.CellIndexInjective | src/index.js:87-93 | Two on-board cells that `drawBoard` numbers alike are the same cell. |
| Board.CellIndexBounds | src/index.js:87-93 | Every cell of an R x C board gets a number in [0, R*C). |
| Board.CellIndexRoundTrip | src/index.js:152-156 | The row and column that the highlighting code recovers from a cell number, by subtracting the remainder and then dividing, are the row and column the cell was drawn at. |
| Board.IndexRoundTrip | src/index.js:152-156 | Every number in [0, R*C) splits into an on-board row and column that `drawBoard` numbers back to the same number. |
| LineGenerator.VerticalLines | src/index.js:178-185 | The column loop pushes column i as i, i+C, ..., i+(R-1)C, for i from 0 to C-1 in order. |
| LineGenerator.HorizontalLines | src/index.js:192-202 | The row loop pushes row r as rC, rC+1, ..., rC+C-1, for r from 0 to R-1 in order. |
| LineGenerator.WalkDiagonal | src/index.js:229-236 | The inner diagonal loop pushes the current cell, stops after the first cell that is an end point, and otherwise steps on; it never pushes more than R cells. |
| LineGenerator.DiagonalLines | src/index.js:227-239 | The outer diagonal loop yields one walk per starting point, in the starting points' order. |
| LineGenerator.CalculatePossibilities | src/index.js:169-278 | The generator returns exactly the columns, then the rows, then the left diagonals, then the right diagonals. |
| LineGenerator.LeftPointsAt | src/index.js:211-225 | The left pass starts at the top row without its left corner and then the right column without its corners. It ends at the left column below the top row and then the bottom row between its corners. |
| LineGenerator.RightPointsAt | src/index.js:244-257 | The right pass starts at the top row without its right corner and then the left column without its corners. It ends at the right column below the top row and then the bottom row between its corners. |
| LineGenerator.LeftEndPointsExact | src/index.js:211-225 | A cell is in the left end-point list exactly when it is on the left column below the top row, or on the bottom row strictly between the corners. |
| LineGenerator.RightEndPointsExact | src/index.js:244-257 | A cell is in the right end-point list exactly when it is on the right column below the top row, or on the bottom row strictly between the corners. |
| LineGenerator.LeftWalk | src/index.js:230-236 | Walking down-left by C-1 from a start cell, with the end-point list, gives the down-left diagonal up to the left column or the bottom row. |
| LineGenerator.RightWalk | src/index.js:264-270 | Walking down-right by C+1 from a start cell, with the end-point list, gives the down-right diagonal up to the right column or the bottom row. |
| LineGenerator.LeftWalksAreDiagonals | src/index.js:211-241 | The left pass yields, for each start point in order, the closed-form left diagonal. |
| LineGenerator.RightWalksAreDiagonals | src/index.js:244-275 | The right pass yields, for each start point in order, the closed-form right diagonal. |
| LineGenerator.LinesAt | src/index.js:183 | Line i is column i for i < C, and row i-C for the next R positions. After those come the left diagonals, then the right diagonals (the pushes at lines 183, 199, 238 and 272). |
| LineGenerator.LineShape | src/index.js:179-181 | Column i has R cells starting at i and row r has C cells starting at rC. A diagonal has 1 to R cells. Consecutive cells differ by C in a column, 1 in a row, C-1 in a left diagonal and C+1 in a right diagonal (the steps at lines 181, 197, 235 and 269). |
| LineGenerator.LineShapes | src/index.js:169-278 | There are R + C + 2((C-1) + max(R-2, 0)) lines, and every line steps by its kind's stride. |
| LineGenerator.LineInBounds | src/index.js:169-278 | Every cell number in a line is a cell of the board, in [0, R*C). |
| LineGenerator.LinesInBounds | src/index.js:169-278 | Every cell number in every line is in [0, R*C). |
| LineGenerator.LeftDiagonalBorders | src/index.js:211-241 | A left diagonal starts on the top row or the right column, and its last cell is on the left column or the bottom row. No earlier cell is on either, it has 1 to R cells, and all of them are on the board. |
| LineGenerator.RightDiagonalBorders | src/index.js:244-275 | A right diagonal starts on the top row or the left column, and its last cell is on the right column or the bottom row. No earlier cell is on either, it has 1 to R cells, and all of them are on the board. |
| LineGenerator.ThreeByThree | src/index.js:169-278 | On 3 x 3 the generator yields 12 lines: 3 columns, 3 rows, and the left diagonals [1,3], [2,4,6], [5,7] and the right diagonals [0,4,8], [1,5], [3,7]. |
| WinScanner.CalculateWinner | src/index.js:280-315 | The scanner's nested loops, with their inner `break`, compute the result the scan functions specify. |
| WinScanner.IsBoardFull | src/index.js:317-324 | The loop with its early return answers true exactly when no cell is empty, including for an empty board. |
| WinScanner.ScanFromSound | src/index.js:287-306 | From any state the inner loop can reach, a reported win has exactly k cells, and they are the winner's marks in a stretch of the line that the opponent does not interrupt. |
| WinScanner.ScanLineSound | src/index.js:285-306 | A win found on a line has a real mark as winner and exactly k numbers, every one of them a cell holding that mark, taken in line order from one uninterrupted stretch. |
| WinScanner.WinnerIsLastWinningLine | src/index.js:284-308 | The scan reports nothing exactly when no line has a win; otherwise it reports the win of a line that no later line follows with a win of its own. |
| WinScanner.LastWinningLineDecides | src/index.js:284-308 | Conversely, a winning line followed only by lines without a win decides the result. |
| WinScanner.WinnerSound | src/index.js:284-308 | The reported result names a real mark on exactly k cells, in order, of one of the scanned lines, with no opponent's mark among them. |
| WinScanner.ScanFromStopsFirst | src/index.js:293-296 | Within a line the scan stops at the first cell where a run reaches k: the prefix ending there already yields the same win, and the prefix one cell shorter yields none. |
| WinScanner.ScanLineStopsFirst | src/index.js:293-305 | Within a line, the first run to reach k is the one reported. |
| WinScanner.ScanFromFindsRun | src/index.js:287-306 | From a state the loop can reach before or inside k consecutive cells of one mark, the scan finds a win. |
| WinScanner.ScanLineFindsRun | src/index.js:287-306 | If k consecutive cells of a line hold the same mark, the scan of that line reports a win. |
| WinScanner.ScanFromFindsStretch | src/index.js:287-306 | From a state the inner loop can reach, before or inside a stretch that the opponent does not interrupt and that holds at least k cells of one mark, empty cells between them or not, the scan finds a win. |
| WinScanner.ScanLineFindsStretch | src/index.js:285-306 | The converse of the soundness lemma: k or more cells of one mark in a stretch of a line with no opponent's mark, however many empty cells sit between them, make the scan of that line report a win. |
| WinScanner.NoMarksNoWinner | src/index.js:284-308 | A board with no marks has no winner, whatever the lines and the target. |
| WinScanner.EmptyCellDoesNotBreakRun | src/index.js:288-306 | X, empty, X, X with a target of 3 is an X win on the three marked cells [0, 2, 3]. |
| WinScanner.OpponentBreaksRun | src/index.js:289-299 | X, O, X, X with a target of 3 is no win, because the O clears X's run. |
| Coverage.SegmentOnSomeLine | src/index.js:169-278 | Every straight stretch of on-board cells, down, across, down-left or down-right, lies in order and without gaps on one generated line. |
| Coverage.NoWinMissed | src/index.js:280-308 | When k consecutive on-board cells in any of the four directions hold the same mark, the scan of the generated lines reports a winner. |
| Coverage.TopRowWins | src/index.js:280-308 | On the 3 x 3 board three X in the top row win on cells 0, 1, 2. |
| Coverage.MiddleRowWins | src/index.js:280-308 | On 3 x 3, X O X in the top row is no win, and three X in the middle row win on cells 3, 4, 5. |
| Coverage.LastWinningLineReported | src/index.js:284-308 | When the left column (scanned first) and the top row both win, the top row is reported. |
| GameState.Initial | src/index.js:9-15 | The state starts with nine empty cells, X to move, a 3 x 3 board, a target of 3, and no lines yet. |
| GameState.Refresh | src/index.js:18-21 | The effect regenerates the lines for the current size and clears the board to R*C cells. The turn and the target stay, and the result is a consistent state. |
| GameState.Mount | src/index.js:9-21 | After the first effect the game is a 3 x 3 board of nine empty cells with a target of 3 and X to move. It is consistent (its lines are those of a 3 x 3 board) and balanced. |
| GameState.Resize | src/index.js:18-21 | A new size gives a consistent, empty board of that size. The turn flag and the target are kept. |
| GameState.Move | src/index.js:30-38 | A click on a taken cell, or after a win, changes nothing. Otherwise exactly that cell gets the current mark, every other cell and the size and lines stay, and the turn passes. |
| GameState.Restart | src/index.js:46-49 | Restart gives R*C empty cells with X to move, and keeps the size, target and lines. |
| GameState.GetStatus | src/index.js:54-62 | The status names a winner exactly when there is one, and then it is "Winner: " followed by the winner's mark. It is "Draw!" exactly when there is no winner and the board is full. Otherwise it is "Next player: " followed by the mark the next click places. |
| GameState.CountUpdate | src/index.js:34-35 | Writing one cell moves it from the count of its old mark to the count of its new one. |
| GameState.FullIffNoEmpty | src/index.js:317-324 | A board is full exactly when it has no empty cell. |
| GameState.MovePreservesValid | src/index.js:30-38 | A click keeps the cell count and the lines consistent with the size. |
| GameState.MovePreservesBalance | src/index.js:30-38 | A click keeps X's marks equal to O's when X is to move, and one ahead when O is to move. |
| GameState.MoveFillsOneCell | src/index.js:30-38 | A click changes the state exactly when its cell is empty and nobody has won, and then fills exactly one empty cell. |
| GameState.RestartResets | src/index.js:46-49 | Restart leaves a consistent, balanced state with no winner, whose status reads "Next player: X". |
| GameState.ResizeKeepsTurn | src/index.js:18-21 | Because a resize keeps the turn, a resize after X's first move leaves an empty board with O to move, and the marks no longer match the turn. |
| GameState.StatusTellsWhetherPlayContinues | src/index.js:30-62 | The status invites the next player exactly when some click would change the game. |
| GameState.StatusWinnerIsGenuine | src/index.js:54-57 | A winner in the status names a real mark holding exactly k cells, in order, of one scanned line. |
| GameState.DrawMeansBoardFilled | src/index.js:58-59 | A draw means no empty cell is left and there is no winner. |
| GameState.PlayKeepsInvariants | src/index.js:30-38 | Any series of clicks on drawn cells keeps a consistent, balanced state consistent and balanced. |
| GameState.MountedPlayBalanced | src/index.js:9-38 | In any game played from the mounted board without a resize, X has as many marks as O or one more. |
| GameState.EffectiveClicksBounded | src/index.js:30-38 | In any series of clicks, the clicks that change the game plus the empty cells left equal the empty cells at the start, so at most as many clicks as there are cells (R*C) change the game. |

## Left out

- React rendering and JSX are not modelled: `drawBoard`'s markup, the `Square` and `Restart` components, the keys built from the clock, and `ReactDOM.render`. They are presentation only. Only the numbering `drawBoard` gives the cells is kept (`Board.CellIndex`).
- `paintWonLines` is modelled only through its index arithmetic (`Board.RowOf`, `Board.ColumnOf`). Its style change on the DOM, and the `try`/`catch` that swallows a missing element, are left out because they are calls into the browser.
- `handleNums` is left out, and with it every edit of the size or the target from the options panel. It relies on JavaScript coercion (`Math.round` on a string, `parseInt`, storing the raw string), and so do the loose comparisons elsewhere when a size is `''` or a decimal string. The model takes integer R, C and k with R, C >= 1. A new size reaches the model only as `GameState.Resize`.
- The options toggle, and the scheduling of `useState` and `useEffect` (which render sees which state), are framework plumbing. The effect is modelled as an atomic step after its size change (`GameState.Refresh`, `GameState.Resize`).
- The target k is compared after `parseInt`. The model takes k as an integer, so a non-numeric k, which never wins, is not modelled.
- `WinScanner.CalculateWinner` does not call the painting of the winning cells, which is the browser side effect above.
- The squares are modelled as values, `seq<Mark>`. The source builds each new board with `slice` or `fill`, so no update in place is lost.
