# Tic-tac-toe game logic in Dafny

A model of the game logic of a single-page tic-tac-toe app (`src/App.js`):
a 3x3 board, alternating X and O, win and draw detection, a computer
opponent that plays O at a random empty cell in single-player mode, and the
session controls (choose a mode, reset the game, return home).

The React component's four pieces of state (`board`, `isNext`, `gameMode`,
`showReturnHome`) become one immutable `Game.State`; each event handler
becomes a pure function from state to state. Derived values (`winner`,
`isBoardFull`, the status line) are functions of the state, as in the
source.

| file | module | what it holds |
|---|---|---|
| `wrappers.dfy` | `Wrappers` | `Option`, for the source's `null` results |
| `board.dfy` | `Board` | marks, cells, the nine-cell board, `WINNING_PATTERNS`, `calculateWinner`, `isBoardFull`, the empty-cell list, mark counts |
| `game.dfy` | `Game` | the state, `handleClick`, the computer's move, `resetGame`, `returnHome`, mode selection |
| `status.dfy` | `Status` | `getStatusMessage` |
| `session.dfy` | `Session` | every event as one reducer step, runs of steps, and facts about every reachable state |
| `scenarios.dfy` | `Scenarios` | concrete games: a multiplayer opening, a top-row win, a draw, the computer's reply, a double line |

Modelling choices:

- A board is a `seq<Cell>` of length exactly 9 (`Board.Board`); a cell is
  `Empty` (`null`) or `Filled(X)` / `Filled(O)`. Cell indexes are the
  subset type `Board.Index` (0..8), the only values the grid's buttons pass.
- `Math.random()` is replaced by a parameter `draw: nat` standing for
  `Math.floor(Math.random() * n)` with `n` the number of empty cells: it is
  below `n`, or 0 when `n` is 0 (`Game.ValidDraw`). Every property of the
  computer's move is proved for every such draw.
- The computer's move, scheduled with `setTimeout` in the source, is one
  atomic step on the current state (`Game.ComputerMove`), taken by
  `Session.Apply` like any click.
- Choosing a mode only sets the mode (lines 93 and 96 call nothing but
  `setGameMode`). So returning home and choosing a mode again resumes the
  old board and turn. One might expect choosing a mode to start a fresh
  game; the handlers do not, and the model follows them
  (`Session.HomeThenChooseResumes`).

## Model

| member | source | states |
|---|---|---|
| `Board.InitialBoard` | src/App.js:4 | the initial board has nine cells, all empty |
| `Board.WinningPatternsAreTheLines` | src/App.js:12-21 | every pattern in the table is a straight line of three cells, and every straight line of three on the grid is in the table |
| `Board.TableOrder` | src/App.js:12-21 | the table lists three rows, then three columns, then the two diagonals, the order in which the evaluator scans them |
| `Board.FirstCompleted` | src/App.js:24-29 | the loop scanning patterns from a given position stops at a pattern whose three cells hold the same non-empty mark, having passed only patterns that do not; it runs to the end exactly when none from there on does |
| `Board.CalculateWinner` | src/App.js:23-31 | no result exactly when no mark has three in a row; otherwise the reported mark fills all three cells of the reported pattern, and that pattern is the first completed one in table order |
| `Board.CalculateWinnerIsFirstWin` | src/App.js:23-31 | the evaluator reports pattern number k if and only if k is completed and no earlier pattern is (first match, both directions) |
| `Board.EmptyIndexesFrom` | src/App.js:51-53 | the indexes collected from a position on are exactly the empty cells there, in ascending order |
| `Board.EmptyIndexes` | src/App.js:51-53 | an index is in the empty-cell list if and only if its cell is empty; the list is ascending |
| `Board.IsBoardFull` | src/App.js:36 | the board is full (no cell null) if and only if the X and O marks together occupy all nine cells |
| `Board.FullIffNoEmptyIndex` | src/App.js:36 | the board is full if and only if the empty-cell list is empty |
| `Game.InitialState` | src/App.js:7-10 | the game starts with an empty board, X to move, no mode, and the return-home option hidden |
| `Game.Winner` | src/App.js:33-34 | the winner is absent exactly when no mark has a line; a reported winner has a line |
| `Game.HandleClick` | src/App.js:38-47 | a click on an occupied cell, after a win, or on O's turn in single-player mode (the three cases `Game.ClickAccepted` excludes) changes nothing; an accepted click writes the mover's mark into that cell only and flips the turn; no filled cell ever changes; in single-player mode a click that changes anything writes X |
| `Game.ComputerChoice` | src/App.js:51-58 | the drawn index is always an empty cell, and there is no move exactly when the board is full |
| `Game.ComputerMove` | src/App.js:49-67 | unless the effect's guard `Game.ComputerToMove` holds (single-player mode, O to move, no winner), or on a full board, nothing changes; otherwise O goes into the chosen empty cell only and the turn returns to X; no filled cell ever changes |
| `Game.EveryEmptyCellCanBeChosen` | src/App.js:51-56 | every empty cell is picked by some draw, so the computer may play anywhere free |
| `Game.ResetGame` | src/App.js:75-79 | after a reset the board is all empty with no winner, X moves, the return-home option is shown, and the mode is kept |
| `Game.ReturnHome` | src/App.js:81-84 | returning home clears the mode and hides the option, leaving board and turn as they were |
| `Game.SelectMode` | src/App.js:93-98 | choosing a mode sets it and leaves board, turn and the return-home option untouched |
| `Game.GameOverIgnoresMoves` | src/App.js:38-58 | once there is a winner or the board is full, every click and every computer move leaves the state unchanged |
| `Status.GetStatus` | src/App.js:69-73 | a win is reported exactly when there is a winner, and names a mark with a line; a draw exactly when nobody has a line and the board is full; otherwise the turn of the mark the flag selects, on an open board |
| `Status.Message` | src/App.js:70-72 | the draw status gives exactly "It's a draw!"; a win gives "Player " then the winner's mark then " Wins!", the only 14-character text ending in " Wins!"; a turn gives "Player " then the mark to move then " Turn" |
| `Status.StatusMessage` | src/App.js:69-73 | "It's a draw!" is shown if and only if there is no winner and the board is full; "Player M Wins!" if and only if M is the winner; "Player M Turn" if and only if nobody has won, the board is not full and M is the mark to move |
| `Status.MessageInjective` | src/App.js:69-73 | different statuses produce different texts |
| `Session.InitialConsistent` | src/App.js:4-10 | the initial state satisfies the invariant: marks counted agree with the turn flag, and at most one mark has a line |
| `Session.FillPreservesConsistent` | src/App.js:42-46 | writing the mover's mark into an empty cell of an undecided board and flipping the turn keeps the invariant |
| `Session.StepPreservesConsistent` | src/App.js:38-98 | every click, computer move, reset, return home and mode choice keeps the invariant |
| `Session.RunPreservesConsistent` | src/App.js:38-98 | any run of steps from a state satisfying the invariant ends in one satisfying it |
| `Session.ReachableStatesConsistent` | src/App.js:7-98 | in every reachable state X has as many marks as O when X is to move and one more when O is, and never do both marks have a line |
| `Session.RunKeepsMarks` | src/App.js:38-67 | in any run without a reset, a filled cell keeps its mark to the end |
| `Session.GameOverIsFinal` | src/App.js:38-67 | once there is a winner or the board is full, no run without a reset changes the board |
| `Session.SinglePlayerClickWritesX` | src/App.js:40-43 | in single-player mode the human's click either changes nothing or places X |
| `Session.HomeThenChooseResumes` | src/App.js:81-98 | returning home and choosing a mode again keeps the previous board and turn, with the new mode |
| `Scenarios.MultiplayerStart` | src/App.js:96 | choosing multiplayer on the initial state gives an empty board with X to move in multiplayer mode |
| `Scenarios.MultiplayerFirstMove` | src/App.js:38-47 | X clicking cell 4 on the empty board places X there and passes the turn |
| `Scenarios.MultiplayerSecondMove` | src/App.js:38-47 | O clicking cell 0 then gives O at 0, X at 4, X to move, and no winner |
| `Scenarios.TopRowMove` | src/App.js:38-47 | X clicking cell 2 with X at 0 and 1 completes the top row |
| `Scenarios.TopRowWinner` | src/App.js:23-31 | that board is won by X along pattern [0, 1, 2] |
| `Scenarios.TopRowMessage` | src/App.js:69-70 | its status line reads "Player X Wins!" |
| `Scenarios.TopRowClicksIgnored` | src/App.js:39 | after that win every click, on any cell, is ignored |
| `Scenarios.DrawnGameHasNoWinner` | src/App.js:23-31 | a particular full board without three in a row has no winner |
| `Scenarios.DrawnGameMessage` | src/App.js:69-71 | its status line reads "It's a draw!" |
| `Scenarios.SinglePlayerFirstMove` | src/App.js:38-47 | in single-player mode X clicking cell 0 places X and hands the turn to O |
| `Scenarios.SinglePlayerEmptyCells` | src/App.js:51-53 | the empty-cell list is then 1..8 in order |
| `Scenarios.SinglePlayerUndecided` | src/App.js:50 | nobody has won yet, so the computer's move fires |
| `Scenarios.ComputerAnswersFirstMove` | src/App.js:49-67 | for each of the eight possible draws the computer puts O into a different free cell and gives the turn back to X |
| `Scenarios.FirstListedLineWins` | src/App.js:24-28 | when the top row and the left column are both X, the top row, listed first, is reported |

## Left out

- Rendering: the JSX, CSS classes, the winning-cell highlight (a cell is highlighted when the reported pattern includes it, lines 35 and 108), the profile link and footer. They hold no game logic.
- Game.ComputerMove: the 300 ms `setTimeout` and React's effect scheduling are not modelled; the move is one atomic step on the current state. The callback in the source writes into the board captured when the effect ran (line 60), so the board a reset produces inside the 300 ms window is overwritten by that old board plus an O, with X to move; so is any click made in the window (possible after a reset, or after returning home and choosing multiplayer), and the O is placed even when the player has returned home in the meantime. An atomic step cannot show this, so `Session.RunKeepsMarks` and `Session.GameOverIsFinal` hold of the atomic step only, not of the source's timed callback.
- Game.EveryEmptyCellCanBeChosen: states that every empty cell is a possible move, not that each is chosen with equal probability; probabilities and floating point are outside the model.
- Game.HandleClick: indexes outside 0..8 are excluded by the `Index` type; the grid only ever passes 0..8.
- Which buttons are on screen (mode buttons only without a mode, board and reset only with one, return home only after a reset) is presentation; the handlers themselves do not check it, and the model's transitions do not either.
