# Tic Tac Toe rules engine

A Dafny model of the game logic of a browser Tic Tac Toe page (`script.js`).
The page keeps nine cells, indexed 0..8 in row-major order, and a turn flag
`circleTurn` (false while X is to move). `startGame` clears every cell and
gives the move to X. A click on an empty cell runs `handleClick`. It places the
current mark (`placeMark`), then checks for a win (`checkWin`, over the eight
fixed `WINNING_COMBINATIONS`), then for a draw (`isDraw`, all nine cells
filled). Only when neither holds does it pass the turn (`swapTurns`). On a win or
draw, `endGame` writes `"X's Wins!"`, `"O's Wins!"` or `"Draw!"`, naming the
winner from the turn flag.

The project has four modules:

- `board.dfy`, module `Board`: marks and cells, the cell index type, the table
  of winning combinations, `CheckWin` and `IsDraw` written as the `some`/`every`
  walks the page performs. It also proves what they mean: a win is a row, a
  column or a diagonal of the grid, and a draw is a board with no empty cell.
- `rules.dfy`, module `Rules`: the state as a value (`GameState`), the fresh
  state `Start`, one click as a pure function `Click`, the end-of-game message,
  and `Play`, which runs a whole sequence of clicks. It proves how a click's
  outcome relates to the board. It also proves how the turn flag evolves over
  any number of clicks and that filled cells never change.
- `game.dfy`, module `TicTacToe`: the game object `Game`. It has an `array` of
  nine cells, the turn flag and the message text, all updated in place.
  `StartGame`, `PlaceMark`, `SwapTurns`, `EndGame` and `HandleClick` are methods.
  `StartGame`, `EndGame` and `HandleClick` are proved against `Rules.Start`,
  `Rules.EndGameMessage` and `Rules.Click`. `PlaceMark` and `SwapTurns` state
  their effect directly.
- `scenarios.dfy`, module `Scenarios`: whole games played on a `Game` object from
  page load, with their outcomes, boards and messages.

Points of the page's behaviour that the model keeps as they are:

- The engine never locks the board after a win or a draw. The page relies on
  the overlay it shows (script.js:87) to keep clicks off the board, and the
  listeners on the still-empty cells stay armed. A further
  click places the same mark again and, because the winning line is still
  there, reports a win again (`Rules.ClickAfterWin`,
  `Scenarios.ClickAfterWinGame`). There is no `finished` flag and no invalid-move
  result for a finished game.
- A click always targets one of the nine cells, so an index outside 0..8 cannot
  occur. The index has type `Board.Index` (0..8) instead of being checked.
- A click on a filled cell has no effect, because its `{ once: true }` listener
  has already fired. The model returns the outcome `Ignored` and leaves the state
  unchanged.
- After the opening X:0, O:1, X:2, O:4, X:3, O:5, the click X:6 completes the
  left column 0, 3, 6 and wins (`Scenarios.LeftColumnGame`). The clicks X:7,
  O:6, X:8 instead fill the board with no line, which is a draw
  (`Scenarios.FullBoardDrawGame`).
- A game played from a fresh board can only end in a draw on a click by X.
  Before that click, X and O hold four cells each (`Rules.DrawIsXsMove`, `Rules.DrawEndsOnXsMove`).

## Model

| member | source | states |
|---|---|---|
| `Board.WinningCombinations` | script.js:9-18 | constant, no contract: the three rows, three columns and two diagonals, entry for entry and in the same order |
| `Board.LineOwned` | script.js:123-125 | no contract: its body is the `every` walk over one combination, testing each cell for the mark from left to right |
| `Board.AnyLineOwned` | script.js:122-126 | no contract: its body is the `some` walk over the combinations, stopping at the first owned one |
| `Board.CheckWin` | script.js:120-127 | no contract: its body is `checkWin(currentClass)`, the `some` walk over the eight winning combinations; its meaning is proved by the `CheckWin…` lemmas below |
| `Board.IsDraw` | script.js:91-96 | no contract: its body is the `every` walk over all cells, testing each for a mark; its meaning is proved by `IsDrawIff` |
| `Board.CombinationsShape` | script.js:9-18 | the winning table has eight entries of three cells each |
| `Board.LineOwnedIff` | script.js:123-125 | the `every` walk over a line holds exactly when every cell of the line holds the mark |
| `Board.AnyLineOwnedIff` | script.js:122-126 | the `some` walk over the lines holds exactly when some line is owned by the mark |
| `Board.CheckWinIffCombination` | script.js:120-127 | `checkWin(m)` holds exactly when all three cells of one of the eight combinations hold `m` |
| `Board.LineOwnedTriple` | script.js:123-125 | a three-cell line is owned exactly when its three cells hold the mark |
| `Board.CombinationGivesCheckWin` | script.js:120-127 | any combination whose three cells hold `m` makes `checkWin(m)` true |
| `Board.CheckWinGivesLine` | script.js:9-18 | each combination in the table is a row, a column or a diagonal of the 3x3 grid |
| `Board.LineGivesCheckWin` | script.js:9-18 | each row, column and diagonal of the grid is in the table, so owning it is a win |
| `Board.CheckWinIffHasLine` | script.js:9-18 | `checkWin(m)` holds exactly when `m` fills a whole row, column or diagonal |
| `Board.CheckWinExplicit` | script.js:120-127 | `checkWin(m)` written out as the disjunction of the eight cell triples |
| `Board.MarkKeepsWin` | script.js:99-101 | placing either mark on an empty cell never takes a completed line away |
| `Board.IsDrawIff` | script.js:91-96 | `isDraw()` holds exactly when no cell is empty |
| `Board.IsDrawIffCount` | script.js:91-96 | the board is full exactly when the X and O counts add up to its size, and they never exceed it |
| `Board.CountOfEmpty` | script.js:43-46 | a cleared board holds no mark of either kind |
| `Board.CountAfterMark` | script.js:99-101 | marking an empty cell adds one to that mark's count and leaves the other count unchanged |
| `Rules.CurrentMark` | script.js:62 | no contract: its body is the conditional choosing O when `circleTurn` is set and X otherwise |
| `Rules.Start` | script.js:41-46 | the fresh state has nine cells; its body sets every cell to `Empty` and the turn flag to false (X to move) |
| `Rules.EndGameMessage` | script.js:78-85 | no contract: its body is the conditional message, `Draw!` on a draw and otherwise the `O's`/`X's` prefix from the turn flag followed by ` Wins!`; its meaning is proved by `WinMessageNamesMark` and `MessagesDistinct` |
| `Rules.Play` | script.js:59-75 | one `handleClick` after another over a list of cell indices: the board keeps nine cells and there is one outcome per click |
| `Rules.Click` | script.js:59-75 | a click changes no cell but the clicked one; it is ignored exactly when that cell is filled; otherwise the current mark lands there; the turn flips only when the game goes on |
| `Rules.ClickOutcomes` | script.js:59-75 | a click wins exactly when the placed mark then owns a line; it draws exactly when it does not and no cell is empty; otherwise it goes on; an ignored click leaves the state unchanged |
| `Rules.WinBeatsDraw` | script.js:66-69 | a placement that completes a line and fills the board is reported as a win, not a draw |
| `Rules.WinnerIsMarkJustPlaced` | script.js:62-84 | on a win the turn flag is unchanged, so it names the mark just placed, which owns a line; the message names that mark |
| `Rules.DrawMessage` | script.js:68-81 | on a draw the board is full, the placed mark owns no line, and the message is `Draw!` |
| `Rules.WinMessageNamesMark` | script.js:84 | the win message is the announcement for the mark the turn flag names |
| `Rules.MessagesDistinct` | script.js:78-85 | the draw message differs from both win messages, and the two win messages differ |
| `Rules.LineOwnedFrame` | script.js:123-125 | a line owned on one board is owned on any board that agrees on its cells |
| `Rules.WinningLineThroughMove` | script.js:64-66 | a win on a board that had no line for that mark is completed by a line through the clicked cell |
| `Rules.ClickAfterWin` | script.js:62-67 | after a win nothing stops play: a click on an empty cell places the same mark and is again a win, with the turn unchanged |
| `Rules.PlaySnoc` | script.js:59-75 | one more click extends the play by that click's state and outcome |
| `Rules.PlayAppend` | script.js:59-75 | playing `a` then `b` is playing `a + b` |
| `Rules.PlaySplit` | script.js:59-75 | a play splits into the clicks before the j-th, the j-th click, and the clicks after it |
| `Rules.ContinuesAppend` | script.js:70-73 | the count of turn-passing clicks is additive over concatenation |
| `Rules.ContinuesSnoc` | script.js:70-73 | one more click adds one to the count, and flips its parity, exactly when the game went on |
| `Rules.PlayTurnParity` | script.js:104-106 | after any clicks, the turn flag has flipped once per click after which the game went on, and never on an ignored, winning or drawing click |
| `Rules.PlayKeepsFilled` | script.js:48-50 | a filled cell keeps its mark through any sequence of clicks |
| `Rules.KthMoveMark` | script.js:62-73 | from a fresh game, a non-ignored click places X when an even number of earlier clicks let the game go on, otherwise O, and that mark stays |
| `Rules.StartIsBalanced` | script.js:41-46 | the fresh state has as many X as O with X to move |
| `Rules.ClickKeepsBalance` | script.js:59-75 | an ignored or game-continuing click keeps the X count equal to the O count (X to move) or one more (O to move) |
| `Rules.DrawIsXsMove` | script.js:66-69 | from a state where the X count equals the O count plus the turn flag, a drawing click is made by X, and X is the mark it places |
| `Rules.DrawEndsOnXsMove` | script.js:41-75 | from a fresh game, after clicks that were all ignored or let play go on, a drawing click is X's and places X |
| `Rules.PlayKeepsBalance` | script.js:59-75 | a sequence of ignored or game-continuing clicks keeps that balance |
| `TicTacToe.Game.constructor` | script.js:32-35 | page load leaves the fresh state: nine empty cells and X to move |
| `TicTacToe.Game.StartGame` | script.js:41-56 | whatever the state before, every cell is empty and X is to move, so a second call changes nothing; the message text is left as it was |
| `TicTacToe.Game.PlaceMark` | script.js:99-101 | the clicked cell now holds the mark and every other cell is unchanged |
| `TicTacToe.Game.SwapTurns` | script.js:104-106 | the turn flag is negated |
| `TicTacToe.Game.EndGame` | script.js:78-88 | the message is `Draw!` on a draw, else the win message for the mark the turn flag names |
| `TicTacToe.Game.HandleClick` | script.js:59-75 | the new board, turn flag and outcome are exactly those of `Rules.Click` on the old state; on a win or draw the message is set from the new turn flag, otherwise it is unchanged |
| `Scenarios.TopRowGame` | script.js:59-85 | X:0, O:3, X:1, O:4, X:2 wins on the fifth click; the board holds the top row of X, X is still to move, and the message is `X's Wins!` |
| `Scenarios.ClickAfterWinGame` | script.js:41-75 | after that win, a click on cell 5 places X and wins again; after `startGame`, the same click places X on a fresh board and the game goes on |
| `Scenarios.ReclickGame` | script.js:48-50 | a second click on cell 0 is ignored: the board keeps its single X and O is still to move |
| `Scenarios.LeftColumnGame` | script.js:59-85 | X:0, O:1, X:2, O:4, X:3, O:5, X:6 wins on the seventh click with the left column, message `X's Wins!` |
| `Scenarios.FullBoardDrawGame` | script.js:59-96 | X:0, O:1, X:2, O:4, X:3, O:5, X:7, O:6, X:8 fills the board with no line, a draw with message `Draw!` |

## Left out

- DOM lookups and element handles (script.js:21-29) are host plumbing. The board is an authoritative array of cells, not CSS classes read back from elements.
- Registering and removing click listeners (script.js:38, 48-50) is input wiring. Only its effect is modelled: a filled cell's click is `Ignored`, and `StartGame` re-arms every cell.
- `setBoardHoverClass` (script.js:109-117) and showing or hiding the message overlay (script.js:55, 87) are presentation with no game logic.
- The initial text of the message element comes from the page's markup, which is not part of this model; the constructor starts it as the empty string.
- Rejecting moves after the game ends, an invalid-move result, and the `currentTurn`/`isFinished` queries are not in the code, so they are not modelled (see above).
- `Rules.KthMoveMark`: counts turn-passing clicks, not "moves", because an ignored click or a click after the game ended does not pass the turn.
