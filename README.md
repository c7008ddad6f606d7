# Tic-tac-toe rules and history engine, in Dafny

This project models the game logic of a React tic-tac-toe application with
time travel (`src/index.js`). Four parts are modelled:

- the winner scan `calculateWinner`, which walks a fixed table of eight lines
  (three rows, three columns, two diagonals) and reports the first complete one;
- the `Game` component's state, with its two transitions. The state is a
  history of snapshots (a nine-cell board and the `[row, col]` of the move
  that produced it), the current `stepNumber` and `xIsNext`. The transitions
  are `handleClick`, which places a mark, and `jumpTo`, which changes the
  current step;
- the status line and the winning cells that `Game.render` derives from the
  current board;
- the cell-index arithmetic of `Board.render` and the sort toggle of
  `TimeMachine`.

Files and modules:

- `rules.dfy`, module `Rules`: marks, cells and boards, and the line table
  `Lines`. `Winner` is the specification of the scan and `CalculateWinner` is
  the source's loop, proved equal to it. Also mark counting.
- `game.dfy`, module `GameState`: snapshots, the class `Game` with the fields
  `history`, `stepNumber` and `xIsNext`, and the methods `HandleClick`,
  `JumpTo` and `Render`. `Game.Valid()` is the object invariant. It holds
  that the history is a legal game, that `stepNumber` indexes it, and that
  `xIsNext == (stepNumber % 2 == 0)`.
- `board_view.dfy`, module `BoardView`: the grid formula `(r + c) + r*2` and
  the nested loops that build the rows of squares, including the
  winning-cell flag.
- `time_machine.dfy`, module `TimeMachineView`: the `asc`/`desc` sort state
  and its toggle.
- `scenarios.dfy`, module `Scenarios`: two games played through the class's
  methods.

Dafny terms for the JavaScript values:

- A cell is `Option<Mark>`, with `None` standing for `null`. JavaScript's
  truthiness test `squares[a] && …` becomes `squares[a].Some?`.
- The initial coordinate `[null, null]` becomes `None`.
- The game holds one `Game` object whose methods update its fields, as
  `setState` does.
- Handling a click copies the current board into a fresh nine-cell array
  (`slice`) and writes the mark into the copy. The snapshots already in the
  history are values and are never written.

Small helpers carry single source expressions and serve the members in the
table below. `Rules.Complete` is the test at src/index.js:203.
`GameState.Playable` is the guard at src/index.js:127. `GameState.MarkFor`
is the choice of mark at src/index.js:131 and 162. `TimeMachineView.Reversed`
is the flag at src/index.js:89.

## Model

| member | source | states |
|---|---|---|
| `Rules.FirstCompleteFrom` | src/index.js:201-209 | the scan from table entry k stops at the first complete line: every line it passes is incomplete, and it ends at the table's end only when none is complete |
| `Rules.Winner` | src/index.js:190-211 | `None` exactly when no line of the table has three equal non-empty cells; otherwise the mark and indices of the first complete line in table order |
| `Rules.WinnerIsFirstComplete` | src/index.js:201-207 | both directions: the reported coordinates are line k exactly when line k is the first complete line, and the reported winner is the mark in its first cell |
| `Rules.WinnerSound` | src/index.js:203-207 | reported coordinates are an entry of the table and all three cells hold the reported mark |
| `Rules.LinesDistinct` | src/index.js:191-200 | no line appears twice in the table, so "first complete line" names one entry |
| `Rules.CalculateWinner` | src/index.js:190-211 | the loop with early return yields exactly `Winner` of the board |
| `Rules.CompleteNeedsThree` | src/index.js:203 | a complete line puts at least three of its mark on the board |
| `Rules.NoWinnerWithFewMarks` | src/index.js:201-210 | with fewer than three of each mark the scan returns `None` |
| `GameState.CoordOf` | src/index.js:132-133 | the recorded `[floor(i/3), i%3]` has both parts in 0..2 and `3*row + col == i` |
| `GameState.Place` | src/index.js:126-131 | the new board has the mark at cell i and every other cell as on the board it was copied from |
| `GameState.CountsAtStep` | src/index.js:131-140 | in a history built by clicks, the board at step k holds ceil(k/2) X marks and floor(k/2) O marks |
| `GameState.HistoryAtMostTen` | src/index.js:124-141 | a history built by clicks holds at most ten snapshots |
| `GameState.NoWinnerBeforeFifthMove` | src/index.js:127 | no board before the fifth move has a winner |
| `GameState.WinnerOnlyAtEnd` | src/index.js:127-129 | only the last snapshot of a history can have a winner, because a won board accepts no click |
| `GameState.TruncateAndAppend` | src/index.js:124-138 | cutting the history after step n and appending a legal move from step n gives a legal history |
| `GameState.ClickStep` | src/index.js:124-141 | a legal click keeps the history legal and makes its length step + 2 |
| `GameState.Status` | src/index.js:156-163 | the status names the mark of the first complete line when a line is complete, otherwise "Next player: " and the mark of the side to move |
| `GameState.Game.constructor` | src/index.js:110-121 | one empty snapshot with no coordinate, step 0, X to move, invariant established |
| `GameState.Game.HandleClick` | src/index.js:123-142 | no change at all when the current board has a winner or cell i is taken; otherwise the history is cut after the current step and one snapshot appended, holding the copied board with only cell i changed to the mover's mark and the coordinate of i; the step becomes the last index, the turn flips, and the invariant is kept |
| `GameState.Game.JumpTo` | src/index.js:144-149 | the current step becomes `step`, `xIsNext` becomes `step % 2 == 0`, the history is untouched, and the invariant is kept |
| `GameState.Game.Render` | src/index.js:151-163 | returns the board at the current step, its status line and the first complete line; when nobody has won, X is next exactly when both marks have been played equally often |
| `BoardView.Coordinate` | src/index.js:38 | the formula `(r + c) + r*(cellLength-1)` equals `3r + c` and stays below 9 on the grid |
| `BoardView.CoordinateRoundTrip` | src/index.js:38 | the square shown at (r, c) records exactly `[r, c]` when clicked (src/index.js:132-133) |
| `BoardView.GridCoversEachCellOnce` | src/index.js:35-41 | each index 0..8 appears at exactly one (row, column) position of the grid |
| `BoardView.HighlightedCellsHoldWinner` | src/index.js:39 | the highlighted cells are exactly the three of the winning line, and each holds the winning mark |
| `BoardView.RenderBoard` | src/index.js:31-45 | three rows of three squares; the square at (r, c) shows cell `3r + c`, its value, and the winner flag `winnerCoordinates.indexOf(coordinate) !== -1` |
| `TimeMachineView.Toggled` | src/index.js:62-64 | a click always switches to the other order |
| `TimeMachineView.ToggleTwice` | src/index.js:62-64 | two clicks restore the order |
| `TimeMachineView.SortLabel` | src/index.js:97 | the button's label names the order that a click switches to, never the current one |
| `TimeMachineView.TimeMachine.constructor` | src/index.js:53-58 | the list starts in ascending order |
| `TimeMachineView.TimeMachine.OnClickSort` | src/index.js:60-65 | the order becomes the toggled one, so the list's reversal flips |
| `Scenarios.TopRowWin` | src/index.js:123-163 | clicks 0, 4, 1, 5, 2 from the start give status "Winner: X" and winning coordinates [0, 1, 2] |
| `Scenarios.RedoFromStart` | src/index.js:123-149 | click 0, jump to step 0, click 4: the history has two snapshots, the second records [1, 1], and O is next |

## Left out

- Rendering is not modelled. This covers JSX, `ReactDOM.render`, the
  `Square` component, the CSS class list and the bold style of the current
  move (src/index.js:5-19, 46-48, 75-81, 165-188). It is presentation
  handed to React.
- The move list is not modelled: the `history.map` that renders it, the
  `moves.reverse()` display order and the `<ol reversed>` attribute
  (src/index.js:85-87, 90-96, 99-104). These only affect display. The sort
  state, its toggle, the `reversed` flag (src/index.js:89, predicate
  `TimeMachineView.Reversed`) and the button label (src/index.js:97,
  `TimeMachineView.SortLabel`) are modelled.
- The move descriptions ("Go to move #n, [row/col]", src/index.js:69-73) are
  left out. They depend on JavaScript turning `null` into the text "null"
  for the initial coordinate, which the model represents as `None`.
- `console.log` (src/index.js:61) is output and is left out.
- The `Game` constructor also stores `winnerCoordinates: null` in the state
  (src/index.js:117). It is not modelled: nothing reads or updates it, and
  `render` uses a local variable of the same name (src/index.js:157).
- `setState` is asynchronous and may batch updates. Each update is modelled
  as an immediate assignment of the fields.
- `GameState.Game.HandleClick` accepts only cell indices 0..8, because its
  caller, `Board`, produces only those (src/index.js:35-41). On a board
  that already has a winner, the first half of the guard at
  src/index.js:127 makes the source ignore every click, whatever `i` is. On
  a board without a winner the source does not ignore any other index. For
  such an `i`, `squares[i]` is `undefined`, so the guard lets the click
  through. An integer 9 or above then grows the copied array. A negative or
  fractional `i` instead sets an ordinary property, so the nine cells look
  unchanged. In every such case on a board without a winner, the source
  appends a snapshot with the off-grid coordinate
  `[Math.floor(i/3), i % 3]`, where `i % 3` is negative for a negative `i`
  under JavaScript's truncating remainder. It also advances `stepNumber` and
  flips `xIsNext` (src/index.js:131-140). None of this is modelled.
- `GameState.Game.JumpTo` requires a step inside the history. Its caller,
  `TimeMachine`, offers only the indices of the history it lists. Any other
  step would make the next render fail in the source, which is not modelled.
- `xIsNext` is kept as a stored field, as the code has it, and is not
  derived from the step. The invariant `Game.Valid()` proves the two agree.
  Invalid jump indices are not clamped; the model follows the code, which
  trusts its caller.
