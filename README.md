# Tic Tac Sea: the game-state engine in Dafny

This project models the rules engine of a 3x3 tic-tac-toe game written as a
React application (`app.js`). The game keeps a history of board snapshots
and a pointer, `currentMove`, to the active one. A click on a cell of the active
board places the mover's mark, unless the board already has a winner or the
cell is taken. The mover is "🪼" at even positions and "🐚" at odd ones.
Playing from an earlier position throws away the snapshots after it. The
player can step back one move or restart.

Marks are the datatype `Mark = Empty | X | O`: `Empty` is the source's `null`,
`X` is "🪼" and `O` is "🐚". A `Board` is a sequence of exactly nine marks in
row-major order, and a `Cell` is an index below 9.

- `win_detection.dfy`, module `WinDetection`: `calculateWinner`. It scans
  the eight lines in the source's order (three rows, three columns, two
  diagonals). `WinnerFrom` is the scan from line `k` on. `CalculateWinner`
  returns the mark of the first complete line, or `Empty`. Its contract uses
  the reference predicate `HasLine` ("m fills some line").
- `board_rules.dfy`, module `BoardRules`: `Board.handleClick` is a method
  that copies the board into a fresh array, writes the mover's mark into cell
  `i` and returns `Play(nextSquares)`. It returns `Ignored` when `onPlay`
  would not be called. `XIsNext`/`MarkFor`/`MoverAt` give the turn from the
  parity of `currentMove`. `IsMove` is the reference definition of one legal
  move.
- `game_history.dfy`, module `GameHistory`: the class `Game`, with
  `history: seq<Board>`, `currentMove: nat` and the three commands. Two
  object invariants are used:
  - `Valid()`: the pointer lies inside a non-empty history. Every command
    keeps it.
  - `Legal()`: `Valid()` holds and `LegalHistory(history)` holds. The first
    snapshot is empty, and each later snapshot is a legal move from the one
    before it, by the player whose turn it was.

  `HandlePlay` accepts any board, as `handlePlay` does, so it keeps
  `Legal()` only when the board is a legal move. `Click` composes
  `HandleClick` with `HandlePlay`, as the `Board` component wired to `Game`
  does. It keeps `Legal()` unconditionally. Lemmas about legal histories give
  these facts:
  - the mark counts of each snapshot;
  - at most ten snapshots;
  - no winner before the fifth move;
  - never a line for both players;
  - no move after a win.

  Two client methods, `WinScenario` and `BranchScenario`, replay sessions
  using only these contracts.

## Model

| member | source | states |
|---|---|---|
| `WinDetection.WinnerFrom` | app.js:157-162 | the scan from line `k` returns `Empty` exactly when no line from `k` on is complete. Otherwise it returns the first-cell mark of the first complete line, with no complete line before it |
| `WinDetection.CalculateWinner` | app.js:146-163 | a non-empty result fills one of the eight lines, and every line scanned before that one is incomplete. The result is `Empty` exactly when neither mark fills any line |
| `WinDetection.EmptyBoardHasNoWinner` | app.js:68 | the initial all-empty board has no line for either mark, so it has no winner |
| `WinDetection.PlacingCompletesOnlyOwnLines` | app.js:14-17 | writing mark `m` into an empty cell of a board without a winner completes only lines through that cell, all filled by `m`. The other mark still has no line, and the new winner is `m` or nobody |
| `BoardRules.XIsNext` | app.js:72 | "🪼" is next exactly when both players have made equally many moves so far, that is when `currentMove` is even |
| `BoardRules.MarkFor` | app.js:17 | the mark written by a click is never empty, and it is "🪼" exactly when `xIsNext` holds |
| `BoardRules.MoverAt` | app.js:17-72 | the mark placed from position `currentMove` is never empty. It is "🪼" when `currentMove` is even and "🐚" when it is odd |
| `BoardRules.HandleClick` | app.js:13-19 | the click is ignored exactly when the board has a winner or cell `i` is occupied. Otherwise the new board holds the mover's mark at `i` and equals the old board at every other cell |
| `BoardRules.AcceptedClickIsMove` | app.js:16-17 | an accepted click's board is the old board with cell `i` set to the mark. It differs from the old board in exactly cell `i`, and the step is a legal move |
| `GameHistory.PrefixIsLegal` | app.js:76 | the slice `history[..currentMove + 1]` of a legal history is itself legal |
| `GameHistory.AppendIsLegal` | app.js:75-78 | truncating a legal history after position `n` and appending a legal move from snapshot `n` gives a legal history |
| `GameHistory.MarkCounts` | app.js:14-17 | snapshot `k` of a legal history holds `(k + 1) / 2` "🪼", `k / 2` "🐚" and `9 - k` empty cells |
| `GameHistory.PlacingCountsOneMark` | app.js:16-17 | writing a mark into an empty cell adds one to that mark's count, removes one `Empty`, and leaves the other mark's count unchanged |
| `GameHistory.LineNeedsThreeMarks` | app.js:158 | a mark that fills a line occupies at least three cells |
| `GameHistory.NoWinnerBeforeFifthMove` | app.js:146-163 | in a legal history, the snapshots at positions 0 to 4 have no winner |
| `GameHistory.HistoryAtMostTen` | app.js:75-79 | a legal history has at most ten snapshots |
| `GameHistory.AtMostOneLineOwner` | app.js:157-162 | no snapshot of a legal history has a line of both marks, so the scan order cannot decide the winner |
| `GameHistory.WonSnapshotIsLast` | app.js:14 | a snapshot with a winner is the last one of a legal history |
| `GameHistory.Game.CurrentSquares` | app.js:73 | the active board is one of the recorded snapshots. In a legal history, an active board that later moves were played from has no winner |
| `GameHistory.Game.constructor` | app.js:68-69 | the initial state is one empty board at position 0, and it is legal |
| `GameHistory.Game.HandlePlay` | app.js:75-79 | the new history is the old `history[..currentMove + 1]` followed by the new board. `currentMove` is the new last index, one past the old pointer. A legal history stays legal when the board is a legal move from the active snapshot |
| `GameHistory.Game.GoToPreviousMove` | app.js:81-83 | `currentMove` drops by one when it is positive and is otherwise unchanged. `history` is untouched, and both invariants are kept |
| `GameHistory.Game.RestartGame` | app.js:85-87 | from any state, `history` becomes exactly one empty board and `currentMove` becomes 0. The result is legal |
| `GameHistory.Game.Click` | app.js:13-19 | a click on a won board or an occupied cell leaves `history` and `currentMove` unchanged. Any other click truncates after the active snapshot and appends it with cell `i` set to the mover's mark. A legal history stays legal |

## Left out

- Rendering (`Square`, the JSX of `Board` and `Game`) and the `useState`/`useEffect` plumbing. State updates are modelled as plain field assignments, done in order.
- The `confetti` calls on a win and on restart: a foreign library with visual, floating-point parameters and no effect on the game state.
- Player names and the status line ("Winner" / "Next player" with emoji fallbacks): presentation only, with no effect on the rules.
- The `disabled` attribute of the back button: a UI guard that duplicates the test inside `goToPreviousMove`.
- Draw detection: `calculateWinner` returns only a mark or `null`. A full board without a line is just a board without a winner, and the status line still names a next player.
- Forward navigation or a jump to an arbitrary position: app.js has neither. `goToPreviousMove` steps back one position when `currentMove > 0` and otherwise does nothing.
- Clicks come only from the nine rendered squares, so `HandleClick` and `Click` take a `Cell` (an index below 9). The model does not cover reading `squares[i]` outside the board.
