# Cancel tic-tac-toe: the rule engine

A model of the rule engine of a tic-tac-toe variant, `script.js`. On
their turn a player either places their mark on an empty cell or cancels
(empties) a cell holding the opponent's mark. A player may not cancel on
two of their own turns in a row: each player carries a `lastMoveWasCancel`
flag, and a cancel is allowed only while the mover's flag is clear. After
every cancel or place the engine scans the eight lines for a win, then
tests for a full board (a draw), and passes the turn only when the round
goes on. A win or draw is followed by a reset to the starting state.

The project has five modules:

- `Board` (`board.dfy`): players, cells, the eight winning lines in scan
  order, the win scan `CheckWin` and the full-board test `IsBoardFull`.
  Both are stated against independent definitions: `CheckWin` returns the
  first line in scan order all of whose cells hold one player's mark, and
  `None` exactly when no line is complete.
- `Rules` (`rules.dfy`): the engine state as a value (`State`), the
  classification of a click, the transition `Step` that a click causes,
  the cancelable-cells query, and the rules of the game as lemmas about
  `Step`: cancel, place, invalid click, no double cancel, turn
  alternation, when a win or draw is reported, and that a win belongs to
  the mover.
- `Rounds` (`rounds.dfy`): sequences of clicks within one round and the
  property that between two cancels by a player there is always a place
  by that player. Also five concrete plays: a first place, a cancel
  followed by a place, a top-row win, a draw on the last cell, and a
  click on one's own mark.
- `Lock` (`lock.dfy`): the input lock around the engine as a value
  (`Session`): `isAnimating`, and `resetPending`, which records that a
  win or draw has scheduled the reset. It gives the end of a place or
  cancel animation both as `script.js` has it and corrected (see
  "## Findings"), and proves that with the correction nothing but the
  reset changes the session once a round has ended.
- `Engine` (`game.dfy`): the class `Game` holding the state the program
  keeps in module-level variables, with the grid as a 9-cell array
  updated in place. `HandleCellClick` is proved to produce exactly the
  state and outcome of `Rules.Step`; `Reset` produces `Rules.Initial`
  whatever the state before. The win scan and the cancelable-cells
  computation are loops proved equal to their specifications.

The `isAnimating` lock is a field: a cancel, a place, a win and a draw set
it, and `EndAnimation` (the end of a place or cancel animation) or `Reset`
clears it. A click while it is set changes nothing. A win or draw also
sets `resetPending`, the state part of the reset that `handleWin` and
`handleDraw` schedule; while it is set `EndAnimation` keeps the lock.

## Model

| member | source | states |
|---|---|---|
| `Board.Opponent` | script.js:63 | the opponent of a player is the other player |
| `Board.EmptyGrid` | script.js:6 | the starting grid has nine cells, all empty |
| `Board.WinCombinationsOnGrid` | script.js:32-41 | every one of the eight lines names three cells of the grid |
| `Board.LineWonIsOwned` | script.js:213 | the scan's test of a line (first cell marked, the other two equal to it) holds exactly when one player owns all three cells, and then the owner is the mark in the first cell |
| `Board.FirstWonLine` | script.js:210-219 | the result is the index of the first line at or after the starting index that passes the scan's test, or 8 when none does |
| `Board.CheckWin` | script.js:209-222 | no result exactly when no line is owned by any player; otherwise the reported line is the first line in scan order that is complete, and the winner is the player who owns it |
| `Board.IsBoardFull` | script.js:228-230 | true exactly when every cell holds a mark |
| `Rules.CanCancel` | script.js:95-99 | the mover may cancel exactly when their own `lastMoveWasCancel` flag is clear; what this forbids is stated by `Rules.NoDoubleCancel` (one click) and `Rounds.CancelsSeparatedByPlace` (a whole round) |
| `Rules.Classify` | script.js:62-75 | a click is a place exactly on an empty cell, and invalid exactly on the mover's own mark or on the opponent's mark when the mover may not cancel; the remaining case, the opponent's mark with cancel allowed, is a cancel; the effects are stated by `Rules.CancelRule`, `Rules.PlaceRule` and `Rules.InvalidRule` |
| `Rules.Cancelable` | script.js:182-194 | only cells holding the opponent's mark are listed, and none when the mover may not cancel; `Rules.CancelableMeansCancel` and `Rules.CancelableIsOpponentMarks` state it exactly |
| `Rules.WithFlag` | script.js:12-15 | sets one player's `lastMoveWasCancel` flag and leaves the grid, the player to move and the other player's flag unchanged |
| `Rules.Initial` | script.js:6-15 | the starting state is an all-empty 9-cell grid, X to move, both flags clear |
| `Rules.Perform` | script.js:105-150 | a cancel or place keeps a nine-cell grid (what it changes is stated by `Rules.CancelRule` and `Rules.PlaceRule`) |
| `Rules.Step` | script.js:58-89 | a click keeps a nine-cell grid (the rules it follows are the lemmas below) |
| `Rules.CancelRule` | script.js:62-68 | a click on the opponent's mark with the mover's flag clear is a cancel: that cell becomes empty, every other cell is unchanged, the mover's flag becomes set, the opponent's flag is unchanged |
| `Rules.PlaceRule` | script.js:130-138 | a click on an empty cell is a place: that cell gets the mover's mark, every other cell is unchanged, the mover's flag is cleared, the opponent's flag is unchanged |
| `Rules.InvalidRule` | script.js:62-75 | a click is invalid exactly when the cell holds the mover's own mark, or the opponent's mark while the mover's flag is set; an invalid click changes nothing and reports no win or draw |
| `Rules.NoDoubleCancel` | script.js:95-99 | a mover whose flag is set cannot cancel and empties no cell; a place by them clears the flag, anything else leaves the state unchanged |
| `Rules.TurnAlternation` | script.js:77-88 | the turn passes to the other player exactly when the click was valid and ended nothing; after a win, a draw or an invalid click the mover stays; the opponent's flag is never changed |
| `Rules.WinReported` | script.js:78-81 | a win is reported exactly when the click was valid and the win scan of the new grid finds it |
| `Rules.DrawReported` | script.js:80-83 | a draw is reported exactly when the click was valid, no line of the new grid is complete and no cell is empty |
| `Rules.WinIsTheMovers` | script.js:77-83 | from a grid with no complete line, a cancel never ends the round, and a reported win comes from a place, belongs to the mover and runs through the clicked cell |
| `Rules.CancelableMeansCancel` | script.js:182-194 | a cell is in the cancelable set exactly when clicking it is a cancel |
| `Rules.CancelableIsOpponentMarks` | script.js:188-193 | the cancelable set is the set of cells holding the opponent's mark when the mover may cancel, and empty otherwise |
| `Rounds.Moves` | script.js:58-89 | the definition of the moves of a sequence of clicks, one per click by iterating `Rules.Step`; its contract only gives the length, and `Rounds.CancelsSeparatedByPlace` is stated over it |
| `Rounds.FlagAfterStep` | script.js:105-150 | a click changes player p's flag only when p moved: a cancel sets it, a place clears it, otherwise it stays |
| `Rounds.CancelsSeparatedByPlace` | script.js:95-99 | over any sequence of clicks in a round, between two cancels by a player there is a place by that player, and a player whose flag was set at the start places before cancelling |
| `Rounds.FirstPlace` | script.js:58-89 | from the start, X clicking cell 0 places there, the turn passes to O and X's flag stays clear |
| `Rounds.CancelThenPlace` | script.js:62-99 | X cancels O's mark on cell 0, O places on cell 4; back on X's turn no cell is cancelable and no click by X is a cancel |
| `Rounds.TopRowWin` | script.js:209-222 | X completing the top row is reported as a win by X on line (0, 1, 2), and X stays the player to move |
| `Rounds.LastCellDraw` | script.js:80-83 | filling the last cell without completing a line is reported as a draw |
| `Rounds.OwnMarkIgnored` | script.js:72-75 | a click on the mover's own mark is invalid and changes nothing |
| `Lock.Click` | script.js:58-89 | a click while locked is dropped with nothing changed; an unlocked click that wins or draws leaves the lock taken and the reset pending |
| `Lock.AnimationEndAsWritten` | script.js:144-147 | as `script.js` has it: the end of a place animation releases the lock whatever is pending, and changes nothing else |
| `Lock.AnimationEnd` | script.js:144-147 | corrected: the end of a place or cancel animation releases the lock exactly when no reset is pending, and changes nothing else |
| `Lock.ResetFires` | script.js:279-292 | the delayed reset gives the starting state with the lock released and nothing pending |
| `Lock.GuardedPreserved` | script.js:236-261 | a click, a corrected animation end and the reset each keep "a pending reset keeps the lock taken" |
| `Lock.NoPlayAfterRoundEnds` | script.js:236-261 | once a win or draw has scheduled the reset, any sequence of clicks and corrected animation ends leaves the session unchanged |
| `Lock.ClickAcceptedAfterWinAsWritten` | script.js:144-147 | as written, after X completes the top row and the place animation ends, a pending reset no longer holds the lock, and X's next click is played and reported as a second win |
| `Engine.Game.constructor` | script.js:6-18 | the engine starts in the starting state with the lock released |
| `Engine.Game.HandleCellClick` | script.js:58-89 | a click while locked is invalid and changes nothing; otherwise the new state and the outcome are exactly those of `Rules.Step`, and the lock is taken exactly when the click was valid; the grid stays the same array; with the lock, the click is `Lock.Click` |
| `Engine.Game.PerformCancel` | script.js:105-124 | the cell is emptied in place and the mover's flag set, as `Rules.Perform` says for a cancel; the lock is taken |
| `Engine.Game.PerformPlace` | script.js:130-150 | the mover's mark is written in place and the mover's flag cleared, as `Rules.Perform` says for a place; the lock is taken |
| `Engine.Game.SwitchPlayer` | script.js:201-203 | the player to move becomes the other player |
| `Engine.Game.CheckWin` | script.js:209-222 | the loop over the lines returns the same result as `Board.CheckWin` on the grid |
| `Engine.Game.CancelableCells` | script.js:182-195 | the loop over the cells collects exactly `Rules.Cancelable` of the state |
| `Engine.Game.EndAnimation` | script.js:144-147 | corrected (see "## Findings"): the end of a place or cancel animation is `Lock.AnimationEnd`; it releases the lock only when no reset is pending |
| `Engine.Game.Reset` | script.js:279-292 | after a reset the state is the starting state, on a fresh array, with the lock released and no reset pending (`Lock.ResetFires`), whatever it was before; so two resets leave the same state as one |

## Left out

- Rendering: `updateBoard` (text and CSS classes of the cells), the
  `cancelable`, `winning`, `placing` and `canceling` classes, and the DOM
  lookups. They show the state and do not change it.
- Event wiring in `init`: the caller calls `HandleCellClick` with the
  clicked cell's index.
- Timers: each `setTimeout` delay is left to the caller. The lock is a
  field that the engine sets and `EndAnimation` clears; the delayed
  reset after a win or draw is the caller's call to `Reset`. The
  durations (300 ms, 400 ms, 500 ms) and the order in which the delays
  fire are not modelled; the caller may end an animation at any time.
  The place animation ending before the reset, which `script.js` always
  does, is the case of the finding below.
- The win and draw handlers are modelled only by their state part (they
  take the lock); the highlighting and the scheduling of the reset are
  presentation and timers.
- Out-of-range cell indices: `script.js` ignores them (`board[index]` is
  `undefined`, neither a mark nor `null`); the model requires an index
  below 9.
- `Rounds.Moves`: a sequence of clicks is one round; the reset that
  follows a win or draw, and which clears both flags, is not part of it.
- `Board.CheckWin`: `script.js` returns the line as the very array
  object of the line table; the model returns the line as a value.

## Findings

| source | as written | input that shows it | evidently intended | confidence | as-written member | corrected member |
|---|---|---|---|---|---|---|
| script.js:144-147 | the place animation's callback sets `isAnimating = false` 300 ms after the click, even when that click won or drew and `handleWin`/`handleDraw` (script.js:237, 255) took the lock for the reset, which runs only after 500 ms plus 400 ms (script.js:245-247, 272-293) | grid X X _ / O O _ / _ _ _ with X to move: X clicks cell 2 (top-row win), the place callback fires, X clicks cell 5: the click is played on the finished grid and reported as a second win, which schedules a second `resetGame` that can wipe the first moves of the next round | the lock stays taken from a win or draw until the reset | not executed (read from the text) | `Lock.ClickAcceptedAfterWinAsWritten` (over `Lock.AnimationEndAsWritten`) | `Lock.NoPlayAfterRoundEnds` (over `Lock.AnimationEnd`, which `Engine.Game.EndAnimation` follows) |
