# Tech Bingo: the scoring and turn logic, in Dafny

Tech Bingo is a browser party game. Teams register, fill a 5x5 bingo board by
answering prompts, and a leaderboard ranks them by score. This project models
the game's logic, which is the part that is not rendering or browser storage:

- **Lines** (`lines.dfy`): `checkCompletedLines`, the count of fully answered lines
  among the 5 rows, 5 columns and 2 diagonals. It is written as a method with
  the source's nested loops and early `break`s. The method is proved equal to a
  declarative count and to the size of the set of complete lines. Further
  lemmas state the bounds, the full/empty/free-space boards and monotonicity.
- **BingoGame** (`bingo_game.dfy`): one team's turn as a state machine. It covers
  the initial state, free-space marking, the board effect that raises the line
  count and score, cell selection, answer editing and submission, the
  one-second tick and expiry, and the finish gate. Each operation returns the
  next state, the `onUpdateScore` reports it sends, and whether `onFinish` ran.
  `Step` combines an event with the effects it triggers. `StepValid` proves that
  every event keeps the session invariant, sends only consistent reports,
  never changes an answered cell and never lowers the score.
- **App** (`app.dfy`): `addTeam`, `updateTeamScore` (replace the record with a
  matching id), the screen changes `startGame` / `finishTurn` / Play Again, and
  a `Turn` composition that applies a game event's reports to the team list.
  `PlayEventSynced` proves that the reports keep the current team and its list
  entries showing the board, score and line count the game has reached.
- **Ranking** (`ranking.dfy`): the leaderboard sort. It returns a permutation in
  non-increasing score order, and any two such orderings list the same scores.
- **TimeFormat** (`time_format.dfy`) and **Text** (`text.dfy`): `formatTime` and
  `calculateTimeUsed`, built on models of JavaScript's `trim`, integer
  `toString`, `padStart`, `Math.floor` and truncating `%`.

Notes on where the behaviour is not what a plain reading suggests:

- A board is created with all 25 cells blank (src/App.tsx:28). The centre
  becomes the answered "FREE SPACE" cell only when the game component mounts
  (src/components/BingoGame.tsx:43-48). So "the centre is always answered" is
  part of the session invariant `Valid`, not of the team record.
- The score is not recomputed from scratch. The board effect changes
  `completedLines` and `score` only when the new count is larger
  (src/components/BingoGame.tsx:69). `ScoreBoard` models exactly that. Because
  answered cells never change and the count is monotone, the session still
  keeps `completedLines == CompletedLines(board)`.
- The clock starts from `team.timeRemaining || 600`
  (src/components/BingoGame.tsx:19). A stored remaining time of 0 therefore
  restarts at ten minutes. `Start` models this, and `BeginTurnValid` shows that
  a turn never opens with an expired clock.
- The finish button tests a flag that the board effect sets
  (src/components/BingoGame.tsx:77-80, 240). It does not count cells directly.
  `FinishEnabledIff` proves that in a valid session the two agree.

Nothing here reads or writes browser storage. The team list is an explicit
value passed in and out, and the wall-clock time is a parameter.

## Model

| member | source | states |
|---|---|---|
| Lines.CheckCompletedLines | src/components/BingoGame.tsx:84-132 | the source's row, column and diagonal scans return the number of lines whose five cells are all answered, i.e. the reference count and the size of the set of complete lines |
| Lines.CountIsSetSize | src/components/BingoGame.tsx:84-132 | the running count over the first n lines equals the number of complete lines among them |
| Lines.CompletedLinesBounds | src/components/BingoGame.tsx:84-132 | a 25-cell board has between 0 and 12 completed lines |
| Lines.CountFullIff | src/components/BingoGame.tsx:88-131 | the count over the first n lines is n exactly when each of them is complete |
| Lines.CountZeroIff | src/components/BingoGame.tsx:88-131 | the count over the first n lines is 0 exactly when none of them is complete |
| Lines.FullBoardIff | src/components/BingoGame.tsx:88-131 | a board scores 12 lines if and only if all 25 cells are answered |
| Lines.EmptyBoardHasNoLines | src/components/BingoGame.tsx:88-131 | a board with nothing answered scores 0 lines |
| Lines.CentreOnlyHasNoLines | src/components/BingoGame.tsx:43-48 | a board whose only answered cell is the centre free space scores 0 lines |
| Lines.CountMonotone | src/components/BingoGame.tsx:84-132 | answering more cells never lowers the count over any prefix of the lines |
| Lines.CompletedLinesMonotone | src/components/BingoGame.tsx:84-132 | if every cell answered on b is answered on b', then b' has at least as many completed lines |
| BingoGame.AnsweredCount | src/components/BingoGame.tsx:77 | the number of answered cells never exceeds the board's length |
| BingoGame.AnsweredCountIsSetSize | src/components/BingoGame.tsx:77 | the filter count is the number of positions holding an answered cell |
| BingoGame.AnsweredCountFullIff | src/components/BingoGame.tsx:77-80 | the answered-cell count equals the board size exactly when every cell is answered |
| BingoGame.Start | src/components/BingoGame.tsx:13-20 | the turn opens under the team's id, which every report carries, with the team's board, score and lines, no selection, an empty answer field, the flag unset, and the clock at the stored time, or at 600 if the stored time is 0 |
| BingoGame.MarkFreeSpace | src/components/BingoGame.tsx:42-48 | an unmarked centre becomes the answered "FREE SPACE" cell and is reported; an already marked centre changes nothing and sends no report |
| BingoGame.ScoreBoard | src/components/BingoGame.tsx:66-81 | when the board's completed lines exceed the stored count, the count rises to them, the score becomes ten points per line and exactly one report of the new state is sent; otherwise count and score stay and nothing is sent; the all-answered flag is set once all cells are answered; nothing else in the session changes |
| BingoGame.SelectCell | src/components/BingoGame.tsx:134-138 | clicking an unanswered cell selects it; clicking an answered cell changes nothing |
| BingoGame.EditAnswer | src/components/BingoGame.tsx:222 | typing replaces the answer text and changes nothing else |
| BingoGame.SubmitAnswer | src/components/BingoGame.tsx:140-150 | with a selection and a non-blank answer, exactly the selected cell becomes answered with the trimmed text, every other cell is unchanged, selection and answer are cleared, the team id, score, lines, clock and all-answered flag are kept, and exactly one report of the new state is sent; otherwise nothing changes |
| BingoGame.Submitted | src/components/BingoGame.tsx:143-148 | answering the selected cell changes that cell alone to answered with the given text, clears the selection and the answer field, and keeps the team id, clock, lines, score and all-answered flag |
| BingoGame.SubmitReports | src/components/BingoGame.tsx:143-149 | the one report an accepted answer sends carries the session's own team id and the state after the answer |
| BingoGame.CanSubmitIff | src/components/BingoGame.tsx:142 | an answer is accepted exactly when a cell is selected and the answer holds a character other than whitespace |
| BingoGame.Finish | src/components/BingoGame.tsx:152-155 | finishing reports the current state once and ends the turn |
| BingoGame.TimerEffect | src/components/BingoGame.tsx:52-64 | the turn finishes exactly when the clock is at or below 0, after one final report of the current state; otherwise nothing changes and nothing is reported |
| BingoGame.Tick | src/components/BingoGame.tsx:58-61 | with time left, a tick takes one second off the clock and reports the new time |
| BingoGame.FinishEnabled | src/components/BingoGame.tsx:240 | the finish button is enabled exactly when the clock is at or below 0 or the all-answered flag is set |
| BingoGame.FinishEnabledIff | src/components/BingoGame.tsx:240 | in a valid session, finishing is enabled exactly when the clock is at or below 0 or all 25 cells are answered |
| BingoGame.ThenReports | src/components/BingoGame.tsx:47-153 | running one step after another keeps every report naming the team and the last report describing the final state |
| BingoGame.Mount | src/components/BingoGame.tsx:42-81 | mounting marks the free space if it was not marked, keeps the selection, answer and clock, ends the turn exactly when the clock is at or below 0, and its reports name the team and end with the final state (or, when none is sent, the reported values are unchanged) |
| BingoGame.Step | src/components/BingoGame.tsx:52-155 | an event keeps 25 cells, ends the turn exactly on an enabled finish or on the tick that reaches 0, and its reports name the team and end with the final state (or, when none is sent, the reported values are unchanged) |
| BingoGame.MountValid | src/components/BingoGame.tsx:42-81 | mounting on a consistent team record gives a valid session, and every report it sends is consistent |
| BingoGame.FreshBoardMount | src/components/BingoGame.tsx:43-48 | a freshly created team's turn opens with exactly the centre answered, as "FREE SPACE", and with 0 lines and 0 points |
| BingoGame.SubmittedKeepsAnswers | src/components/BingoGame.tsx:143-148 | answering the selected cell of a valid session leaves every answered cell as it was, so the completed-line count and a fully answered board are never lost |
| BingoGame.SubmitScoredValid | src/components/BingoGame.tsx:140-150 | an accepted answer, once scored, leaves a valid session that has made progress, and both reports it sends are consistent |
| BingoGame.SubmitValid | src/components/BingoGame.tsx:140-150 | a submission and its scoring keep the session valid and send only consistent reports; the line count and score never fall |
| BingoGame.SecondValid | src/components/BingoGame.tsx:52-64 | a second of the clock keeps the session valid and sends only consistent reports |
| BingoGame.StepValid | src/components/BingoGame.tsx:134-155 | every allowed event keeps the session valid and sends only consistent reports; answered cells never change; the line count and score never fall |
| Text.TrimStart | src/components/BingoGame.tsx:142 | removes exactly the leading whitespace: the result is a suffix of the input, and the removed part is all whitespace |
| Text.TrimEnd | src/components/BingoGame.tsx:142 | removes exactly the trailing whitespace: the result is a prefix of the input, and the removed part is all whitespace |
| Text.Trim | src/components/BingoGame.tsx:142 | the result is an infix of the input reached by dropping only whitespace on both sides, and neither starts nor ends with whitespace |
| Text.TrimEmptyIff | src/components/BingoGame.tsx:142 | an answer trims to the empty string if and only if it is all whitespace |
| Text.TrimIdempotent | src/components/BingoGame.tsx:144 | trimming a trimmed answer changes nothing |
| Text.Decimal | src/components/BingoGame.tsx:161 | a natural number prints as a non-empty run of digits with no leading zero; it has one digit exactly when the number is below 10 |
| Text.DecimalRoundTrip | src/components/BingoGame.tsx:161 | reading a printed numeral back gives the number |
| Text.DecimalInjective | src/App.tsx:25 | different numbers print differently |
| Text.IntToString | src/components/BingoGame.tsx:161 | an integer prints as its numeral, with a leading minus sign when it is negative |
| Text.PadStart | src/components/BingoGame.tsx:161 | padding to a width keeps the text as a suffix and puts only the fill character before it, reaching the width when the text was shorter |
| TimeFormat.Minutes | src/components/BingoGame.tsx:159 | the minutes are the floor of seconds / 60: 60m <= seconds < 60m + 60 |
| TimeFormat.RemainderSeconds | src/components/BingoGame.tsx:160 | the remainder has the sign of the seconds, magnitude below 60, and differs from them by a multiple of 60 |
| TimeFormat.FormatTime | src/components/BingoGame.tsx:158-162 | the clock text always has at least five characters, the colon between two padded fields |
| TimeFormat.CalculateTimeUsed | src/components/Leaderboard.tsx:21-24 | for a remaining time in 0..600 the text reads back to 600 minus the remaining time |
| TimeFormat.Pad2TwoDigits | src/components/BingoGame.tsx:161 | below 100, padding a number to two places gives its tens and units digits |
| TimeFormat.FormatTimeDigits | src/components/BingoGame.tsx:158-162 | for 0..5999 seconds the text is MM:SS with MM = seconds / 60 and SS = seconds % 60, each two zero-padded digits |
| TimeFormat.FormatTimeRoundTrip | src/components/Leaderboard.tsx:14-18 | for 0..5999 seconds the text is a well-formed clock that reads back to the same seconds |
| TimeFormat.ParseClockRoundTrip | src/components/Leaderboard.tsx:14-18 | every well-formed MM:SS clock with SS below 60 is the formatting of the seconds it denotes, and those are below 6000 |
| TimeFormat.FormatTimeExamples | src/components/BingoGame.tsx:158-162 | 0 gives "00:00", 599 gives "09:59" and 600 gives "10:00" |
| TimeFormat.FormatTimeTooLong | src/components/Leaderboard.tsx:14-18 | from 6000 seconds the minutes grow a third digit: 6000 gives "100:00" |
| TimeFormat.FormatTimeNegative | src/components/Leaderboard.tsx:14-18 | a negative count keeps JavaScript's signs in both fields: -1 gives "-1:-1" |
| TimeFormat.ParseTwoDigits | src/components/Leaderboard.tsx:14-18 | two-digit minutes and seconds below 60 joined by a colon read back to 60 * minutes + seconds |
| TimeFormat.TimeUsedInRange | src/components/Leaderboard.tsx:21-24 | for a remaining time in 0..600 the time used is in 0..600 and its text reads back to 600 minus the remaining time |
| TimeFormat.TimeUsedExamples | src/components/Leaderboard.tsx:21-24 | 600 remaining shows "00:00" used and 0 remaining shows "10:00" |
| Ranking.Insert | src/components/Leaderboard.tsx:11 | inserting a team into a ranked list gives a ranked list holding the same teams plus the new one |
| Ranking.SortByScore | src/components/Leaderboard.tsx:11 | the sorted list is a permutation of the input with scores non-increasing |
| Ranking.RankingUniqueUpToTies | src/components/Leaderboard.tsx:11 | any two score-descending orderings of the same teams list the same scores in the same order, so only the order among equal scores is left open |
| Ranking.ScoresMultiset | src/components/Leaderboard.tsx:11 | rearranging teams rearranges their scores |
| Ranking.DescendingUnique | src/components/Leaderboard.tsx:11 | two descending integer sequences with the same values are equal |
| Ranking.SortExample | src/components/Leaderboard.tsx:11 | teams scoring 5, 10, 1 are ranked 10, 5, 1 |
| App.NewTeam | src/App.tsx:24-33 | a new team has the id device-id "-" first clock reading, the given name and device id, the second clock reading as start time, a 25-cell board of blank cells, score 0, 0 lines and 600 seconds |
| App.AddTeam | src/App.tsx:23-36 | exactly one team, the new one, is appended; existing entries and their order are unchanged; it becomes the current team |
| App.ReplaceMatching | src/App.tsx:46-50 | every team whose id matches takes the new score, board, lines and time and keeps its id, name, device id and start time; other teams are untouched; the length and order are preserved |
| App.UpdateTeamScore | src/App.tsx:45-56 | the team list is updated as above; the current team is updated only when its id is the target id |
| App.UpdateKeepsIds | src/App.tsx:46-50 | a score report leaves the list's ids, in order, unchanged |
| App.UpdateLastWins | src/App.tsx:46-50 | two reports for the same team leave the state the later report alone would |
| App.NewTeamIdsDistinct | src/App.tsx:25 | teams registered on one device with different clock readings for the id get different ids, whatever their start times |
| App.AddTeamConsistent | src/App.tsx:23-36 | registering a team keeps every known team consistent |
| App.UpdateConsistentKeeps | src/App.tsx:45-56 | a consistent report keeps every known team, and the current one, consistent |
| App.ApplyUpdatesConsistent | src/App.tsx:45-66 | applying a sequence of consistent reports keeps every team consistent |
| App.ApplyUpdatesScreen | src/App.tsx:45-66 | score reports never change the screen |
| App.StartGame | src/App.tsx:74-80 | Start Game goes to the game screen when a team is registered on this device, and otherwise leaves the state unchanged |
| App.FinishTurn | src/App.tsx:69-71 | finishing a turn always shows the leaderboard and changes nothing else |
| App.PlayAgain | src/App.tsx:181 | Play Again always returns to registration and changes nothing else |
| App.PlayAgainRestart | src/App.tsx:181 | after Play Again, Start Game returns to the game screen with the same teams and current team |
| App.BeginTurnValid | src/App.tsx:153-168 | starting a turn on a consistent application gives a consistent team list, a valid session and the game screen |
| App.ApplyUpdatesLast | src/App.tsx:45-66 | after a non-empty run of reports, ids and positions are unchanged and every record with the last report's id, current team included, holds the board, score, lines and time it sent |
| App.SettleSynced | src/App.tsx:45-71 | applying a game step's reports keeps the current team and every list entry with its id agreeing with the game's board, score and lines |
| App.AddTeamAgrees | src/App.tsx:23-36 | registering under a fresh id leaves the list agreeing with the current team |
| App.BeginTurnSynced | src/App.tsx:74-80 | when the list agrees with the current team, the game opens in step with the team list |
| App.PlayEventSynced | src/App.tsx:45-71 | every event keeps the team list in step with the game, so the leaderboard shows the board, score and lines the game reached |
| App.PlayEventValid | src/App.tsx:164-168 | every allowed game event, with its reports applied to the team list, keeps the turn valid |

## Left out

- Browser storage and JSON: reading and writing the stored team list, question list and device id, and the 5-second polling that overwrites the in-memory team list (src/App.tsx:40-41, 58-65, 83-96). This is I/O with last-write-wins overwrites. The team list is an explicit value instead.
- Randomness and the clock: device-id generation, `Date.now()` and the question shuffle. The device id and the clock readings are parameters; `addTeam` reads the clock twice (src/App.tsx:25, 32), once for the id and once for the start time, and `NewTeam` takes the two readings separately. Questions (`BingoQuestion`, src/data/questions.ts) are display-only, so the question list is not modelled.
- Timer scheduling: `setTimeout` / `clearTimeout` and drift. A tick is the `SecondElapsed` event.
- React scheduling: stale values captured in callbacks, batching, and the exact order of reports on mount. The board effect also runs once on the board from before the free space is marked. That only affects the order of the reports, not the state reached. The model applies the intended per-event transitions.
- The form's visibility guard for the centre cell (src/components/BingoGame.tsx:213) is presentation. In a valid session the centre is answered, so it can never be selected anyway.
- Team registration's non-blank name check (src/components/TeamRegistration.tsx) is form glue. `AddTeam` takes the name as given.
- JSX, CSS, rank badges and the alert shown by `startGame`.
- Lines.CheckCompletedLines: requires a board of exactly 25 cells. Every board in the program is created with 25 cells, so other lengths never arise.
- TimeFormat.FormatTimeDigits: the MM:SS shape is proved only for 0..5999 seconds. `FormatTime` itself follows JavaScript for every integer (see `FormatTimeTooLong` and `FormatTimeNegative`), but negative inputs, i.e. a remaining time above 600, are not characterised further.
- Ranking.SortByScore: the order among equal scores is not specified. The model's insertion sort happens to keep input order, but no contract relies on that.
- TimeFormat.FormatTime: its own contract states only the length of the text; its digits are stated by `FormatTimeDigits`, `FormatTimeRoundTrip` and `ParseClockRoundTrip` for 0..5999 seconds.
- App.BeginTurnSynced: the agreement between game and team list covers the id, board, score and lines, not the remaining time. A stored 0 restarts the game clock at 600 without a report, so the record's time can lag behind until the first tick reports it.
- Numbers are unbounded integers. JavaScript doubles, non-integer times and the exponent notation `toString` uses from 1e21 up are not modelled.
