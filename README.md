# NumDash tap game: the session controller

NumDash is a children's number-tapping game. The player picks a mode. Mode "初級（1-9）" shows
the numbers 1 to 9. A mode "k の倍数" shows the first 9 (3x3) or 16 (4x4) multiples of k. The
numbers are shuffled onto a fixed grid, and the player taps them in increasing order. The clock
starts on the first tap, a wrong tap only shakes the screen, and the last right tap stops the
clock. The elapsed time is then saved into a table that keeps the 50 fastest records, and the
finish screen says whether the time is a new record for its mode key.

The controller exists twice, once as a React component (`src/app/page.tsx`) and once as a
plain script (`script.js`). This project models both over one shared specification:

- `wrappers.dfy` (`Wrappers`): `Option`.
- `modes.dfy` (`Modes`): the mode catalogue, the multiplier taken from the first character of a
  mode name, `generateMultiples`, the number sequence of a game and the score key
  `name（difficulty）`.
- `placement.dfy` (`Placement`): `shuffleNumbers`. The random shuffle is a sequence of draws, the
  3x3 and 4x4 grids are constants, and a right tap marks its target completed.
- `scores.dfy` (`Scores`): `saveScore` (append, stable sort by time, keep 50), `getBestScore` and
  the `isNewRecord` flag.
- `keys.dfy` (`Keys`): the key-to-command part of both `keydown` handlers, including the
  string comparison `key >= '0' && key <= '9'` and `parseInt`.
- `session.dfy` (`Session`): the controller state as a value (`Game`), one function per handler,
  the invariant `Valid`, and lemmas about single clicks and whole runs of taps.
- `page.dfy` (`Page.NumberTapGame`): the React component as a class. Each `useState` hook is a
  field and each handler a method. A handler's setter calls take effect together, so each one
  is a single simultaneous assignment, and a handler reads the state of the render it belongs
  to.
- `script.dfy` (`Script.Game`): the script's globals as a class. Each function is a method that
  runs its statements in order: `push` then `sort` then `slice`, `currentIndex++`,
  `showScreen`, and the interval timer kept as a flag.

Every method of the two classes is proved to leave its object in the state the matching
`Session` function gives. The handlers the player can trigger (`StartGame`, `SelectMode`,
`ChooseDifficulty`, `PlayAgain`, `HandleNumberClick`, `BackToMenu` and `KeyPress`, and the
constructor) are also proved to keep `Valid`. What the game promises is proved as lemmas about
those functions.

Times are whole milliseconds. The source divides by 1000 and stores seconds as floating-point
numbers. Between stored times this keeps every order and equality. One value is rounded: the
component's finished screen compares `parseFloat(getElapsedTime())`, the time rounded to
hundredths of a second by `toFixed(2)`, with the unrounded stored best. That rounding is
`Scores.ShownTime`, the time rounded to the nearest 10 ms, and the component's flag is
`Session.PageNewRecordShown`. The script compares the unrounded time. `Date.now()` is a
parameter `now`, the locale date is a parameter `today`, and `Math.random()` is the sequence
`draws`.

Where the code and its description disagree, the model follows the code:

- The clock starts on the first tap at index 0 even when that tap is wrong.
- Every saved key carries the difficulty suffix, including the base mode's. Its records are
  saved as "初級（1-9）（3x3）", while the menu looks them up under "初級（1-9）".
- The new-record flag is computed after the new time has been saved, and in the component the
  rounded time is compared with the unrounded best (see Findings).
- `script.js` names the finish state `'finish'`, not `'finished'`.
- In `page.tsx` the completion handler saves the time since the start time of the render it
  belongs to (`Session.PageClick`). It would save nothing if the first tap were also the last,
  which never happens with at least 9 numbers (`Session.PageClickAgrees`).
- In `script.js` the Escape test of the key handler reads `key` outside the block that declares
  it, so every key press ends in a ReferenceError and Escape never returns to the menu there.

## Model

| member | source | states |
|---|---|---|
| Modes.CatalogueShape | src/app/page.tsx:19-65 | the first mode is "初級（1-9）" with 1..9 and is not a multiples name; mode i (i ≥ 1) is a multiples name with no numbers yet and multiplier i + 1 |
| Modes.Multiplier | src/app/page.tsx:231 | the digit parsed from the first character of a multiples name lies in 2..9 |
| Modes.GenerateMultiples | src/app/page.tsx:130-133 | 9 elements for '3x3' and 16 for '4x4' |
| Modes.GenerateMultiplesElements | src/app/page.tsx:130-133 | element i of the generated sequence is (i + 1) × multiplier |
| Modes.MultiplesElements | script.js:255-258 | the first n multiples are exactly (i + 1) × multiplier, position by position |
| Modes.MultiplesIncreasing | src/app/page.tsx:130-133 | for multiplier ≥ 1 the sequence is strictly increasing and positive |
| Modes.SequenceFor | src/app/page.tsx:226-233 | a game has 9 or 16 numbers, and the base mode always uses 1..9 whatever the difficulty |
| Modes.SequenceForIncreasing | script.js:296-302 | every game's sequence is strictly increasing and positive, so the tap order is well defined |
| Modes.ModeKey | src/app/page.tsx:277-278 | with a difficulty, the key is the name followed by "（" and four more characters; without one, the key is the name |
| Modes.BaseKeyIsNotBaseName | src/app/page.tsx:394-396 | the base mode's saved key is "初級（1-9）（3x3）", which differs from the bare name the menu looks up |
| Modes.KeysDistinguishDifficulty | script.js:397-398 | the two difficulties of one mode are saved under different keys |
| Modes.MultiplesOfThreeLarge | script.js:293-302 | "3の倍数" at '4x4' is 3, 6, …, 48 |
| Placement.GridFor | src/app/page.tsx:138-163 | the grid chosen for 9 or 16 numbers has that many cells |
| Placement.Grid3x3Distinct | src/app/page.tsx:139-143 | no two 3x3 cells coincide |
| Placement.Grid4x4Distinct | src/app/page.tsx:158-163 | no two 4x4 cells coincide |
| Placement.Shuffle | src/app/page.tsx:146 | the shuffle is a permutation of its input, for every sequence of draws |
| Placement.Place | src/app/page.tsx:136-174 | the placed numbers are a permutation of the sequence, one target per number |
| Placement.PlaceOnGrid | script.js:282-289 | target i sits on grid cell i and starts not completed |
| Placement.PlaceIsBijection | script.js:261-290 | for a duplicate-free sequence each number is on the board exactly once, and a value is on the board iff it is in the sequence |
| Placement.MarkCompleted | src/app/page.tsx:257-263 | marking keeps every number and coordinate; a target is completed afterwards iff it was already or it holds the tapped number |
| Placement.MarkCompletedFlipsOne | script.js:379-383 | on a board of distinct numbers, marking flips exactly the one target holding the number and leaves every other target equal |
| Placement.MarkNextCompleted | src/app/page.tsx:255-266 | if exactly the first k numbers are completed, marking number k leaves exactly the first k + 1 completed |
| Placement.FreshPlacementCompletesNothing | src/app/page.tsx:148-153 | a fresh board has no completed target |
| Keys.LeadingDigits | src/app/page.tsx:196 | the prefix `parseInt` reads is the longest all-digit prefix of the key |
| Keys.DigitKeyShape | src/app/page.tsx:195 | `key >= '0' && key <= '9'` holds iff the key starts with a digit and is exactly "9" when it starts with '9' |
| Keys.SingleKeyCommand | script.js:150-152 | a one-character key taps a number iff it is a digit, and then both handlers tap that digit |
| Keys.NamedKeysAreNotDigits | src/app/page.tsx:195-200 | a key not starting with a digit (Enter, space, Escape, …) never taps a number |
| Keys.HandlersAgreeBesidesEscape | script.js:148-163 | both handlers map every key other than Escape to the same command; Escape returns to the menu in the component and does nothing in the script |
| Scores.InsertByTime | src/app/page.tsx:116 | one insertion step adds exactly the new record to the multiset of records |
| Scores.InsertKeepsSorted | src/app/page.tsx:116 | inserting into a list sorted by time keeps it sorted |
| Scores.SortByTimeSorts | src/app/page.tsx:115-117 | the sort orders the records by time and is a permutation of them |
| Scores.SortByTimeOrders | script.js:190 | the sorted list is ascending in time |
| Scores.SortByTimeKeeps | script.js:189-190 | the sorted list has exactly the records of its input |
| Scores.InsertSlowestAppends | src/app/page.tsx:116 | the sort is stable: a record no faster than every earlier one goes last |
| Scores.SortSortedIsIdentity | script.js:190 | sorting a list already sorted by time returns it unchanged |
| Scores.SavedScores | src/app/page.tsx:115-117 | the stored table has min(50, old length + 1) records |
| Scores.SavedScoresSorted | script.js:189-191 | after every save the table is sorted and holds only old records and the new one |
| Scores.SavedKeepsFastest | src/app/page.tsx:117 | a record that was dropped means the table is full and no kept record is slower than it |
| Scores.SaveIntoFullTableOfFaster | script.js:189-191 | with 50 or more sorted records all no slower than the new one, the table becomes its old first 50 |
| Scores.SaveIntoShortTableKeeps | src/app/page.tsx:117 | with fewer than 50 records the new record is always kept |
| Scores.ModeScores | src/app/page.tsx:125 | filtering by key never lengthens the table |
| Scores.ModeScoresMembers | script.js:200 | the filter holds exactly the records of the table with that key |
| Scores.BestScoreIsFirstMatch | src/app/page.tsx:124-127 | the best is null iff no record has the key; otherwise it is the time of the first record with the key |
| Scores.FirstRecordIsBest | script.js:199-202 | when the first record has the key, its time is the best |
| Scores.BestIsFastest | src/app/page.tsx:124-127 | on a sorted table the best of a key is no slower than any record of that key |
| Scores.NewRecordAfterSave | script.js:416-421 | when the new record survives the cut, its key has a best after the save, and the flag is raised iff that best is 0 |
| Scores.NewRecordBeforeSaveIsFastest | script.js:416-421 | flag computed from the table before the save: on a sorted table with no time of 0 for the key, raised iff the new time beats every earlier record of the key |
| Scores.FirstGameNotNewRecord | script.js:416-421 | in the script the first game of a key is not flagged as written, and is flagged from the table before the save |
| Scores.SavedFirstOfKeyIsBest | script.js:182-202 | when a key had no record and its new record survives the cut, that record's time is the key's best |
| Scores.ShownTime | src/app/page.tsx:306-309 | `toFixed(2)` of the time in seconds, in milliseconds: the multiple of 10 nearest to the time, a half rounded away from zero |
| Scores.ShownTimeRoundsDown | src/app/page.tsx:309 | a positive time is shown below itself exactly when its last digit is 1 to 4 |
| Scores.PageFlagAfterSave | src/app/page.tsx:489-494 | in the component, after the save the key's best is the saved time or faster; the flag needs a best of 0 or a time rounded below itself, and for a key's first game it is raised exactly when the last digit of the time is 1 to 4 |
| Scores.PageFlagsSlowerTime | src/app/page.tsx:489-494 | after a best of 5232 ms a game of 5234 ms is flagged as a new record by the component, although the table before the save says it is none |
| Scores.SaveDoesNotTouchOtherKeys | src/app/page.tsx:109-127 | saving under one key adds no record to any other key, and every other key's best is a time it already had |
| Scores.SaveIntoSorted | script.js:189-191 | on a sorted table a save is one insertion followed by the cut to 50 |
| Scores.SaveFastestGoesFirst | src/app/page.tsx:115-117 | a record faster than all stored ones becomes the first |
| Scores.SaveSlowerKeepsFirst | src/app/page.tsx:115-117 | a record no faster than the first leaves the first in place |
| Scores.BestOfThree | script.js:182-202 | three games of 5000, 3000 and 8000 ms under one key give a best of 3000 |
| Session.ValidIgnoresScores | src/app/page.tsx:109-121 | the invariant does not depend on the score table |
| Session.InitialValid | src/app/page.tsx:77-87 | the first render (menu, nothing selected) satisfies the invariant |
| Session.StartGameValid | src/app/page.tsx:223-242 | starting a game yields a valid playing state |
| Session.SelectModeValid | src/app/page.tsx:211-220 | selecting a mode keeps the invariant |
| Session.SelectMultiplesMode | src/app/page.tsx:216-219 | selecting a multiples mode only records it and shows the difficulty screen |
| Session.ChooseDifficultyValid | src/app/page.tsx:461-469 | the difficulty buttons keep the invariant |
| Session.PlayAgainValid | src/app/page.tsx:522 | the replay button keeps the invariant |
| Session.BackToMenuValid | src/app/page.tsx:295-303 | returning to the menu yields a valid menu state and keeps the score table |
| Session.InGameDistinct | src/app/page.tsx:226-237 | during a game the sequence and the numbers on the board are duplicate-free |
| Session.ExpectedTarget | src/app/page.tsx:248 | the expected number is on exactly one target, and that target is not completed yet |
| Session.AdvanceBoard | src/app/page.tsx:257-266 | a right tap keeps mode, difficulty, table and the multiset of numbers, starts the clock, and leaves exactly the first index + 1 numbers completed |
| Session.PlayingBoard | src/app/page.tsx:245-266 | a valid playing state has a board that is a permutation of the sequence with exactly the numbers before the cursor completed |
| Session.PageClickAgrees | src/app/page.tsx:245-292 | in every valid state the component's click (batched setters, stale start time) gives the same state as the script's |
| Session.ReadyPageClickAgrees | src/app/page.tsx:269-280 | the two clicks agree in any playing state whose clock started before a tap past index 0 |
| Session.AdvanceValid | src/app/page.tsx:265-266 | a right tap that is not the last keeps the invariant |
| Session.FinishValid | src/app/page.tsx:269-272 | the last right tap with end time and finished screen keeps the invariant |
| Session.RightClickKeepsValid | script.js:377-403 | any right tap keeps the invariant |
| Session.LastClickValid | script.js:389-403 | the completion block keeps the invariant |
| Session.ClickValid | script.js:367-414 | every click, right, wrong or outside play, keeps the invariant |
| Session.WrongClickKeepsValid | script.js:404-412 | a wrong tap keeps the invariant |
| Session.ClickOutsidePlayIsNoop | src/app/page.tsx:246 | with no mode selected or outside play a click changes nothing |
| Session.ClickStartsClock | src/app/page.tsx:250-253 | in play, a click at index 0 with no start time sets it to now, whether right or wrong |
| Session.ClickWrongKeepsProgress | src/app/page.tsx:282-291 | a wrong tap leaves cursor, board, screen, end time, table and mode unchanged |
| Session.ClickShape | script.js:367-386 | a click changes the board only by marking the tapped number, and the cursor only by one, and only when the tap is right |
| Session.RightClickNotLast | script.js:385-389 | a right tap that is not the last stays in play with the end time and table unchanged |
| Session.ClickRightCompletesOne | src/app/page.tsx:255-266 | a right tap completes exactly one target, the one holding the expected number, and advances the cursor by one |
| Session.FinishingClick | script.js:389-402 | the last right tap finishes the game at now, keeps the start time, and saves now − start under the mode key iff the start time is truthy |
| Session.FinishedTimeIsFrozen | src/app/page.tsx:306-309 | after the last tap the elapsed time, before `toFixed(2)` rounds it for display, is end − start at any later moment, and it is the time just saved |
| Session.NewRecordNeverShownForSavedTime | script.js:389-421 | in the script, when the saved time survives the cut, the finish screen shows "new record" iff the key's best is 0 |
| Session.PageNewRecordForSavedTime | src/app/page.tsx:489-494 | in the component, after the last tap the key's best is the saved time or faster; "new record" shows only for a best of 0 or a time rounded below itself, and for a key's first game exactly when the last digit of the time is 1 to 4 |
| Session.PageClickValid | src/app/page.tsx:245-292 | the component's click keeps the invariant |
| Session.BaseGameInvisibleToMenu | src/app/page.tsx:394-396 | finishing a base-mode game adds no record under the bare name the menu looks up |
| Session.PlayAgainSameSequence | script.js:442-446 | replaying a finished game restarts the same mode and difficulty with a fresh permutation of the same numbers and the table untouched |
| Session.RunCountsRightTaps | script.js:367-414 | over any run of taps the invariant holds, the cursor grows by the number of right taps, targets keep their numbers and cells, and completed targets stay completed |
| Session.LastRightTap | src/app/page.tsx:269-272 | after the last right tap the game is finished and every target is completed |
| Session.FinishedAllCompleted | script.js:389-402 | in every valid finished state every target is completed |
| Session.FinishedBoard | script.js:389-402 | a finished board holds every number of the sequence, all completed |
| Session.RightTapStep | script.js:377-388 | a right tap before the last stays in play, keeps mode, key and table, and starts the clock at index 0 |
| Session.LastTapFinishes | script.js:389-402 | the last right tap ends in the finished state with the expected end time and saved table |
| Session.RunOfRightTapsFinishes | script.js:367-414 | tapping the rest of the sequence in order finishes the game, timed from the first tap (or the earlier start) to the last |
| Session.RunStep | script.js:367-388 | the first right tap of a run leaves a valid playing state from which the rest of the run continues |
| Session.SelectBaseMode | src/app/page.tsx:211-215 | selecting "初級（1-9）" from any valid state starts a valid '3x3' game of 1..9 with the clock not started |
| Session.BaseModeScenario | src/app/page.tsx:245-280 | a base game tapped 1..9 finishes, keyed "初級（1-9）（3x3）", timed from the first tap to the ninth |
| Script.ShowScreenStates | script.js:166-172 | `showScreen` records 'game' as 'playing' and every other screen under its own name, and distinct states have distinct names |
| Script.DummyScoresFacts | script.js:75-83 | the seeded table is not sorted, its base entry is the base name's best, and one save sorts it |
| Script.FinishTimeIsElapsed | script.js:417 | with truthy timestamps the finish screen's time is the elapsed time |
| Page.NumberTapGame.constructor | src/app/page.tsx:77-87 | the first render is the initial state with the stored table, and it is valid |
| Page.NumberTapGame.SaveScore | src/app/page.tsx:109-121 | the table becomes the saved table |
| Page.NumberTapGame.StartGame | src/app/page.tsx:223-242 | the fields become `Session.StartGame` of the old state, and the state is valid |
| Page.NumberTapGame.SelectMode | src/app/page.tsx:211-220 | the fields become `Session.SelectMode` of the old state, and the state stays valid |
| Page.NumberTapGame.StartBaseMode | src/app/page.tsx:212-215 | recording the base mode and starting it gives `Session.SelectMode` of the old state |
| Page.NumberTapGame.ChooseDifficulty | src/app/page.tsx:461-469 | the fields become `Session.ChooseDifficulty` of the old state, and the state stays valid |
| Page.NumberTapGame.PlayAgain | src/app/page.tsx:522 | the fields become `Session.PlayAgain` of the old state, and the state stays valid |
| Page.NumberTapGame.HandleNumberClick | src/app/page.tsx:245-292 | the fields become `Session.PageClick` of the old state, and the state stays valid; the shake and error flags are raised iff the tap was wrong in play |
| Page.NumberTapGame.Tap | src/app/page.tsx:248-291 | in play, the fields become `Session.PageClick` of the old state; the feedback flags are raised iff the tap was wrong |
| Page.NumberTapGame.RightTap | src/app/page.tsx:255-281 | a right tap gives `Session.PageClick` of the old state |
| Page.NumberTapGame.FinishGame | src/app/page.tsx:269-280 | the completion block ends the game at the completion time and saves with the start time the handler saw |
| Page.NumberTapGame.SaveFinalTime | src/app/page.tsx:275-280 | with a truthy start time the table gains the record completion − start under the mode key, otherwise it is unchanged |
| Page.NumberTapGame.WrongTap | src/app/page.tsx:282-291 | a wrong tap only starts the clock and raises both feedback flags |
| Page.NumberTapGame.ClearErrorFeedback | src/app/page.tsx:287-290 | both feedback flags go down |
| Page.NumberTapGame.BackToMenu | src/app/page.tsx:295-303 | the fields become `Session.BackToMenu` of the old state, which is valid, and the feedback flags are untouched |
| Page.NumberTapGame.KeyPress | src/app/page.tsx:190-208 | outside play, without a mode or on mobile, nothing changes, feedback flags included; otherwise a digit taps it, Enter or space taps the expected number, Escape returns to the menu; the shake and error flags are raised iff a digit key was a wrong tap; validity is kept |
| Page.NumberTapGame.RunKeyCommand | src/app/page.tsx:193-204 | in play each command gives its click, menu return or no change, and only a wrong digit raises the feedback flags; validity is kept |
| Page.NumberTapGame.KeyTap | src/app/page.tsx:195-197 | a digit key gives `Session.Click` of that digit, valid, with the feedback flags raised iff the tap was wrong in play |
| Page.NumberTapGame.KeyTapExpected | src/app/page.tsx:198-200 | Enter or space gives the click of the expected number, valid, with the feedback flags untouched |
| Script.Game.constructor | script.js:71-94 | start-up loads the stored table, or the five dummy records when it is empty, and shows the menu |
| Script.Game.ShowScreen | script.js:166-172 | only the recorded state changes, to the screen's state |
| Script.Game.SaveScore | script.js:182-197 | push, sort and slice leave the saved table |
| Script.Game.StartGameTimer | script.js:346-357 | the display timer is running |
| Script.Game.StopGameTimer | script.js:359-364 | the display timer is stopped |
| Script.Game.StartGame | script.js:293-314 | the globals become `Session.StartGame` of the old state, with the timer running |
| Script.Game.SetUpBoard | script.js:294-308 | the assignments before `showScreen` give the new game's fields |
| Script.Game.SelectMode | script.js:244-252 | the globals become `Session.SelectMode` of the old state, and the state stays valid |
| Script.Game.StartBaseMode | script.js:245-247 | recording the base mode and starting it gives `Session.SelectMode` of the old state |
| Script.Game.AskDifficulty | script.js:245-251 | a multiples mode is recorded and the difficulty screen shown |
| Script.Game.ChooseDifficulty | script.js:132-133 | the globals become `Session.ChooseDifficulty` of the old state, and the state stays valid |
| Script.Game.PlayAgain | script.js:442-446 | the globals become `Session.PlayAgain` of the old state, and the state stays valid |
| Script.Game.HandleNumberClick | script.js:367-414 | the globals become `Session.Click` of the old state, and the state stays valid; error feedback iff the tap was wrong in play; the screen changes only from playing to finish, which stops the timer and sets the new-record flag |
| Script.Game.Tap | script.js:370-412 | in play, the globals become `Session.Click` of the old state; error feedback iff the tap was wrong; the game either stays in play or finishes, and finishing stops the timer and sets the new-record flag |
| Script.Game.StartClock | script.js:372-375 | the clock starts at now iff the cursor is 0 and there is no start time |
| Script.Game.CompleteTarget | script.js:379-385 | the tapped number's target is marked and the cursor advanced |
| Script.Game.FinishGame | script.js:389-402 | end time, stopped timer, saved time, finish screen, and the flag computed from the saved table |
| Script.Game.SaveFinalTime | script.js:395-400 | with a truthy start time the table gains end − start under the mode key, otherwise it is unchanged |
| Script.Game.ShowFinishScreen | script.js:416-439 | the finish screen is shown, flagged as a new record iff the key has no truthy best in the current table or the finish time is below it |
| Script.Game.ClearErrorFeedback | script.js:409-411 | the shake and error classes are removed |
| Script.Game.BackToMenu | script.js:449-461 | the globals become `Session.BackToMenu` of the old state, which is valid, and the timer is stopped |
| Script.Game.KeyPress | script.js:148-163 | in play and not on mobile a digit taps it, Enter or space taps the expected number; otherwise, and for Escape, nothing changes; the error classes are added iff a digit key was a wrong tap; a key that finishes the game sets the new-record flag from the saved table, and otherwise the flag is untouched; validity is kept |

## Left out

- Rendering: the JSX and DOM updates (`renderGameModes`, `renderNumberButtons`, `updateGameUI`, `updateMobileUI`), CSS classes, emoji and texts, including mode descriptions, which affect no state.
- `src/app/layout.tsx`: Next.js metadata and fonts, with no logic.
- Device detection (`window.innerWidth`, `ontouchstart`): `isMobile` is a parameter of the key handlers.
- `localStorage` and JSON: the stored table is the constructor's parameter, and writes are not modelled, since every write stores the whole current table.
- The `setInterval` display timer is a `timerRunning` flag. The 500 ms `setTimeout` after a wrong tap is the `ClearErrorFeedback` method, which the caller runs.
- Seconds as floating-point numbers: times are whole milliseconds, which keeps every order and equality between stored times. The one rounded value, the component's `parseFloat(getElapsedTime())`, is `Scores.ShownTime`.
- Scores.ShownTime: a time ending in exactly 5 ms is rounded away from zero. `toFixed(2)` rounds the binary double nearest to the time in seconds, which may lie on either side of the half, so the source may round such a time the other way.
- `Math.random()`: the shuffle takes its choices from `draws`. The uniformity of the random-comparator sort is not modelled.
- The fallback scatter of `shuffleNumbers` for lengths other than 9 and 16 (floating-point, and unreachable from the mode catalogue). The script has no such branch and would fail on such a length.
- Modes.SequenceFor: requires `ValidMode`, the shape of every catalogue mode. A mode whose name does not start with a digit from 2 to 9 would make `parseInt` return NaN, and that is not modelled.
- Script.Game.SelectMode: requires that play is not under way, because its buttons live on the menu screen. The timer invariant does not hold for a call during play.
- Script.Game.ChooseDifficulty: requires a selected mode. The script would throw on `mode.name` without one, and the model does not represent the exception.
- Script.Game.KeyPress: `key` is declared inside the in-play block (script.js:150), so the `key === 'Escape'` test after that block (script.js:160) throws a ReferenceError on every key press, after the in-play branch has run. The model keeps the effects of the in-play branch, treats Escape as doing nothing, and does not model the exception.
- React's render cycle: each handler is one batched update of the state it read, and re-renders, effects and `useCallback` dependencies are not modelled. One effect of this is visible: the keydown listener's dependencies (src/app/page.tsx:208) leave out `startTime`. After a wrong tap at index 0, the listener still sees no start time, so a later key press at index 0 restarts the clock (src/app/page.tsx:251-252). `Page.NumberTapGame.KeyPress` reads the current state instead and keeps the first start time.
- Concurrency between a pending `setTimeout` and later handlers is not modelled.

## Findings

| source | as written | input that shows it | evidently intended | confidence | as-written member | corrected member |
|---|---|---|---|---|---|---|
| script.js:399-421 | the best time is looked up after the new time has been saved, so the new time is compared with itself | the first completed game of a key, e.g. 5000 ms on an empty table: after the save the best is 5000 and `5000 < 5000` is false, so no "new record" is shown | compare with the key's best before the save, so a key's first game and every strictly faster time are new records | high, not executed | Scores.NewRecordAfterSave, Scores.FirstGameNotNewRecord, Session.NewRecordNeverShownForSavedTime | Scores.NewRecordBeforeSaveIsFastest |
| src/app/page.tsx:276-279, 489-494 | the best time is looked up after the new time has been saved, and the time rounded to hundredths is compared with that unrounded best | a first game of 5000 ms shows no "new record" (5.00 < 5.000 is false); after a best of 5232 ms a slower game of 5234 ms shows one (5.23 < 5.232) | compare the unrounded time with the key's best before the save | high, not executed | Scores.PageFlagAfterSave, Scores.PageFlagsSlowerTime, Session.PageNewRecordForSavedTime | Scores.NewRecordBeforeSaveIsFastest |
