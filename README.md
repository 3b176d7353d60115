# TimeKeeper timer core in Dafny

A model of the `Timer` class of TimeKeeper, a browser stopwatch for
meetings. It counts a per-speaker duration down to zero and then counts up in
overtime. A confirmed stop appends a record to a history list kept in local
storage. An optional agenda of configured speakers advances by itself after
each stop. A snapshot of the running clock is saved when the page is hidden
and restored on the next load, unless it is older than twelve hours.

The model has six modules:

- `JsSemantics`: the JavaScript behaviour the class relies on. This covers
  `null` in arithmetic, truthiness, the truncating `%`, `trim`, `parseInt`
  with no radix, `String(n)` on integers and `padStart(2, "0")`.
- `TimerClock`: the seven clock fields as a value. Each clock step
  (`start`, the tick, `confirmStop`, the resume branch, `reset`, the face
  `updateDisplay` computes, and the record `stop` builds) is a function of the
  old value and the wall-clock reading `now`.
- `History`: `splice(start, 1)` with JavaScript's index clamping, and the
  delete path as the handlers are written.
- `AgendaSequencer`: the speaker list, the current index, the mode flag and
  the three input boxes, with `setCurrentSpeaker`, `initializeAgenda`,
  `syncToAgenda`, `autoNextSpeaker` and `exitAgendaMode` as functions.
- `PersistenceStore`: the `timerState` snapshot, the `saveState` guard, the
  twelve-hour expiry, the `restoreState` policy, `loadRecords`, and the alert
  `saveRecords` raises.
- `TimeKeeper`: the `Timer` class itself, with the source's fields, plus a
  `Storage` object holding the two storage keys. Each handler is a method
  that updates the fields in place. Its `ensures` ties the new state to the
  value-level function above, so the lemmas proved there hold for the object.

A method that reads the clock takes the reading `now` as a parameter. When
storage can fail, the method takes the possible failure as a parameter too
(`fault`, `writeOk`). The record's `toLocaleString()` label is passed in as
text (`stamp`).

The model follows the code where its behaviour is easy to misread:

- `start` leaves `isOvertime`, `overtimeStart` and `pauseTime` as they were.
  This is reachable: Space with the stop dialog of an overtime run open starts
  a new run that is still in overtime, so its ticks show the distance from
  the new deadline in overtime style instead of counting down.
- Resuming after a cancelled stop keeps `pauseTime` set, so "paused" does not
  imply "not running".
- The snapshot does not contain `timeLeft`.
- A *running* snapshot saved in overtime does not bring `isOvertime` back. The
  immediate tick enters overtime again and dates it at the reload.

## Model

| member | source | states |
|---|---|---|
| JsSemantics.JsRem60 | src/Timer.js:416 | `d % 60` truncates toward zero: the result lies strictly between -60 and 60, has the dividend's sign, and differs from it by a multiple of 60 |
| JsSemantics.Trim | src/Timer.js:446 | `trim` gives the empty string exactly when the name is all whitespace; otherwise both ends of the result are non-space |
| JsSemantics.TrimOfPadded | src/Timer.js:446 | any whitespace around a text with non-space ends is removed and nothing else: trimming gives that text back |
| JsSemantics.DigitPrefixIsLongest | src/Timer.js:319-322 | the digit run `parseInt` reads is made of digits and stops at the first non-digit |
| JsSemantics.ParseInt | src/Timer.js:319-322 | `parseInt` of an empty or all-whitespace text is NaN |
| JsSemantics.ParseIntReadsLeadingNumber | src/Timer.js:246-247 | `parseInt` skips leading whitespace, reads the longest run of decimal digits and ignores what follows it (" 12abc" reads 12) |
| JsSemantics.NatToString | src/Timer.js:419-424 | `toString` of a non-negative number is a non-empty run of decimal digits, with a leading `0` only for zero, and one character exactly below 10 |
| JsSemantics.IntToString | src/Timer.js:712 | `String(n)` is non-empty, starts with a minus sign exactly for a negative number, and is all digits otherwise |
| JsSemantics.PadStart2Shape | src/Timer.js:713-715 | `padStart(2, "0")` keeps the text as its suffix, puts only zeros in front, and gives two characters for a shorter text and the text itself otherwise |
| JsSemantics.ParseIntOfIntToString | src/Timer.js:712 | the minutes text `setCurrentSpeaker` writes parses back to the same integer, negative numbers included |
| JsSemantics.ParseIntOfPadded | src/Timer.js:713-715 | the zero-padded seconds text parses back to the same integer |
| TimerClock.Elapsed | src/Timer.js:344-345 | the floored whole seconds since the origin: `e*1000 <= now - start < e*1000 + 1000`, with a null origin read as 0 |
| TimerClock.RequestedDuration | src/Timer.js:319-325 | the requested duration is never negative, and it is 0 exactly when both boxes read as 0 or less |
| TimerClock.RequestedDurationSplits | src/Timer.js:319-325 | the duration splits back into minutes clamped at 0 and seconds clamped to 0..59 |
| TimerClock.Start | src/Timer.js:317-341 | a running clock is unchanged; a stopped clock with no positive duration only gets `timeLeft` 0 and stays stopped; otherwise duration, origin `now` and running are set and the overtime and pause fields are untouched; the clock runs afterwards exactly when `start` did not reject |
| TimerClock.Tick | src/Timer.js:343-376 | before overtime, a tick counts `initialTime - elapsed`; the first tick at or below 0 enters overtime at `now` and shows the excess; in overtime it shows the distance from the deadline and keeps `overtimeStart`; origin, duration, running flag and pause are never touched |
| TimerClock.TickStyle | src/Timer.js:349-371 | the four restylings each happen exactly when stated: continued overtime, entering overtime, the warning for 1..60 seconds left, normal above 60 |
| TimerClock.Pause | src/Timer.js:427-434 | `confirmStop` sets `pauseTime` to `now`, stops the clock and changes nothing else |
| TimerClock.Resume | src/Timer.js:283-290 | the cancelled dialog moves the origin forward by exactly the pause length, runs the clock, and changes nothing else |
| TimerClock.Cleared | src/Timer.js:472-480 | `reset` returns every timing field to its constructor value except `initialTime`, and the result keeps overtime paired with a start |
| TimerClock.DisplaySeconds | src/Timer.js:402-413 | the face shows `timeLeft`, except while paused with both timestamps set, when it is recomputed from the pause (as a distance in overtime) |
| TimerClock.Split | src/Timer.js:415-416 | for a non-negative count the face is whole minutes and 0..59 seconds; for a negative count that is not a whole minute it is one minute lower and has negative seconds |
| TimerClock.Display | src/Timer.js:415-416 | a running clock with time left shows `timeLeft` as whole minutes and 0..59 seconds; a paused clock before overtime shows the time left at the pause, one minute lower when it is negative and not a whole minute |
| TimerClock.FaceText | src/Timer.js:419-424 | both padded face texts are at least two characters long |
| TimerClock.FaceTextReadsBack | src/Timer.js:419-424 | both padded face texts read back as the numbers they show, signs included |
| TimerClock.SpeakerLabel | src/Timer.js:446 | the record name is never empty: the placeholder when the box is all whitespace, the trimmed box otherwise |
| TimerClock.StopRecord | src/Timer.js:443-453 | the record's total is the floored seconds from origin to pause; its overtime is that total minus `initialTime`, or 0 when that is negative; it carries the label and the stamp |
| TimerClock.StartThenTickShowsDuration | src/Timer.js:317-376 | the tick right after a successful start shows the whole duration, running and not in overtime |
| TimerClock.TickDuringFirstRun | src/Timer.js:343-371 | `e` seconds into a fresh run of `d`: before the deadline the face is `d - e`, with the warning style exactly in the last minute; from the deadline on, overtime starts at that reading and shows `e - d` |
| TimerClock.StartDuringOvertimeKeepsOvertime | src/Timer.js:317-373 | a successful `start` on a stopped clock in overtime keeps overtime, its start and the pause; every later tick stays in overtime style and shows the distance between `e` seconds and the new duration |
| TimerClock.TicksKeepOvertime | src/Timer.js:370-373 | once in overtime, no run of ticks leaves it or moves its start, and the face is the distance from the deadline at the last reading |
| TimerClock.TicksEnterOvertimeAtFirstDeadline | src/Timer.js:347-353 | across a run of ticks, `overtimeStart` is the reading of the first tick with no time left |
| TimerClock.TicksBeforeDeadline | src/Timer.js:347-349 | while every tick still has time left, overtime is not entered and the face is the last remaining time |
| TimerClock.PauseResumeFreezesElapsed | src/Timer.js:283-290 | pausing at `p` and resuming at `r` makes every later reading count as the reading `r - p` earlier did |
| TimerClock.ResumedTickSkipsPause | src/Timer.js:283-290 | a tick after the resume shows the same remaining time and overtime flag as a tick without the pause would have |
| TimerClock.ResumeKeepsPauseTime | src/Timer.js:283-290 | after a resume the clock runs while `pauseTime` is still set |
| TimerClock.StepsKeepConsistent | src/Timer.js:317-499 | start, tick, pause, resume and reset all keep "overtime has a start" |
| TimerClock.PausedFaceMatchesTick | src/Timer.js:402-413 | the paused face equals what a tick at the pause would show, unless that tick would be the one entering overtime |
| TimerClock.PausedPastDeadlineShowsNegative | src/Timer.js:406-416 | when no tick ran between the deadline and the pause, the paused face goes below zero (10 s planned, paused at 12.5 s: minute -1, second -2) |
| TimerClock.StopAfterOvertimeRecord | src/Timer.js:443-445 | a ten-minute run stopped 650 s in records 650 s with 50 s of overtime |
| TimerClock.RecordOfRun | src/Timer.js:443-445 | `e` whole seconds between origin and pause give a total of `e` and an overtime of `max(0, e - initialTime)` |
| History.SpliceStart | src/Timer.js:564 | `splice`'s start counts from the end when negative and is clamped to the list: a start past the end gives the length, one before `-len` gives 0 |
| History.SpliceOne | src/Timer.js:564 | when the clamped start is inside the list exactly the entry there goes and the others keep their order; a start at or past the end leaves the list as it was |
| History.SpliceRemovesExactlyOne | src/Timer.js:563-570 | deleting a listed index keeps the entries before it, shifts those after it by one, and loses exactly the chosen entry |
| History.ConfirmDeleteAsWritten | src/Timer.js:166-176 | as written, confirming a delete always removes the first entry, whichever entry was chosen |
| History.ConfirmDeleteAsWrittenRemovesWrongEntry | src/Timer.js:295 | with two records and the second chosen, the handlers delete the first, while `splice` at the chosen index would delete the second |
| AgendaSequencer.FieldsFor | src/Timer.js:710-715 | the boxes get the speaker's name, and the seconds text is at least two characters |
| AgendaSequencer.SpeakerFrom | src/Timer.js:245-247 | the entry gets the name box as it is and the numbers `parseInt` reads from the two duration boxes, 0 where it reads NaN |
| AgendaSequencer.FieldsReadBack | src/Timer.js:242-247 | the boxes `setCurrentSpeaker` fills in read back through `syncToAgenda`'s parsing as the same speaker |
| AgendaSequencer.SetSpeaker | src/Timer.js:698-716 | out of agenda mode or out of range, nothing changes; otherwise the index moves and the boxes show that speaker; list and mode never change |
| AgendaSequencer.Initialize | src/Timer.js:675-689 | a non-empty configuration turns agenda mode on at speaker 0 with its boxes; an empty one only turns the mode off |
| AgendaSequencer.Sync | src/Timer.js:242-254 | in agenda mode with a current entry, that entry becomes the parsed boxes and no other entry, index or box changes; otherwise nothing changes |
| AgendaSequencer.Advance | src/Timer.js:719-733 | outside agenda mode nothing changes; with a next speaker it becomes current with its boxes; after the last speaker the agenda ends with blank name and 10:00 |
| AgendaSequencer.AfterReset | src/Timer.js:495-498 | in agenda mode nothing changes; otherwise only the name box is emptied |
| AgendaSequencer.SyncAfterSetSpeaker | src/Timer.js:242-254 | a live edit right after a speaker is shown leaves the agenda exactly as it was |
| AgendaSequencer.AdvanceStaysInList | src/Timer.js:719-726 | `k` advances inside the list keep the mode on and the list unchanged, and move the index by `k` |
| AgendaSequencer.AdvanceWalksTheList | src/Timer.js:719-726 | `k` advances inside the list show the `k`-th following speaker in the boxes |
| AgendaSequencer.AdvanceFinishesTheList | src/Timer.js:727-733 | one advance per remaining speaker ends agenda mode with the boxes at 10:00 |
| AgendaSequencer.AdvanceTimesSplit | src/Timer.js:719-733 | `k + 1` advances are `k` advances followed by one more |
| AgendaSequencer.ThreeSpeakers | src/Timer.js:675-748 | with three configured speakers, the boxes show them in order after each stop, and the third stop ends the agenda |
| AgendaSequencer.StartReadsSpeakerDuration | src/Timer.js:319-325 | `start` after a speaker is shown asks for exactly that speaker's configured duration |
| PersistenceStore.AlertFor | src/Timer.js:60-75 | the quota alert appears exactly for `QuotaExceededError` or code 22, and the generic alert for every other error |
| PersistenceStore.LoadRecords | src/Timer.js:45-54 | the stored list is loaded, and the empty list when the key is missing or unreadable |
| PersistenceStore.ShouldSave | src/Timer.js:81 | in agenda mode a snapshot is always written; otherwise only when `startTime` is set and not 0 |
| PersistenceStore.SaveGuardAfterSteps | src/Timer.js:81 | after `reset` a snapshot is written exactly in agenda mode; after a successful `start` at a non-zero reading it always is |
| PersistenceStore.Capture | src/Timer.js:80-96 | the snapshot holds the clock fields (not `timeLeft`), the agenda mode and index, the three box texts and the save time |
| PersistenceStore.Expired | src/Timer.js:114 | a snapshot is dropped exactly when more than 43 200 000 ms have passed since it was saved; at exactly twelve hours it is kept |
| PersistenceStore.ExpiryBoundary | src/Timer.js:114 | a snapshot twelve hours old is restored and one a millisecond older is dropped |
| PersistenceStore.CaughtUp | src/Timer.js:133-143 | the restored clock runs with the copied fields; a snapshot saved before overtime whose deadline has passed is put into overtime dated at the deadline; otherwise the overtime flag is the one before the restore and the start comes from the snapshot |
| PersistenceStore.RestoredClock | src/Timer.js:119-157 | origin, duration and pause always come from the snapshot; a running snapshot runs again, caught up to overtime at the deadline when that passed while closed; a paused one stays paused with its overtime flag and its remaining time; any other keeps only the copied fields |
| PersistenceStore.RestorePrompts | src/Timer.js:148-154 | the stop dialog comes back exactly for a snapshot that was not running and has a non-zero `pauseTime` |
| PersistenceStore.RestoreKeepsConsistent | src/Timer.js:119-155 | restoring a snapshot of a clock whose overtime has a start gives a clock whose overtime has a start |
| PersistenceStore.TextOr | src/Timer.js:127-128 | an empty saved box text falls back to the default, and any other text is kept |
| PersistenceStore.RestoredAgenda | src/Timer.js:123-128 | mode, index and name come from the snapshot, an empty minutes box becomes "10" and an empty seconds box "0", and the speaker list stays as loaded |
| PersistenceStore.RestoreRunningBeforeDeadline | src/Timer.js:80-157 | saving and reloading a running timer before its deadline gives the clock its next tick would have, with the same boxes |
| PersistenceStore.RestoreCatchesUpOnDeadline | src/Timer.js:133-146 | a deadline that passed while the page was closed gives overtime dated at the deadline, showing the seconds past it |
| PersistenceStore.RestoreOvertimeRestartsAtReload | src/Timer.js:133-146 | a snapshot taken in overtime comes back with `overtimeStart` set to the reload time instead of the saved one |
| PersistenceStore.RestorePausedShowsSameFace | src/Timer.js:147-154 | a timer saved while its stop dialog was open comes back paused, with the same face, and asks again |
| TimeKeeper.Timer.constructor | src/Timer.js:5-42 | the history is loaded and the agenda set up from the configuration; a live snapshot is applied on top, and a missing, unreadable or expired snapshot leaves the initial clock and no key behind |
| TimeKeeper.Timer.Start | src/Timer.js:317-341 | the clock becomes `TimerClock.Start` of the old clock with the two boxes read by `parseInt(...) \|\| 0`; `rejected` is the alert; agenda, boxes and history are untouched |
| TimeKeeper.Timer.StartFor | src/Timer.js:318-338 | with the two box values already read, the clock steps as `TimerClock.Start` and reports the rejection |
| TimeKeeper.Timer.UpdateTimer | src/Timer.js:343-376 | the fields step as `TimerClock.Tick`, the restyling is `TickStyle`, and the face is redrawn from the new fields |
| TimeKeeper.Timer.UpdateDisplay | src/Timer.js:402-425 | the face is `Display` of the fields; before the minute/second split it encodes the shown count, one minute lower for a negative count that is not a whole minute |
| TimeKeeper.Timer.ConfirmStop | src/Timer.js:427-434 | the fields become `Pause` at `now` and the face shows the paused time |
| TimeKeeper.Timer.Resume | src/Timer.js:283-290 | the fields become `TimerClock.Resume` at `now` |
| TimeKeeper.Timer.Reset | src/Timer.js:465-499 | the saved snapshot is removed, the clock is `Cleared`, and the name box is emptied outside agenda mode |
| TimeKeeper.Timer.Stop | src/Timer.js:436-463 | exactly one record (`StopRecord` of the paused clock) is appended and saved; the clock is cleared, the snapshot removed, and the agenda advances as `Advance` says |
| TimeKeeper.Timer.SaveRecords | src/Timer.js:56-77 | a successful write stores the current list; a failed one leaves storage unchanged and yields `AlertFor` the error |
| TimeKeeper.Timer.ExecuteDeleteRecord | src/Timer.js:563-570 | the list becomes `SpliceOne` at the index; a listed index removes exactly that entry; the result is saved |
| TimeKeeper.Timer.ExecuteClearRecords | src/Timer.js:598-602 | the list becomes empty and the empty list is saved |
| TimeKeeper.Timer.SaveState | src/Timer.js:80-103 | nothing is written for a never-started timer outside agenda mode or on a failed write; otherwise the key holds `Capture` of the current fields at `now` |
| TimeKeeper.Timer.RestoreState | src/Timer.js:106-160 | a stored, unexpired snapshot gives `RestoredClock` and `RestoredAgenda` and prompts exactly for a paused one; a missing, unreadable or expired one leaves every field as it was and no key behind |
| TimeKeeper.Timer.CopyClock | src/Timer.js:119-122 | the four timing fields are copied from the snapshot and nothing else changes |
| TimeKeeper.Timer.CopyAgenda | src/Timer.js:123-130 | mode, index and boxes become `RestoredAgenda` of the snapshot and the state is marked restored |
| TimeKeeper.Timer.InitializeAgenda | src/Timer.js:675-689 | the agenda fields become `Initialize` of the configuration |
| TimeKeeper.Timer.SetCurrentSpeaker | src/Timer.js:698-716 | the agenda fields become `SetSpeaker` at the index |
| TimeKeeper.Timer.SyncToAgenda | src/Timer.js:242-254 | the agenda fields become `Sync` of the old ones |
| TimeKeeper.Timer.AutoNextSpeaker | src/Timer.js:719-733 | the agenda fields become `Advance` of the old ones |
| TimeKeeper.Timer.ExitAgendaMode | src/Timer.js:736-748 | the agenda is empty and off, with a blank name and 10:00 in the boxes |

## Left out

- The DOM: rendering, colours and animation classes, `updateButtonStates`, `updateRecordList`, `escapeHtml`, and the dialog's texts and visibility. The face is returned as numbers (`Digits`), and `FaceText` gives its two texts.
- `updateOvertimeAnimation` and its floating-point scale and blink period, because they only affect the timer's look.
- `exportRecords` and the CSV download, `setupRecordControls`, `getLocalizedText` and the language setting, because they are I/O and presentation only.
- The event listeners: button, keyboard and input wiring, the `beforeunload` and `visibilitychange` hooks, and the 0..999 and 0..59 clamps the input listeners apply to the boxes. Apart from those clamps, which write the boxes themselves, the listeners only call the modelled methods.
- `setInterval` and `clearInterval`, and `intervalId`. Ticks are calls to `UpdateTimer` at chosen readings (`Ticks`), and a repeated `start` does not start a second interval in the model.
- TimeKeeper.Timer.AutoNextSpeaker: the one-second `setTimeout` is taken as already elapsed.
- TimeKeeper.Timer.UpdateTimer: `updateTimer` reads `Date.now()` twice (:344 and :353), and the model uses one reading `now` for both.
- TimeKeeper.Timer.RestoreState: `restoreState` reads `Date.now()` for the expiry check (:114) and the catch-up check (:138), and its immediate `updateTimer` reads it twice more (:344, :353). The model uses one reading `now` for all four, and so does `PersistenceStore.RestoredClock`.
- TimeKeeper.Timer.Stop: the `clearRecords` guard at the top of `stop` (:437-441) is not modelled. Its two callers, the Yes handler (:166-176) and `handleKeydown` (:298-315), call `stop` only when neither a clear nor a delete is pending, so the guard never runs.
- TimeKeeper.Timer.Stop: `updateRecordList` is not modelled, and the `toLocaleString()` stamp is a parameter.
- TimeKeeper.Timer.Reset: the trailing `updateDisplay` call only redraws the face, so it is not modelled.
- TimeKeeper.Timer.ExecuteDeleteRecord: takes the index it splices as a parameter. The as-written flow, where that index has already been deleted, is `History.ConfirmDeleteAsWritten` (see Findings).
- The dialog state `currentAction`, `confirmYesBtn.clicked` and the `handleKeydown` shortcuts. The resume branch of `hideConfirmDialog` is modelled on its own, as `TimeKeeper.Timer.Resume`.
- Aliasing: `syncToAgenda` writes into the configured speaker objects, which are shared with `window.TIMEKEEPER_CONFIG`. The model uses a list value. `window.agendaManager` is not part of this model.
- `localStorage` and JSON are a `Storage` object with a slot per key: missing, unreadable, or holding a value. A save that fails is a parameter. A snapshot holds numbers as integers and booleans as booleans, so the `|| false` and `|| 0` fallbacks on mode and index never apply.
- A missing configuration, or one without a non-empty `speakers` array, is the empty list.
- Configured speakers have integer `minutes` and `seconds`. Non-numeric or fractional values are not modelled.
- The `console.error` logging in `loadRecords`, `saveRecords`, `saveState` and `restoreState` (:50, :61, :100, :157) is left out, because it only writes to the console.
- `loadRecords` (:48) accepts any JSON text, so a stored value that is not a list (such as `null`) would become `records`. The model's slot holds only a list or nothing readable, because the key is only ever written by `saveRecords`, which always stores a list.
- Numbers are unbounded integers. Timestamps are whole milliseconds, and the float precision limits are not modelled.

## Findings

| source | as written | input that shows it | evidently intended | confidence | as-written member | corrected member |
|---|---|---|---|---|---|---|
| src/Timer.js:166-176, src/Timer.js:298-315, src/Timer.js:295, src/Timer.js:564 | the confirm handler and the Enter key handler both call `hideConfirmDialog` first, which deletes `recordIndexToDelete`; then `executeDeleteRecord` calls `splice(undefined, 1)`, which removes the first record | two records A and B, delete B and confirm: A is removed and B stays | remove the record the user chose | not executed | History.ConfirmDeleteAsWrittenRemovesWrongEntry | TimeKeeper.Timer.ExecuteDeleteRecord |
