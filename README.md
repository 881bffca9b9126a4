# ISRU mission checklist: task-state bookkeeping

The ISRU checklist page (`script.js`) shows a short list of tasks. A task is completed by a
tap, a click or a key. Its state lives in two places: the `completed` class on the task's
element and the entry `task_<id>` in `localStorage`. Around that the script keeps:

- a saved task order (`task_order`, a JSON array of ids);
- a daily streak (`currentStreak`, `lastCompletedDate`);
- a progress count (`progress`);
- an optional signed-in user (`isru_username`, `isru_user_data`, `isru_progress_<name>`);
- several guards that try to keep the page and the store in line while a touch screen scrolls.

This project models that bookkeeping and proves what the handlers promise about it.

- `wrappers.dfy` (module `Wrappers`): `Option`, standing for `null`/`undefined`.
- `numbers.dfy` (`JsNumbers`): JavaScript numbers as `NaN` or an integer. It has `String(n)`,
  `parseInt` with its leading white space, sign and `0x` prefix, and the day texts. It proves
  that parsing a printed count or day gives it back.
- `json.dfy` (`Json`): `JSON.stringify` of string arrays and objects, and the `JSON.parse`
  of a saved order. It proves the round trip of a saved order.
- `store.dfy` (`Store`): `localStorage` as a `map<string, string>`, its keys, and
  `getItem(k) === 'true'`.
- `checklist.dfy` (`Checklist`): the task list as a sequence of `Task(id, completed, stamp)`
  in document order. It holds the toggle, the reset, the flag restore, the saved-order
  reorder (`appendChild` of each named task in turn) and the completed count, with their
  properties.
- `streak.dfy` (`Streak`): `loadStreak` and `updateStreak` over the store, with dates as
  integer day numbers.
- `reconcile.dfy` (`Reconcile`): `preserveTaskStates`, the class-change monitor, and the
  snapshot and revert of the scroll protection window.
- `session.dfy` (`Session`): `String.prototype.trim`, the login and logout writes, and the
  user snapshot text.
- `keyboard.dfy` (`Keyboard`) and `touch.dfy` (`Touch`): the key-to-command mapping, and the
  per-task touch tracker with its tap test.
- `app.dfy` (`App`): the page itself, a class `Page` whose fields are:
  - the task elements;
  - the store;
  - the globals `currentStreak` and `currentISRUUser`;
  - the closure state of the scroll guard and of the protection window (flags, the
    never-cleared snapshot map, pending timeouts);
  - the class-change records waiting for the two `MutationObserver`s.

  The page's invariant `Valid` says, among other things, that task ids stay unique: the
  markup declares them so, and every handler only flips, clears or reorders tasks.
  Observer callbacks run as microtasks. The browser runs every queued microtask before it
  fires a timer or delivers an input event. So every timer and input method requires that
  no class-change record is waiting.

  Every listener and every timer or observer callback is a method. The loops of the
  handlers are `while` loops in module-level methods, each proved equal to a function of
  the modules above.

## Model

| member | source | states |
|---|---|---|
| JsNumbers.Add1 | script.js:1058 | `x + 1` on a JavaScript number: NaN stays NaN, an integer goes up by exactly one |
| JsNumbers.NatToString | script.js:1063 | the decimal text of a count is non-empty, all digits, and starts with `0` only for 0 itself |
| JsNumbers.DigitsValueOfNatToString | script.js:1063 | the digits written for n read back as n |
| JsNumbers.ParseIntOfToString | script.js:1058 | `parseInt(String(n))` gives n back for every stored count, NaN included |
| JsNumbers.ParseIntOfIntToString | script.js:1071-1072 | `parseInt` of the text of any integer, negative ones included, is that integer |
| JsNumbers.MagnitudeOfNatToString | script.js:1058 | the digit run of a written count has the count as its value |
| JsNumbers.LeadingSpaces | script.js:1058 | `parseInt` skips exactly the maximal run of white space at the front |
| JsNumbers.LeadingDigits | script.js:1058 | the digits `parseInt` consumes are the longest digit prefix |
| JsNumbers.ParseDayOfIntToString | script.js:1055 | a stored day text parses back to its day |
| JsNumbers.IntToStringInjective | script.js:1051 | two day texts are equal exactly when the days are equal, so `lastCompletedDate === today` compares days |
| Json.ParseStringBodyOfEscape | script.js:1105 | parsing the escaped text of any string, up to its closing quote, gives the string and the rest of the input |
| Json.ParseItemsOfJoin | script.js:1105 | the items of a written non-empty array parse back to the list of strings |
| Json.DecodeEncodeStrings | script.js:961 | the saved order round-trips: `JSON.parse(JSON.stringify(ids))` is `ids` for every list of strings |
| Store.Get | script.js:1091 | `getItem` gives a value exactly when the key is present, and then the stored one |
| Store.GetOr | script.js:3142 | `getItem` with a fallback gives the stored text unless it is absent or empty, and then the fallback |
| Store.TaskKeyInjective | script.js:990 | different task ids have different `task_<id>` keys, all of them task keys |
| Store.FixedKeysAreNotTaskKeys | script.js:961 | the streak, date, progress and user keys are not task keys; `task_order` is the key of a task named `order` |
| Store.StoredTrueAfterWrite | script.js:990-995 | after writing a task's flag, that task reads back as the flag written and every other task reads as before |
| Checklist.StampText | script.js:1038 | a completion always shows a non-empty timestamp line |
| Checklist.AgreesIgnoresOtherKeys | script.js:1091 | whether the page agrees with the store depends only on the task keys |
| Checklist.CompletedCountUpdate | script.js:1123 | replacing one task changes the completed count by the change of that task's flag |
| Checklist.CompletedCountAll | script.js:1135 | the completed count equals the number of tasks exactly when every task is completed |
| Checklist.Flip | script.js:987-996 | a toggled task keeps its id and has the opposite flag |
| Checklist.ToggleTasks | script.js:987-996 | toggling task i flips its flag, keeps every id, and leaves every other task unchanged |
| Checklist.ToggleStore | script.js:990-995 | the toggle's write makes the task's key read back as its new flag; no other key changes |
| Checklist.ToggleTwice | script.js:987-1012 | toggling twice gives the original flag back and leaves every other task as it was |
| Checklist.ToggleKeepsAgreement | script.js:987-1012 | with unique ids, a page that agrees with the store still agrees after a toggle, and timestamps stay exactly on the completed tasks |
| Checklist.ToggleCompletesAll | script.js:2158-2167 | a completion leaves every task completed exactly when all the other tasks already were |
| Checklist.ToggleCount | script.js:1123-1127 | a completion raises the completed count by one and an uncompletion lowers it by one |
| Checklist.RestoreFlags | script.js:1089-1100 | after the restore, a task is completed exactly when it was or its entry is exactly `"true"`; other tasks are untouched, and nothing is cleared |
| Checklist.ReloadRestoresFlags | script.js:1089-1100 | restoring a fresh page from a store that agreed with the tasks gives back every flag |
| Checklist.Find | script.js:1110 | `find` gives a task with the id, or None when no task has it |
| Checklist.FindFirst | script.js:1110 | `find` gives the first task with the id: the one at k when no task before k has it |
| Checklist.DistinctIdsOfPermutation | script.js:1109-1114 | rearranging tasks with unique ids keeps their ids unique |
| Checklist.ApplyOrderShape | script.js:1103-1115 | with unique ids, the reordered list is the tasks named by no id, in page order, followed by the named tasks in saved order; for a repeated id the last occurrence wins, and unknown ids are skipped |
| Checklist.ApplyOrderPermutes | script.js:1103-1115 | the reorder is a permutation of the tasks |
| Checklist.SavedOrderRoundTrip | script.js:1109-1114 | applying a page's own id order to it leaves it as it is |
| Checklist.ResetTasks | script.js:1146-1150 | the reset keeps every id and clears every flag and timestamp |
| Checklist.ResetStoreWrites | script.js:1146-1150 | after the reset's writes every task key reads `"false"` and every other key is unchanged |
| Checklist.ResetClearsEverything | script.js:1141-1151 | after a reset no task is completed or shows a timestamp, page and store agree, and every key that is not a task key is untouched |
| Streak.OnComplete | script.js:1067-1076 | `updateStreak` always records today. On a new day the count becomes stored + 1, whatever the gap, and is written back. On the same day nothing changes. No other key is touched |
| Streak.OnLoad | script.js:1048-1065 | `loadStreak` does nothing when the date is today. Otherwise it writes the global back as the count: stored + 1 after a one-day gap, 0 after a longer gap, unchanged otherwise. It never writes the date |
| Streak.StoredCountOfHolds | script.js:1058 | a count written as text is read back as that count |
| Streak.CompleteCountsOnePastStored | script.js:1070-1072 | a completion on a new day counts one past the stored count, or 1 when none is stored |
| Streak.CompleteIdempotentWithinDay | script.js:1067-1076 | a second completion on the same day changes neither the store nor the count |
| Streak.CompleteOnConsecutiveDays | script.js:1067-1076 | completions on consecutive days count up by one each day and once per day |
| Streak.LoadAfterGapResets | script.js:1059-1060 | a load more than one day after the last completion stores 0 |
| Streak.FirstLoadWithoutDateStoresZero | script.js:1054-1063 | the first load with no date stored writes `"0"` |
| Streak.ReloadCreditsAgain | script.js:1048-1065 | since the load never records today, a second load on the same day credits the gap again |
| Streak.LoadThenCompleteCountsTwice | script.js:1048-1076 | a load then a completion on the day after the last one count two more, not one |
| Reconcile.PreserveMakesAgree | script.js:2621-2646 | after `preserveTaskStates` every task's entry reads back as its flag, and only mismatching task keys were written |
| Reconcile.PreserveTouchesOnlyTaskKeys | script.js:2643 | keys of no task on the page are left alone |
| Reconcile.PreserveWhenAgreeing | script.js:2635-2644 | when page and store already agree, nothing is written |
| Reconcile.PreserveIdempotent | script.js:2621-2646 | a second run writes nothing |
| Reconcile.MonitorReact | script.js:2678-2707 | the monitor sets the changed task's flag to its stored value, keeps its timestamp, and touches no other task (and never the store) |
| Reconcile.MonitorLeavesCompletedWithoutStamp | script.js:2696-2702 | the monitor can leave a completed task without a timestamp line |
| Reconcile.SnapshotKeys | script.js:2782-2788 | the snapshot holds every id on the page plus the earlier entries, which it keeps for ids not on the page |
| Reconcile.SnapshotRecordsFlags | script.js:2782-2788 | with unique ids, the snapshot maps each task's id to its flag |
| Reconcile.Revert | script.js:2804-2816 | a task with a snapshot entry gets that flag back; one without stays as it is |
| Reconcile.WindowReact | script.js:2822-2846 | while the window is open a class change on a task with a snapshot entry is undone to the snapshot's flag; nothing else moves |
| Reconcile.CloseWindow | script.js:2797-2818 | the window's timeout puts every snapshotted task back to its snapshot and leaves the rest untouched |
| Reconcile.WindowRestoresOpeningFlags | script.js:2776-2818 | whatever happened during the window, closing it gives every task the flag it had when the window opened |
| Reconcile.ObserveChange | script.js:2678-2707 | with both observers, the monitor has the last word: the task ends with its stored flag |
| Reconcile.ObserversUndoEachOther | script.js:2822-2846 | when the snapshot and the store disagree on a task, the window's observer and the monitor each undo the other's change |
| Session.TrailingSpaces | script.js:2978 | `trim` drops exactly the maximal run of white space at the end |
| Session.TrimEnds | script.js:2978 | the trimmed name is empty or starts and ends with a non-space |
| Session.TrimSlice | script.js:2978 | the trimmed name is the part of the input between its leading and trailing white space |
| Session.TrimEmpty | script.js:2979 | the name is refused exactly when the input is all white space |
| Session.LoginStore | script.js:3000-3001 | a login writes the name and the profile text and no other key |
| Session.LogoutStore | script.js:3021-3022 | a logout removes the two login keys and no other key |
| Session.LoginIsRemembered | script.js:3029-3032 | a stored login is found again on the next page load, with its name and profile |
| Session.LogoutUndoesLogin | script.js:3011-3026 | after login then logout no login is found, and the store is as if only the logout had happened |
| Session.LogoutKeepsProgress | script.js:3021-3022 | logging out keeps the user's progress snapshot and every task entry |
| Session.ParseEntryOf | script.js:3137-3141 | one task's entry `{"id":…,"completed":…,"timestamp":…}` reads back as that task, whatever follows it |
| Session.ParseEntriesOf | script.js:3137-3141 | the entries of a non-empty task list, joined with commas, read back as the list, in page order |
| Session.SnapshotRoundTrip | script.js:3136-3146 | a saved user snapshot reads back as the tasks with their flags and timestamp lines, the streak text and the time that were written |
| Session.SnapshotTextInjective | script.js:3136-3146 | two snapshots with the same text hold the same tasks, streak and time |
| Keyboard.Minus1 | script.js:1973 | `parseInt(key) - 1` keeps NaN and lowers an integer by one |
| Keyboard.KeyTestsExclusive | script.js:1947-1979 | a key in the `'1'..'5'` range test is no other shortcut and starts with a digit 1 to 5 |
| Keyboard.DigitKeySelectsTask | script.js:1971-1976 | keys 1 to 5 select the task at index key − 1 |
| Keyboard.OtherDigitsSelectNothing | script.js:1971 | keys 0 and 6 to 9 trigger nothing |
| Touch.TouchTracker.constructor | script.js:154-157 | a new tracker is not scrolling and has no timer armed |
| Touch.TouchTracker.TouchStart | script.js:160-171 | a touch start records the start position and time and clears the scroll flag and its timer |
| Touch.TouchTracker.TouchMove | script.js:174-191 | a move of more than 15 px sets the scroll flag and re-arms its 500 ms timer; a smaller one changes nothing |
| Touch.TouchTracker.TimerFires | script.js:186-189 | the timer clears the scroll flag |
| Touch.TouchTracker.TouchEnd | script.js:194-215 | a touch end is a tap exactly when not scrolling, under 500 ms and under 20 px; a touch that ever moved more than 15 px is never a tap |
| App.ProgressStore | script.js:1128-1133 | the progress writes store the completed count and, for a signed-in user, the user snapshot |
| App.ProgressStoreFrame | script.js:1128-1133 | the progress writes touch no other key |
| App.AllCompletedMeans | script.js:2158-2162 | the celebration condition holds exactly when the list is non-empty and every task is completed |
| App.ProgressKeepsAgreement | script.js:1121-1138 | the progress writes never change whether page and store agree |
| App.LoadChecklist | script.js:1086-1118 | the load is the flag restore followed by the saved-order reorder, or a failure when the saved order does not parse |
| App.RestoreEach | script.js:1089-1100 | the restore loop computes the flag restore |
| App.ReorderEach | script.js:1103-1115 | the reorder loop computes the saved-order reorder |
| App.LoadKeepsTasks | script.js:1086-1118 | with unique ids, a successful load holds exactly the restored tasks, rearranged |
| App.ApplyExactOrder | script.js:1109-1114 | an order naming every task once puts the tasks in exactly that order |
| App.ReloadReproducesPage | script.js:1086-1118 | after the order was saved and the flags agree with the store, reloading the static page reproduces the task order and every flag |
| App.LoadAppliesSavedOrder | script.js:1103-1105 | a canonical saved order is parsed and applied to the restored tasks |
| App.ToggleStepKeepsAgreement | script.js:987-1016 | a whole toggle (flag write, streak, progress) keeps page and store in agreement |
| App.BootKeepsLogin | script.js:52-54 | the boot's progress and streak writes leave the saved login alone |
| App.ProgressKeepsStreak | script.js:1128-1133 | the progress writes leave the streak and its date alone |
| App.ResetKeepsStreak | script.js:1146-1150 | the reset's writes leave the streak and its date alone |
| App.ResetStepKeepsStreak | script.js:1141-1151 | a whole reset leaves every task open with no timestamp, page and store in agreement, the count 0, and the streak keys unchanged |
| App.ForceSaveChangesNothing | script.js:1010-1012 | the toggle's second flag write stores the text already there |
| App.ClearTasks | script.js:1145-1150 | the reset loop clears every task, writes `"false"` under every task key and records one class change per task, in page order |
| App.Insert | script.js:937 | `insertBefore` adds the dragged task to the list without it, and nothing else |
| App.InsertPlacesBefore | script.js:937 | the dragged task lands immediately before the target |
| App.DragKeepsTasks | script.js:930-939 | a drag step is a permutation that puts the dragged task last or right before the target |
| App.IndexOf | script.js:2681 | the element a class-change record names is the first task with that id |
| App.ObserversNeverSettle | script.js:2822-2846 | while the window is open and a task's snapshot flag differs from its stored flag, every record on it produces at least one more record on it: the observers never settle |
| App.RevertedIdsAreReverted | script.js:2803-2817 | every class change the window's timeout makes is on a task it put back |
| App.RevertAll | script.js:2802-2817 | the timeout's loop computes the window's close, recording one class change per task it put back |
| App.React | script.js:2678-2707 | one record delivered to both observers gives their combined effect and records each change they make |
| App.SnapshotFlags | script.js:2782-2788 | the snapshot loop computes the window's snapshot |
| App.FirstIncomplete | script.js:1949 | the first task that is not completed, or none when all are |
| App.KeyTarget | script.js:1947-1979 | Space/Enter targets the first open task and a digit its task, on desktop only, where tasks take clicks; a digit command targets exactly the task at its index when the page has one |
| App.DigitKeyTargetsTask | script.js:1971-1976 | on desktop, key d from 1 to 5 clicks the task at index d - 1 when the page has at least d tasks, and nothing otherwise |
| App.Page.constructor | script.js:4-9 | the static page: the declared tasks, none completed, streak 0, no user, no guard; the markup gives each task its own id, and the page keeps them unique from then on |
| App.Page.LoadChecklistState | script.js:1086-1118 | the page becomes the loaded list, or only the restored flags when the saved order fails to parse; no store write |
| App.Page.UpdateProgress | script.js:1121-1138 | the progress writes, and the celebration-music cue exactly when every task is completed |
| App.Page.LoadStreak | script.js:1048-1065 | the store and the global after `loadStreak` |
| App.Page.UpdateStreak | script.js:1067-1076 | the store and the global after `updateStreak` |
| App.Page.ToggleTask | script.js:965-1016 | task i flips, one class change recorded, store and streak take the toggle's writes, and the popup is scheduled exactly when a completion leaves every task completed |
| App.Page.Toggle | script.js:2752-2759 | on a touch device while the scroll guard is on, a toggle does nothing; otherwise it is `toggleTask` |
| App.Page.Reset | script.js:1141-1151 | every task cleared, every task key `"false"`, one class change per task, the progress written, the streak untouched |
| App.Page.SaveTaskOrder | script.js:958-962 | the page's ids in order are stored under `task_order` as a JSON array, and nothing else changes |
| App.Page.PreserveTaskStates | script.js:2621-2646 | the store follows the page; no flag changes |
| App.Page.Scroll | script.js:2733-2789 | a preserve check is queued; on a touch device the guard turns on and the window opens, with a snapshot taken only on the window's first scroll |
| App.Page.PreserveTimerFires | script.js:2652 | a pending preserve check runs `preserveTaskStates` |
| App.Page.GuardTimerFires | script.js:2745-2748 | the guard turns off and nothing else changes |
| App.Page.WindowTimerFires | script.js:2797-2818 | the window closes, every snapshotted task is put back, and each change is recorded |
| App.Page.DeliverClassChange | script.js:2822-2846 | the oldest record reaches the window's observer, then the monitor; with the window open and the snapshot disagreeing with the store, a record on the same task is queued again |
| App.Page.Click | script.js:226-270 | on desktop after load, a click toggles the task; otherwise nothing happens |
| App.Page.TouchEnd | script.js:194-215 | a tap on a touch device toggles the task unless the scroll guard is on; a touch that moved more than 15 px changes nothing |
| App.Page.Swipe | script.js:2111-2122 | an upward swipe of more than 50 px on a narrow screen resets the checklist; anything else changes nothing |
| App.Page.KeyDown | script.js:1941-1980 | R resets the checklist; Space/Enter and 1 to 5 toggle their target through its click listener; nothing happens outside those cases or before load |
| App.Page.DragStart | script.js:919-923 | the `dragging` class change is recorded and nothing else changes |
| App.Page.DragOver | script.js:930-939 | the dragged task moves to the end or right before the task it is over |
| App.Page.DragEnd | script.js:925-928 | the class change is recorded and the order saved |
| App.Page.Login | script.js:2977-3009 | a non-empty trimmed name with a profile found signs in and stores the login; otherwise nothing changes |
| App.Page.Logout | script.js:3011-3026 | the user is signed out and the login keys removed |
| App.Page.RestoreSession | script.js:3028-3045 | a stored login whose profile parses signs the user in; otherwise the user is unchanged |
| App.Page.Boot | script.js:41-98 | the load handler restores and reorders the tasks, writes the progress, checks the streak and restores the login; a saved order that does not parse stops it after the flag restore |

## Where the model follows the code

The documented behaviour differs from `script.js` in a few places. The model follows the code:

- Tasks missing from a saved order end up before the reordered ones, not after them
  (script.js:1109-1114).
- `loadStreak` never records today's date, so each reload after a one-day gap credits the
  streak again (script.js:1048-1065).
- The monitor and the protection window restore the `completed` class but not the timestamp
  line, so a completed task can show no timestamp (script.js:2696-2702, script.js:2811-2815).
- A login applies whichever answer arrives. No older answer is discarded
  (script.js:2977-3009).
- On a touch device, suppose the protection window is open and a task's snapshot flag
  differs from its stored flag. Then the two observers undo each other's class change on
  that task forever: each delivered record queues another one (`App.ObserversNeverSettle`,
  `App.Page.DeliverClassChange`). Microtasks run before any timer, so the window's closing
  timeout never fires, and the page freezes.

## Left out

- Sound, particles, rockets, stars, cursor trail, celebration popup, sharing, printing, the
  debug panel and console logging: cosmetic or foreign browser APIs. The popup is reduced to
  whether it is scheduled.
- `getDragAfterElement`: pixel geometry with floats. The task the pointer is over comes in
  as a parameter of `DragOver`.
- App.Page.DragOver: the dragged task is a parameter, not the task carrying the `dragging`
  class (script.js:932). The model has no `dragging` flag on tasks. It does not model
  `appendChild(null)` throwing when a `dragover` arrives with no drag in progress.
- Numbers are exact integers. Not modelled: rounding above 2^53, the exponent notation
  `String(n)` uses from 1e21 on, and fractional touch coordinates (`clientY`,
  script.js:161-197 and script.js:2108-2112; distances are whole pixels here). Counts, day
  numbers and pixel distances stay far below these limits.
- The progress bar width: a floating-point percentage. Only the completed count is modelled.
- `toDateString` and `Date` arithmetic: days are integer day numbers, the stored date is the
  day's decimal text, and the day gap is the difference of day numbers. Time zones and
  daylight saving are not modelled.
- `toLocaleTimeString` and `toISOString`: the texts come in as fields of a `Clock`
  parameter.
- `JSON.parse` of a saved order accepts only the form `JSON.stringify` writes. Any other
  text, including other valid JSON, is treated as a parse failure. The stored order is only
  ever written by the script, so this covers every text the script produces.
- `\u` escapes outside the control characters, and UTF-16 surrogate pairs: characters are
  Dafny `char`s.
- Member names of the JSON objects written (progress, user snapshot) are fixed identifiers
  and are not escaped.
- `fetchISRUUser` and the proxy: the answer comes in as an `Option<Profile>` parameter. The
  `await` between the request and the answer, where other events could run, is not
  interleaved.
- `personalizeExperience` and the header texts: display only.
- `setTimeout` and `MutationObserver`: timeouts are events the environment fires. Observer
  records are delivered one at a time, first to the window's observer and then to the
  monitor, in creation order. Batching of records is not modelled.
- The user-agent test is a constant `mobile` field of the page.
- `Touch.TouchTracker` is the closure state of one task's listeners. `App.Page.TouchEnd`
  takes its readings as a parameter and does not model the per-task listeners separately.
- The document-level `touchstart`/`touchend` pair feeding `handleSwipe` is the separate event
  `App.Page.Swipe`. It is not tied to the per-task touch listeners that fire on the same
  touch.
- `App.Page.RestoreSession` and `App.Page.Boot`: `JSON.parse` of the saved profile is a
  parameter (None when it throws). The profile object is kept as its text.
