# Medication reminder: controller and alarm scheduler in Dafny

This project models the core of a single-page medication reminder. The user
keeps a profile and a list of scheduled medications. A one-second timer
compares the wall clock, as an `HH:mm` string, with each medication's time.
When an active medication is due, a full-screen alarm opens, unless that
same `HH:mm` string is the last minute that rang. The marker holds no date,
so a daily medication is skipped on the next day when nothing else rang in
between (see "## Findings"). Each
acknowledgment ("taken" or "skipped") adds one entry to a newest-first
history.

The modules follow the source files:

- `Types` (types.ts): profile, medication, history log, the two-value status and the six-value screen enumeration.
- `TimeFormat` (App.tsx:79): `toString`, `padStart(2, '0')`, the `HH:mm` clock string, and the well-formed `HH:mm` shape.
- `MedList` (App.tsx:101, 109, 115, 147): the `find`, `map` and `filter` expressions over the medication list.
- `Scheduler` (App.tsx:76-92): trigger selection, the one-tick decision with its last-alarm marker, and runs of ticks.
- `Navigation` (App.tsx:42-44, 128-162): the start screen and what `renderScreen` shows.
- `App` (App.tsx): the class `AppState`. It holds the controller state. Its methods are the timer tick and the handlers the screens call.
- `AlarmScreen`, `SetupMedScreen`, `EditMedScreen`, `ProfileScreen`: the records and updates each screen builds. The two forms are classes whose fields are the form inputs.

How the model reads the source:

- The clock is a parameter. A tick is `Tick(hours, minutes)`, with the ranges `Date` guarantees.
- `handleAction` reads `Date.now()` twice, once for the id and once for the timestamp. These are two parameters, which may differ.
- `toLocaleTimeString` is a string parameter.
- `deleteMed` defers its removal with a 10 ms timer. This is two methods, `DeleteMedPhase1` and `DeleteMedPhase2`. Any other call may happen between them.
- The form inputs carry the HTML `required` attribute, so the browser does not submit while one of them is empty. `Submit` therefore returns `None` in that case.
- A `type="time"` input only ever holds the empty string or a valid `HH:mm` value. `SetTime` requires this.
- `window.confirm` is a boolean parameter.
- Stored records are loaded through `Option` parameters of the `AppState` constructor. A missing or unreadable record is `None` and gives the default.

Where the design description and the code differ, the model follows the code:

- Opening the edit screen does not check that the id exists. The render falls back to the dashboard instead (`GoToEdit`, `Render`).
- Medication ids are not checked for uniqueness on insert. `AppendKeepsUnique` says when uniqueness survives an append.
- History ids are the decimal clock instant. They are distinct only for distinct instants (`DistinctInstantsDistinctIds`).
- The "alarm without a target renders nothing" branch exists in the code. `AlarmNeverBlank` proves that no reachable state takes it.

## Model

| member | source | states |
|---|---|---|
| `Types.StatusTag` | types.ts:23 | a status is stored as one of exactly two strings, `taken` or `skipped` |
| `Types.StatusesAreTwo` | types.ts:23 | the two outcomes are distinct and their stored strings differ |
| `Types.ScreensAreSix` | types.ts:27-34 | the enumeration lists every screen, has six members, and no two members share a string value |
| `TimeFormat.DecimalString` | App.tsx:79 | `toString` of a non-negative integer is non-empty and all digits, and has one digit exactly when the number is below ten |
| `TimeFormat.DecimalRoundTrip` | App.tsx:79 | reading the digits of `toString(n)` back gives `n`, so `toString` is injective |
| `TimeFormat.PadStart2` | App.tsx:79 | `padStart(2, '0')` keeps strings of length two or more and otherwise puts zeros in front of the string up to length two |
| `TimeFormat.FormatHHmm` | App.tsx:79 | the clock string is never shorter than `HH:mm`, and for two-digit hours and minutes it is five characters with the colon in the middle |
| `TimeFormat.IsHHmm` | types.ts:13 | a medication time in `HH:mm` format is five characters with a colon in the middle, an hour from 0 to 23 and a minute from 0 to 59 |
| `TimeFormat.TwoDigits` | App.tsx:79 | a number below 100, once padded, is exactly two digits that spell it |
| `TimeFormat.TwoDigitsBack` | App.tsx:79 | two digits read as a number and padded back give the same two digits |
| `TimeFormat.FormatHHmmIsHHmm` | App.tsx:79 | every clock reading gives a five-character string with `:` in the middle. It is a valid `HH:mm` string that reads back as that hour and minute |
| `TimeFormat.HHmmIsFormatted` | types.ts:13 | every valid `HH:mm` string is the clock string of some minute of the day |
| `TimeFormat.SameStringIffSameMinute` | App.tsx:79-81 | two clock readings give the same string if and only if they are the same hour and minute |
| `MedList.FindById` | App.tsx:147 | lookup by id returns nothing exactly when no entry has the id. Otherwise it returns an entry of the list with that id, namely the first one. A null id matches nothing |
| `MedList.ReplaceById` | App.tsx:101 | the length is kept, and each entry is replaced by the update exactly when its id matches |
| `MedList.ToggleById` | App.tsx:115 | the length is kept, and each entry with the id has `active` flipped. All other entries are unchanged |
| `MedList.RemoveById` | App.tsx:109 | no entry with the id remains, and every other entry does. The list never grows, and nothing changes when the id is absent |
| `MedList.ReplaceKeepsIds` | App.tsx:101 | replacing keeps the id list, so unique ids stay unique |
| `MedList.ReplaceIsSingleUpdate` | App.tsx:100-101 | when ids are unique, an update changes exactly the one entry with its id |
| `MedList.ToggleKeepsIds` | App.tsx:115 | toggling keeps the id list and changes no field except `active` |
| `MedList.ToggleTwice` | App.tsx:114-116 | toggling the same id twice restores the list |
| `MedList.RemoveDistributes` | App.tsx:109 | removal keeps order: removing from a concatenation concatenates the results for each part |
| `MedList.RemoveIsSingleDelete` | App.tsx:109 | when ids are unique, deleting an entry's id drops that entry and keeps all others in order |
| `MedList.RemoveIdempotent` | App.tsx:109 | a second removal of the same id removes nothing more |
| `MedList.RemoveThenFindNothing` | App.tsx:109 | after removal, a lookup by the removed id finds nothing |
| `MedList.AppendKeepsUnique` | App.tsx:96 | appending keeps ids unique if and only if the new id is not already in the list |
| `Scheduler.Fires` | App.tsx:83 | the trigger test: an inactive medication is never due, and a due medication's time is the clock string itself, so it is well formed exactly when the clock string is |
| `Scheduler.FindTrigger` | App.tsx:83 | the trigger search finds nothing exactly when no active medication is due. Whatever it finds is a list member that is active and due now, so an inactive medication is never selected |
| `Scheduler.FirstMatchWins` | App.tsx:83 | the due medication at index k is selected when nothing before k is due |
| `Scheduler.FindTriggerAppend` | App.tsx:83 | an earlier part of the list always wins over a later part, so appending never takes an alarm away from an existing medication |
| `Scheduler.LaterSameTimeSkipped` | App.tsx:83 | of two medications due at the same minute, the one selected comes from before the later one. With unique ids, the later one is not selected that minute |
| `Scheduler.Evaluate` | App.tsx:81-84 | a tick rings exactly when its minute differs from the marker and some active medication is due. What rings is an active list member due at that minute |
| `Scheduler.NextMarker` | App.tsx:81-85 | the marker is either kept or becomes the current minute. It becomes the current minute exactly when the tick rang or the marker already held it. The marker is never cleared |
| `Scheduler.RunTicks` | App.tsx:76-92 | a run of ticks raises at most one alarm per tick, and only for active list members |
| `Scheduler.MarkerAfter` | App.tsx:81-85 | after a run of ticks the marker is the one the run started from, or the clock string of one of its ticks at which a medication was due |
| `Scheduler.RunSplit` | App.tsx:76-92 | a run of ticks can be split anywhere. The second part continues from the marker the first part leaves |
| `Scheduler.QuietAfterRinging` | App.tsx:81 | once a minute has rung, further ticks in that minute ring nothing and keep the marker |
| `Scheduler.SameMinuteRingsAtMostOnce` | App.tsx:81-88 | any number of ticks in one minute ring at most once. They ring exactly once when the first of them finds a medication due, and the marker then holds that minute |
| `Scheduler.ReArmsNextMinute` | App.tsx:81-87 | after ticks at minute t1, the first tick of a different minute t2 rings the first medication due at t2, even while t1's alarm is open |
| `Scheduler.DueMedicationRings` | App.tsx:79-87 | an active medication with a valid `HH:mm` time, first among those due, rings at the tick of its own hour and minute, provided the marker does not already hold that `HH:mm` string (on any earlier day) |
| `Scheduler.OnlyValidTimesRing` | App.tsx:79-83 | a medication whose time is not a valid `HH:mm` string never rings |
| `Scheduler.NextDaySuppressed` | App.tsx:81 | as written: a daily medication at 08:00, ticked at 08:00, 08:01 and 08:00 again on the next day, rings only once |
| `Scheduler.EvaluateDated` | App.tsx:81-84 | corrected guard: a tick is skipped only when the same minute of the same day already rang, and otherwise rings the first active medication due |
| `Scheduler.NextMarkerDated` | App.tsx:85 | corrected marker: kept, or set to the day and minute that rang |
| `Scheduler.RunDated` | App.tsx:76-92 | corrected run of ticks: at most one alarm per tick |
| `Scheduler.DueAt` | App.tsx:83 | the reference a reminder owes: at each tick, the first active medication due then, and only active list members |
| `Scheduler.DistinctStampsAllRing` | App.tsx:81-87 | with the dated marker, ticks at distinct minutes that the marker has not seen ring exactly the medications due at them, in order |
| `Scheduler.NextDayRingsAgain` | App.tsx:81-87 | with the dated marker, the daily 08:00 medication rings on both days |
| `Navigation.InitialScreen` | App.tsx:42-44 | the app starts on the dashboard if and only if a profile name exists, and on the profile screen otherwise |
| `Navigation.Render` | App.tsx:128-162 | the profile, setup and history screens show their own views. The edit view shows the first list member with the edited id, and is shown exactly when such a member exists; otherwise the edit screen falls back to the dashboard. The alarm screen with a target shows that target. Nothing is shown only for an alarm without a target |
| `Navigation.RemovedNeverEdited` | App.tsx:147-152 | once a record is removed, no controller state renders it for editing |
| `App.AppState.CurrentView` | App.tsx:128-162 | the view of the current state is the alarm exactly when the alarm screen has a target, and the edit view only ever shows a listed medication with the edited id |
| `App.AppState.constructor` | App.tsx:13-46 | each stored record is used when present, and a missing one gives the blank profile or an empty list. The start screen follows the profile name, and no alarm, edit target or marker is set |
| `App.AppState.Tick` | App.tsx:77-89 | if the minute already rang or nothing is due, nothing changes and the marker is kept. Otherwise the marker becomes this minute, the first due medication becomes the target, and the alarm screen opens. The lists and the profile are untouched |
| `App.AppState.AddMed` | App.tsx:95-98 | the new medication is appended after the unchanged old list, and the dashboard shows. Nothing else changes |
| `App.AppState.UpdateMed` | App.tsx:100-103 | entries with the id are replaced, the id list is unchanged, and the dashboard shows |
| `App.AppState.ToggleMedStatus` | App.tsx:114-116 | `active` is flipped on entries with the id, the ids are kept, and the screen does not change |
| `App.AppState.DeleteMedPhase1` | App.tsx:105-107 | the dashboard shows and no view holds a medication, while the list is still unchanged |
| `App.AppState.DeleteMedPhase2` | App.tsx:108-111 | every entry with the id is removed, the rest keep their order, and the edit target is cleared. The current screen stays |
| `App.AppState.DeleteMed` | App.tsx:105-112 | navigation comes first and removal second. Afterwards the dashboard shows and no entry has the id |
| `App.AppState.RecordLog` | App.tsx:118-121 | the log is prepended, the old history is the tail, and the dashboard shows |
| `App.AppState.AcknowledgeAlarm` | App.tsx:155-157 | one press prepends exactly one log, so the history grows by one and the old history is the tail. The log has the target's name and the button's outcome. The target is cleared and the dashboard shows |
| `App.AppState.GoToEdit` | App.tsx:123-126 | the id is remembered and the edit screen opens. It shows the first entry with the id, or the dashboard when no entry has it |
| `App.AppState.Navigate` | App.tsx:131-154 | the screens' plain callbacks change the screen only. In particular, cancelling an edit neither saves nor deletes |
| `App.AppState.SetUser` | App.tsx:131 | the profile form's update replaces the profile and nothing else |
| `App.AppState.AlarmNeverBlank` | App.tsx:155-158 | in every reachable state the alarm screen has a target to show |
| `App.ProceedingOpensDashboard` | App.tsx:42-44 | a profile that the forward button accepts makes the next start open on the dashboard |
| `App.SaveEditChangesOneEntry` | App.tsx:100-101 | when ids are unique, saving an edit changes only that entry and keeps the ids unique |
| `App.DeleteFromEditRemovesOneEntry` | App.tsx:109 | when ids are unique, deleting from an edit screen removes only that entry |
| `AlarmScreen.ButtonStatus` | components/AlarmScreen.tsx:99-110 | the skip button reports `skipped` and the other button reports `taken` |
| `AlarmScreen.HandleAction` | components/AlarmScreen.tsx:63-71 | the single log snapshots the medication's name and carries the chosen outcome and the timestamp. Its id reads back as the clock instant |
| `AlarmScreen.Press` | components/AlarmScreen.tsx:100-106 | a press yields one log whose status is `skipped` exactly for the skip button |
| `AlarmScreen.DistinctInstantsDistinctIds` | components/AlarmScreen.tsx:65 | logs made at different instants get different ids |
| `SetupMedScreen.NewMedication` | components/SetupMedScreen.tsx:18-25 | a new medication is active and scheduled on the seven days Mon to Sun, in that order. It carries the given id, name, dosage, time and icon |
| `SetupMedScreen.SetupMedForm.constructor` | components/SetupMedScreen.tsx:11-14 | the form starts with empty name and dosage, time `08:00` and icon `fa-pills` |
| `SetupMedScreen.SetupMedForm.SetName` | components/SetupMedScreen.tsx:65 | only the name changes |
| `SetupMedScreen.SetupMedForm.SetDosage` | components/SetupMedScreen.tsx:77 | only the dosage changes |
| `SetupMedScreen.SetupMedForm.SetTime` | components/SetupMedScreen.tsx:84-88 | only the time changes, and it stays empty or a valid `HH:mm` |
| `SetupMedScreen.SetupMedForm.SetIcon` | components/SetupMedScreen.tsx:44-48 | only the icon changes, and it is one of the five offered identifiers |
| `SetupMedScreen.SetupMedForm.Submit` | components/SetupMedScreen.tsx:16-28 | nothing is submitted while a required field is empty. Otherwise the medication is built from exactly the current field values, is active, has a valid `HH:mm` time and uses an offered icon |
| `EditMedScreen.EditedMedication` | components/EditMedScreen.tsx:19 | the saved record keeps id, days, active and icon, and takes the new name, dosage and time |
| `EditMedScreen.SaveUneditedIsIdentity` | components/EditMedScreen.tsx:13-19 | saving the form as it was opened gives back the medication unchanged |
| `EditMedScreen.LastEditWins` | components/EditMedScreen.tsx:19 | editing twice is the same as editing once with the last values |
| `EditMedScreen.EditMedForm.constructor` | components/EditMedScreen.tsx:13-15 | the fields start as the medication's own name, dosage and time |
| `EditMedScreen.EditMedForm.SetName` | components/EditMedScreen.tsx:49 | only the name changes |
| `EditMedScreen.EditMedForm.SetDosage` | components/EditMedScreen.tsx:59 | only the dosage changes |
| `EditMedScreen.EditMedForm.SetTime` | components/EditMedScreen.tsx:65-69 | only the time changes, and a valid time stays empty or valid |
| `EditMedScreen.EditMedForm.Submit` | components/EditMedScreen.tsx:17-20 | nothing is saved while a required field is empty. Otherwise the record is the medication with only name, dosage and time replaced, and a valid time stays valid |
| `EditMedScreen.EditMedForm.HandleDelete` | components/EditMedScreen.tsx:22-26 | the id is handed on for deletion exactly when the user confirms, and nothing is handed on otherwise |
| `ProfileScreen.WithName` | components/ProfileScreen.tsx:100 | editing the name changes only the name |
| `ProfileScreen.WithDisease` | components/ProfileScreen.tsx:110 | editing the disease changes only the disease |
| `ProfileScreen.WithBirthDate` | components/ProfileScreen.tsx:119 | editing the birth date changes only the birth date |
| `ProfileScreen.WithImage` | components/ProfileScreen.tsx:49 | setting the image changes only `profileImage` |
| `ProfileScreen.CanProceed` | components/ProfileScreen.tsx:125 | the forward button is enabled only with a non-empty name and disease, and never while an image is being processed |
| `ProfileScreen.ButtonIgnoresOptionalFields` | components/ProfileScreen.tsx:125 | neither the birth date nor the image affects whether the forward button is enabled |
| `ProfileScreen.FillingEnables` | components/ProfileScreen.tsx:125 | after name and disease are entered, the button is enabled if and only if both are non-empty and no image is being processed |
| `ProfileScreen.EditsCommute` | components/ProfileScreen.tsx:100-119 | edits of different profile fields can be applied in either order with the same result |

## Left out

- Timers (`setInterval`, `clearInterval`, `setTimeout`): a tick is a call of `Tick`, and the deferred removal is the second delete phase. The timer's closure over the list it was created with is not modelled: each tick reads the current list.
- Saving to local storage, and JSON encoding and decoding: these are storage I/O. Loading is modelled only as "present or default".
- Speech synthesis, the WebAudio beep and the pulse animation of the alarm screen: these are browser side effects with no effect on state.
- Reading and resizing the profile image (FileReader, canvas, JPEG compression) and its `isProcessing` flag: these are foreign calls and floating point. The flag is a parameter of the button predicate.
- `Date.now()`, `getHours`/`getMinutes` and `toLocaleTimeString`: these are clock and locale services, passed in as parameters.
- The dashboard and history screens and all JSX markup: presentation only, apart from the callbacks `Navigate` models.
- The `days` field takes no part in triggering, as in the source. No day-of-week filtering is modelled.
- The `default` branch of `renderScreen`: no value of the closed screen enumeration reaches it.

## Findings

| source | as written | input that shows it | evidently intended | confidence | as-written member | corrected member |
|---|---|---|---|---|---|---|
| App.tsx:81 | the duplicate-alarm marker holds only the `HH:mm` string, so a minute is skipped whenever it equals the last minute that rang, on whatever day | one active medication at `08:00`; ticks at 08:00 on day 1, 08:01, and 08:00 on day 2: it rings on day 1 only | a medication rings at its time every day; only repeated ticks within the same minute of the same day are skipped | not executed | `Scheduler.NextDaySuppressed` | `Scheduler.DistinctStampsAllRing` |

The corrected guard (`EvaluateDated`, `NextMarkerDated`, `RunDated`) keys the
marker on the day as well as the minute. `DistinctStampsAllRing` proves that
it then rings at every tick where a medication is due, and `NextDayRingsAgain`
applies this to the input above. `App.AppState.Tick` keeps the guard as
written, so that the controller's contract describes the code.

