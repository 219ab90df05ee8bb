# Shift-log audit wizard, modelled in Dafny

The system is a browser wizard that helps supervisors audit the shift
logs of heavy equipment (haul trucks and the loaders they queue at),
together with the Flask server behind it.

- **Step 1** picks a date and a set of shifts. It warns when the date is
  a Friday.
- **Step 2** fetches the trips of one unit for that date and shifts and
  shows them as a timeline. The supervisor can:
  - insert a manual trip below a row;
  - soft-delete or restore a trip;
  - edit a trip's time, loader, position and distance.
- **Step 3** shows the hour-meter (HM) audit table. It classifies the
  derived values, lists the problem flags, offers correction forms and
  runs an auto-validation sequence.

The server's role here:
- It checks and normalises what the pages send: the trip query, new and
  edited trips, registration.
- It maps database rows to trips and sorts them by time.
- It builds the database connection string from the environment.

The Dafny project follows the program's structure, one module per source
file or concern:

| module | file | models |
|---|---|---|
| `Wrappers` | wrappers.dfy | `Option` and `Result` |
| `Text` | text.dfy | ASCII case mapping, JavaScript's `trim` and Python's `strip`, `split`/`join`, decimal digits, string order |
| `StableSort` | stable_sort.dfy | a stable insertion sort with its uniqueness theorem (both `Array.prototype.sort` and Python's `list.sort` are stable) |
| `DateTimes` | datetime.dfy | `timesheet_utils.js`: the Gregorian calendar, the three text forms, `addOneMinute` |
| `Trips` | trips.dfy | the pure side of `timesheet_step_002.js`: the trip record, the time order, reference-row selection, manual ids, counts, row actions and classes |
| `TimesheetStep2` | timeline.dfy | the trip timeline as a class (`timesheetState.step2` plus the manual-id counter) whose methods are the page's handlers |
| `HmRules` | hm_rules.dfy | `getVal`, `parseFloat`, the TOTAL_HM / HM_LONCAT / pattern classes, `flagEq` and the problem badges of `timesheet_step_003.js` |
| `TimesheetStep3` | step3.dfy | the correction-form guards, the step-3 rows, and the auto-validation state machine |
| `TimesheetStep1` | step1.dfy | the shift selection set, the Friday flag, and the step-1 state as a class |
| `TimesheetWizard` | wizard.dfy | `timesheet_core.js`: the step machine |
| `LegacyTimesheet` | legacy.dfy | the step machine of the older single-file `timesheet.js` |
| `HistoricalPanel` | panel.dfy | `timesheet_panel.js`: row de-duplication, the highlight test, `pad`, `formatTanggal` |
| `TripServer` | server.dfy | `app.py`: the trip query, row mapping, sorting, time normalisation, add/update/delete/restore checks, registration |
| `DbConfig` | dbconfig.dfy | `config/database.py`: the trusted flag and the connection string |

How the model treats the system's surroundings:
- Each server reply becomes a parameter of the handler that awaits it: a
  success flag, an optional server id, or the fetched trips.
- The current time is a parameter.
- Database query results are a parameter, a function from shift code to
  rows.
- Environment variables are a record of optional strings.
- Dates are structured `DateTime` values. Local time is taken as UTC.

The trip handlers of the legacy `timesheet.js` have the same text as
those of `timesheet_step_002.js`, so the `TripTimeline` class models both.

## Model

| member | source | states |
|---|---|---|
| `DateTimes.Weekday` | static/js/timesheet_step_001.js:29-34 | the day of the week as `getDay` numbers it, always in 0..6 (Sunday 0), with 1970-01-01 a Thursday (4) |
| `DateTimes.EpochMillis` | static/js/timesheet_step_002.js:104-109 | `getTime`, the sort key, is zero at 1970-01-01 00:00 |
| `DateTimes.AddOneMinuteIsNextMinute` | static/js/timesheet_utils.js:62-64 | adding a minute to a valid date-time gives a valid date-time exactly one minute later, with the seconds kept, 60000 ms later in `getTime`, carrying through hour, day, month and year with Gregorian leap years |
| `DateTimes.AddOneMinuteDay` | static/js/timesheet_utils.js:62-64 | the day number moves on exactly when the time was 23:59, and then the weekday moves to the next day |
| `DateTimes.Pad2Digits` | static/js/timesheet_utils.js:13-16 | `padStart(2, '0')` of a number below 100 is its tens digit then its units digit |
| `DateTimes.DatePartLength` | static/js/timesheet_utils.js:17 | the date part is the year text plus six characters, ten characters for a four-digit year |
| `DateTimes.DisplayIsLocalWithSpace` | static/js/timesheet_utils.js:23-32 | the display form has the local form's length and equals it except that the `T` after the date is a space |
| `DateTimes.ForDBExtendsLocal` | static/js/timesheet_utils.js:37-45 | the database form starts with the local form of the same instant and ends with `:` and the padded seconds |
| `DateTimes.ParseForDBRoundTrip` | static/js/timesheet_utils.js:37-45 | reading the database form back (four-digit years) gives the same date-time |
| `DateTimes.AddOneMinuteTextReadsBack` | static/js/timesheet_utils.js:58-65 | `addOneMinute` of a given time is text that reads back as exactly that time plus one minute |
| `DateTimes.AddOneMinuteValidity` | static/js/timesheet_utils.js:59-60 | with no input, `addOneMinute` formats the current time, and either way the result is a calendar date-time |
| `Trips.SortByTimeSpec` | static/js/timesheet_step_002.js:104-109 | sorting the trips gives a permutation, ascending by `getTime` with a missing time as 0, and trips with equal keys keep their relative order |
| `Trips.SortByTimeIdempotent` | static/js/timesheet_step_002.js:265-269 | sorting a sorted list changes nothing |
| `Trips.FindById` | static/js/timesheet_step_002.js:254-255 | the index found is the first trip whose `String(id)` equals the id; none means no trip has it |
| `Trips.FindByIdIgnoresNotes` | static/js/timesheet_step_002.js:342-359 | changing a trip's note does not change which trip an id finds |
| `Trips.NextOrdinary` | static/js/timesheet_step_002.js:275-282 | the first position from a start whose loader is neither LOGIN nor LOGOUT; none means no such trip lies ahead |
| `Trips.PrevOrdinary` | static/js/timesheet_step_002.js:285-292 | the last such position at or before a start; none means no such trip lies behind |
| `Trips.ScanForward` | static/js/timesheet_step_002.js:275-282 | the forward loop finds exactly the next ordinary trip after the anchor's row |
| `Trips.ScanBackward` | static/js/timesheet_step_002.js:285-292 | the backward loop finds exactly the previous ordinary trip before the anchor's row |
| `Trips.ReferenceIsOrdinaryOrAnchor` | static/js/timesheet_step_002.js:257-295 | the reference row is the anchor itself or an ordinary trip taken from the list |
| `Trips.ReferenceKeepsTiming` | static/js/timesheet_step_002.js:301-312 | the reference, and every new trip built from it, hold calendar date-times |
| `Trips.ManualId` | static/js/timesheet_step_002.js:297-298 | a manual id always lies in 10000000..99999999 |
| `Trips.ManualIdRepeats` | static/js/timesheet_step_002.js:297-298 | two counters give the same id exactly when they are a multiple of 90000000 apart |
| `Trips.ManualIdDistinct` | static/js/timesheet_step_002.js:297-298 | fewer than 90000000 increments apart, two counters give different ids |
| `Trips.NewManualTripTime` | static/js/timesheet_step_002.js:301-312 | the new trip is `manual`, has the reference's loader kind, and its time is the reference's plus one minute, or the current time when the reference has none |
| `Trips.AddedTripLanding` | static/js/timesheet_step_002.js:322-330 | pushing a manual trip and re-sorting gives the old trips plus that one, in time order, with active and added counts up by one and deleted unchanged |
| `Trips.EditedKeepsIdentity` | static/js/timesheet_step_002.js:402-405 | saving edits keeps the id, the note, the unit, the operator and the shift, keeps the time when none was entered, and leaves the counts alone |
| `Trips.FirstOperatorNameNone` | static/js/timesheet_step_002.js:227-229 | no name is taken exactly when every trip's operator name is blank after trimming |
| `Trips.FirstOperatorNameAt` | static/js/timesheet_step_002.js:227-229 | the name taken is that of the first trip whose trimmed name is not blank |
| `Trips.SetNoteKeepsTiming` | static/js/timesheet_step_002.js:353 | changing a note keeps every report time a calendar date-time |
| `Trips.SortKeepsTiming` | static/js/timesheet_step_002.js:326-330 | sorting keeps every report time a calendar date-time |
| `Trips.RestoreUndoesDelete` | static/js/timesheet_step_002.js:374-375 | restoring after deleting is the same as restoring, and gives back a trip whose note was blank |
| `Trips.Tally` | static/js/timesheet_step_002.js:446-449 | active plus deleted is the number of trips, and added never exceeds active |
| `Trips.TallyReplace` | static/js/timesheet_step_002.js:446-449 | replacing one trip moves each count by exactly that trip's old and new contribution |
| `Trips.DeleteMovesCount` | static/js/timesheet_step_002.js:352-353 | deleting a trip that was not deleted moves one from active to deleted |
| `Trips.TallyAppendManual` | static/js/timesheet_step_002.js:324 | a new manual trip adds one to active and to added |
| `Trips.TallyPermutation` | static/js/timesheet_step_002.js:326-330 | counts depend only on which trips there are, not their order, so re-sorting keeps them |
| `Trips.RowActions` | static/js/timesheet_step_002.js:136-160 | save and cancel exactly while editing; otherwise LOGIN/LOGOUT rows get add only, deleted rows restore only, other rows add, delete and modify, so marker rows never get delete or modify |
| `Trips.RowClassIsJoinedNames` | static/js/timesheet_step_002.js:126-129 | the row's class attribute is the space-joined list of the classes that apply, in order deleted/manual, login, logout, editing |
| `TimesheetStep2.TripsQuery` | static/js/timesheet_step_002.js:190-219 | no query when the trimmed equipment is blank, or, with equipment, when step 1 has no date or no shift; otherwise the trimmed equipment, the date, the comma-joined shifts, and the operator only when the trimmed input is not blank |
| `TimesheetStep2.ChooseReference` | static/js/timesheet_step_002.js:257-295 | the reference row the handler picks is the one defined by `ReferenceTrip` (ordinary anchor itself, LOGIN forward, LOGOUT backward, anchor as fallback) |
| `TimesheetStep2.ScanAround` | static/js/timesheet_step_002.js:270-294 | the scan from the anchor's row in time order returns the next or previous ordinary trip, or the anchor when there is none |
| `TimesheetStep2.TripTimeline.constructor` | static/js/timesheet_core.js:9-25 | an empty timeline: no equipment, operator or trips, no row being edited, counter 0 |
| `TimesheetStep2.TripTimeline.Restore` | static/js/timesheet_step_002.js:8-22 | a saved step 2 restores equipment, operator and trips, each defaulting to empty; nothing saved changes nothing |
| `TimesheetStep2.TripTimeline.FetchTrips` | static/js/timesheet_step_002.js:190-236 | a refused query changes nothing; a sent one stores the trimmed inputs, a good reply replaces the trips and takes the first non-blank operator name, and the edit lock and the counter are kept |
| `TimesheetStep2.TripTimeline.ApplyFetchReply` | static/js/timesheet_step_002.js:225-233 | a good reply replaces the trips and updates the shown operator name; a failed one keeps both |
| `TimesheetStep2.TripTimeline.ClearTable` | static/js/timesheet_step_002.js:239-250 | trips, equipment and operator are emptied; everything else is kept |
| `TimesheetStep2.TripTimeline.AddRowBelow` | static/js/timesheet_step_002.js:253-337 | an unknown id changes nothing; otherwise the counter goes up by one, the trip sent is the manual trip built from the reference row, a failure keeps the list, and a success lands it (with the server id when given) in time order, as a permutation of the old list plus the trip, with the counts moved; the legacy copy is static/js/timesheet.js:500-576 |
| `TimesheetStep2.TripTimeline.Land` | static/js/timesheet_step_002.js:322-330 | after a saved insert, the list is the old trips plus the new one, sorted, with active and added counts one higher |
| `TimesheetStep2.TripTimeline.DeleteRow` | static/js/timesheet_step_002.js:340-360 | without confirmation or with an unknown id nothing is sent or changed; otherwise the id is sent, and on success only that trip's note becomes deleted (legacy copy static/js/timesheet.js:581-601) |
| `TimesheetStep2.TripTimeline.RestoreRow` | static/js/timesheet_step_002.js:363-382 | an unknown id sends nothing; otherwise on success only that trip's note becomes blank (legacy copy static/js/timesheet.js:657-676) |
| `TimesheetStep2.TripTimeline.ModifyRow` | static/js/timesheet_step_002.js:385-388 | the lock becomes the given id, whatever was locked before, and nothing else changes |
| `TimesheetStep2.TripTimeline.CancelEdit` | static/js/timesheet_step_002.js:440-443 | the lock is released and nothing else changes |
| `TimesheetStep2.TripTimeline.SaveRow` | static/js/timesheet_step_002.js:391-437 | an unknown id sends nothing; otherwise the edits are written into the trip before the reply, the update body carries the inputs, success releases the lock and re-sorts only when a time was entered, and failure keeps the lock and the edited trip (legacy copy static/js/timesheet.js:608-650) |
| `HmRules.Or` | static/js/timesheet_step_003.js:530 | `a \|\| b` is truthy when either is, and is `a` when `a` is truthy |
| `HmRules.Lookup` | static/js/timesheet_step_003.js:983-991 | a value found belongs to a field whose name matches the key ignoring case; an exact-name field wins |
| `HmRules.GetVal` | static/js/timesheet_step_003.js:983-991 | the loop returns the exact-name value, else the first value whose lower-cased name equals the lower-cased key, else null (also for a row that is not an object) |
| `HmRules.LookupIgnoresCase` | static/js/timesheet_step_003.js:983-991 | on a row whose field names differ other than by case, keys that differ only by case find the same value |
| `HmRules.SetKeyReadsBack` | static/js/timesheet_step_003.js:567-569 | after `row.key = v` the row reads `v` at that key |
| `HmRules.SetKeyKeepsOthers` | static/js/timesheet_step_003.js:567-569 | setting one key leaves every key of a different lower-case form reading as before |
| `HmRules.SetFieldEffect` | static/js/timesheet_step_003.js:567-569 | the row after the assignment reads the new value at that key and the old value at every other key |
| `HmRules.ParseFloat` | static/js/timesheet_step_003.js:94-96 | a number parses to itself; null and booleans do not parse |
| `HmRules.DigitTextParses` | static/js/timesheet_step_003.js:94-96 | a text of digits parses to its decimal value |
| `HmRules.NatTextParses` | static/js/timesheet_step_003.js:94-96 | the decimal text of a natural number parses back to it |
| `HmRules.NegativeTextParses` | static/js/timesheet_step_003.js:94-96 | a minus sign followed by a natural number's text parses to its negation |
| `HmRules.NonNumericTextIsNaN` | static/js/timesheet_step_003.js:94-96 | a text whose first non-space character is not a digit, sign or point does not parse |
| `HmRules.TotalHm` | static/js/timesheet_step_003.js:94-99 | TOTAL_HM exists exactly when both `next_hm` and `hm` parse, and is then `next_hm` minus `hm` |
| `HmRules.HmLoncat` | static/js/timesheet_step_003.js:94-101 | HM_LONCAT exists exactly when both `hm` and `prev_hm` parse, and is then `hm` minus `prev_hm` |
| `HmRules.JumpPlusTotal` | static/js/timesheet_step_003.js:98-101 | HM_LONCAT plus TOTAL_HM is `next_hm` minus `prev_hm` |
| `HmRules.TotalClass` | static/js/timesheet_step_003.js:159-164 | no class without a value; good exactly for values in (0, 12]; bad otherwise; never warn |
| `HmRules.LoncatClass` | static/js/timesheet_step_003.js:165-172 | no class without a value or at exactly 0.4; good within 1e-9 of zero; warn from 1e-9 up to below 0.4; bad above 0.4 or at or below -1e-9 |
| `HmRules.PatternClass` | static/js/timesheet_step_003.js:173-178 | the pattern cell is good exactly when the pattern (read at line 104) is text whose lower-case form is `logout-login-logout`, and bad otherwise |
| `HmRules.PatternIgnoresCase` | static/js/timesheet_step_003.js:104 | patterns equal ignoring case get the same class, and a missing pattern is bad |
| `HmRules.FlagEqProperties` | static/js/timesheet_step_003.js:107-111 | leading spaces do not matter, the expected text itself matches, and null never matches |
| `HmRules.BadgesOfSetFlags` | static/js/timesheet_step_003.js:179-205 | the badges of a flag vector name exactly the set flags, in check order, and none exactly when no flag is set |
| `HmRules.BadgeListed` | static/js/timesheet_step_003.js:179-205 | a check's badge is listed exactly when its flag is set |
| `HmRules.BadgesDistinct` | static/js/timesheet_step_003.js:179-198 | the five badges are different texts |
| `HmRules.Problems` | static/js/timesheet_step_003.js:179-205 | the problem cell lists a check's badge exactly when the row's flag field matches it, in the order belum logout, salah shift, tidak ftw, hm loncat, hm sama, and is empty exactly when nothing matches |
| `TimesheetStep3.ShiftUpdateRequest` | static/js/timesheet_step_003.js:511-546 | refused for no shift, then a row index outside the table, then a missing id, then a missing logout time, each exactly when the earlier checks pass and its own fails; a request is sent exactly when all pass, and carries the new shift and the row's id, next id, report times, mobile id (`MOBILEID` or `mobileid`), operator, HMs and shift |
| `TimesheetStep3.TargetId` | static/js/timesheet_step_003.js:711-734 | the login form targets `id`; the other forms target `prev_id`/`next_id`, falling back to `id`; a usable target comes from one of the two |
| `TimesheetStep3.HmUpdateRequest` | static/js/timesheet_step_003.js:701-764 | refused for an HM that does not parse, then a row index outside the table, then a missing target id or operator, each exactly when the earlier checks pass and its own fails; a request is sent exactly when all pass, and carries the form, the parsed HM, the target id, the operator, the current HM and the row's shift (the three forms at lines 701-764, 809-872, 917-980) |
| `TimesheetStep3.Step3Table.constructor` | static/js/timesheet_core.js:9-21 | no step-3 rows at first |
| `TimesheetStep3.Step3Table.Load` | static/js/timesheet_step_003.js:8-30 | the rows are the reply's rows, or none when the request failed |
| `TimesheetStep3.Step3Table.HandleShiftUpdate` | static/js/timesheet_step_003.js:501-583 | the request is the guarded one; only a sent request that succeeds changes the table, and then only the row's `opr_shift`, which reads the new shift while every other field reads as before |
| `TimesheetStep3.QueryCount` | static/js/timesheet_step_003.js:1027 | a run has one step per configured query, and 10 placeholder steps when none is configured |
| `TimesheetStep3.QueryAt` | static/js/timesheet_step_003.js:1058-1067 | step i runs the i-th configured query when there is one |
| `TimesheetStep3.ProgressCount` | static/js/timesheet_step_003.js:1111 | the done count is the index while running and one more once the step completed or failed |
| `TimesheetStep3.AutoValidation.constructor` | static/js/timesheet_step_003.js:1008-1012 | not running, at index 0, with no steps |
| `TimesheetStep3.AutoValidation.Start` | static/js/timesheet_step_003.js:1015-1045 | refused (nothing changes) while running; otherwise running from index 0 with the configured count |
| `TimesheetStep3.AutoValidation.RunNext` | static/js/timesheet_step_003.js:1048-1102 | past the end the run finishes; otherwise the index goes up by exactly one whether the step completed or failed, reporting the step's name, status and done count |
| `TimesheetStep3.AutoValidation.RunToEnd` | static/js/timesheet_step_003.js:1048-1172 | a run from the start reports every step once, in order, with done counts 1, 2, ... and then finishes with the index at the total |
| `TimesheetStep1.Without` | static/js/timesheet_step_001.js:116 | every occurrence of the shift is removed and every other shift and its count kept |
| `TimesheetStep1.ToggledSelection` | static/js/timesheet_step_001.js:108-122 | after a checkbox change the list is sorted, holds the shift exactly when checked, holds any other shift exactly when it did before, and stays duplicate-free |
| `TimesheetStep1.ToggleOnThenOff` | static/js/timesheet_step_001.js:110-119 | checking then unchecking a shift not selected gives back the sorted list |
| `TimesheetStep1.ToggleOffThenOn` | static/js/timesheet_step_001.js:110-119 | unchecking then checking a selected shift gives back the list, when it was sorted and duplicate-free |
| `TimesheetStep1.NoDuplicatesCount` | static/js/timesheet_step_001.js:110-113 | a list has no repeated shift exactly when every shift occurs at most once |
| `TimesheetStep1.FridayOfDate` | static/js/timesheet_step_001.js:89-96 | the Friday flag of a date text is set exactly when that day is a Friday |
| `TimesheetStep1.NextAfterToggle` | static/js/timesheet_step_001.js:135-141 | with a date, checking a shift enables Next, and unchecking the only shift disables it |
| `TimesheetStep1.Selection.constructor` | static/js/timesheet_core.js:9-21 | no date, no shift, unit type "3 Shift", no Friday warning |
| `TimesheetStep1.Selection.Load` | static/js/timesheet_step_001.js:8-34 | saved values are restored with their defaults, the Friday flag follows the date, and Next is enabled exactly with a date and a shift |
| `TimesheetStep1.Selection.CheckForFriday` | static/js/timesheet_step_001.js:89-99 | the flag follows the date and a re-render is asked for exactly when it changed |
| `TimesheetStep1.Selection.HandleDateChange` | static/js/timesheet_step_001.js:82-86 | the date is stored, the flag follows it, and Next follows the date and shifts |
| `TimesheetStep1.Selection.HandleShiftCheckbox` | static/js/timesheet_step_001.js:108-122 | the list becomes the toggled one: sorted, holding the shift exactly when checked, other shifts unchanged, duplicate-free if it was; Next follows (legacy copy static/js/timesheet.js:131-142) |
| `TimesheetWizard.LoaderFor` | static/js/timesheet_core.js:35-41 | steps 1, 2 and 3 each start their own loader; any other number starts none |
| `TimesheetWizard.NextTarget` | static/js/timesheet_core.js:67-105 | Next moves on by one from steps 1 and 2 only after a successful save, and otherwise stays; step 3's Next (static/js/timesheet_step_003.js:261) only shows an alert |
| `TimesheetWizard.BackTarget` | static/js/timesheet_core.js:44-46 | Back moves from 2 to 1 and nowhere else |
| `TimesheetWizard.BackButtonTarget` | static/js/timesheet_step_003.js:260 | the Back button of step 2 (`goBackStep`) and of step 3 (`loadStep(2)`) each go back one step; step 1 has none |
| `TimesheetWizard.NavigateStaysInSteps` | static/js/timesheet_core.js:44-105 | any run of Next and Back clicks from steps 1 to 3 stays in steps 1 to 3 |
| `TimesheetWizard.StepThreeHeldUntilBack` | static/js/timesheet_step_003.js:259-262 | on step 3, no run of clicks without a Back click leaves step 3 |
| `TimesheetWizard.StepThreeLeftByBack` | static/js/timesheet_step_003.js:260 | the first Back click on step 3 is the one that leaves it, and it lands on step 2 |
| `TimesheetWizard.StepThreeNeedsSaves` | static/js/timesheet_core.js:67-105 | reaching step 3 from step 1 takes at least two successful saves, from step 2 at least one |
| `TimesheetWizard.WizardState.constructor` | static/js/timesheet_core.js:9-25 | step 1 with an empty selection, unit "3 Shift", no trips, no lock, counter 0, no step-3 rows |
| `TimesheetWizard.WizardState.LoadStep` | static/js/timesheet_core.js:35-41 | the step is always set to the argument and its loader started |
| `TimesheetWizard.WizardState.GoBackStep` | static/js/timesheet_core.js:44-46 | from step 2 go to and load step 1; from anywhere else nothing |
| `TimesheetWizard.WizardState.NextStep` | static/js/timesheet_core.js:67-105 | step 1 saves date, shifts and unit type, step 2 saves equipment, operator and trips, other steps save nothing; the step moves as `NextTarget` says and the new step's loader starts only when it moved |
| `TimesheetWizard.WizardState.CancelWizard` | static/js/timesheet_core.js:49-63 | the session is cleared exactly when the user confirms |
| `LegacyTimesheet.LegacyLoaderFor` | static/js/timesheet.js:30-34 | only steps 1 and 2 start a loader |
| `LegacyTimesheet.LegacyNextTarget` | static/js/timesheet.js:173-209 | Next moves from 1 to 2 after a successful save and never leaves step 2 |
| `LegacyTimesheet.LegacyStaysInFirstTwoSteps` | static/js/timesheet.js:173-213 | from steps 1 and 2 the legacy wizard never leaves them |
| `LegacyTimesheet.LegacyAgreesUntilStepTwoSaved` | static/js/timesheet.js:173-213 | the legacy and current step machines agree as long as no save succeeds on step 2 |
| `LegacyTimesheet.LegacyWizard.constructor` | static/js/timesheet.js:6-20 | step 1, empty selection, unit "3 Shift", no trips, no lock, counter 0 |
| `LegacyTimesheet.LegacyWizard.LoadStep` | static/js/timesheet.js:30-34 | the step is set to the argument and only steps 1 and 2 load |
| `LegacyTimesheet.LegacyWizard.GoBackStep` | static/js/timesheet.js:211-213 | from step 2 go to and load step 1; from anywhere else nothing |
| `LegacyTimesheet.LegacyWizard.NextStep` | static/js/timesheet.js:173-209 | the same saves as the current wizard, but only step 1 advances (to step 2) |
| `LegacyTimesheet.LegacyWizard.CancelWizard` | static/js/timesheet.js:160-171 | the session is cleared exactly when the user confirms |
| `HistoricalPanel.StringOf` | static/js/timesheet_panel.js:107 | `String(v)` of a text cell is the text |
| `HistoricalPanel.KeyText` | static/js/timesheet_panel.js:92 | `String(v ?? '')` is the text for a text cell and empty for null or undefined |
| `HistoricalPanel.Get` | static/js/timesheet_panel.js:107 | `row[k]` is a value stored under `k`, and undefined when no field is named `k` |
| `HistoricalPanel.Dedupe` | static/js/timesheet_panel.js:90-96 | the filter loop with its `seen` set computes the de-duplicated rows |
| `HistoricalPanel.DedupedDistinctKeys` | static/js/timesheet_panel.js:90-96 | no two kept rows have the same key |
| `HistoricalPanel.DedupedKeepsFirstRows` | static/js/timesheet_panel.js:90-96 | a row is kept exactly when it is the first of its key in the input |
| `HistoricalPanel.DedupedIsSubsequence` | static/js/timesheet_panel.js:91-96 | the kept rows appear in the input in the same order |
| `HistoricalPanel.HighlightComparesText` | static/js/timesheet_panel.js:107 | the highlight compares texts, so a null id matches "null" and a missing one "undefined" |
| `HistoricalPanel.ShowHistory` | static/js/timesheet_panel.js:53-107 | a failed reply or rows that are not an array show the no-data message; otherwise the table holds the de-duplicated rows, each highlighted exactly when its id and unit match |
| `HistoricalPanel.PadIsPad2` | static/js/timesheet_panel.js:76 | the panel's `pad` agrees with `padStart(2, '0')`, two characters below 100 |
| `HistoricalPanel.LastTwo` | static/js/timesheet_panel.js:78 | `slice(-2)` is the last two characters of the text, or the whole of a shorter text |
| `HistoricalPanel.EscapeHtml` | static/js/timesheet_utils.js:50-54 | the escaped text has no `<` or `>`, and text without `&`, `<`, `>` or no-break space is unchanged |
| `HistoricalPanel.FormatTanggal` | static/js/timesheet_panel.js:72-79 | empty for a falsy value, the escaped text for an unparsable one, and `DD Mon YY` (nine characters) for a date |
| `HistoricalPanel.LastTwoOfYear` | static/js/timesheet_panel.js:78 | the last two characters of a year of two or more digits are the year modulo 100, padded |
| `HistoricalPanel.FormatTanggalFields` | static/js/timesheet_panel.js:77-78 | the date form is the padded day, the month abbreviation and the padded year modulo 100 |
| `HistoricalPanel.FormatTanggalReadsBack` | static/js/timesheet_panel.js:72-79 | the day, the month and the year modulo 100 can be read back from the date form |
| `HistoricalPanel.MonthsDistinct` | static/js/timesheet_panel.js:77 | the twelve abbreviations are different and three characters long |
| `TripServer.ParseShifts` | app.py:231-233 | no shift exactly when every comma-separated piece is blank after `strip`; otherwise the codes are exactly the non-blank stripped pieces |
| `TripServer.NonBlankPiecesAppend` | app.py:231 | the kept pieces of two lists one after the other are the kept pieces of each, in that order, so the codes keep the order of the text |
| `TripServer.NonBlankPiecesEmpty` | app.py:231-233 | nothing is kept exactly when every piece strips to blank |
| `TripServer.NonBlankPiecesMembers` | app.py:231 | a text is kept exactly when it is non-blank and is the stripped form of some piece |
| `TripServer.FetchParameters` | app.py:223-233 | a blank equipment, date or shift text is refused first, then a shift text with no shift; otherwise the trimmed values, the operator only when not blank |
| `TripServer.CommasOnlyNameNoShift` | app.py:231-233 | a text of commas and spaces (such as ",,") names no shift |
| `TripServer.ParseShiftsOfJoin` | app.py:231 | the comma-joined shift list the page sends is read back as the same list |
| `TripServer.QueriedShiftsMembership` | app.py:245-249 | a code is queried exactly when it is one of S01, S02, S03, S08, S09 and some requested shift upper-cases and trims to it |
| `TripServer.QueriedShiftsCons` | app.py:245-249 | codes are queried in request order, skipping those not allowed |
| `TripServer.MapRow` | app.py:265-278 | a row maps unless it has fewer than five columns or a time value that is not a date-time |
| `TripServer.MappedNote` | app.py:276-277 | the note is `deleted` exactly when column 9 is 1 and column 10 is `trip`, and empty otherwise; without column 10 the record type is `trip` |
| `TripServer.MappedTimeReadsBack` | app.py:268 | a mapped trip has a time exactly when the row's time is a date-time, and that text reads back as it |
| `TripServer.MapRows` | app.py:265-280 | the request's rows map exactly when each row maps, and then trip i is the mapping of row i |
| `TripServer.CollectedIsQueriedCodes` | app.py:245-280 | the query loop over requested shifts gathers the rows of exactly the allowed codes, in order |
| `TripServer.SortByReportTimeSpec` | app.py:286 | sorting gives a permutation ordered by the time text, with equal keys in their old order and trips without a time first (the same key as app.py:306) |
| `TripServer.CollectTrips` | app.py:242-280 | the accumulating loop computes the trips of the queried codes, or fails when a row does not map |
| `TripServer.FetchTrips` | app.py:217-292 | refusals come from the parameter checks; otherwise the collected trips sorted by time, or a failure |
| `TripServer.SqlTextIsForDBWithSpace` | app.py:346 | the normalised time is 19 characters, the page's database form with a space for the `T` |
| `TripServer.SqlTextReadsBack` | app.py:343-344 | the normalised time parses back to the same date-time |
| `TripServer.WhitespaceRunAccepted` | app.py:343-346 | a date and a time separated by any non-empty run of white space is stored as that date-time in the single-space form, as `strptime`'s `\s+` for the format's space allows |
| `TripServer.ClientTimeNormalized` | app.py:341-346 | a time in the page's database form is accepted and normalised |
| `TripServer.FractionDropped` | app.py:342 | a fraction after a `.` is dropped before parsing |
| `TripServer.NormalizeIdempotent` | app.py:341-346 | normalising a normalised time gives it back |
| `TripServer.Nonempty` | app.py:369-372 | a falsy optional field becomes None, a truthy one is passed unchanged |
| `TripServer.AddTripParams` | app.py:313-372 | a missing time, unit or operator is refused first, then a time that cannot be read; otherwise the normalised time, the unit and operator, and the optional fields as None when falsy |
| `TripServer.ClientTripAccepted` | app.py:335-372 | a manual trip as the page sends it, with a four-digit year, is accepted with its time normalised |
| `TripServer.UpdateTripParams` | app.py:462-513 | a missing id is refused first, then a time given but unreadable; no time means none is sent, and the optional fields become None when falsy |
| `TripServer.TripIdParam` | app.py:408-409 | delete and restore refuse exactly a falsy id and pass any other unchanged (also app.py:440-441) |
| `TripServer.Register` | app.py:87-132 | the checks run in order: all fields present, passwords equal, password at least 4, username at least 3, username not taken; a registered user has the trimmed values and the upper-cased full name |
| `TripServer.RegisteredUser` | app.py:97-132 | a registered user has a username of at least 3 characters that was not taken, a password of at least 4 that equals the confirmation, and a non-empty full name with no lower-case letter |
| `DbConfig.TrustedFlag` | config/database.py:22-23 | trusted exactly when the variable is set and spells "yes" in any case |
| `DbConfig.FromEnvironment` | config/database.py:13-23 | the fields are the environment's values, and trusted as above |
| `DbConfig.KeyTextReadsBack` | config/database.py:28-40 | each segment name reads back as itself and contains no `=` or `;` |
| `DbConfig.TrustedConnectionString` | config/database.py:27-33 | when trusted the string is the DRIVER, SERVER and DATABASE segments then `Trusted_Connection=yes;` |
| `DbConfig.UntrustedConnectionString` | config/database.py:35-41 | otherwise it is the same three segments then `UID=` and `PWD=` segments with the user and password (`None` when unset) |
| `DbConfig.RenderReadsBack` | config/database.py:28-40 | segments whose values contain no `;` are read back from the rendered string |
| `DbConfig.ConnectionStringReadsBack` | config/database.py:25-41 | when no value contains `;`, the connection string splits back into exactly its segments, each ending in `;` |
| `DbConfig.CredentialsOnlyWhenUntrusted` | config/database.py:25-41 | trusted exactly when no UID or PWD segment appears, untrusted exactly when no Trusted_Connection segment appears, and untrusted strings carry both credentials |
| `StableSort.Sort` | static/js/timesheet_step_002.js:326-330 | sorting keeps the length and the elements |
| `StableSort.SortSorted` | static/js/timesheet_step_002.js:326-330 | the result is in order of the key |
| `StableSort.SortStable` | app.py:286 | elements with the same key keep their relative order |
| `StableSort.SortedUnique` | app.py:306 | two sorted lists with the same elements per key, in the same order, are equal |
| `StableSort.SortCharacterized` | static/js/timesheet_step_001.js:119 | any sorted list with the input's elements per key, in the input's order, is the sort of the input |
| `StableSort.SortOfSorted` | static/js/timesheet_step_001.js:119 | sorting a sorted list changes nothing |
| `Text.SplitJoin` | app.py:231 | splitting a separator-joined list whose pieces lack the separator gives back the pieces |
| `Text.TrimOfTrimmed` | app.py:247 | a text with no white space at either end, as the language counts it, trims to itself |
| `Text.NatToStringValue` | static/js/timesheet_panel.js:78 | the decimal text of a number reads back as that number |
| `Text.StrLtTotal` | app.py:286 | the string order compares any two different texts |

## Behaviour of the code worth noting

The model follows the code in each of these cases. Each is easy to misread.

- A manual trip's time is the time of the **reference** row plus one
  minute. The reference row is the nearest ordinary trip found by the
  scan, not necessarily the row whose button was clicked.
- An HM_LONCAT of exactly 0.4 gets no class at all. The tests are
  `< 0.4` for warn and `> 0.4` for bad
  (static/js/timesheet_step_003.js:165-172), and neither holds at 0.4.
- `saveRow` writes the edits into the trip before the server answers, so
  a failed save leaves the edited values in place.
- `goBackStep` only goes from step 2 to step 1. Step 3's Back button
  does not call it: it calls `loadStep(2)` directly.
- `cancelWizard` does not reset the step or the state; it only clears
  the server session and shows the start screen.
- `addRowBelow` with an id that no trip has does nothing. There is no
  error.
- `fetchTrips` does not release the edit lock.
- `modifyRow` does not check that the id exists.
- In `add_trip` and `update_trip`, a report time that is not text fails
  inside the guarded parsing block, so it gets the same 400 answer as an
  unreadable time.

## Left out

- Rendering: HTML templates, DOM updates, notifications, modals,
  progress bars and panel column sizing are not modelled. `formatDT`,
  `formatHM` and `toFixed` are left out with them.
- Network and persistence: every `fetch`, Flask routing, the session, the
  stored procedures, `pyodbc`, and `get_db_connection`/`init_database`.
  Replies, query results and the environment are parameters instead.
- Timers and asynchrony: `setTimeout`, Promises, and the `Math.random`
  delay between validation steps. The sequencer is modelled as
  synchronous steps.
- JavaScript `Date` internals:
  - string parsing, time zones and DST are not modelled; dates are
    structured values and local time is taken as UTC;
  - `new Date()` becomes a parameter;
  - the panel's date parse is an input that is falsy, unparsable, or a
    date.
- Dates outside the calendar range `Date` handles, and overflow of
  `setMinutes` beyond year 9999, are not modelled. The read-back lemmas
  assume four-digit years.
- `DateTimes.ParseForDBRoundTrip`, `DateTimes.AddOneMinuteTextReadsBack`,
  `TripServer.ClientTripAccepted` and `TripServer.NormalizeIdempotent`
  are stated for years 1000 to 9999 only. Python's `strptime`
  also accepts one-digit month, day and time fields, and glibc formats
  years below 1000 without padding; neither is modelled.
- `TripServer.ParseSpaced` models the white-space leniency of
  `strptime` only for the space between date and time, the one space in
  the formats used. It does not model white space inside a field.
- `HmRules.ParseFloat` does not read `Infinity`; HM values are exact
  reals, not binary floating point.
- `HmRules.FlagEqProperties` is stated for text values. `String(x)` of a
  number or boolean flag is not modelled as text.
- `HistoricalPanel.EscapeHtml` covers `&`, `<`, `>` and the no-break
  space, which is what `textContent`/`innerHTML` escape in a text node.
- `DateTimes.DateTime` has whole seconds only. The server's `isoformat`
  writes microseconds when the stored time has them, and `fetch_trips`
  sorts on that text. The page sorts on `getTime`, which keeps
  milliseconds. Two trips within the same second are therefore ordered
  by their fractions in the program, but keep their input order in the
  model (`Trips.TimeKey`, `DateTimes.EpochMillis`,
  `TripServer.SortByReportTime`).
- `Trips.Trip`: the page's trip fields are all text. The server can
  send `act_hauldistance` as a number. The page's `referenceTrip.distance
  || ''` then turns a distance of 0 into '', which `add_trip` stores as
  NULL. A numeric distance is not modelled.
- `Text.Lower` and `Text.Upper` map ASCII letters only. The texts
  compared here (loader markers, shift codes, patterns, "yes") are
  ASCII. Python's and JavaScript's Unicode case mappings are not
  modelled.
- Field order of `Object.values`/`Object.keys` is taken to be the order
  the row's fields are listed in.
- JSON request bodies are modelled as null, booleans, integers and text.
  Arrays and objects as field values are not modelled.
- `timesheet_sort` sorts the same trip dictionaries as `fetch_trips` and
  is covered by the same sort.
- `hash_password` (SHA-256) is not modelled: the model keeps the
  password the user registered.
- `static/js/dashboard.js`, `scripts/create_test_user.py` and
  `static/js/timesheet_MODULAR_README.js` are not part of this model.
