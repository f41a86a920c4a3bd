# Medication adherence bookkeeping — a Dafny model

This project models the adherence bookkeeping of a caregiver/patient
medication tracker. Patients log whether each scheduled dose was taken. Two
dashboards and a per-dose tracker then derive views from that log: counts,
rates, streaks, per-date lists and calendar dots. The three modelled
components are:

- **Caretaker dashboard** (`Caretaker.dfy`). It computes the overview
  statistics: the dose-level adherence rate, the completed and missed counts,
  and the current streak, which is a `while` loop walking back one day at a
  time. It also builds the per-date lists, the recent-activity list (the
  record array is sorted in place, newest first, and the first ten are
  summarised) and the calendar dots. Finally it models the two edits the
  dashboard makes to its in-memory list once the store has accepted them:
  a status update and adding a medication.
- **Patient dashboard** (`Patient.dfy`). It is a class holding the set of
  dates marked as taken. `HandleMarkTaken` grows that set when the insert
  succeeds and builds the upload path of a proof photo. `GetStreakCount` is a
  loop capped at 30 days. The module also has the today card, the monthly
  rate and the calendar dots.
- **Medication tracker** (`Tracker.dfy`). It splits the doses into completed
  and pending, picks the screen to show and the buttons to enable, and keeps
  a class with the two maps from medication id to the chosen photo and to its
  preview.

Shared pieces:

- `Records.dfy`: the record type, the list filter and a subsequence relation.
- `Percent.dfy`: `Math.round(100·n/d)` in exact integer arithmetic.
- `Streaks.dfy`: the run of consecutive taken days, uncapped and capped.

Calendar dates are integer day indices, so stepping back one day is `- 1`.
"Today", the upload time stamp and every answer of the remote store are
parameters.

Each rule tests exactly the status literal the code tests:

- The statistics and the streak count `taken`.
- The caretaker calendar dots, the per-date cards' colours and the
  recent-activity `taken` flag look at `completed`. The per-date buttons,
  shown for `pending` records on today, set `completed` or `missed`.

So a dose marked with the overview's button counts in the statistics but gets
no calendar dot (`TakenDayHasNoMarker`). A dose marked "complete" from the
calendar gets a green dot but never raises the completed count
(`UpdateCompletedCount`).

Some consequences of the code:

- There is no per-day classifier, only the three dot rules.
- The caretaker streak is 0 whenever today has no `taken` record, and it has
  no cap.
- The patient streak stops at 30.
- `Math.round` gives 100% once 99.5% of the doses are taken
  (`AdherenceRateHundred`).
- The monthly rate is the size of the taken-date set over 30, and it exceeds
  100 beyond 30 dates (`Patient.MonthlyRate`).

## Model

| member | source | states |
|---|---|---|
| `Records.Filter` | src/components/CaretakerDashboard.tsx:206 | the result holds exactly the elements that satisfy the predicate, it is a subsequence of the input (order kept), and it is no longer than the input |
| `Records.FilterMultiset` | src/components/CaretakerDashboard.tsx:227 | each kept element occurs as often as in the input; nothing else occurs |
| `Records.FilterSplit` | src/components/MedicationTracker.tsx:81-82 | a filter and its complement together have the input's multiset and add up to its length |
| `Records.FilterAppend` | src/components/CaretakerDashboard.tsx:104 | filtering a concatenation gives the concatenation of the filters |
| `Records.FilterKeepsAll` | src/components/MedicationTracker.tsx:83 | the filter keeps the whole list iff every element satisfies the predicate |
| `Records.FilterKeepsNone` | src/components/CaretakerDashboard.tsx:170 | the filter is empty iff no element satisfies the predicate |
| `Percent.RoundPercent` | src/components/CaretakerDashboard.tsx:172 | the result is the integer nearest to 100·n/d, with a half rounded up (the `Math.round` rule) |
| `Percent.RoundPercentBounds` | src/components/CaretakerDashboard.tsx:172 | a count of at most d gives 0..100, all of d gives 100, and none gives 0 |
| `Percent.RoundPercentZero` | src/components/CaretakerDashboard.tsx:172 | the rate is 0 iff 200·n < d, so a non-zero count can show 0% |
| `Percent.RoundPercentUnique` | src/components/CaretakerDashboard.tsx:172 | any k within half a percent of 100·n/d is the rounded value |
| `Percent.RoundPercentHundred` | src/components/CaretakerDashboard.tsx:172 | for n ≤ d the rate is 100 iff n is at least 99.5% of d |
| `Percent.RoundPercentMonotone` | src/components/PatientDashboard.tsx:155 | a larger count never gives a smaller rate |
| `Streaks.BelowStep` | src/components/CaretakerDashboard.tsx:189-191 | stepping back from a taken day leaves exactly one taken day fewer still to visit (the loop's termination measure) |
| `Streaks.RunLength` | src/components/CaretakerDashboard.tsx:186-192 | every day of the run ending at `day` is taken and the day before it is not; the run is 0 iff `day` is not taken; it is at most the number of distinct taken dates |
| `Streaks.RunLengthUnique` | src/components/CaretakerDashboard.tsx:189 | a length with both run properties equals `RunLength` |
| `Streaks.RunLengthMonotone` | src/components/PatientDashboard.tsx:86 | a superset of taken dates never gives a shorter run |
| `Streaks.RunLengthExtend` | src/components/PatientDashboard.tsx:86 | after adding `day`, the run at `day` is one more than the run at `day - 1`, and the run at `day` is at least one more than the old run at `day - 1` |
| `Streaks.CappedRun` | src/components/PatientDashboard.tsx:104 | the capped walk never exceeds the cap and is 0 iff the cap is 0 or `day` is not taken |
| `Streaks.CappedRunIsCutRun` | src/components/PatientDashboard.tsx:100-110 | the capped walk equals min(run length, cap) |
| `Caretaker.CompletedCount` | src/components/CaretakerDashboard.tsx:170 | the count is ≤ the list length; it equals the length iff every record is `taken` and is 0 iff none is |
| `Caretaker.CompletedCountCons` | src/components/CaretakerDashboard.tsx:170 | a record adds 1 to the count iff its status is `taken`; `completed`, `missed` and `pending` add nothing |
| `Caretaker.CompletedCountAppend` | src/components/CaretakerDashboard.tsx:104 | the count of a concatenation is the sum of the two counts |
| `Caretaker.AdherenceRateHundred` | src/components/CaretakerDashboard.tsx:172 | the overview rate is 100 iff at least 99.5% of the records are `taken` |
| `Caretaker.MissedDoses` | src/components/CaretakerDashboard.tsx:175-177 | the count is ≤ the list length and is 0 iff no record is `pending` with a date before today |
| `Caretaker.MissedDosesCons` | src/components/CaretakerDashboard.tsx:175-177 | a record adds 1 iff it is `pending` and dated strictly before today; `missed` records and today's or future records add nothing |
| `Caretaker.TakenDates` | src/components/CaretakerDashboard.tsx:180-184 | a date is in the set iff some record of that date is `taken`; there are no more such dates than `taken` records |
| `Caretaker.DateSetBound` | src/components/CaretakerDashboard.tsx:183 | a list of records has no more distinct dates than records |
| `Caretaker.AdherenceStats` | src/components/CaretakerDashboard.tsx:162-200 | an empty list gives all four figures 0. Otherwise the rate is the rounded `taken` percentage (0..100; 100 when all are `taken`; 0 when none is), the completed and missed counts are as above, and the streak loop returns the run of dates with a `taken` record ending today. The streak is ≤ the completed count, which is ≤ the list length |
| `Caretaker.MedicationsForDate` | src/components/CaretakerDashboard.tsx:225-228 | exactly the records dated `day`, in list order (a subsequence), each as often as in the list |
| `Caretaker.TodayPendingMarker` | src/components/CaretakerDashboard.tsx:204-207 | today's list has a `pending` record iff today's calendar day carries the yellow dot |
| `Caretaker.SortNewestFirst` | src/components/CaretakerDashboard.tsx:212 | the array ends up sorted by date, newest first, and is a permutation of its old contents |
| `Caretaker.ActivityOf` | src/components/CaretakerDashboard.tsx:214-221 | an entry carries the record's id, date, name and status; its `taken` flag holds iff the status is `completed`; its time is present iff the record is `completed` with a non-empty time, and is then the raw time text |
| `Caretaker.RecentActivity` | src/components/CaretakerDashboard.tsx:210-222 | the array is sorted in place, newest first, as a permutation. The result has min(10, length) entries, each summarising the record at the same position. An entry's `taken` flag holds iff its status is `completed`. The entries are non-increasing by date, and no record left out is newer than a listed one |
| `Caretaker.DayMarkers` | src/components/CaretakerDashboard.tsx:598-619 | green iff some record that day is `completed`; red iff some is `missed` and none is `completed`; yellow iff the day is today and some record is `pending` |
| `Caretaker.TakenDayHasNoMarker` | src/components/CaretakerDashboard.tsx:601-603 | a day whose records are all `taken` carries no dot |
| `Caretaker.UpdateMedicationStatus` | src/components/CaretakerDashboard.tsx:121-136 | the length is kept. When the store accepted the update, exactly the records with the given id get the new status and every other record is kept in place. When it failed, the list is unchanged |
| `Caretaker.UpdateUnknownId` | src/components/CaretakerDashboard.tsx:134-136 | an id no record has leaves the list unchanged |
| `Caretaker.UpdateIdempotent` | src/components/CaretakerDashboard.tsx:134-136 | applying the same update twice equals applying it once |
| `Caretaker.UpdateCompletedCount` | src/components/CaretakerDashboard.tsx:681-692 | setting `taken` never lowers the completed count; setting any other status, the calendar's `completed` included, never raises it |
| `Caretaker.AddMedication` | src/components/CaretakerDashboard.tsx:78-118 | an empty name, time or date stops the submit, and list and form are kept. A failed insert also keeps both. A stored insert puts the returned rows in front of the old list, which stays intact as the tail, and resets the form to blank fields with today's date and `pending` |
| `Caretaker.AddMedicationCounts` | src/components/CaretakerDashboard.tsx:104 | after an add, the completed count is that of the new rows plus that of the old list |
| `Patient.FileExtension` | src/components/PatientDashboard.tsx:61 | `split('.').pop()`: the text after the last '.'; its properties are stated by `FileExtensionIsLastPart` and `FileExtensionAfterDot` |
| `Patient.FileExtensionIsLastPart` | src/components/PatientDashboard.tsx:61 | the extension has no '.' and is a suffix of the name. It is preceded by a '.' or is the whole name, and it is the whole name when the name has no '.' |
| `Patient.FileExtensionAfterDot` | src/components/PatientDashboard.tsx:61 | the extension of `prefix.ext` is `ext` whenever `ext` has no '.' |
| `Patient.Decimal` | src/components/PatientDashboard.tsx:62 | the time stamp is written as a non-empty string of decimal digits |
| `Patient.DecimalRoundTrip` | src/components/PatientDashboard.tsx:62 | the digits `Decimal` writes denote exactly the time stamp, with no leading zero |
| `Patient.UploadPath` | src/components/PatientDashboard.tsx:62-63 | the path starts with `medication-images/` |
| `Patient.UploadPathExtension` | src/components/PatientDashboard.tsx:61-63 | the stored path has the same extension as the chosen file, whatever the user id and time stamp |
| `Patient.TodayDone` | src/components/PatientDashboard.tsx:151 | the today card shows ✓ iff the streak is positive, i.e. iff today is a taken date |
| `Patient.MonthlyRate` | src/components/PatientDashboard.tsx:155 | the rate is 0 iff the set is empty and at most 100 up to 30 dates. It is above 100 beyond 30 dates, so it has no cap |
| `Patient.MonthlyRateRange` | src/components/PatientDashboard.tsx:155 | round(100·n/30) is 0 iff n = 0, ≤ 100 for n ≤ 30 and > 100 for n > 30 |
| `Patient.DayMarkers` | src/components/PatientDashboard.tsx:199-215 | green iff the date is taken; red iff it is not taken and lies before today. The two are never shown together and there is never a yellow dot |
| `Patient.TodayMarkerMatchesTodayCard` | src/components/PatientDashboard.tsx:201-213 | today's green dot agrees with the today card, and today is never red |
| `Patient.MarkTodayExtendsStreak` | src/components/PatientDashboard.tsx:86 | after today is added, the streak is at least 1 and at least one more than yesterday's run, up to the cap |
| `Patient.PatientDashboard.constructor` | src/components/PatientDashboard.tsx:13-16 | no user, no taken dates, not submitting |
| `Patient.PatientDashboard.UserLoaded` | src/components/PatientDashboard.tsx:25-33 | a returned user is stored; no user keeps the old value |
| `Patient.PatientDashboard.TakenDatesLoaded` | src/components/PatientDashboard.tsx:36-51 | with a non-empty user id and data, the set becomes the fetched dates; otherwise it is kept |
| `Patient.PatientDashboard.HandleMarkTaken` | src/components/PatientDashboard.tsx:53-98 | without a user or with an empty user id (`!userId`), nothing changes. A photo gets the path `medication-images/<user>-<stamp>.<ext>`, and a failed upload ends the action. Only a successful insert adds the date. A duplicate-key (`23505`) or other error leaves the set unchanged. The set never loses a date, re-adding a present date changes nothing, and submitting is off at the end |
| `Patient.PatientDashboard.GetStreakCount` | src/components/PatientDashboard.tsx:100-110 | the loop returns min(run of taken dates ending today, 30). It is ≤ 30 and is 0 iff today is not taken |
| `Tracker.CompletedMedications` | src/components/MedicationTracker.tsx:81 | exactly the taken medications, in list order |
| `Tracker.PendingMedications` | src/components/MedicationTracker.tsx:82 | exactly the medications not taken, in list order |
| `Tracker.CompletedPendingPartition` | src/components/MedicationTracker.tsx:81-82 | each medication falls in exactly one of the two lists (multisets add up to the input's) and the lengths sum to the list length |
| `Tracker.AllCompleted` | src/components/MedicationTracker.tsx:83 | holds iff the list is non-empty and every medication is taken |
| `Tracker.TrackerView` | src/components/MedicationTracker.tsx:85-140 | an empty list shows "no medications" and never "all completed". A non-empty all-taken list shows "all completed". A list with a pending medication shows the tracking screen |
| `Tracker.TrackerControls` | src/components/MedicationTracker.tsx:167-296 | the controls of the tracking screen (the all-completed screen shows none). "Mark as Taken" is enabled iff the date is today and nothing is being submitted. Undo and Skip appear iff the date is today and are enabled iff nothing is being submitted. The read-only notice appears iff the date is not today, and then no action is offered; the button label follows the same two inputs |
| `Tracker.MedicationTracker.constructor` | src/components/MedicationTracker.tsx:31-41 | the date prop is kept and both maps start empty |
| `Tracker.MedicationTracker.HandleImageSelect` | src/components/MedicationTracker.tsx:43-46 | a chosen file is stored under the id and every other key is unchanged; no file means no change |
| `Tracker.MedicationTracker.PreviewLoaded` | src/components/MedicationTracker.tsx:48-53 | the loaded preview is stored under the id |
| `Tracker.MedicationTracker.HandleMarkTaken` | src/components/MedicationTracker.tsx:58-75 | the callback gets the id, the tracker's date and the stored photo, if any. With a stored photo, the id is removed from both maps and nothing else changes. Without one, both maps stay as they were |
| `Tracker.MedicationTracker.HandleMarkNotTaken` | src/components/MedicationTracker.tsx:77-79 | the callback gets the id and the tracker's date |

## Left out

- Remote store and authentication. Only these store and auth answers are modelled, each as a parameter: the status update's `stored` flag (`UpdateMedicationStatus`), the inserts' `InsertResponse` and `InsertResult` (`AddMedication`, `HandleMarkTaken`), the storage upload's `uploadOk` (`HandleMarkTaken`), and the `Option`s for the signed-in user (`UserLoaded`) and the fetched dates (`TakenDatesLoaded`).
- The caretaker's `fetchPatient` and `fetchMedications` (CaretakerDashboard.tsx:36-75) are not modelled; the record list is an input of every caretaker member.
- Sign-out (`handleLogout`, PatientDashboard.tsx:111-118) is not modelled: it only calls `supabase.auth.signOut()` and navigates away.
- The public image URL (`getPublicUrl`) and the `image_url` column written by the insert are not modelled; the upload path is the last file-related value the model computes.
- Concurrency. Each async handler is modelled as one atomic step (`UpdateMedicationStatus`, `AddMedication`, `PatientDashboard.HandleMarkTaken`). Overlapping handlers that read a stale `medications` list, so that one in-memory status update can overwrite another, and the `isSubmitting = true` phase during the awaits, are not modelled.
- The clock. `new Date()` and `Date.now()` become the `today` and `stamp` parameters. The greeting that depends on the hour is not modelled.
- Time zones. `new Date("yyyy-MM-dd")` followed by a local `format` is treated as the same day index.
- Floating point. `Math.round` is applied to the exact rational 100·n/d; floating-point error in `(n / d) * 100` is not modelled. For example, with 23 of 40 records `taken`, `(23 / 40) * 100` is 57.49999999999999 in double arithmetic, so the browser shows 57% where `RoundPercent(23, 40)` is 58.
- Caretaker.RecentActivity: the order of records with equal dates is not stated. The source's `sort` is stable; the model's insertion sort is too, but no contract says so.
- Caretaker.SortNewestFirst: the same insertion sort; its contract states the order by date and the permutation, not stability.
- Caretaker.RecentActivity: the activity `time` is the raw time text. `date-fns` formatting as `h:mm a` is a foreign library.
- Tracker.MedicationTracker.PreviewLoaded: the asynchronous `FileReader` is browser I/O. The preview is an opaque string stored when the read finishes.
- Status values other than `pending`, `taken`, `missed` and `completed` are not modelled.
- Rendering is not modelled, apart from the dot, screen and button conditions above. This covers badges, `alert`, `toast`, `console`, loading and `addingMedication` flags, the reminder e-mail and notification tabs, and the overview's per-record badge.
- The wiring between the patient dashboard and the tracker is not modelled; each component is modelled against its own interface. The dashboard passes `isTaken` and no `medications`, and its `handleMarkTaken(date, imageFile)` does not match the tracker's `onMarkTaken(id, date, imageFile)`.
- Patient.Decimal: `Date.now()` is a JavaScript number; the model writes any natural number in decimal.
- Login, signup, patient selection, the auth context, routing, onboarding and the footer are session plumbing or presentation; they are not part of this model.
