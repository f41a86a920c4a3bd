/** The caretaker's dashboard over one patient's dose records: the overview
    statistics, the per-date lists, the recent-activity list, the calendar
    dots, and the two edits the dashboard applies to its in-memory list
    after the remote store accepts them. */
module Caretaker {
  import opened Records
  import Percent
  import Streaks

  // ---------------------------------------------------------------------
  // Statistics
  // ---------------------------------------------------------------------

  /** The four figures of the overview cards. */
  datatype Stats = Stats(adherenceRate: nat, currentStreak: nat, missedDoses: nat, completedMeds: nat)

  predicate IsTakenRecord(m: DoseRecord) {
    m.status == Taken
  }

  /** The number of records whose status is `taken`. */
  function CompletedCount(meds: seq<DoseRecord>): (n: nat)
    ensures n <= |meds|
    ensures n == |meds| <==> forall m :: m in meds ==> m.status == Taken
    ensures n == 0 <==> forall m :: m in meds ==> m.status != Taken
  {
    FilterKeepsAll(meds, IsTakenRecord);
    FilterKeepsNone(meds, IsTakenRecord);
    |Filter(meds, IsTakenRecord)|
  }

  /** The count grows by one exactly for each `taken` record: records of
      any other status, `completed` included, add nothing. */
  lemma CompletedCountCons(m: DoseRecord, rest: seq<DoseRecord>)
    ensures CompletedCount([m] + rest) == CompletedCount(rest) + (if m.status == Taken then 1 else 0)
  {
    FilterAppend([m], rest, IsTakenRecord);
  }

  /** The count of a concatenation is the sum of the counts. */
  lemma CompletedCountAppend(a: seq<DoseRecord>, b: seq<DoseRecord>)
    ensures CompletedCount(a + b) == CompletedCount(a) + CompletedCount(b)
  {
    FilterAppend(a, b, IsTakenRecord);
  }

  /** A record counts as a missed dose when it is still `pending` and its
      date is strictly before today; a record marked `missed` does not. */
  function Overdue(today: int): DoseRecord -> bool {
    (m: DoseRecord) => m.status == Pending && m.date < today
  }

  function MissedDoses(meds: seq<DoseRecord>, today: int): (n: nat)
    ensures n <= |meds|
    ensures n == 0 <==> forall m :: m in meds ==> !(m.status == Pending && m.date < today)
  {
    FilterKeepsNone(meds, Overdue(today));
    |Filter(meds, Overdue(today))|
  }

  /** The missed count grows by one exactly for each pending record dated
      before today. */
  lemma MissedDosesCons(m: DoseRecord, rest: seq<DoseRecord>, today: int)
    ensures MissedDoses([m] + rest, today)
         == MissedDoses(rest, today) + (if m.status == Pending && m.date < today then 1 else 0)
  {
    FilterAppend([m], rest, Overdue(today));
  }

  /** The overview rate reads 100% exactly when at least 99.5% of the
      records are `taken`, which for 200 records or more does not need all
      of them. */
  lemma AdherenceRateHundred(meds: seq<DoseRecord>)
    requires |meds| > 0
    ensures Percent.RoundPercent(CompletedCount(meds), |meds|) == 100
        <==> 200 * CompletedCount(meds) >= 199 * |meds|
  {
    Percent.RoundPercentHundred(CompletedCount(meds), |meds|);
  }

  /** The dates on which some record is `taken`, as a set. */
  function TakenDates(meds: seq<DoseRecord>): (dates: set<int>)
    ensures forall d :: d in dates <==> exists m :: m in meds && m.status == Taken && m.date == d
    ensures |dates| <= CompletedCount(meds)
  {
    var taken := Filter(meds, IsTakenRecord);
    DateSetBound(taken);
    DateSet(taken)
  }

  function DateSet(s: seq<DoseRecord>): set<int> {
    set m | m in s :: m.date
  }

  /** Distinct dates are no more than records. */
  lemma {:induction false} DateSetBound(s: seq<DoseRecord>)
    ensures |DateSet(s)| <= |s|
    decreases |s|
  {
    if |s| > 0 {
      DateSetBound(s[1..]);
      assert s == [s[0]] + s[1..];
      assert DateSet(s) == DateSet(s[1..]) + {s[0].date};
    }
  }

  /** The overview statistics for `meds` as of `today`. An empty list
      yields all zeros; otherwise the rate is the rounded percentage of
      `taken` records, the missed count is the number of overdue pending
      records, and the streak walks back from today through the dates
      that have a `taken` record. */
  method AdherenceStats(meds: seq<DoseRecord>, today: int) returns (s: Stats)
    ensures |meds| == 0 ==> s == Stats(0, 0, 0, 0)
    ensures |meds| > 0 ==> s.adherenceRate == Percent.RoundPercent(CompletedCount(meds), |meds|)
    ensures s.completedMeds == CompletedCount(meds)
    ensures s.missedDoses == MissedDoses(meds, today)
    ensures s.currentStreak == Streaks.RunLength(TakenDates(meds), today)
    ensures s.adherenceRate <= 100
    ensures (forall m :: m in meds ==> m.status != Taken) ==> s.adherenceRate == 0
    ensures |meds| > 0 && (forall m :: m in meds ==> m.status == Taken) ==> s.adherenceRate == 100
    ensures s.currentStreak <= s.completedMeds <= |meds|
  {
    if |meds| == 0 {
      return Stats(0, 0, 0, 0);
    }
    var completed := CompletedCount(meds);
    var total := |meds|;
    var rate := Percent.RoundPercent(completed, total);
    Percent.RoundPercentBounds(completed, total);
    var missed := MissedDoses(meds, today);
    var takenDates := TakenDates(meds);
    var streak := 0;
    var current := today;
    while current in takenDates
      invariant current == today - streak
      invariant streak + Streaks.RunLength(takenDates, current) == Streaks.RunLength(takenDates, today)
      decreases |Streaks.Below(takenDates, current)|
    {
      Streaks.BelowStep(takenDates, current);
      streak := streak + 1;
      current := current - 1;
    }
    s := Stats(rate, streak, missed, completed);
  }

  // ---------------------------------------------------------------------
  // Lists by date and recent activity
  // ---------------------------------------------------------------------

  function OnDate(day: int): DoseRecord -> bool {
    (m: DoseRecord) => m.date == day
  }

  /** The records dated `day`, in list order, each as often as the list has it. */
  function MedicationsForDate(meds: seq<DoseRecord>, day: int): (r: seq<DoseRecord>)
    ensures forall m :: m in r <==> m in meds && m.date == day
    ensures forall m :: multiset(r)[m] == if m.date == day then multiset(meds)[m] else 0
    ensures IsSubsequence(r, meds)
  {
    FilterMultiset(meds, OnDate(day));
    Filter(meds, OnDate(day))
  }

  /** One line of the recent-activity list. `taken` reflects the
      `completed` status; `time` is the raw time text, shown only for
      completed records that have one. */
  datatype Activity = Activity(id: string, date: int, name: string, taken: bool, time: Option<string>, status: Status)

  function ActivityOf(m: DoseRecord): (e: Activity)
    // the record's id, date, name and status are carried over unchanged
    ensures e.id == m.id && e.date == m.date && e.name == m.name && e.status == m.status
    // the entry counts as taken exactly for a `completed` record
    ensures e.taken <==> m.status == Completed
    // a time is shown only for a `completed` record with a non-empty time
    ensures e.time.Some? <==> e.taken && m.time != ""
    ensures e.time.Some? ==> e.time.value == m.time
  {
    Activity(m.id, m.date, m.name, m.status == Completed,
             if m.status == Completed && m.time != "" then Some(m.time) else None,
             m.status)
  }

  ghost predicate NewestFirst(s: seq<DoseRecord>) {
    forall i, j :: 0 <= i < j < |s| ==> s[i].date >= s[j].date
  }

  /** Sorts the list in place, latest date first. */
  method SortNewestFirst(a: array<DoseRecord>)
    modifies a
    ensures NewestFirst(a[..])
    ensures multiset(a[..]) == old(multiset(a[..]))
  {
    var i := 0;
    while i < a.Length
      invariant 0 <= i <= a.Length
      invariant forall k, l :: 0 <= k < l < i ==> a[k].date >= a[l].date
      invariant multiset(a[..]) == old(multiset(a[..]))
    {
      var j := i;
      while j > 0 && a[j - 1].date < a[j].date
        invariant 0 <= j <= i
        invariant forall k, l :: 0 <= k < l <= i && k != j && l != j ==> a[k].date >= a[l].date
        invariant forall l :: j < l <= i ==> a[j].date >= a[l].date
        invariant multiset(a[..]) == old(multiset(a[..]))
      {
        Swap(a, j - 1, j);
        j := j - 1;
      }
      i := i + 1;
    }
  }

  method Swap(a: array<DoseRecord>, i: int, j: int)
    requires 0 <= i < j < a.Length
    modifies a
    ensures a[i] == old(a[j]) && a[j] == old(a[i])
    ensures forall k :: 0 <= k < a.Length && k != i && k != j ==> a[k] == old(a[k])
    ensures multiset(a[..]) == old(multiset(a[..]))
  {
    a[i], a[j] := a[j], a[i];
  }

  /** The recent-activity list: sorts the dashboard's list in place, latest
      date first, and summarises the first ten records. */
  method RecentActivity(a: array<DoseRecord>) returns (act: seq<Activity>)
    modifies a
    ensures NewestFirst(a[..])
    ensures multiset(a[..]) == old(multiset(a[..]))
    ensures |act| == if a.Length < 10 then a.Length else 10
    ensures forall i :: 0 <= i < |act| ==> act[i] == ActivityOf(a[i])
    ensures forall i :: 0 <= i < |act| ==> (act[i].taken <==> act[i].status == Completed)
    ensures forall i, j :: 0 <= i < j < |act| ==> act[i].date >= act[j].date
    ensures forall i, k :: 0 <= i < |act| <= k < a.Length ==> a[k].date <= act[i].date
  {
    SortNewestFirst(a);
    var n := if a.Length < 10 then a.Length else 10;
    var sorted := a[..];
    act := seq(n, i requires 0 <= i < n => ActivityOf(sorted[i]));
  }

  // ---------------------------------------------------------------------
  // Calendar dots
  // ---------------------------------------------------------------------

  predicate HasStatus(s: seq<DoseRecord>, st: Status) {
    exists m :: m in s && m.status == st
  }

  /** The dots on calendar day `day`: green when a record that day is
      `completed`, red when one is `missed` and none is `completed`, yellow
      when one is `pending` and the day is today. */
  function DayMarkers(meds: seq<DoseRecord>, day: int, today: int): (r: Markers)
    ensures r.green <==> exists m :: m in meds && m.date == day && m.status == Completed
    ensures r.red <==> !r.green && exists m :: m in meds && m.date == day && m.status == Missed
    ensures r.yellow <==> day == today && exists m :: m in meds && m.date == day && m.status == Pending
  {
    var dayMeds := MedicationsForDate(meds, day);
    var hasCompleted := HasStatus(dayMeds, Completed);
    var hasMissed := HasStatus(dayMeds, Missed);
    var hasPending := HasStatus(dayMeds, Pending);
    Markers(hasCompleted, hasMissed && !hasCompleted, hasPending && day == today)
  }

  /** Today's list holds a pending record exactly when today's calendar
      day carries the yellow dot. */
  lemma TodayPendingMarker(meds: seq<DoseRecord>, today: int)
    ensures DayMarkers(meds, today, today).yellow
        <==> exists m :: m in MedicationsForDate(meds, today) && m.status == Pending
  {
  }

  /** A day whose records are all `taken` (the status the overview's button
      sets) carries no dot at all, although it counts in the statistics. */
  lemma TakenDayHasNoMarker(meds: seq<DoseRecord>, day: int, today: int)
    requires forall m :: m in meds && m.date == day ==> m.status == Taken
    ensures DayMarkers(meds, day, today) == Markers(false, false, false)
  {
  }

  // ---------------------------------------------------------------------
  // Edits of the in-memory list
  // ---------------------------------------------------------------------

  /** The list after a status update: when the store accepted it
      (`stored`), every record with id `id` gets the new status and all
      other records are kept; when it failed, the list is kept as is. */
  function UpdateMedicationStatus(meds: seq<DoseRecord>, id: string, status: Status, stored: bool): (r: seq<DoseRecord>)
    ensures |r| == |meds|
    ensures forall i :: 0 <= i < |meds| ==>
              r[i] == if stored && meds[i].id == id then meds[i].(status := status) else meds[i]
    decreases |meds|
  {
    if !stored || |meds| == 0 then meds
    else
      var m := meds[0];
      [if m.id == id then m.(status := status) else m] + UpdateMedicationStatus(meds[1..], id, status, stored)
  }

  /** An id that no record has leaves the list unchanged. */
  lemma UpdateUnknownId(meds: seq<DoseRecord>, id: string, status: Status)
    requires forall m :: m in meds ==> m.id != id
    ensures UpdateMedicationStatus(meds, id, status, true) == meds
  {
    var r := UpdateMedicationStatus(meds, id, status, true);
    assert forall i :: 0 <= i < |meds| ==> r[i] == meds[i] by {
      forall i | 0 <= i < |meds| ensures r[i] == meds[i] {
        assert meds[i] in meds;
      }
    }
  }

  /** Applying the same update twice is the same as applying it once. */
  lemma UpdateIdempotent(meds: seq<DoseRecord>, id: string, status: Status)
    ensures UpdateMedicationStatus(UpdateMedicationStatus(meds, id, status, true), id, status, true)
         == UpdateMedicationStatus(meds, id, status, true)
  {
  }

  /** Setting `taken` never lowers the completed count; setting
      `completed` (the calendar's "Mark Complete") never raises it. */
  lemma {:induction false} UpdateCompletedCount(meds: seq<DoseRecord>, id: string, status: Status)
    ensures status == Taken ==>
              CompletedCount(UpdateMedicationStatus(meds, id, status, true)) >= CompletedCount(meds)
    ensures status != Taken ==>
              CompletedCount(UpdateMedicationStatus(meds, id, status, true)) <= CompletedCount(meds)
    decreases |meds|
  {
    if |meds| > 0 {
      var m := meds[0];
      var m' := if m.id == id then m.(status := status) else m;
      var rest := UpdateMedicationStatus(meds[1..], id, status, true);
      assert UpdateMedicationStatus(meds, id, status, true) == [m'] + rest;
      assert meds == [m] + meds[1..];
      CompletedCountCons(m', rest);
      CompletedCountCons(m, meds[1..]);
      UpdateCompletedCount(meds[1..], id, status);
    }
  }

  /** The add-medication form. */
  datatype MedicationForm = MedicationForm(name: string, time: string, date: string, status: Status)

  function BlankForm(todayText: string): MedicationForm {
    MedicationForm("", "", todayText, Pending)
  }

  /** What the store answered to the insert: the stored rows, or an error. */
  datatype InsertResponse = Inserted(rows: seq<DoseRecord>) | InsertFailed

  datatype AddOutcome = MissingFields | AddFailed | Added

  datatype AddResult = AddResult(outcome: AddOutcome, medications: seq<DoseRecord>, form: MedicationForm)

  /** Submitting the form: any empty field stops it before the insert;
      a failed insert keeps list and form; a stored insert puts the new
      rows in front of the list and resets the form for today. */
  function AddMedication(meds: seq<DoseRecord>, form: MedicationForm, response: InsertResponse, todayText: string): (r: AddResult)
    ensures r.outcome == MissingFields <==> form.name == "" || form.time == "" || form.date == ""
    ensures r.outcome == Added <==> r.outcome != MissingFields && response.Inserted?
    ensures r.outcome != Added ==> r.medications == meds && r.form == form
    ensures r.outcome == Added ==> r.form == BlankForm(todayText)
    ensures r.outcome == Added ==>
              |r.medications| == |response.rows| + |meds|
              && r.medications[..|response.rows|] == response.rows
              && r.medications[|response.rows|..] == meds
  {
    if form.name == "" || form.time == "" || form.date == "" then
      AddResult(MissingFields, meds, form)
    else match response
      case InsertFailed => AddResult(AddFailed, meds, form)
      case Inserted(rows) => AddResult(Added, rows + meds, BlankForm(todayText))
  }

  /** After an add, the completed count is that of the new rows plus that
      of the old list. */
  lemma AddMedicationCounts(meds: seq<DoseRecord>, form: MedicationForm, response: InsertResponse, todayText: string)
    requires AddMedication(meds, form, response, todayText).outcome == Added
    ensures CompletedCount(AddMedication(meds, form, response, todayText).medications)
         == CompletedCount(response.rows) + CompletedCount(meds)
  {
    CompletedCountAppend(response.rows, meds);
  }
}
