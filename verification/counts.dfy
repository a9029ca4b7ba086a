/** The unique-patient counters: `uniquePatientCounts` (overall, per day and
    per month of the next visit), the day and month lookups over it, the
    per-day figures of the month view, the pending-today badge and
    `lookupStats`. Days are day numbers and the month of a day is given by
    `monthOf`, standing in for `Date.getMonth`. */
module Counts {
  import opened Records

  /** The sets `uniquePatientCounts` fills while walking the visits. */
  datatype Buckets = Buckets(
    byMonth: map<int, set<string>>,
    byDate: map<int, set<string>>,
    total: set<string>)

  /** The memoised result: set sizes per month, per day, and overall. */
  datatype PatientCounts = PatientCounts(
    byMonth: map<int, nat>,
    byDate: map<int, nat>,
    total: nat)

  /** Opens the bucket for `key` if it is missing, then adds `reg` to it when
      the visit is still pending. */
  function AddToBucket(m: map<int, set<string>>, key: int, pending: bool, reg: string): map<int, set<string>> {
    var existing := if key in m then m[key] else {};
    m[key := if pending then existing + {reg} else existing]
  }

  /** The `forEach` over the visits, in list order. */
  function Tally(vs: seq<Visit>, monthOf: int -> int): Buckets
    decreases |vs|
  {
    if vs == [] then Buckets(map[], map[], {})
    else
      var b := Tally(vs[..|vs| - 1], monthOf);
      var v := vs[|vs| - 1];
      var regNum := Key(v);
      Buckets(
        AddToBucket(b.byMonth, monthOf(v.nextVisitDate), !v.completed, regNum),
        AddToBucket(b.byDate, v.nextVisitDate, !v.completed, regNum),
        b.total + {regNum})
  }

  /** `uniquePatientCounts`: `total` counts every patient ever seen, while a
      day or month bucket counts only the patients whose follow-up on that
      day or in that month is still pending; a bucket exists for every day
      and month some next visit falls on, pending or not. */
  function UniquePatientCounts(vs: seq<Visit>, monthOf: int -> int): (c: PatientCounts)
    ensures c.total == |AllRegs(vs)|
    ensures c.byDate.Keys == NextDays(vs)
    ensures forall d | d in c.byDate :: c.byDate[d] == |PendingRegsOn(vs, d)|
    ensures c.byMonth.Keys == NextMonths(vs, monthOf)
    ensures forall m | m in c.byMonth :: c.byMonth[m] == |PendingRegsIn(vs, monthOf, m)|
  {
    var b := Tally(vs, monthOf);
    TallyMeaning(vs, monthOf);
    PatientCounts(Sizes(b.byMonth), Sizes(b.byDate), |b.total|)
  }

  /** `Object.fromEntries(... [k, v.size])`: each bucket replaced by its size. */
  function Sizes(m: map<int, set<string>>): (r: map<int, nat>)
    ensures r.Keys == m.Keys
    ensures forall k | k in m :: r[k] == |m[k]|
  {
    map k | k in m :: |m[k]|
  }

  /** `getUniquePatientsForDate`: the day's bucket, or 0 when there is none. */
  function UniquePatientsForDate(c: PatientCounts, d: int): nat {
    if d in c.byDate then c.byDate[d] else 0
  }

  /** `getUniquePatientsForMonth`: the month's bucket, or 0 when there is none. */
  function UniquePatientsForMonth(c: PatientCounts, m: int): nat {
    if m in c.byMonth then c.byMonth[m] else 0
  }

  /** One day of the month view. */
  datatype DayEntry = DayEntry(day: int, date: int, count: nat, patients: seq<Visit>)

  /** The entry for day-of-month `day`, whose date is `firstDay + day - 1`:
      the pending visits due that day and the number of distinct patients
      among them. */
  function DayOf(vs: seq<Visit>, firstDay: int, day: int): (e: DayEntry)
    ensures e.day == day && e.date == firstDay + day - 1
    ensures e.count == |PendingRegsOn(vs, e.date)|
    ensures e.patients == PendingVisitsOn(vs, e.date)
  {
    var date := firstDay + day - 1;
    var patients := PendingVisitsOn(vs, date);
    DayCount(vs, date);
    DayEntry(day, date, |KeySet(patients)|, patients)
  }

  /** The per-day part of `getMonthDatesDetailed`: one entry for each day
      1..`daysInMonth` of a month whose first day is `firstDay`. */
  function MonthDatesDetailed(vs: seq<Visit>, firstDay: int, daysInMonth: nat): (r: seq<DayEntry>)
    ensures |r| == daysInMonth
    ensures forall i | 0 <= i < |r| :: r[i] == DayOf(vs, firstDay, i + 1)
  {
    DaysFrom(vs, firstDay, 1, daysInMonth)
  }

  /** The loop `for (day = from; day <= lastDay; day++)` of the month view. */
  function DaysFrom(vs: seq<Visit>, firstDay: int, from: int, lastDay: int): (r: seq<DayEntry>)
    ensures |r| == if from <= lastDay then lastDay - from + 1 else 0
    ensures forall i | 0 <= i < |r| :: r[i] == DayOf(vs, firstDay, from + i)
    decreases lastDay - from + 1
  {
    if from > lastDay then []
    else
      var rest := DaysFrom(vs, firstDay, from + 1, lastDay);
      var r := [DayOf(vs, firstDay, from)] + rest;
      assert forall i | 1 <= i < |r| :: r[i] == rest[i - 1];
      r
  }

  /** `getPendingTodayCount`: the visits due `today`, then the pending ones,
      then the number of distinct patients. */
  function PendingTodayCount(vs: seq<Visit>, today: int): (r: nat)
    ensures r == |PendingRegsOn(vs, today)|
  {
    var todayPatients := VisitsDueOn(vs, today);
    var pending := NotCompleted(todayPatients);
    SameKeys(pending, PendingVisitsOn(vs, today));
    DayCount(vs, today);
    |KeySet(pending)|
  }

  datatype LookupStats = LookupStats(totalEntries: nat, uniquePatients: nat)

  /** `lookupStats`: the number of records and of distinct patients. */
  function Lookup(vs: seq<Visit>): (s: LookupStats)
    ensures s.totalEntries == |vs|
    ensures s.uniquePatients == |AllRegs(vs)|
  {
    KeySetIsAllRegs(vs);
    LookupStats(|vs|, |KeySet(vs)|)
  }

  // ---------------------------------------------------------------------------
  // Lemmas

  /** The sets built by the scan are the reference sets. */
  lemma TallyMeaning(vs: seq<Visit>, monthOf: int -> int)
    ensures Tally(vs, monthOf).total == AllRegs(vs)
    ensures Tally(vs, monthOf).byDate.Keys == NextDays(vs)
    ensures forall d | d in Tally(vs, monthOf).byDate :: Tally(vs, monthOf).byDate[d] == PendingRegsOn(vs, d)
    ensures Tally(vs, monthOf).byMonth.Keys == NextMonths(vs, monthOf)
    ensures forall m | m in Tally(vs, monthOf).byMonth :: Tally(vs, monthOf).byMonth[m] == PendingRegsIn(vs, monthOf, m)
  {
    TallyTotal(vs, monthOf);
    TallyByDate(vs, monthOf);
    TallyByMonth(vs, monthOf);
  }

  lemma {:induction false} TallyTotal(vs: seq<Visit>, monthOf: int -> int)
    ensures Tally(vs, monthOf).total == AllRegs(vs)
    decreases |vs|
  {
    if vs != [] {
      var p := vs[..|vs| - 1];
      var v := vs[|vs| - 1];
      assert vs == p + [v];
      TallyTotal(p, monthOf);
      KeysWhereSnoc(p, v, Every);
    }
  }

  lemma {:induction false} TallyByDate(vs: seq<Visit>, monthOf: int -> int)
    ensures Tally(vs, monthOf).byDate.Keys == NextDays(vs)
    ensures forall d | d in Tally(vs, monthOf).byDate :: Tally(vs, monthOf).byDate[d] == PendingRegsOn(vs, d)
    decreases |vs|
  {
    if vs != [] {
      var p := vs[..|vs| - 1];
      var v := vs[|vs| - 1];
      assert vs == p + [v];
      TallyByDate(p, monthOf);
      var b := Tally(p, monthOf).byDate;
      var b' := Tally(vs, monthOf).byDate;
      assert b' == AddToBucket(b, v.nextVisitDate, !v.completed, Key(v));
      NextDaysSnoc(p, v, monthOf);
      forall d | d in b'
        ensures b'[d] == PendingRegsOn(vs, d)
      {
        DateBucketStep(p, v, b, d);
      }
    }
  }

  lemma {:induction false} TallyByMonth(vs: seq<Visit>, monthOf: int -> int)
    ensures Tally(vs, monthOf).byMonth.Keys == NextMonths(vs, monthOf)
    ensures forall m | m in Tally(vs, monthOf).byMonth :: Tally(vs, monthOf).byMonth[m] == PendingRegsIn(vs, monthOf, m)
    decreases |vs|
  {
    if vs != [] {
      var p := vs[..|vs| - 1];
      var v := vs[|vs| - 1];
      assert vs == p + [v];
      TallyByMonth(p, monthOf);
      var b := Tally(p, monthOf).byMonth;
      var b' := Tally(vs, monthOf).byMonth;
      assert b' == AddToBucket(b, monthOf(v.nextVisitDate), !v.completed, Key(v));
      NextDaysSnoc(p, v, monthOf);
      forall m | m in b'
        ensures b'[m] == PendingRegsIn(vs, monthOf, m)
      {
        MonthBucketStep(p, v, monthOf, b, m);
      }
    }
  }

  /** One step of the scan keeps a day bucket equal to its reference set. */
  lemma DateBucketStep(p: seq<Visit>, v: Visit, b: map<int, set<string>>, d: int)
    requires b.Keys == NextDays(p)
    requires forall d' | d' in b :: b[d'] == PendingRegsOn(p, d')
    requires d in AddToBucket(b, v.nextVisitDate, !v.completed, Key(v))
    ensures AddToBucket(b, v.nextVisitDate, !v.completed, Key(v))[d] == PendingRegsOn(p + [v], d)
  {
    KeysWhereSnoc(p, v, DueOn(d));
    if d == v.nextVisitDate && d !in b {
      EmptyWhenNotDue(p, d);
    }
  }

  /** One step of the scan keeps a month bucket equal to its reference set. */
  lemma MonthBucketStep(p: seq<Visit>, v: Visit, monthOf: int -> int, b: map<int, set<string>>, m: int)
    requires b.Keys == NextMonths(p, monthOf)
    requires forall m' | m' in b :: b[m'] == PendingRegsIn(p, monthOf, m')
    requires m in AddToBucket(b, monthOf(v.nextVisitDate), !v.completed, Key(v))
    ensures AddToBucket(b, monthOf(v.nextVisitDate), !v.completed, Key(v))[m] == PendingRegsIn(p + [v], monthOf, m)
  {
    KeysWhereSnoc(p, v, DueIn(monthOf, m));
    if m == monthOf(v.nextVisitDate) && m !in b {
      EmptyWhenNotDueIn(p, monthOf, m);
    }
  }

  /** No next visit on day `d`: nobody is pending that day. */
  lemma EmptyWhenNotDue(vs: seq<Visit>, d: int)
    requires d !in NextDays(vs)
    ensures PendingRegsOn(vs, d) == {}
  {
  }

  /** No next visit in month `m`: nobody is pending that month. */
  lemma EmptyWhenNotDueIn(vs: seq<Visit>, monthOf: int -> int, m: int)
    requires m !in NextMonths(vs, monthOf)
    ensures PendingRegsIn(vs, monthOf, m) == {}
  {
  }

  /** A day's distinct pending patients, counted from the filtered list. */
  lemma DayCount(vs: seq<Visit>, date: int)
    ensures |KeySet(PendingVisitsOn(vs, date))| == |PendingRegsOn(vs, date)|
  {
    var patients := PendingVisitsOn(vs, date);
    KeySetIsAllRegs(patients);
    forall k ensures k in AllRegs(patients) <==> k in PendingRegsOn(vs, date) {
      if k in PendingRegsOn(vs, date) {
        var w :| w in vs && PendingOn(w, date) && Key(w) == k;
        assert w in patients;
      }
    }
    assert AllRegs(patients) == PendingRegsOn(vs, date);
  }

  /** Two lists holding the same visits have the same key set. */
  lemma SameKeys(a: seq<Visit>, b: seq<Visit>)
    requires forall v :: v in a <==> v in b
    ensures KeySet(a) == KeySet(b)
  {
    KeySetIsAllRegs(a);
    KeySetIsAllRegs(b);
    forall k ensures k in AllRegs(a) <==> k in AllRegs(b) {
      if k in AllRegs(a) {
        var w :| w in a && Key(w) == k;
        assert w in b;
      }
      if k in AllRegs(b) {
        var w :| w in b && Key(w) == k;
        assert w in a;
      }
    }
  }

  lemma SubsetCard(a: set<string>, b: set<string>)
    requires a <= b
    ensures |a| <= |b|
  {
    assert b == a + (b - a);
    assert a * (b - a) == {};
  }

  /** No day or month bucket exceeds the overall number of patients. */
  lemma BucketsAtMostTotal(vs: seq<Visit>, monthOf: int -> int)
    ensures var c := UniquePatientCounts(vs, monthOf);
      && (forall d | d in c.byDate :: c.byDate[d] <= c.total)
      && (forall m | m in c.byMonth :: c.byMonth[m] <= c.total)
  {
    var c := UniquePatientCounts(vs, monthOf);
    forall d | d in c.byDate
      ensures c.byDate[d] <= c.total
    {
      SubsetCard(PendingRegsOn(vs, d), AllRegs(vs));
    }
    forall m | m in c.byMonth
      ensures c.byMonth[m] <= c.total
    {
      SubsetCard(PendingRegsIn(vs, monthOf, m), AllRegs(vs));
    }
  }

  /** A day's pending patients are among the pending patients of its month. */
  lemma DayWithinMonth(vs: seq<Visit>, monthOf: int -> int, d: int)
    ensures var c := UniquePatientCounts(vs, monthOf);
      UniquePatientsForDate(c, d) <= UniquePatientsForMonth(c, monthOf(d))
  {
    var c := UniquePatientCounts(vs, monthOf);
    if d in c.byDate {
      var v :| v in vs && v.nextVisitDate == d;
      assert monthOf(d) in NextMonths(vs, monthOf);
      SubsetCard(PendingRegsOn(vs, d), PendingRegsIn(vs, monthOf, monthOf(d)));
    }
  }

  /** The day lookup, including its `|| 0` fallback, is the number of
      distinct patients pending on that day, for every day. */
  lemma UniquePatientsForDateCorrect(vs: seq<Visit>, monthOf: int -> int, d: int)
    ensures UniquePatientsForDate(UniquePatientCounts(vs, monthOf), d) == |PendingRegsOn(vs, d)|
  {
    if d !in NextDays(vs) {
      EmptyWhenNotDue(vs, d);
    }
  }

  /** The month lookup, including its `|| 0` fallback, is the number of
      distinct patients pending in that month, for every month. */
  lemma UniquePatientsForMonthCorrect(vs: seq<Visit>, monthOf: int -> int, m: int)
    ensures UniquePatientsForMonth(UniquePatientCounts(vs, monthOf), m) == |PendingRegsIn(vs, monthOf, m)|
  {
    if m !in NextMonths(vs, monthOf) {
      EmptyWhenNotDueIn(vs, monthOf, m);
    }
  }

  /** The month view recomputes each day's count from the list, and the
      result agrees with the memoised day buckets. */
  lemma MonthViewAgreesWithCounts(vs: seq<Visit>, monthOf: int -> int, firstDay: int, daysInMonth: nat)
    ensures var r := MonthDatesDetailed(vs, firstDay, daysInMonth);
      forall i | 0 <= i < |r| :: r[i].count == UniquePatientsForDate(UniquePatientCounts(vs, monthOf), r[i].date)
  {
    var r := MonthDatesDetailed(vs, firstDay, daysInMonth);
    var c := UniquePatientCounts(vs, monthOf);
    forall i | 0 <= i < |r|
      ensures r[i].count == UniquePatientsForDate(c, r[i].date)
    {
      var d := firstDay + i;
      MonthDayCount(vs, firstDay, daysInMonth, i);
      var n := |PendingRegsOn(vs, d)|;
      UniquePatientsForDateCorrect(vs, monthOf, d);
      assert UniquePatientsForDate(c, d) == n;
      var e := r[i];
      assert e.count == n && e.date == d;
    }
  }

  /** Entry `i` of the month view is day `i + 1`, lists the visits pending
      that day and counts their distinct patients. */
  lemma MonthDayCount(vs: seq<Visit>, firstDay: int, daysInMonth: nat, i: nat)
    requires i < daysInMonth
    ensures var e := MonthDatesDetailed(vs, firstDay, daysInMonth)[i];
      && e.day == i + 1
      && e.date == firstDay + i
      && e.count == |PendingRegsOn(vs, firstDay + i)|
      && e.patients == PendingVisitsOn(vs, firstDay + i)
  {
  }

  /** The pending-today badge agrees with the memoised bucket for today. */
  lemma PendingTodayAgreesWithCounts(vs: seq<Visit>, monthOf: int -> int, today: int)
    ensures PendingTodayCount(vs, today) == UniquePatientsForDate(UniquePatientCounts(vs, monthOf), today)
  {
    UniquePatientsForDateCorrect(vs, monthOf, today);
  }

  /** The lookup modal's patient count is the dashboard's overall total. */
  lemma LookupAgreesWithTotal(vs: seq<Visit>, monthOf: int -> int)
    ensures Lookup(vs).uniquePatients == UniquePatientCounts(vs, monthOf).total
    ensures Lookup(vs).uniquePatients <= Lookup(vs).totalEntries
  {
    KeySetIsAllRegs(vs);
    KeySetAtMostLength(vs);
  }

  lemma {:induction false} KeySetAtMostLength(vs: seq<Visit>)
    ensures |KeySet(vs)| <= |vs|
    decreases |vs|
  {
    if vs != [] {
      KeySetAtMostLength(vs[1..]);
    }
  }
}
