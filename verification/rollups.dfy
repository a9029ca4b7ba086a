/** The per-patient tablet rollup `patientTabletData`: one entry per
    canonical registration number holding the running total of tablet days,
    the patient's visits (sorted by visit date) and the earliest visit, the
    latest visit and the latest scheduled next visit. The insertion order of
    the entries, which `Object.keys` reports, is kept as `order`. */
module Rollups {
  import opened Text
  import opened Records

  datatype Rollup = Rollup(
    regNumber: string,
    totalTabletDays: int,
    visits: seq<Visit>,
    firstVisitDate: int,
    lastVisitDate: int,
    lastNextVisitDate: int)

  /** The rollup object: its keys in insertion order and its entries. */
  datatype PatientTable = PatientTable(order: seq<string>, entries: map<string, Rollup>)

  /** The entry `patientData[regNum]` opens with for visit `v`. */
  function Open(v: Visit): Rollup {
    Rollup(v.regNumber, 0, [], v.visitDate, v.visitDate, v.nextVisitDate)
  }

  /** Adds visit `v` to an entry: the tablet days are added, the visit is
      appended, and a date bound moves only on a strictly earlier or later
      date. */
  function Grow(e: Rollup, v: Visit): Rollup {
    Rollup(
      e.regNumber,
      e.totalTabletDays + v.tabletDays,
      e.visits + [v],
      if v.visitDate < e.firstVisitDate then v.visitDate else e.firstVisitDate,
      if v.visitDate > e.lastVisitDate then v.visitDate else e.lastVisitDate,
      if v.nextVisitDate > e.lastNextVisitDate then v.nextVisitDate else e.lastNextVisitDate)
  }

  /** One step of the `forEach`: open the patient's entry if it is missing
      (recording its key in insertion order), then grow it by the visit. */
  function Absorb(t: PatientTable, v: Visit): PatientTable {
    var regNum := Key(v);
    var isNew := regNum !in t.entries;
    var e := if isNew then Open(v) else t.entries[regNum];
    PatientTable(if isNew then t.order + [regNum] else t.order, t.entries[regNum := Grow(e, v)])
  }

  /** The `forEach` over the visits, in list order. */
  function Accumulate(vs: seq<Visit>): PatientTable
    decreases |vs|
  {
    if vs == [] then PatientTable([], map[])
    else Absorb(Accumulate(vs[..|vs| - 1]), vs[|vs| - 1])
  }

  predicate SortedByVisitDate(ws: seq<Visit>) {
    forall i, j | 0 <= i < j < |ws| :: ws[i].visitDate <= ws[j].visitDate
  }

  /** The visits of `ws` dated `d`, in order: what a stable sort must keep. */
  function OnDate(ws: seq<Visit>, d: int): seq<Visit> {
    if ws == [] then []
    else (if ws[0].visitDate == d then [ws[0]] else []) + OnDate(ws[1..], d)
  }

  /** Inserts `v` in front of the first visit that is not earlier. */
  function Insert(v: Visit, ws: seq<Visit>): (r: seq<Visit>)
    ensures multiset(r) == multiset{v} + multiset(ws)
  {
    if ws == [] || v.visitDate <= ws[0].visitDate then [v] + ws
    else
      assert ws == [ws[0]] + ws[1..];
      [ws[0]] + Insert(v, ws[1..])
  }

  /** `visits.sort((a, b) => a.visitDate - b.visitDate)`: JavaScript's sort
      is stable, and so is this insertion sort. */
  function SortByVisitDate(ws: seq<Visit>): (r: seq<Visit>)
    ensures SortedByVisitDate(r)
    ensures multiset(r) == multiset(ws)
  {
    if ws == [] then []
    else
      assert ws == [ws[0]] + ws[1..];
      var rest := SortByVisitDate(ws[1..]);
      InsertSorted(ws[0], rest);
      Insert(ws[0], rest)
  }

  function SortVisits(e: Rollup): Rollup {
    e.(visits := SortByVisitDate(e.visits))
  }

  /** `patientTabletData`: the rollup with every patient's visits sorted. */
  function PatientTabletData(vs: seq<Visit>): PatientTable {
    var t := Accumulate(vs);
    PatientTable(t.order, map k | k in t.entries :: SortVisits(t.entries[k]))
  }

  /** `getPatientTotalTablets`: the patient's running total, looked up by the
      canonical form of the number, or 0 for an unknown patient. */
  function PatientTotalTablets(t: PatientTable, regNumber: string): int {
    var regNum := Canon(regNumber);
    if regNum in t.entries then t.entries[regNum].totalTabletDays else 0
  }

  // ---------------------------------------------------------------------------
  // Reference meaning of an entry

  /** Everything an entry states about the patient's visits `ws` (in list
      order) apart from how it arranges them: the number as first recorded,
      the total of tablet days, and the earliest visit, latest visit and
      latest next visit, each a bound attained by some visit. */
  ghost predicate Describes(e: Rollup, ws: seq<Visit>) {
    && ws != []
    && e.regNumber == ws[0].regNumber
    && e.totalTabletDays == SumDays(ws)
    && (forall w | w in ws :: e.firstVisitDate <= w.visitDate <= e.lastVisitDate)
    && (forall w | w in ws :: w.nextVisitDate <= e.lastNextVisitDate)
    && (exists w | w in ws :: w.visitDate == e.firstVisitDate)
    && (exists w | w in ws :: w.visitDate == e.lastVisitDate)
    && (exists w | w in ws :: w.nextVisitDate == e.lastNextVisitDate)
  }

  /** The visits of patient `k` in the order they were recorded. */
  ghost predicate Summarises(e: Rollup, vs: seq<Visit>, k: string) {
    Describes(e, OfPatient(vs, k)) && e.visits == OfPatient(vs, k)
  }

  /** A rearrangement of `ws` sorted by visit date, keeping same-day visits
      in their recorded order. */
  ghost predicate SortedArrangement(r: seq<Visit>, ws: seq<Visit>) {
    && SortedByVisitDate(r)
    && multiset(r) == multiset(ws)
    && (forall d :: OnDate(r, d) == OnDate(ws, d))
  }

  /** The position of the first visit of patient `k`, or `|vs|` if none. */
  function FirstSeen(vs: seq<Visit>, k: string): (r: nat)
    ensures r <= |vs|
    ensures r < |vs| ==> Key(vs[r]) == k
    ensures forall q | 0 <= q < r :: Key(vs[q]) != k
  {
    if vs == [] then 0
    else if Key(vs[0]) == k then 0
    else 1 + FirstSeen(vs[1..], k)
  }

  /** The keys, each once, in order of the patients' first visits. */
  ghost predicate InFirstSeenOrder(order: seq<string>, vs: seq<Visit>) {
    && (forall k :: k in order <==> k in AllRegs(vs))
    && (forall i, j | 0 <= i < j < |order| :: FirstSeen(vs, order[i]) < FirstSeen(vs, order[j]))
  }

  ghost predicate Tabulates(t: PatientTable, vs: seq<Visit>) {
    && t.entries.Keys == AllRegs(vs)
    && (forall k | k in t.entries :: Summarises(t.entries[k], vs, k))
    && InFirstSeenOrder(t.order, vs)
  }

  // ---------------------------------------------------------------------------
  // Lemmas

  /** Inserting into a sorted list keeps it sorted. */
  lemma {:induction false} InsertSorted(v: Visit, ws: seq<Visit>)
    requires SortedByVisitDate(ws)
    ensures SortedByVisitDate(Insert(v, ws))
    decreases |ws|
  {
    if ws == [] || v.visitDate <= ws[0].visitDate {
      ConsSorted(v, ws);
    } else {
      var rest := Insert(v, ws[1..]);
      InsertSorted(v, ws[1..]);
      forall w | w in rest
        ensures ws[0].visitDate <= w.visitDate
      {
        assert w in multiset(rest);
      }
      ConsSorted(ws[0], rest);
    }
  }

  /** A visit no later than any of a sorted list can head it. */
  lemma ConsSorted(x: Visit, ws: seq<Visit>)
    requires SortedByVisitDate(ws)
    requires forall w | w in ws :: x.visitDate <= w.visitDate
    ensures SortedByVisitDate([x] + ws)
  {
    var r := [x] + ws;
    forall i, j | 0 <= i < j < |r|
      ensures r[i].visitDate <= r[j].visitDate
    {
      assert r[j] == ws[j - 1];
      assert ws[j - 1] in ws;
    }
  }

  lemma OnDateCons(w: Visit, ws: seq<Visit>, d: int)
    ensures OnDate([w] + ws, d) == (if w.visitDate == d then [w] else []) + OnDate(ws, d)
  {
    assert ([w] + ws)[0] == w;
    assert ([w] + ws)[1..] == ws;
  }

  /** Inserting keeps the same-day visits in order, with `v` first among them. */
  lemma {:induction false} InsertStable(v: Visit, ws: seq<Visit>, d: int)
    ensures OnDate(Insert(v, ws), d) == (if v.visitDate == d then [v] else []) + OnDate(ws, d)
    decreases |ws|
  {
    var hv: seq<Visit> := if v.visitDate == d then [v] else [];
    if ws == [] || v.visitDate <= ws[0].visitDate {
      OnDateCons(v, ws, d);
    } else {
      var rest := Insert(v, ws[1..]);
      var h0: seq<Visit> := if ws[0].visitDate == d then [ws[0]] else [];
      assert Insert(v, ws) == [ws[0]] + rest;
      InsertStable(v, ws[1..], d);
      OnDateCons(ws[0], rest, d);
      var x := OnDate(ws[1..], d);
      assert OnDate(Insert(v, ws), d) == h0 + (hv + x);
      assert OnDate(ws, d) == h0 + x;
      if hv == [] {
        assert hv + x == x;
        assert hv + (h0 + x) == h0 + x;
      } else {
        assert h0 == [];
        assert h0 + (hv + x) == hv + x;
        assert h0 + x == x;
      }
    }
  }

  lemma {:induction false} SortStable(ws: seq<Visit>, d: int)
    ensures OnDate(SortByVisitDate(ws), d) == OnDate(ws, d)
    decreases |ws|
  {
    if ws != [] {
      SortStable(ws[1..], d);
      InsertStable(ws[0], SortByVisitDate(ws[1..]), d);
    }
  }

  /** The sort yields a stable, sorted rearrangement of its input. */
  lemma SortIsStableArrangement(ws: seq<Visit>)
    ensures SortedArrangement(SortByVisitDate(ws), ws)
  {
    forall d ensures OnDate(SortByVisitDate(ws), d) == OnDate(ws, d) {
      SortStable(ws, d);
    }
  }

  lemma {:induction false} FirstSeenKeeps(p: seq<Visit>, v: Visit, k: string)
    requires k in AllRegs(p)
    ensures FirstSeen(p, k) < |p|
    ensures FirstSeen(p + [v], k) == FirstSeen(p, k)
    decreases |p|
  {
    var w :| w in p && Key(w) == k;
    if Key(p[0]) != k {
      assert w in p[1..];
      assert k in AllRegs(p[1..]);
      assert (p + [v])[1..] == p[1..] + [v];
      FirstSeenKeeps(p[1..], v, k);
    }
  }

  lemma {:induction false} FirstSeenNew(p: seq<Visit>, v: Visit)
    requires Key(v) !in AllRegs(p)
    ensures FirstSeen(p + [v], Key(v)) == |p|
    decreases |p|
  {
    if p != [] {
      assert p[0] in p;
      assert (p + [v])[1..] == p[1..] + [v];
      assert AllRegs(p[1..]) <= AllRegs(p) by {
        forall k | k in AllRegs(p[1..]) ensures k in AllRegs(p) {
          var w :| w in p[1..] && Key(w) == k;
          assert w in p;
        }
      }
      FirstSeenNew(p[1..], v);
    }
  }

  /** The visits of patient `k` once `v` is appended. */
  lemma OfPatientSnoc(p: seq<Visit>, v: Visit, k: string)
    ensures OfPatient(p + [v], k) == OfPatient(p, k) + (if Key(v) == k then [v] else [])
  {
    OfPatientAppend(p, [v], k);
    assert [v][1..] == [];
  }

  /** Absorbing `v` into the entry of another patient changes nothing it
      summarises. */
  lemma OtherEntryKept(p: seq<Visit>, v: Visit, e: Rollup, k: string)
    requires Key(v) != k
    requires Summarises(e, p, k)
    ensures Summarises(e, p + [v], k)
  {
    OfPatientSnoc(p, v, k);
    assert OfPatient(p + [v], k) == OfPatient(p, k);
  }

  /** A fresh entry grown by its first visit describes that visit. */
  lemma OpenEntry(v: Visit)
    ensures Describes(Grow(Open(v), v), [v]) && Grow(Open(v), v).visits == [v]
  {
    assert SumDays([v]) == v.tabletDays;
    assert v in [v];
  }

  /** Growing an entry by `v` keeps it describing the patient's visits. */
  lemma GrowEntry(e: Rollup, ws: seq<Visit>, v: Visit)
    requires Describes(e, ws) && e.visits == ws
    ensures Describes(Grow(e, v), ws + [v]) && Grow(e, v).visits == ws + [v]
  {
    var e' := Grow(e, v);
    var ws' := ws + [v];
    SumDaysAppend(ws, [v]);
    assert SumDays([v]) == v.tabletDays;
    assert ws'[0] == ws[0];
    assert v in ws';
    var f :| f in ws && f.visitDate == e.firstVisitDate;
    var l :| l in ws && l.visitDate == e.lastVisitDate;
    var n :| n in ws && n.nextVisitDate == e.lastNextVisitDate;
    assert f in ws' && l in ws' && n in ws';
    forall w | w in ws'
      ensures e'.firstVisitDate <= w.visitDate <= e'.lastVisitDate
      ensures w.nextVisitDate <= e'.lastNextVisitDate
    {
      if w != v {
        assert w in ws;
      }
    }
  }

  /** Absorbing `v` into its own patient's entry. */
  lemma OwnEntryStep(p: seq<Visit>, v: Visit, t: PatientTable)
    requires Tabulates(t, p)
    ensures Summarises(Absorb(t, v).entries[Key(v)], p + [v], Key(v))
  {
    var k := Key(v);
    OfPatientSnoc(p, v, k);
    if k !in t.entries {
      OfPatientAbsent(p, k);
      assert OfPatient(p + [v], k) == [v];
      OpenEntry(v);
    } else {
      GrowEntry(t.entries[k], OfPatient(p, k), v);
    }
  }

  lemma FirstSeenAllKept(p: seq<Visit>, v: Visit)
    ensures forall j | j in AllRegs(p) :: FirstSeen(p, j) < |p| && FirstSeen(p + [v], j) == FirstSeen(p, j)
  {
    forall j | j in AllRegs(p)
      ensures FirstSeen(p, j) < |p| && FirstSeen(p + [v], j) == FirstSeen(p, j)
    {
      FirstSeenKeeps(p, v, j);
    }
  }

  /** A visit of a known patient leaves the order as it is. */
  lemma OrderKept(p: seq<Visit>, v: Visit, order: seq<string>)
    requires InFirstSeenOrder(order, p)
    requires Key(v) in AllRegs(p)
    ensures InFirstSeenOrder(order, p + [v])
  {
    KeysWhereSnoc(p, v, Every);
    FirstSeenAllKept(p, v);
    forall i, j | 0 <= i < j < |order|
      ensures FirstSeen(p + [v], order[i]) < FirstSeen(p + [v], order[j])
    {
      assert order[i] in order && order[j] in order;
    }
  }

  /** A new patient goes to the end of the order. */
  lemma OrderExtended(p: seq<Visit>, v: Visit, order: seq<string>)
    requires InFirstSeenOrder(order, p)
    requires Key(v) !in AllRegs(p)
    ensures InFirstSeenOrder(order + [Key(v)], p + [v])
  {
    var order' := order + [Key(v)];
    KeysWhereSnoc(p, v, Every);
    FirstSeenAllKept(p, v);
    FirstSeenNew(p, v);
    forall i, j | 0 <= i < j < |order'|
      ensures FirstSeen(p + [v], order'[i]) < FirstSeen(p + [v], order'[j])
    {
      assert order'[i] == order[i];
      assert order[i] in order;
      if j < |order| {
        assert order'[j] == order[j];
        assert order[j] in order;
      }
    }
  }

  lemma OrderStep(p: seq<Visit>, v: Visit, t: PatientTable)
    requires Tabulates(t, p)
    ensures InFirstSeenOrder(Absorb(t, v).order, p + [v])
  {
    if Key(v) in t.entries {
      OrderKept(p, v, t.order);
    } else {
      OrderExtended(p, v, t.order);
    }
  }

  /** Absorbing `v` keeps every entry an exact summary of its patient. */
  lemma EntriesStep(p: seq<Visit>, v: Visit, t: PatientTable)
    requires Tabulates(t, p)
    ensures forall k | k in Absorb(t, v).entries :: Summarises(Absorb(t, v).entries[k], p + [v], k)
  {
    var t' := Absorb(t, v);
    OwnEntryStep(p, v, t);
    forall k | k in t'.entries
      ensures Summarises(t'.entries[k], p + [v], k)
    {
      if k != Key(v) {
        OtherEntryKept(p, v, t.entries[k], k);
      }
    }
  }

  lemma TabulatesStep(p: seq<Visit>, v: Visit, t: PatientTable)
    requires Tabulates(t, p)
    ensures Tabulates(Absorb(t, v), p + [v])
  {
    var t' := Absorb(t, v);
    KeysWhereSnoc(p, v, Every);
    assert t'.entries.Keys == t.entries.Keys + {Key(v)};
    EntriesStep(p, v, t);
    OrderStep(p, v, t);
  }

  /** The fold keeps the table an exact summary of the visits seen. */
  lemma {:induction false} AccumulateTabulates(vs: seq<Visit>)
    ensures Tabulates(Accumulate(vs), vs)
    decreases |vs|
  {
    if vs != [] {
      var p := vs[..|vs| - 1];
      var v := vs[|vs| - 1];
      assert vs == p + [v];
      AccumulateTabulates(p);
      TabulatesStep(p, v, Accumulate(p));
    }
  }

  /** Each entry of `patientTabletData` holds the number as first recorded,
      the sum of the patient's tablet days, date bounds that some visit
      attains, and the patient's visits sorted by visit date (same-day
      visits in recorded order). */
  lemma EntriesMeaning(vs: seq<Visit>)
    ensures var t := PatientTabletData(vs);
      forall k | k in t.entries ::
        Describes(t.entries[k], OfPatient(vs, k))
        && SortedArrangement(t.entries[k].visits, OfPatient(vs, k))
  {
    forall k | k in PatientTabletData(vs).entries {
      EntryMeaning(vs, k);
    }
  }

  /** One entry of `patientTabletData`. */
  lemma EntryMeaning(vs: seq<Visit>, k: string)
    requires k in PatientTabletData(vs).entries
    ensures var e := PatientTabletData(vs).entries[k];
      Describes(e, OfPatient(vs, k)) && SortedArrangement(e.visits, OfPatient(vs, k))
  {
    var t := Accumulate(vs);
    AccumulateTabulates(vs);
    assert k in t.entries;
    assert PatientTabletData(vs).entries[k] == SortVisits(t.entries[k]);
    SortedEntry(t.entries[k], vs, k);
  }

  /** Sorting an entry's visits keeps everything else it states. */
  lemma SortedEntry(e: Rollup, vs: seq<Visit>, k: string)
    requires Summarises(e, vs, k)
    ensures Describes(SortVisits(e), OfPatient(vs, k))
    ensures SortedArrangement(SortVisits(e).visits, OfPatient(vs, k))
  {
    SortIsStableArrangement(e.visits);
  }

  /** `patientTabletData` has one entry per patient ever seen, keyed by the
      canonical number, and its keys come in order of first visit, each once. */
  lemma PatientTabletDataKeys(vs: seq<Visit>)
    ensures var t := PatientTabletData(vs);
      && t.entries.Keys == AllRegs(vs)
      && InFirstSeenOrder(t.order, vs)
      && (forall i, j | 0 <= i < j < |t.order| :: t.order[i] != t.order[j])
  {
    var t := Accumulate(vs);
    AccumulateTabulates(vs);
    assert PatientTabletData(vs).entries.Keys == t.entries.Keys;
    assert PatientTabletData(vs).order == t.order;
  }

  /** The total the submit handler reports is the sum of the tablet days of
      every visit of the patient, and 0 for a patient never seen. */
  lemma PatientTotalTabletsMeaning(vs: seq<Visit>, regNumber: string)
    ensures PatientTotalTablets(PatientTabletData(vs), regNumber) == SumDays(OfPatient(vs, Canon(regNumber)))
  {
    var k := Canon(regNumber);
    AccumulateTabulates(vs);
    if k !in AllRegs(vs) {
      OfPatientAbsent(vs, k);
    }
  }

  /** The number of visits listed under the keys `ks`. */
  function ListedVisits(t: PatientTable, ks: seq<string>): int
    requires forall k | k in ks :: k in t.entries
  {
    if ks == [] then 0 else |t.entries[ks[0]].visits| + ListedVisits(t, ks[1..])
  }

  /** The number of visits of the patients `ks`. */
  function PatientVisits(vs: seq<Visit>, ks: seq<string>): int {
    if ks == [] then 0 else |OfPatient(vs, ks[0])| + PatientVisits(vs, ks[1..])
  }

  function Occurrences(ks: seq<string>, k: string): (r: nat)
    ensures r == 0 <==> k !in ks
  {
    if ks == [] then 0 else (if ks[0] == k then 1 else 0) + Occurrences(ks[1..], k)
  }

  lemma {:induction false} PatientVisitsNone(ks: seq<string>)
    ensures PatientVisits([], ks) == 0
    decreases |ks|
  {
    if ks != [] {
      PatientVisitsNone(ks[1..]);
    }
  }

  /** One more visit in front adds one for each listing of its patient. */
  lemma {:induction false} PatientVisitsCons(v: Visit, vs: seq<Visit>, ks: seq<string>)
    ensures PatientVisits([v] + vs, ks) == PatientVisits(vs, ks) + Occurrences(ks, Key(v))
    decreases |ks|
  {
    if ks != [] {
      assert ([v] + vs)[1..] == vs;
      PatientVisitsCons(v, vs, ks[1..]);
    }
  }

  lemma {:induction false} OccursOnce(ks: seq<string>, k: string)
    requires forall i, j | 0 <= i < j < |ks| :: ks[i] != ks[j]
    requires k in ks
    ensures Occurrences(ks, k) == 1
    decreases |ks|
  {
    if ks[0] == k {
      assert k !in ks[1..] by {
        forall j | 0 <= j < |ks[1..]|
          ensures ks[1..][j] != k
        {
          assert ks[1..][j] == ks[j + 1];
        }
      }
    } else {
      OccursOnce(ks[1..], k);
    }
  }

  /** Every visit belongs to exactly one of a list of distinct keys covering
      all patients. */
  lemma {:induction false} PatientVisitsPartition(vs: seq<Visit>, ks: seq<string>)
    requires forall i, j | 0 <= i < j < |ks| :: ks[i] != ks[j]
    requires forall k | k in AllRegs(vs) :: k in ks
    ensures PatientVisits(vs, ks) == |vs|
    decreases |vs|
  {
    if vs == [] {
      PatientVisitsNone(ks);
    } else {
      assert vs == [vs[0]] + vs[1..];
      forall k | k in AllRegs(vs[1..])
        ensures k in ks
      {
        var w :| w in vs[1..] && Key(w) == k;
        assert w in vs;
      }
      PatientVisitsPartition(vs[1..], ks);
      assert vs[0] in vs;
      OccursOnce(ks, Key(vs[0]));
      PatientVisitsCons(vs[0], vs[1..], ks);
    }
  }

  lemma {:induction false} ListedIsPatientVisits(vs: seq<Visit>, ks: seq<string>)
    requires forall k | k in ks :: k in PatientTabletData(vs).entries
    requires forall k | k in ks :: |PatientTabletData(vs).entries[k].visits| == |OfPatient(vs, k)|
    ensures ListedVisits(PatientTabletData(vs), ks) == PatientVisits(vs, ks)
    decreases |ks|
  {
    if ks != [] {
      ListedIsPatientVisits(vs, ks[1..]);
    }
  }

  /** The patients' visit lists, taken in key order, hold every visit once:
      their lengths add up to the length of the list. */
  lemma ListedVisitsCoverAll(vs: seq<Visit>)
    ensures var t := PatientTabletData(vs);
      (forall k | k in t.order :: k in t.entries) && ListedVisits(t, t.order) == |vs|
  {
    var t := PatientTabletData(vs);
    PatientTabletDataKeys(vs);
    EntriesMeaning(vs);
    forall k | k in t.order
      ensures |t.entries[k].visits| == |OfPatient(vs, k)|
    {
      assert |multiset(t.entries[k].visits)| == |multiset(OfPatient(vs, k))|;
    }
    ListedIsPatientVisits(vs, t.order);
    PatientVisitsPartition(vs, t.order);
  }
}
