/** The visit-list updates: `handleSubmit` (the local branch, which prepends
    the new record), `toggleCompleted`, `deleteVisit` and `clearAllData`.
    The saved copy of the list (`localStorage` key `ptVisits`) is kept next
    to the list as `cache`; the clock is a parameter (`now`, and `id` for
    `Date.now()`). */
module Store {
  import opened Text
  import opened Records
  import opened RegNumber
  import opened Rollups
  import opened Counts

  /** The saved list: absent after a removal, or a copy of some list. */
  datatype Cache = Absent | Saved(saved: seq<Visit>)

  datatype Store = Store(visits: seq<Visit>, cache: Cache)

  /** The form fields; an empty date field is `None`. */
  datatype Form = Form(regNumber: string, visitDate: Option<int>, nextVisitDate: Option<int>)

  datatype SubmitError = MissingField | InvalidRegNumber | NextNotAfterVisit

  /** A recorded visit reports the tablet days given and the patient's new
      running total, as the confirmation message shows them. */
  datatype Outcome =
    | Recorded(store: Store, tabletDays: nat, newTotal: int)
    | Rejected(error: SubmitError)

  /** The saved copy agrees with the list: it is the list, or it was removed
      while the list is empty. */
  predicate Mirrors(s: Store) {
    s.cache == Saved(s.visits) || (s.cache == Absent && s.visits == [])
  }

  predicate Missing(f: Form) {
    f.regNumber == [] || f.visitDate.None? || f.nextVisitDate.None?
  }

  /** `handleSubmit` when the remote save does not succeed: the checks in
      order (every field filled, the number pattern, the next visit after
      the visit), then a new pending record in front of the list. */
  function Submit(s: Store, f: Form, id: int, now: int): (o: Outcome)
    ensures o.Rejected? <==>
      Missing(f) || !MatchesPattern(f.regNumber) || f.nextVisitDate.value <= f.visitDate.value
    ensures o.Rejected? && Missing(f) ==> o.error == MissingField
    ensures o.Rejected? && !Missing(f) && !MatchesPattern(f.regNumber) ==> o.error == InvalidRegNumber
    ensures o.Rejected? && !Missing(f) && MatchesPattern(f.regNumber) ==> o.error == NextNotAfterVisit
    ensures o.Recorded? ==>
      var vs := o.store.visits;
      && Mirrors(o.store)
      && |vs| == |s.visits| + 1
      && vs[1..] == s.visits
      && vs[0] == Visit(id, f.regNumber, f.visitDate.value, f.nextVisitDate.value, o.tabletDays, false, None, now)
      && o.tabletDays >= 1
      && f.visitDate.value + o.tabletDays == f.nextVisitDate.value
      && WellFormed(vs[0])
  {
    if Missing(f) then Rejected(MissingField)
    else if !MatchesPattern(f.regNumber) then Rejected(InvalidRegNumber)
    else
      var visit := f.visitDate.value;
      var nextVisit := f.nextVisitDate.value;
      if nextVisit <= visit then Rejected(NextNotAfterVisit)
      else
        var tabletDays := CalculateTabletDays(visit, nextVisit);
        var currentTotal := PatientTotalTablets(PatientTabletData(s.visits), f.regNumber);
        PatternIsCanonical(f.regNumber);
        var newVisit := Visit(id, Trim(f.regNumber), visit, nextVisit, tabletDays, false, None, now);
        var updated := [newVisit] + s.visits;
        Recorded(Store(updated, Saved(updated)), tabletDays, currentTotal + tabletDays)
  }

  /** `visits.find(v => v.id === id)`: the first record with the id. */
  function Find(vs: seq<Visit>, id: int): (r: Option<Visit>)
    ensures r.None? <==> forall v | v in vs :: v.id != id
    ensures r.Some? ==> r.value in vs && r.value.id == id
    ensures r.Some? ==> exists i | 0 <= i < |vs| :: vs[i] == r.value && forall j | 0 <= j < i :: vs[j].id != id
    ensures r.Some? && UniqueIds(vs) ==> forall i | 0 <= i < |vs| && vs[i].id == id :: vs[i] == r.value
  {
    if vs == [] then None
    else if vs[0].id == id then Some(vs[0])
    else
      var r := Find(vs[1..], id);
      assert forall i | 1 <= i < |vs| :: vs[i] == vs[1..][i - 1];
      assert r.Some? ==> exists i | 0 <= i < |vs| :: vs[i] == r.value && forall j | 0 <= j < i :: vs[j].id != id by {
        if r.Some? {
          var i :| 0 <= i < |vs[1..]| && vs[1..][i] == r.value && forall j | 0 <= j < i :: vs[1..][j].id != id;
          assert vs[i + 1] == r.value;
          assert forall j | 0 <= j < i + 1 :: vs[j].id != id by {
            forall j | 0 <= j < i + 1 ensures vs[j].id != id {
              if j > 0 { assert vs[j] == vs[1..][j - 1]; }
            }
          }
        }
      }
      r
  }

  /** The record with its follow-up flag flipped; `completedAt` is stamped
      when it becomes done and cleared when it is reopened. */
  function Toggled(v: Visit, now: int): Visit {
    v.(completed := !v.completed, completedAt := if !v.completed then Some(now) else None)
  }

  /** `visits.map(v => v.id === id ? u : v)`. */
  function Replace(vs: seq<Visit>, id: int, u: Visit): (r: seq<Visit>)
    ensures |r| == |vs|
    ensures forall i | 0 <= i < |vs| :: r[i] == if vs[i].id == id then u else vs[i]
  {
    if vs == [] then [] else [if vs[0].id == id then u else vs[0]] + Replace(vs[1..], id, u)
  }

  /** `toggleCompleted`: an unknown id changes nothing; otherwise every
      record carrying the id is replaced by the toggled copy of the first
      such record, and the list is saved. */
  function ToggleCompleted(s: Store, id: int, now: int): (r: Store)
    ensures Find(s.visits, id).None? ==> r == s
    ensures |r.visits| == |s.visits|
    ensures forall i | 0 <= i < |s.visits| :: r.visits[i].id == s.visits[i].id
    ensures forall i | 0 <= i < |s.visits| && s.visits[i].id != id :: r.visits[i] == s.visits[i]
    ensures UniqueIds(s.visits) ==> forall i | 0 <= i < |s.visits| && s.visits[i].id == id ::
      && r.visits[i].completed == !s.visits[i].completed
      && (r.visits[i].completedAt.Some? <==> r.visits[i].completed)
      && r.visits[i] == s.visits[i].(completed := r.visits[i].completed, completedAt := r.visits[i].completedAt)
    ensures Find(s.visits, id).Some? ==> r.cache == Saved(r.visits)
    ensures Mirrors(s) ==> Mirrors(r)
  {
    match Find(s.visits, id)
    case None => s
    case Some(v) =>
      var updated := Replace(s.visits, id, Toggled(v, now));
      Store(updated, Saved(updated))
  }

  /** `visits.filter(v => v.id !== id)`. */
  function Without(vs: seq<Visit>, id: int): (r: seq<Visit>)
    ensures |r| <= |vs|
    ensures forall v :: v in r <==> v in vs && v.id != id
  {
    if vs == [] then []
    else (if vs[0].id != id then [vs[0]] else []) + Without(vs[1..], id)
  }

  /** `deleteVisit` once confirmed: the records with the id are dropped, the
      list is saved, and the saved copy is removed once the list is empty. */
  function DeleteVisit(s: Store, id: int): (r: Store)
    ensures forall v :: v in r.visits <==> v in s.visits && v.id != id
    ensures Mirrors(r)
    ensures r.cache == Absent <==> r.visits == []
  {
    var updated := Without(s.visits, id);
    Store(updated, if |updated| == 0 then Absent else Saved(updated))
  }

  /** `clearAllData` once confirmed twice. */
  function ClearAllData(s: Store): (r: Store)
    ensures r.visits == [] && r.cache == Absent
  {
    Store([], Absent)
  }

  // ---------------------------------------------------------------------------
  // Lemmas

  /** The total in the confirmation message is the patient's total once the
      new record is in the list. */
  lemma SubmitReportsNewTotal(s: Store, f: Form, id: int, now: int)
    requires Submit(s, f, id, now).Recorded?
    ensures var o := Submit(s, f, id, now);
      o.newTotal == PatientTotalTablets(PatientTabletData(o.store.visits), f.regNumber)
  {
    var o := Submit(s, f, id, now);
    var vs := o.store.visits;
    var k := Canon(f.regNumber);
    PatternIsCanonical(f.regNumber);
    assert Key(vs[0]) == k;
    assert vs == [vs[0]] + s.visits;
    OfPatientAppend([vs[0]], s.visits, k);
    assert OfPatient([vs[0]], k) == [vs[0]];
    SumDaysAppend([vs[0]], OfPatient(s.visits, k));
    PatientTotalTabletsMeaning(s.visits, f.regNumber);
    PatientTotalTabletsMeaning(vs, f.regNumber);
  }

  /** Toggling twice restores the follow-up flag and everything but the
      timestamp; a record that was pending (and well formed) comes back
      exactly, while one that was done gets a fresh `completedAt`. */
  lemma ToggleTwice(s: Store, id: int, t1: int, t2: int, i: int)
    requires UniqueIds(s.visits)
    requires 0 <= i < |s.visits|
    ensures var r := ToggleCompleted(ToggleCompleted(s, id, t1), id, t2).visits;
      var v := s.visits[i];
      && r[i].completed == v.completed
      && r[i] == v.(completedAt := r[i].completedAt)
      && (WellFormed(v) && !v.completed ==> r[i] == v)
      && (v.id == id && v.completed ==> r[i].completedAt == Some(t2))
  {
    ToggleKeepsUniqueIds(s, id, t1);
  }

  /** Submitting with an id no record carries keeps ids distinct. */
  lemma SubmitKeepsUniqueIds(s: Store, f: Form, id: int, now: int)
    requires UniqueIds(s.visits)
    requires forall v | v in s.visits :: v.id != id
    requires Submit(s, f, id, now).Recorded?
    ensures UniqueIds(Submit(s, f, id, now).store.visits)
  {
    var vs := Submit(s, f, id, now).store.visits;
    forall i, j | 0 <= i < j < |vs|
      ensures vs[i].id != vs[j].id
    {
      assert vs[j] == s.visits[j - 1];
      if i > 0 {
        assert vs[i] == s.visits[i - 1];
      } else {
        assert s.visits[j - 1] in s.visits;
      }
    }
  }

  /** Toggling changes no id, so distinct ids stay distinct. */
  lemma ToggleKeepsUniqueIds(s: Store, id: int, now: int)
    requires UniqueIds(s.visits)
    ensures UniqueIds(ToggleCompleted(s, id, now).visits)
  {
  }

  /** Toggling keeps every record well formed. */
  lemma ToggleKeepsWellFormed(s: Store, id: int, now: int)
    requires forall v | v in s.visits :: WellFormed(v)
    ensures forall v | v in ToggleCompleted(s, id, now).visits :: WellFormed(v)
  {
    var r := ToggleCompleted(s, id, now).visits;
    forall v | v in r
      ensures WellFormed(v)
    {
      var i :| 0 <= i < |r| && r[i] == v;
      assert s.visits[i] in s.visits;
    }
  }

  /** Deleting filters each part of the list separately, so the records
      kept stay in their order. */
  lemma {:induction false} WithoutAppend(a: seq<Visit>, b: seq<Visit>, id: int)
    ensures Without(a + b, id) == Without(a, id) + Without(b, id)
    decreases |a|
  {
    if a == [] {
      assert a + b == b;
    } else {
      assert (a + b)[0] == a[0];
      assert (a + b)[1..] == a[1..] + b;
      WithoutAppend(a[1..], b, id);
    }
  }

  /** Deleting an id that is not in the list keeps the list. */
  lemma {:induction false} WithoutAbsent(vs: seq<Visit>, id: int)
    requires forall v | v in vs :: v.id != id
    ensures Without(vs, id) == vs
    decreases |vs|
  {
    if vs != [] {
      assert vs[0] in vs;
      assert forall v | v in vs[1..] :: v in vs;
      WithoutAbsent(vs[1..], id);
    }
  }

  /** Dropping records keeps the rest in order, so distinct ids stay
      distinct. */
  lemma {:induction false} WithoutKeepsUniqueIds(vs: seq<Visit>, id: int)
    requires UniqueIds(vs)
    ensures UniqueIds(Without(vs, id))
    decreases |vs|
  {
    if vs != [] {
      var rest := Without(vs[1..], id);
      WithoutKeepsUniqueIds(vs[1..], id);
      if vs[0].id != id {
        var r := [vs[0]] + rest;
        forall j | 1 <= j < |r|
          ensures r[0].id != r[j].id
        {
          assert r[j] in rest;
          var k :| 0 <= k < |vs[1..]| && vs[1..][k] == r[j];
          assert vs[k + 1] == r[j];
        }
      }
    }
  }

  /** Deleting keeps ids distinct. */
  lemma DeleteKeepsUniqueIds(s: Store, id: int)
    requires UniqueIds(s.visits)
    ensures UniqueIds(DeleteVisit(s, id).visits)
  {
    WithoutKeepsUniqueIds(s.visits, id);
  }

  /** Deleting twice is deleting once. */
  lemma DeleteIdempotent(s: Store, id: int)
    ensures DeleteVisit(DeleteVisit(s, id), id) == DeleteVisit(s, id)
  {
    WithoutAbsent(Without(s.visits, id), id);
  }

  /** After a deletion the patients left are those with another record. */
  lemma DeletedPatients(s: Store, id: int, k: string)
    ensures k in AllRegs(DeleteVisit(s, id).visits) <==>
      exists v | v in s.visits :: v.id != id && Key(v) == k
  {
    var r := DeleteVisit(s, id).visits;
    if k in AllRegs(r) {
      var v :| v in r && Key(v) == k;
      assert v in s.visits && v.id != id;
    }
    if exists v | v in s.visits :: v.id != id && Key(v) == k {
      var v :| v in s.visits && v.id != id && Key(v) == k;
      assert v in r;
    }
  }

  /** Clearing leaves no patient, no pending count and no rollup entry. */
  lemma ClearedHasNoPatients(s: Store, monthOf: int -> int, today: int)
    ensures var r := ClearAllData(s).visits;
      && UniquePatientCounts(r, monthOf).total == 0
      && UniquePatientCounts(r, monthOf).byDate == map[]
      && UniquePatientCounts(r, monthOf).byMonth == map[]
      && Lookup(r) == LookupStats(0, 0)
      && PendingTodayCount(r, today) == 0
      && PatientTabletData(r).entries == map[]
      && PatientTabletData(r).order == []
  {
    var c := UniquePatientCounts([], monthOf);
    assert AllRegs([]) == {};
    assert NextDays([]) == {};
    assert NextMonths([], monthOf) == {};
  }
}
