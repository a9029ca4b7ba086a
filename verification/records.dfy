/** Visit records and the reference definitions every derived view is
    measured against. A date is a day number; a timestamp is an integer
    supplied by the caller (the clock is not modelled). */
module Records {
  import opened Text

  datatype Option<T> = None | Some(value: T)

  /** One tablet-dispensing visit. `tabletDays` is stored with the record;
      `completedAt` is set while the follow-up is marked done. */
  datatype Visit = Visit(
    id: int,
    regNumber: string,
    visitDate: int,
    nextVisitDate: int,
    tabletDays: int,
    completed: bool,
    completedAt: Option<int>,
    recordedAt: int)

  /** The grouping key of a visit: its canonical registration number. */
  function Key(v: Visit): string {
    Canon(v.regNumber)
  }

  /** `calculateTabletDays`: the whole days from the visit to the next visit,
      or 0 when the next visit is not later. */
  function CalculateTabletDays(visitDate: int, nextVisitDate: int): (r: nat)
    ensures r > 0 <==> nextVisitDate > visitDate
    ensures r > 0 ==> visitDate + r == nextVisitDate
  {
    var diffDays := nextVisitDate - visitDate;
    if diffDays > 0 then diffDays else 0
  }

  /** A visit still waiting for its follow-up on day `d`. */
  predicate PendingOn(v: Visit, d: int) {
    !v.completed && v.nextVisitDate == d
  }

  /** A visit still waiting for its follow-up in month `m`. */
  predicate PendingIn(v: Visit, monthOf: int -> int, m: int) {
    !v.completed && monthOf(v.nextVisitDate) == m
  }

  /** Which visits a patient set is drawn from: all of them, the ones
      pending on a day, or the ones pending in a month. */
  datatype Selection = Every | DueOn(d: int) | DueIn(monthOf: int -> int, m: int)

  predicate Selects(sel: Selection, v: Visit) {
    match sel
    case Every => true
    case DueOn(d) => PendingOn(v, d)
    case DueIn(monthOf, m) => PendingIn(v, monthOf, m)
  }

  /** The patients of the selected visits. */
  function KeysWhere(vs: seq<Visit>, sel: Selection): set<string> {
    set v | v in vs && Selects(sel, v) :: Key(v)
  }

  /** Every patient ever seen, completed or not. */
  function AllRegs(vs: seq<Visit>): set<string> {
    KeysWhere(vs, Every)
  }

  /** The patients with a pending follow-up on day `d`. */
  function PendingRegsOn(vs: seq<Visit>, d: int): set<string> {
    KeysWhere(vs, DueOn(d))
  }

  /** The patients with a pending follow-up in month `m`. */
  function PendingRegsIn(vs: seq<Visit>, monthOf: int -> int, m: int): set<string> {
    KeysWhere(vs, DueIn(monthOf, m))
  }

  /** The days on which some visit (pending or not) has its next visit. */
  function NextDays(vs: seq<Visit>): set<int> {
    set v | v in vs :: v.nextVisitDate
  }

  /** The months in which some visit (pending or not) has its next visit. */
  function NextMonths(vs: seq<Visit>, monthOf: int -> int): set<int> {
    set v | v in vs :: monthOf(v.nextVisitDate)
  }

  /** The visits of patient `k`, in list order. */
  function OfPatient(vs: seq<Visit>, k: string): (r: seq<Visit>)
    ensures |r| <= |vs|
    ensures forall v :: v in r <==> v in vs && Key(v) == k
  {
    if vs == [] then []
    else (if Key(vs[0]) == k then [vs[0]] else []) + OfPatient(vs[1..], k)
  }

  function SumDays(vs: seq<Visit>): int {
    if vs == [] then 0 else vs[0].tabletDays + SumDays(vs[1..])
  }

  /** `vs.filter(v => sameDay(v.nextVisitDate, d) && !v.completed)`: the
      visits still waiting for their follow-up on day `d`, in list order. */
  function PendingVisitsOn(vs: seq<Visit>, d: int): (r: seq<Visit>)
    ensures |r| <= |vs|
    ensures forall v :: v in r <==> v in vs && PendingOn(v, d)
  {
    if vs == [] then []
    else (if PendingOn(vs[0], d) then [vs[0]] else []) + PendingVisitsOn(vs[1..], d)
  }

  /** `vs.filter(v => sameDay(v.nextVisitDate, d))`: the visits due on day `d`,
      completed or not. */
  function VisitsDueOn(vs: seq<Visit>, d: int): (r: seq<Visit>)
    ensures |r| <= |vs|
    ensures forall v :: v in r <==> v in vs && v.nextVisitDate == d
  {
    if vs == [] then []
    else (if vs[0].nextVisitDate == d then [vs[0]] else []) + VisitsDueOn(vs[1..], d)
  }

  /** `vs.filter(v => !v.completed)`. */
  function NotCompleted(vs: seq<Visit>): (r: seq<Visit>)
    ensures |r| <= |vs|
    ensures forall v :: v in r <==> v in vs && !v.completed
  {
    if vs == [] then []
    else (if !vs[0].completed then [vs[0]] else []) + NotCompleted(vs[1..])
  }

  /** `new Set(vs.map(key))`: the keys met while walking the list. */
  function KeySet(vs: seq<Visit>): set<string> {
    if vs == [] then {} else {Key(vs[0])} + KeySet(vs[1..])
  }

  /** Every id occurs at most once. */
  predicate UniqueIds(vs: seq<Visit>) {
    forall i, j | 0 <= i < j < |vs| :: vs[i].id != vs[j].id
  }

  /** `completedAt` is set exactly while the follow-up is marked done. */
  predicate WellFormed(v: Visit) {
    v.completedAt.Some? <==> v.completed
  }

  // ---------------------------------------------------------------------------
  // Lemmas

  lemma {:induction false} OfPatientAppend(a: seq<Visit>, b: seq<Visit>, k: string)
    ensures OfPatient(a + b, k) == OfPatient(a, k) + OfPatient(b, k)
    decreases |a|
  {
    if a == [] {
      assert a + b == b;
    } else {
      assert (a + b)[0] == a[0];
      assert (a + b)[1..] == a[1..] + b;
      OfPatientAppend(a[1..], b, k);
    }
  }

  lemma {:induction false} SumDaysAppend(a: seq<Visit>, b: seq<Visit>)
    ensures SumDays(a + b) == SumDays(a) + SumDays(b)
    decreases |a|
  {
    if a == [] {
      assert a + b == b;
    } else {
      assert (a + b)[0] == a[0];
      assert (a + b)[1..] == a[1..] + b;
      SumDaysAppend(a[1..], b);
    }
  }

  /** Building a set from the list of keys yields exactly the patients seen. */
  lemma {:induction false} KeySetIsAllRegs(vs: seq<Visit>)
    ensures KeySet(vs) == AllRegs(vs)
    decreases |vs|
  {
    if vs != [] {
      KeySetIsAllRegs(vs[1..]);
      forall k ensures k in AllRegs(vs) <==> k == Key(vs[0]) || k in AllRegs(vs[1..]) {
        if k in AllRegs(vs) {
          var w :| w in vs && Key(w) == k;
          if w != vs[0] {
            assert w in vs[1..];
          }
        }
        if k in AllRegs(vs[1..]) {
          var w :| w in vs[1..] && Key(w) == k;
          assert w in vs;
        }
        if k == Key(vs[0]) {
          assert vs[0] in vs;
        }
      }
    }
  }

  /** How the patients of the visits satisfying `keep` change when one visit
      is appended to the list. */
  lemma KeysWhereSnoc(p: seq<Visit>, v: Visit, sel: Selection)
    ensures KeysWhere(p + [v], sel) == KeysWhere(p, sel) + (if Selects(sel, v) then {Key(v)} else {})
  {
    var extra: set<string> := if Selects(sel, v) then {Key(v)} else {};
    forall k ensures k in KeysWhere(p + [v], sel) <==> k in KeysWhere(p, sel) || k in extra {
      if k in KeysWhere(p + [v], sel) {
        var w :| w in p + [v] && Selects(sel, w) && Key(w) == k;
        if w != v {
          assert w in p;
        }
      }
      if k in KeysWhere(p, sel) {
        var w :| w in p && Selects(sel, w) && Key(w) == k;
        assert w in p + [v];
      }
      if k in extra {
        assert v in p + [v];
      }
    }
  }

  lemma NextDaysSnoc(p: seq<Visit>, v: Visit, monthOf: int -> int)
    ensures NextDays(p + [v]) == NextDays(p) + {v.nextVisitDate}
    ensures NextMonths(p + [v], monthOf) == NextMonths(p, monthOf) + {monthOf(v.nextVisitDate)}
  {
    forall d ensures d in NextDays(p + [v]) <==> d in NextDays(p) || d == v.nextVisitDate {
      if d in NextDays(p + [v]) {
        var w :| w in p + [v] && w.nextVisitDate == d;
        if w != v {
          assert w in p;
        }
      }
      if d in NextDays(p) {
        var w :| w in p && w.nextVisitDate == d;
        assert w in p + [v];
      }
      if d == v.nextVisitDate {
        assert v in p + [v];
      }
    }
    forall m ensures m in NextMonths(p + [v], monthOf) <==> m in NextMonths(p, monthOf) || m == monthOf(v.nextVisitDate) {
      if m in NextMonths(p + [v], monthOf) {
        var w :| w in p + [v] && monthOf(w.nextVisitDate) == m;
        if w != v {
          assert w in p;
        }
      }
      if m in NextMonths(p, monthOf) {
        var w :| w in p && monthOf(w.nextVisitDate) == m;
        assert w in p + [v];
      }
      if m == monthOf(v.nextVisitDate) {
        assert v in p + [v];
      }
    }
  }

  /** The visits of a patient who occurs nowhere are none. */
  lemma OfPatientAbsent(vs: seq<Visit>, k: string)
    requires k !in AllRegs(vs)
    ensures OfPatient(vs, k) == []
  {
    if OfPatient(vs, k) != [] {
      assert OfPatient(vs, k)[0] in OfPatient(vs, k);
    }
  }
}
