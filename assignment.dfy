/** Choosing a driver for a trip and what doing so keeps true of the table:
    the candidate query, the first-compliant-driver search shared by the
    auto-assign route and the batch job, and the compliance invariant. */
module Assignment {
  import opened Opt
  import opened Tachograph

  /** A row of conductores, reduced to id, rol and activo. */
  datatype Driver = Driver(id: Id, role: string, active: int)

  /** `(rol = 'conductor' OR rol = 'driver') AND activo = 1`. */
  predicate Eligible(d: Driver)
  {
    (d.role == "conductor" || d.role == "driver") && d.active == 1
  }

  /** The candidate drivers, in the order the query returns them. */
  function Candidates(roster: seq<Driver>): (r: seq<Driver>)
    ensures forall d :: d in r <==> d in roster && Eligible(d)
  {
    if roster == [] then []
    else
      var last := roster[|roster| - 1];
      assert roster == roster[..|roster| - 1] + [last];
      Candidates(roster[..|roster| - 1]) + (if Eligible(last) then [last] else [])
  }

  /** Driver `d` can take `trip` under the driving-time rules. */
  predicate Accepts(cal: LocalCalendar, store: seq<Trip>, trip: Trip, d: Id)
  {
    Evaluate(cal, trip.departure, trip.arrival, Considered(store, d, trip.id)) == Ok
  }

  /** The first candidate, in order, who can take the trip. */
  function FirstCompliant(cal: LocalCalendar, store: seq<Trip>, trip: Trip, cands: seq<Driver>): (r: Option<Id>)
    ensures r.Some? ==> Accepts(cal, store, trip, r.value)
  {
    if cands == [] then None
    else if Accepts(cal, store, trip, cands[0].id) then Some(cands[0].id)
    else FirstCompliant(cal, store, trip, cands[1..])
  }

  /** No candidate can take the trip exactly when the search finds none, and a
      found driver is the earliest candidate who can. */
  lemma {:induction false} FirstCompliantIsFirst(cal: LocalCalendar, store: seq<Trip>, trip: Trip, cands: seq<Driver>)
    ensures FirstCompliant(cal, store, trip, cands).None? <==>
            forall j :: 0 <= j < |cands| ==> !Accepts(cal, store, trip, cands[j].id)
    ensures FirstCompliant(cal, store, trip, cands).Some? ==>
            exists j :: 0 <= j < |cands| && cands[j].id == FirstCompliant(cal, store, trip, cands).value &&
                        forall k :: 0 <= k < j ==> !Accepts(cal, store, trip, cands[k].id)
  {
    if cands != [] && !Accepts(cal, store, trip, cands[0].id) {
      var tail := cands[1..];
      FirstCompliantIsFirst(cal, store, trip, tail);
      assert forall j :: 0 < j < |cands| ==> cands[j] == tail[j - 1];
      var r := FirstCompliant(cal, store, trip, tail);
      if r.Some? {
        var j :| 0 <= j < |tail| && tail[j].id == r.value &&
                 forall k :: 0 <= k < j ==> !Accepts(cal, store, trip, tail[k].id);
        assert cands[j + 1].id == r.value;
      }
    } else if cands != [] {
      assert cands[0].id == FirstCompliant(cal, store, trip, cands).value;
    }
  }

  /** The candidate loop: test each driver in turn and stop at the first one
      that passes (auto-assign, and each iteration of the batch job). */
  method SearchRoster(cal: LocalCalendar, store: seq<Trip>, trip: Trip, cands: seq<Driver>) returns (found: Option<Id>)
    ensures found == FirstCompliant(cal, store, trip, cands)
  {
    found := None;
    var j := 0;
    while j < |cands|
      invariant 0 <= j <= |cands|
      invariant FirstCompliant(cal, store, trip, cands) == FirstCompliant(cal, store, trip, cands[j..])
    {
      var ok := Passes(cal, store, cands[j].id, trip.id, trip.departure, trip.arrival);
      if ok {
        found := Some(cands[j].id);
        return;
      }
      assert cands[j..][1..] == cands[j + 1..];
      j := j + 1;
    }
  }

  /** A row whose driver time counts: confirmed and with a driver. */
  predicate Counts(t: Trip)
  {
    t.status == Confirmed && t.driver.Some?
  }

  predicate UniqueIds(store: seq<Trip>)
  {
    forall i, j :: 0 <= i < |store| && 0 <= j < |store| && i != j ==> store[i].id != store[j].id
  }

  /** Every trip arrives no earlier than it departs. */
  predicate WellFormed(store: seq<Trip>)
  {
    forall i :: 0 <= i < |store| ==> store[i].departure <= store[i].arrival
  }

  /** Any two counting trips of one driver are at least MinRestMs apart. */
  predicate RestCompliant(store: seq<Trip>)
  {
    forall i, j :: 0 <= i < |store| && 0 <= j < |store| && i != j &&
                   Counts(store[i]) && Counts(store[j]) && store[i].driver == store[j].driver ==>
                   Separated(store[i].departure, store[i].arrival, store[j].departure, store[j].arrival)
  }

  /** How much of trip `t` is driver `d`'s confirmed driving within bucket `b`. */
  function Contribution(cal: LocalCalendar, t: Trip, d: Id, b: Bucket): int
  {
    if t.status == Confirmed && t.driver == Some(d) && InBucket(cal, t.departure, b) then Duration(t) else 0
  }

  /** Driver `d`'s confirmed driving within bucket `b`. */
  function Load(cal: LocalCalendar, store: seq<Trip>, d: Id, b: Bucket): int
  {
    if store == [] then 0
    else Load(cal, store[..|store| - 1], d, b) + Contribution(cal, store[|store| - 1], d, b)
  }

  /** Every counting trip's driver is within the daily and weekly limits in the
      day and the week that trip departs in. */
  predicate WithinLimits(cal: LocalCalendar, store: seq<Trip>)
  {
    forall i :: 0 <= i < |store| && Counts(store[i]) ==>
      Load(cal, store, store[i].driver.value, DayBucket(store[i].departure)) <= MaxDailyMs &&
      Load(cal, store, store[i].driver.value, WeekBucket(cal, store[i].departure)) <= MaxWeeklyMs
  }

  predicate Compliant(cal: LocalCalendar, store: seq<Trip>)
  {
    RestCompliant(store) && WithinLimits(cal, store)
  }

  /** The row after `UPDATE ... SET conductor_id = d` (and `estado = 'confirmado'` when `confirm`). */
  function Placed(t: Trip, d: Id, confirm: bool): Trip
  {
    t.(driver := Some(d), status := if confirm then Confirmed else t.status)
  }

  /** The table after that UPDATE for `WHERE id = x`. */
  function Assign(store: seq<Trip>, x: Id, d: Id, confirm: bool): (r: seq<Trip>)
    ensures |r| == |store|
  {
    seq(|store|, i requires 0 <= i < |store| => if store[i].id == x then Placed(store[i], d, confirm) else store[i])
  }

  /** Rows with id `x` run over [s, e). */
  predicate TimesAre(store: seq<Trip>, x: Id, s: int, e: int)
  {
    forall i :: 0 <= i < |store| && store[i].id == x ==> store[i].departure == s && store[i].arrival == e
  }

  lemma {:induction false} LoadUpdate(cal: LocalCalendar, store: seq<Trip>, k: nat, t: Trip, d: Id, b: Bucket)
    requires k < |store|
    ensures Load(cal, store[k := t], d, b) == Load(cal, store, d, b) - Contribution(cal, store[k], d, b) + Contribution(cal, t, d, b)
  {
    var n := |store|;
    var r := store[k := t];
    var init := store[..n - 1];
    assert Load(cal, r, d, b) == Load(cal, r[..n - 1], d, b) + Contribution(cal, r[n - 1], d, b);
    assert Load(cal, store, d, b) == Load(cal, init, d, b) + Contribution(cal, store[n - 1], d, b);
    if k == n - 1 {
      assert r[..n - 1] == init;
    } else {
      assert r[..n - 1] == init[k := t];
      LoadUpdate(cal, init, k, t, d, b);
    }
  }

  /** Driving time of the rows with id `x`. */
  function IdLoad(cal: LocalCalendar, store: seq<Trip>, d: Id, b: Bucket, x: Id): int
  {
    if store == [] then 0
    else
      var last := store[|store| - 1];
      IdLoad(cal, store[..|store| - 1], d, b, x) + (if last.id == x then Contribution(cal, last, d, b) else 0)
  }

  /** The query's rows carry the driver's load minus the rows of the trip itself. */
  lemma {:induction false} ConsideredLoad(cal: LocalCalendar, store: seq<Trip>, d: Id, x: Id, b: Bucket)
    ensures BucketSum(cal, Considered(store, d, x), b) + IdLoad(cal, store, d, b, x) == Load(cal, store, d, b)
  {
    if store != [] {
      var init := store[..|store| - 1];
      var last := store[|store| - 1];
      ConsideredLoad(cal, init, d, x, b);
      var c := Considered(init, d, x);
      if Selected(last, d, x) {
        BucketSumAppend(cal, c, last, b);
      } else {
        assert c + [] == c;
      }
    }
  }

  lemma {:induction false} IdLoadAbsent(cal: LocalCalendar, store: seq<Trip>, d: Id, b: Bucket, x: Id)
    requires forall i :: 0 <= i < |store| ==> store[i].id != x
    ensures IdLoad(cal, store, d, b, x) == 0
  {
    if store != [] {
      IdLoadAbsent(cal, store[..|store| - 1], d, b, x);
    }
  }

  lemma {:induction false} IdLoadUnique(cal: LocalCalendar, store: seq<Trip>, d: Id, b: Bucket, k: nat)
    requires UniqueIds(store) && k < |store|
    ensures IdLoad(cal, store, d, b, store[k].id) == Contribution(cal, store[k], d, b)
  {
    var n := |store|;
    var init := store[..n - 1];
    if k == n - 1 {
      IdLoadAbsent(cal, init, d, b, store[k].id);
    } else {
      assert UniqueIds(init);
      IdLoadUnique(cal, init, d, b, k);
    }
  }

  lemma AssignAt(store: seq<Trip>, k: nat, d: Id, confirm: bool)
    requires UniqueIds(store) && k < |store|
    ensures Assign(store, store[k].id, d, confirm) == store[k := Placed(store[k], d, confirm)]
  {
  }

  lemma AssignAbsent(store: seq<Trip>, x: Id, d: Id, confirm: bool)
    requires forall i :: 0 <= i < |store| ==> store[i].id != x
    ensures Assign(store, x, d, confirm) == store
  {
  }

  /** Row `p` may take the place of row `k`: it keeps the id, its times are in
      order, and when it counts, the check accepts its driver at its times
      against that driver's other confirmed trips. */
  predicate Admissible(cal: LocalCalendar, store: seq<Trip>, k: nat, p: Trip)
    requires k < |store|
  {
    p.id == store[k].id && p.departure <= p.arrival &&
    (Counts(p) ==> Evaluate(cal, p.departure, p.arrival, Considered(store, p.driver.value, p.id)) == Ok)
  }

  /** Putting an admissible row in place of row `k` keeps every pair of trips rested. */
  lemma RestKept(cal: LocalCalendar, store: seq<Trip>, k: nat, p: Trip)
    requires UniqueIds(store) && RestCompliant(store) && k < |store|
    requires Admissible(cal, store, k, p)
    ensures RestCompliant(store[k := p])
  {
    var r := store[k := p];
    forall i, j | 0 <= i < |r| && 0 <= j < |r| && i != j &&
                  Counts(r[i]) && Counts(r[j]) && r[i].driver == r[j].driver
      ensures Separated(r[i].departure, r[i].arrival, r[j].departure, r[j].arrival)
    {
      if i == k || j == k {
        var o := if i == k then j else i;
        var d := p.driver.value;
        var ts := Considered(store, d, p.id);
        ScanFirstOffender(p.departure, p.arrival, ts);
        ConsideredMembers(store, d, p.id);
        assert r[o] == store[o] && Selected(store[o], d, p.id);
        assert store[o] in ts;
        var idx :| 0 <= idx < |ts| && ts[idx] == store[o];
        assert Clash(p.departure, p.arrival, ts[idx]) == Ok;
        SeparatedSymmetric(p.departure, p.arrival, store[o].departure, store[o].arrival);
      } else {
        assert r[i] == store[i] && r[j] == store[j];
      }
    }
  }

  /** A trip lies in its own day and its own week. */
  lemma OwnBuckets(cal: LocalCalendar, ms: int)
    ensures InBucket(cal, ms, DayBucket(ms)) && InBucket(cal, ms, WeekBucket(cal, ms))
  {
  }

  /** One bucket of one counting trip stays within its limit after row `k` is replaced by `p`. */
  lemma BucketKept(cal: LocalCalendar, store: seq<Trip>, k: nat, p: Trip, i: nat, b: Bucket, limit: int)
    requires UniqueIds(store) && WellFormed(store) && k < |store| && i < |store| && p.id == store[k].id
    requires Counts(store[k := p][i])
    requires b == DayBucket(store[k := p][i].departure) || b == WeekBucket(cal, store[k := p][i].departure)
    requires i != k ==> Load(cal, store, store[i].driver.value, b) <= limit
    requires Counts(p) && InBucket(cal, p.departure, b) ==>
               Duration(p) + BucketSum(cal, Considered(store, p.driver.value, p.id), b) <= limit
    ensures Load(cal, store[k := p], store[k := p][i].driver.value, b) <= limit
  {
    var r := store[k := p];
    var dd := r[i].driver.value;
    LoadUpdate(cal, store, k, p, dd, b);
    if p.status == Confirmed && p.driver == Some(dd) && InBucket(cal, p.departure, b) {
      ConsideredLoad(cal, store, dd, p.id, b);
      IdLoadUnique(cal, store, dd, b, k);
    } else {
      assert Contribution(cal, p, dd, b) == 0;
      assert Contribution(cal, store[k], dd, b) >= 0;
      OwnBuckets(cal, p.departure);
      assert i != k;
      assert r[i] == store[i];
    }
  }

  /** Putting an admissible row in place of row `k` keeps the daily and weekly limits. */
  lemma LimitsKept(cal: LocalCalendar, store: seq<Trip>, k: nat, p: Trip)
    requires UniqueIds(store) && WellFormed(store) && WithinLimits(cal, store) && k < |store|
    requires Admissible(cal, store, k, p)
    ensures WithinLimits(cal, store[k := p])
  {
    var r := store[k := p];
    if Counts(p) {
      ScanFirstOffender(p.departure, p.arrival, Considered(store, p.driver.value, p.id));
    }
    forall i | 0 <= i < |r| && Counts(r[i])
      ensures Load(cal, r, r[i].driver.value, DayBucket(r[i].departure)) <= MaxDailyMs
      ensures Load(cal, r, r[i].driver.value, WeekBucket(cal, r[i].departure)) <= MaxWeeklyMs
    {
      if i != k {
        assert r[i] == store[i];
      }
      BucketKept(cal, store, k, p, i, DayBucket(r[i].departure), MaxDailyMs);
      BucketKept(cal, store, k, p, i, WeekBucket(cal, r[i].departure), MaxWeeklyMs);
    }
  }

  /** Replacing one row by an admissible row keeps the table compliant. */
  lemma ReplaceKeepsCompliance(cal: LocalCalendar, store: seq<Trip>, k: nat, p: Trip)
    requires UniqueIds(store) && WellFormed(store) && Compliant(cal, store) && k < |store|
    requires Admissible(cal, store, k, p)
    ensures UniqueIds(store[k := p]) && WellFormed(store[k := p]) && Compliant(cal, store[k := p])
  {
    RestKept(cal, store, k, p);
    LimitsKept(cal, store, k, p);
  }

  /** Assigning a driver that the check accepted keeps the table compliant: no
      overlap, at least 9 hours of rest, and the daily and weekly limits. */
  lemma AssignKeepsCompliance(cal: LocalCalendar, store: seq<Trip>, x: Id, s: int, e: int, d: Id, confirm: bool)
    requires UniqueIds(store) && WellFormed(store) && Compliant(cal, store)
    requires TimesAre(store, x, s, e)
    requires Evaluate(cal, s, e, Considered(store, d, x)) == Ok
    ensures UniqueIds(Assign(store, x, d, confirm))
    ensures WellFormed(Assign(store, x, d, confirm))
    ensures Compliant(cal, Assign(store, x, d, confirm))
  {
    if k :| 0 <= k < |store| && store[k].id == x {
      AssignAt(store, k, d, confirm);
      ReplaceKeepsCompliance(cal, store, k, Placed(store[k], d, confirm));
    } else {
      AssignAbsent(store, x, d, confirm);
    }
  }

  /** The scan's rejections alone keep the rest rule: assigning a driver that
      the check accepted to a rested table leaves it rested, whatever the
      daily and weekly totals were. */
  lemma AssignKeepsRest(cal: LocalCalendar, store: seq<Trip>, x: Id, s: int, e: int, d: Id, confirm: bool)
    requires UniqueIds(store) && WellFormed(store) && RestCompliant(store)
    requires TimesAre(store, x, s, e)
    requires Evaluate(cal, s, e, Considered(store, d, x)) == Ok
    ensures UniqueIds(Assign(store, x, d, confirm))
    ensures WellFormed(Assign(store, x, d, confirm))
    ensures RestCompliant(Assign(store, x, d, confirm))
  {
    if k :| 0 <= k < |store| && store[k].id == x {
      AssignAt(store, k, d, confirm);
      RestKept(cal, store, k, Placed(store[k], d, confirm));
    } else {
      AssignAbsent(store, x, d, confirm);
    }
  }

  /** The UPDATE touches only the rows with that id, and only their driver and status. */
  lemma AssignFrame(store: seq<Trip>, x: Id, d: Id, confirm: bool, i: nat)
    requires i < |store|
    ensures var r := Assign(store, x, d, confirm);
            r[i].id == store[i].id && r[i].departure == store[i].departure && r[i].arrival == store[i].arrival &&
            (store[i].id != x ==> r[i] == store[i]) &&
            (store[i].id == x ==> r[i].driver == Some(d) &&
                                  r[i].status == (if confirm then Confirmed else store[i].status))
  {
  }

  /** Assigning keeps every row's id and times, so TimesAre survives it. */
  lemma AssignKeepsTimes(store: seq<Trip>, x: Id, d: Id, confirm: bool, y: Id, s: int, e: int)
    requires TimesAre(store, y, s, e)
    ensures TimesAre(Assign(store, x, d, confirm), y, s, e)
  {
  }
}
