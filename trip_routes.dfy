/** The two route handlers of the trips API that run the driving-time check:
    POST /:id/auto-assign, which puts the first compliant driver on a trip, and
    PUT /:id, which validates an edit of a trip's driver or dates before it
    writes it. The table is a value passed in; each handler returns its
    response and the table afterwards. */
module TripRoutes {
  import opened Opt
  import opened Tachograph
  import opened Assignment

  /** SELECT * ... WHERE id = ?: the position of the first row with that id. */
  function FindTrip(store: seq<Trip>, id: Id): (r: Option<nat>)
    ensures r.Some? ==> r.value < |store| && store[r.value].id == id &&
                        forall i :: 0 <= i < r.value ==> store[i].id != id
    ensures r.None? ==> forall i :: 0 <= i < |store| ==> store[i].id != id
  {
    if store == [] then None
    else if store[0].id == id then Some(0)
    else match FindTrip(store[1..], id)
      case None => None
      case Some(i) => Some(i + 1)
  }

  /** The answer of POST /:id/auto-assign. */
  datatype AssignOutcome = TripNotFound | NoCompliantDriver | Assigned(driver: Id)

  /** Auto-assign: look the trip up (404 if absent), query the eligible drivers
      and take the first one the check accepts (409 if none); then set only
      conductor_id of that trip. */
  method AutoAssign(cal: LocalCalendar, store: seq<Trip>, id: Id, roster: seq<Driver>)
      returns (out: AssignOutcome, newStore: seq<Trip>)
    ensures FindTrip(store, id).None? ==> out == TripNotFound && newStore == store
    ensures FindTrip(store, id).Some? ==>
              var trip := store[FindTrip(store, id).value];
              match FirstCompliant(cal, store, trip, Candidates(roster))
              case None => out == NoCompliantDriver && newStore == store
              case Some(d) => out == Assigned(d) && newStore == Assign(store, id, d, false)
    ensures out.Assigned? ==> exists c :: c in roster && Eligible(c) && c.id == out.driver
    ensures UniqueIds(store) && WellFormed(store) && Compliant(cal, store) ==>
              UniqueIds(newStore) && WellFormed(newStore) && Compliant(cal, newStore)
    ensures UniqueIds(store) && WellFormed(store) && RestCompliant(store) ==>
              UniqueIds(newStore) && WellFormed(newStore) && RestCompliant(newStore)
  {
    var k := FindTrip(store, id);
    if k.None? {
      return TripNotFound, store;
    }
    var trip := store[k.value];
    var cands := Candidates(roster);
    var found := SearchRoster(cal, store, trip, cands);
    if found.None? {
      return NoCompliantDriver, store;
    }
    var d := found.value;
    FirstCompliantIsFirst(cal, store, trip, cands);
    ghost var j :| 0 <= j < |cands| && cands[j].id == d;
    assert cands[j] in roster && Eligible(cands[j]);
    out := Assigned(d);
    newStore := Assign(store, trip.id, d, false);
    if UniqueIds(store) && WellFormed(store) && Compliant(cal, store) {
      assert TimesAre(store, id, trip.departure, trip.arrival);
      AssignKeepsCompliance(cal, store, id, trip.departure, trip.arrival, d, false);
    }
    if UniqueIds(store) && WellFormed(store) && RestCompliant(store) {
      assert TimesAre(store, id, trip.departure, trip.arrival);
      AssignKeepsRest(cal, store, id, trip.departure, trip.arrival, d, false);
    }
  }

  /** The body of PUT /:id, reduced to what the check looks at: each field is
      `Some` when it is present. `driver` is conductor_id, whose value may be
      null; `otherFields` says whether any of the remaining updatable columns
      (client, origin, destination, seats, price, notes, rejection reason, bus)
      is present. */
  datatype Edit = Edit(driver: Option<Option<Id>>, departure: Option<int>, arrival: Option<int>,
                       status: Option<Status>, otherFields: bool)

  /** No updatable field in the body: answered with 400. */
  predicate NoFields(e: Edit)
  {
    e.driver.None? && e.departure.None? && e.arrival.None? && e.status.None? && !e.otherFields
  }

  /** The handler validates when the body sets a (non-null) driver or either date. */
  predicate TriggersCheck(e: Edit)
  {
    (e.driver.Some? && e.driver.value.Some?) || e.departure.Some? || e.arrival.Some?
  }

  /** Row `t` after the UPDATE: every field present in the body replaces the old value. */
  function Edited(t: Trip, e: Edit): Trip
  {
    t.(driver := e.driver.GetOr(t.driver),
       departure := e.departure.GetOr(t.departure),
       arrival := e.arrival.GetOr(t.arrival),
       status := e.status.GetOr(t.status))
  }

  /** UPDATE viajes_discrecionales SET ... WHERE id = ?. */
  function ApplyEdit(store: seq<Trip>, id: Id, e: Edit): (r: seq<Trip>)
    ensures |r| == |store|
    ensures forall i :: 0 <= i < |store| ==> r[i] == (if store[i].id == id then Edited(store[i], e) else store[i])
  {
    seq(|store|, i requires 0 <= i < |store| => if store[i].id == id then Edited(store[i], e) else store[i])
  }

  /** The driver the handler checks, as written: the body's conductor_id, or
      null when the body has none. The variable holding the body's value
      starts out null rather than undefined, so the fallback to the row's
      current driver is never taken. */
  function CheckedDriverAsWritten(e: Edit): (r: Option<Id>)
    ensures e.driver.Some? ==> r == e.driver.value
    ensures e.driver.None? ==> r.None?
  {
    if e.driver.Some? then e.driver.value else None
  }

  /** The driver the handler evidently means to check: the body's conductor_id
      when present, else the row's current driver; that is, the driver the row
      has after the update. */
  function CheckedDriver(e: Edit, trip: Trip): (r: Option<Id>)
    ensures r == Edited(trip, e).driver
    ensures e.driver.None? ==> r == trip.driver
  {
    if e.driver.Some? then e.driver.value else trip.driver
  }

  /** The validation step of PUT for row `k`, checking driver `checked`: when the
      body triggers it and there is a driver, the verdict of the check for the
      row's new times; otherwise no objection. */
  function Gate(cal: LocalCalendar, store: seq<Trip>, k: nat, e: Edit, checked: Option<Id>): Verdict
    requires k < |store|
  {
    var row := Edited(store[k], e);
    if TriggersCheck(e) && checked.Some? then
      Evaluate(cal, row.departure, row.arrival, Considered(store, checked.value, store[k].id))
    else Ok
  }

  /** The answer of PUT /:id; ServerError is the 500 of an exception passed to `next`. */
  datatype PutOutcome = NothingToUpdate | NotFound | Conflict(verdict: Verdict) | Updated | ServerError

  /** An answer together with the table after the request. */
  datatype PutResult = PutResult(outcome: PutOutcome, store: seq<Trip>)

  /** PUT /:id as written. The handler's own getWeek reads `arguments`, which
      an arrow function in an ES module does not have, so checkTachograph
      throws as soon as it asks for the week of the start; the handler then
      answers 500 without writing. The check is reached exactly when the body
      triggers it, the row exists and the as-written resolver yields a driver. */
  function UpdateTripAsWritten(store: seq<Trip>, id: Id, e: Edit): (r: PutResult)
    ensures r.outcome == Updated <==>
              !NoFields(e) && FindTrip(store, id).Some? && !(TriggersCheck(e) && CheckedDriverAsWritten(e).Some?)
    ensures r.outcome == Updated ==> r.store == ApplyEdit(store, id, e)
    ensures r.outcome != Updated ==> r.store == store
    ensures r.outcome == ServerError <==>
              !NoFields(e) && FindTrip(store, id).Some? && TriggersCheck(e) && CheckedDriverAsWritten(e).Some?
    ensures !r.outcome.Conflict?
  {
    if NoFields(e) then PutResult(NothingToUpdate, store)
    else if FindTrip(store, id).None? then PutResult(NotFound, store)
    else if TriggersCheck(e) && CheckedDriverAsWritten(e).Some? then PutResult(ServerError, store)
    else PutResult(Updated, ApplyEdit(store, id, e))
  }

  /** As written, no PUT whose body sets a driver ever changes the table: it
      is answered 404 or 500. */
  lemma DriverEditNeverWrites(store: seq<Trip>, id: Id, e: Edit)
    requires e.driver.Some? && e.driver.value.Some?
    ensures UpdateTripAsWritten(store, id, e).store == store
    ensures UpdateTripAsWritten(store, id, e).outcome == NotFound ||
            UpdateTripAsWritten(store, id, e).outcome == ServerError
  {
  }

  /** Putting driver 1 on the only trip, a pending 4-hour one: the corrected
      validation has no objection, so the corrected handler writes it; as
      written the request fails with 500 and the trip keeps no driver. */
  lemma DriverEditFailsAsWritten(cal: LocalCalendar)
    ensures var store := [Trip(1, 0, 4 * HourMs, None, Pending)];
            var e := Edit(Some(Some(1)), None, None, None, false);
            UpdateTripAsWritten(store, 1, e) == PutResult(ServerError, store) &&
            Gate(cal, store, 0, e, CheckedDriver(e, store[0])) == Ok &&
            ApplyEdit(store, 1, e) == [Trip(1, 0, 4 * HourMs, Some(1), Pending)]
  {
    var t := Trip(1, 0, 4 * HourMs, None, Pending);
    var store := [t];
    assert Considered(store, 1, 1) == [] by {
      assert store[..0] == [];
      assert Considered(store, 1, 1) == Considered([], 1, 1) + [];
    }
    var e := Edit(Some(Some(1)), None, None, None, false);
    assert ApplyEdit(store, 1, e)[0] == Trip(1, 0, 4 * HourMs, Some(1), Pending);
  }

  /** PUT /:id: 400 without fields; when the body sets a driver or a date, load
      the row (404 if absent), take the new dates or the old ones, and reject
      with 409 what the check objects to; then UPDATE (404 when no row matched). */
  method UpdateTrip(cal: LocalCalendar, store: seq<Trip>, id: Id, e: Edit) returns (out: PutOutcome, newStore: seq<Trip>)
    ensures NoFields(e) ==> out == NothingToUpdate && newStore == store
    ensures !NoFields(e) && FindTrip(store, id).None? ==> out == NotFound && newStore == store
    ensures !NoFields(e) && FindTrip(store, id).Some? ==>
              var k := FindTrip(store, id).value;
              var v := Gate(cal, store, k, e, CheckedDriver(e, store[k]));
              if v == Ok then out == Updated && newStore == ApplyEdit(store, id, e)
              else out == Conflict(v) && newStore == store
    ensures out.Conflict? ==> out.verdict != Ok && TriggersCheck(e)
    ensures UniqueIds(store) && WellFormed(store) && Compliant(cal, store) && SafeEdit(store, id, e) ==>
              UniqueIds(newStore) && WellFormed(newStore) && Compliant(cal, newStore)
  {
    if NoFields(e) {
      return NothingToUpdate, store;
    }
    if TriggersCheck(e) {
      var k := FindTrip(store, id);
      if k.None? {
        return NotFound, store;
      }
      var trip := store[k.value];
      var row := Edited(trip, e);
      var driver := CheckedDriver(e, trip);
      if driver.Some? {
        var v := CheckTachograph(cal, store, driver.value, id, row.departure, row.arrival);
        if v != Ok {
          return Conflict(v), store;
        }
      }
    }
    if FindTrip(store, id).None? {
      return NotFound, store;
    }
    out, newStore := Updated, ApplyEdit(store, id, e);
    if UniqueIds(store) && WellFormed(store) && Compliant(cal, store) && SafeEdit(store, id, e) {
      UpdateKeepsCompliance(cal, store, id, e);
    }
  }

  /** An edit whose consequences the check covers: the row's new times are in
      order, and confirming a trip comes with its driver or dates, which is
      what makes the handler validate it. */
  predicate SafeEdit(store: seq<Trip>, id: Id, e: Edit)
  {
    (forall i :: 0 <= i < |store| && store[i].id == id ==> Edited(store[i], e).departure <= Edited(store[i], e).arrival) &&
    (e.status == Some(Confirmed) ==> TriggersCheck(e))
  }

  lemma EditAt(store: seq<Trip>, k: nat, e: Edit)
    requires UniqueIds(store) && k < |store|
    ensures ApplyEdit(store, store[k].id, e) == store[k := Edited(store[k], e)]
  {
  }

  /** An edit that passes the corrected gate keeps the table compliant. */
  lemma UpdateKeepsCompliance(cal: LocalCalendar, store: seq<Trip>, id: Id, e: Edit)
    requires UniqueIds(store) && WellFormed(store) && Compliant(cal, store) && SafeEdit(store, id, e)
    requires FindTrip(store, id).Some?
    requires Gate(cal, store, FindTrip(store, id).value, e, CheckedDriver(e, store[FindTrip(store, id).value])) == Ok
    ensures UniqueIds(ApplyEdit(store, id, e)) && WellFormed(ApplyEdit(store, id, e)) &&
            Compliant(cal, ApplyEdit(store, id, e))
  {
    var k := FindTrip(store, id).value;
    var p := Edited(store[k], e);
    EditAt(store, k, e);
    if !TriggersCheck(e) && p == store[k] {
      assert store[k := p] == store;
    } else {
      assert Admissible(cal, store, k, p);
      ReplaceKeepsCompliance(cal, store, k, p);
    }
  }

  /** As written, an edit that only moves the dates of a trip that has a driver
      is never checked, and the handler writes it: here trip 2 is moved onto
      trip 1 of the same driver. The table was compliant; after the update the
      two trips overlap. The corrected resolver checks the row's driver and
      finds the overlap. */
  lemma DateOnlyEditSkipsCheck(cal: LocalCalendar)
    ensures var store := [Trip(1, 0, 4 * HourMs, Some(1), Confirmed),
                          Trip(2, 48 * HourMs, 52 * HourMs, Some(1), Confirmed)];
            var e := Edit(None, Some(HourMs), Some(3 * HourMs), None, false);
            UniqueIds(store) && WellFormed(store) && Compliant(cal, store) && SafeEdit(store, 2, e) &&
            FindTrip(store, 2) == Some(1) &&
            Gate(cal, store, 1, e, CheckedDriverAsWritten(e)) == Ok &&
            UpdateTripAsWritten(store, 2, e) == PutResult(Updated, ApplyEdit(store, 2, e)) &&
            !RestCompliant(ApplyEdit(store, 2, e)) &&
            Gate(cal, store, 1, e, CheckedDriver(e, store[1])) == Overlap(1)
  {
    var t1 := Trip(1, 0, 4 * HourMs, Some(1), Confirmed);
    var t2 := Trip(2, 48 * HourMs, 52 * HourMs, Some(1), Confirmed);
    var store := [t1, t2];
    var e := Edit(None, Some(HourMs), Some(3 * HourMs), None, false);
    forall i | 0 <= i < 2 && Counts(store[i])
      ensures Load(cal, store, store[i].driver.value, DayBucket(store[i].departure)) <= MaxDailyMs
      ensures Load(cal, store, store[i].driver.value, WeekBucket(cal, store[i].departure)) <= MaxWeeklyMs
    {
      LoadOfTwo(cal, t1, t2, 1, DayBucket(store[i].departure));
      LoadOfTwo(cal, t1, t2, 1, WeekBucket(cal, store[i].departure));
    }
    var r := ApplyEdit(store, 2, e);
    assert r[1] == Trip(2, HourMs, 3 * HourMs, Some(1), Confirmed);
    assert !Separated(r[0].departure, r[0].arrival, r[1].departure, r[1].arrival);
    assert Considered(store, 1, 2) == [t1] by {
      assert store[..1] == [t1];
      assert [t1][..0] == [];
      assert Considered([t1], 1, 2) == [] + [t1];
      assert Considered(store, 1, 2) == Considered([t1], 1, 2) + [];
    }
    assert UniqueIds(store);
    assert WellFormed(store);
    assert RestCompliant(store);
    assert WithinLimits(cal, store);
    assert SafeEdit(store, 2, e);
    assert FindTrip(store, 2) == Some(1);
    assert Gate(cal, store, 1, e, CheckedDriverAsWritten(e)) == Ok;
    assert !RestCompliant(r);
    assert Clash(HourMs, 3 * HourMs, t1) == Overlap(1);
    assert ScanUpTo(HourMs, 3 * HourMs, [t1], 1) == Overlap(1);
    assert Gate(cal, store, 1, e, CheckedDriver(e, store[1])) == Overlap(1);
  }

  /** Driver 1's load in a bucket of a two-row table of 4-hour trips is at most 8 hours. */
  lemma LoadOfTwo(cal: LocalCalendar, t1: Trip, t2: Trip, d: Id, b: Bucket)
    requires Duration(t1) == 4 * HourMs && Duration(t2) == 4 * HourMs
    ensures Load(cal, [t1, t2], d, b) <= 8 * HourMs
  {
    assert [t1, t2][..1] == [t1];
    assert [t1][..0] == [];
    assert Load(cal, [t1], d, b) == Contribution(cal, t1, d, b);
    assert Load(cal, [t1, t2], d, b) == Contribution(cal, t1, d, b) + Contribution(cal, t2, d, b);
  }
}
