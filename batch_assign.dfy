/** The batch job: every pending trip, in order of departure, gets the first
    candidate driver the driving-time check accepts against the table as it
    stands at that moment, and is then confirmed. */
module BatchAssign {
  import opened Opt
  import opened Sorting
  import opened Tachograph
  import opened Assignment

  /** The rows with estado = 'pendiente', in table order. */
  function PendingOf(store: seq<Trip>): (r: seq<Trip>)
    ensures forall t :: t in r <==> t in store && t.status == Pending
    ensures |r| <= |store|
  {
    if store == [] then []
    else (if store[0].status == Pending then [store[0]] else []) + PendingOf(store[1..])
  }

  function DepartureKey(t: Trip): int
  {
    t.departure
  }

  /** ORDER BY fecha_salida ASC. */
  function PendingByDeparture(store: seq<Trip>): (r: seq<Trip>)
    ensures SortedBy(r, DepartureKey)
    ensures multiset(r) == multiset(PendingOf(store))
  {
    SortBy(PendingOf(store), DepartureKey)
  }

  /** The table after the job and its two counters. */
  datatype BatchResult = BatchResult(store: seq<Trip>, successes: nat, failures: nat)

  /** The job over the trips `pending`, one after the other: each is looked up
      against the table left by the ones before it; an accepted driver is
      written with estado = 'confirmado'. */
  function BatchRun(cal: LocalCalendar, store: seq<Trip>, pending: seq<Trip>, cands: seq<Driver>): (r: BatchResult)
    ensures r.successes + r.failures == |pending|
    ensures |r.store| == |store|
    decreases |pending|
  {
    if pending == [] then BatchResult(store, 0, 0)
    else
      var trip := pending[0];
      match FirstCompliant(cal, store, trip, cands)
      case None =>
        var rest := BatchRun(cal, store, pending[1..], cands);
        BatchResult(rest.store, rest.successes, rest.failures + 1)
      case Some(d) =>
        var rest := BatchRun(cal, Assign(store, trip.id, d, true), pending[1..], cands);
        BatchResult(rest.store, rest.successes + 1, rest.failures)
  }

  /** batchAssign: no pending trip leaves everything as it is; otherwise each
      pending trip is searched for in turn and counted as assigned or not. */
  method RunBatch(cal: LocalCalendar, store: seq<Trip>, roster: seq<Driver>)
      returns (newStore: seq<Trip>, successes: nat, failures: nat)
    ensures var r := BatchRun(cal, store, PendingByDeparture(store), Candidates(roster));
            newStore == r.store && successes == r.successes && failures == r.failures
    ensures successes + failures == |PendingOf(store)|
    ensures UniqueIds(store) && WellFormed(store) && Compliant(cal, store) ==>
              UniqueIds(newStore) && WellFormed(newStore) && Compliant(cal, newStore)
    ensures UniqueIds(store) && WellFormed(store) && RestCompliant(store) ==>
              UniqueIds(newStore) && WellFormed(newStore) && RestCompliant(newStore)
  {
    var pending := PendingByDeparture(store);
    assert |pending| == |PendingOf(store)| by {
      assert |multiset(pending)| == |multiset(PendingOf(store))|;
    }
    if |pending| == 0 {
      return store, 0, 0;
    }
    newStore, successes, failures := AssignEach(cal, store, pending, Candidates(roster));
    if UniqueIds(store) && WellFormed(store) && Compliant(cal, store) {
      PendingTimes(store);
      BatchRunKeepsCompliance(cal, store, pending, Candidates(roster));
    }
    if UniqueIds(store) && WellFormed(store) && RestCompliant(store) {
      PendingTimes(store);
      BatchRunKeepsRest(cal, store, pending, Candidates(roster));
    }
  }

  /** The loop over the pending trips: search the candidates for each, and on
      success write the driver and confirm the trip. */
  method AssignEach(cal: LocalCalendar, store: seq<Trip>, pending: seq<Trip>, cands: seq<Driver>)
      returns (newStore: seq<Trip>, successes: nat, failures: nat)
    ensures BatchRun(cal, store, pending, cands) == BatchResult(newStore, successes, failures)
  {
    newStore, successes, failures := store, 0, 0;
    for i := 0 to |pending|
      invariant var rest := BatchRun(cal, newStore, pending[i..], cands);
                BatchRun(cal, store, pending, cands) ==
                BatchResult(rest.store, successes + rest.successes, failures + rest.failures)
    {
      var trip := pending[i];
      assert pending[i..][1..] == pending[i + 1..];
      var found := SearchRoster(cal, newStore, trip, cands);
      if found.Some? {
        newStore := Assign(newStore, trip.id, found.value, true);
        successes := successes + 1;
      } else {
        failures := failures + 1;
      }
    }
    assert pending[|pending|..] == [];
  }

  /** Every trip of `pending` still has its own times in `store`. */
  predicate TimesKnown(store: seq<Trip>, pending: seq<Trip>)
  {
    forall j :: 0 <= j < |pending| ==> TimesAre(store, pending[j].id, pending[j].departure, pending[j].arrival)
  }

  /** With unique ids, the rows a snapshot was taken from carry that snapshot's times. */
  lemma PendingTimes(store: seq<Trip>)
    requires UniqueIds(store)
    ensures TimesKnown(store, PendingByDeparture(store))
  {
    var pending := PendingByDeparture(store);
    forall j | 0 <= j < |pending|
      ensures TimesAre(store, pending[j].id, pending[j].departure, pending[j].arrival)
    {
      assert pending[j] in multiset(PendingOf(store));
      assert pending[j] in store;
    }
  }

  /** The job keeps the table compliant: every assignment it writes was accepted
      by the check against the table at that point. */
  lemma {:induction false} BatchRunKeepsCompliance(cal: LocalCalendar, store: seq<Trip>, pending: seq<Trip>, cands: seq<Driver>)
    requires UniqueIds(store) && WellFormed(store) && Compliant(cal, store)
    requires TimesKnown(store, pending)
    ensures var r := BatchRun(cal, store, pending, cands).store;
            UniqueIds(r) && WellFormed(r) && Compliant(cal, r)
    decreases |pending|
  {
    if pending != [] {
      var trip := pending[0];
      var tail := pending[1..];
      match FirstCompliant(cal, store, trip, cands)
      case None =>
        assert TimesKnown(store, tail) by {
          assert forall j :: 0 <= j < |tail| ==> tail[j] == pending[j + 1];
        }
        BatchRunKeepsCompliance(cal, store, tail, cands);
      case Some(d) =>
        var next := Assign(store, trip.id, d, true);
        assert TimesAre(store, trip.id, trip.departure, trip.arrival);
        AssignKeepsCompliance(cal, store, trip.id, trip.departure, trip.arrival, d, true);
        forall j | 0 <= j < |tail|
          ensures TimesAre(next, tail[j].id, tail[j].departure, tail[j].arrival)
        {
          assert tail[j] == pending[j + 1];
          AssignKeepsTimes(store, trip.id, d, true, tail[j].id, tail[j].departure, tail[j].arrival);
        }
        BatchRunKeepsCompliance(cal, next, tail, cands);
    }
  }

  /** The job keeps the table rested (no overlap, 9 hours between any two
      confirmed trips of one driver) even when the driving totals were already
      over a limit: the scan rejects every driver who would break the rest rule. */
  lemma {:induction false} BatchRunKeepsRest(cal: LocalCalendar, store: seq<Trip>, pending: seq<Trip>, cands: seq<Driver>)
    requires UniqueIds(store) && WellFormed(store) && RestCompliant(store)
    requires TimesKnown(store, pending)
    ensures var r := BatchRun(cal, store, pending, cands).store;
            UniqueIds(r) && WellFormed(r) && RestCompliant(r)
    decreases |pending|
  {
    if pending != [] {
      var trip := pending[0];
      var tail := pending[1..];
      match FirstCompliant(cal, store, trip, cands)
      case None =>
        assert TimesKnown(store, tail) by {
          assert forall j :: 0 <= j < |tail| ==> tail[j] == pending[j + 1];
        }
        BatchRunKeepsRest(cal, store, tail, cands);
      case Some(d) =>
        var next := Assign(store, trip.id, d, true);
        assert TimesAre(store, trip.id, trip.departure, trip.arrival);
        AssignKeepsRest(cal, store, trip.id, trip.departure, trip.arrival, d, true);
        forall j | 0 <= j < |tail|
          ensures TimesAre(next, tail[j].id, tail[j].departure, tail[j].arrival)
        {
          assert tail[j] == pending[j + 1];
          AssignKeepsTimes(store, trip.id, d, true, tail[j].id, tail[j].departure, tail[j].arrival);
        }
        BatchRunKeepsRest(cal, next, tail, cands);
    }
  }

  /** The job writes only rows of the trips it processed, keeps their times, and
      leaves each row it changes confirmed with a driver. */
  lemma {:induction false} BatchRunFrame(cal: LocalCalendar, store: seq<Trip>, pending: seq<Trip>, cands: seq<Driver>, i: nat)
    requires i < |store|
    ensures var r := BatchRun(cal, store, pending, cands).store;
            r[i].id == store[i].id && r[i].departure == store[i].departure && r[i].arrival == store[i].arrival &&
            (r[i] != store[i] ==> Counts(r[i]) && exists j :: 0 <= j < |pending| && pending[j].id == store[i].id)
    decreases |pending|
  {
    if pending != [] {
      var trip := pending[0];
      var tail := pending[1..];
      match FirstCompliant(cal, store, trip, cands)
      case None =>
        BatchRunFrame(cal, store, tail, cands, i);
        if BatchRun(cal, store, pending, cands).store[i] != store[i] {
          var j :| 0 <= j < |tail| && tail[j].id == store[i].id;
          assert pending[j + 1] == tail[j];
        }
      case Some(d) =>
        var next := Assign(store, trip.id, d, true);
        AssignFrame(store, trip.id, d, true, i);
        BatchRunFrame(cal, next, tail, cands, i);
        var r := BatchRun(cal, store, pending, cands).store;
        if r[i] != store[i] {
          if r[i] == next[i] {
            assert pending[0].id == store[i].id;
          } else {
            var j :| 0 <= j < |tail| && tail[j].id == next[i].id;
            assert pending[j + 1] == tail[j];
          }
        }
    }
  }
}
