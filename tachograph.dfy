/** The driving-time rules the server applies before a driver is put on a trip:
    no overlap with the driver's other confirmed trips, at least 9 hours of rest
    between trips, at most 9 hours of driving on the trip's start day and at most
    56 hours in its start week. */
module Tachograph {
  import opened Opt
  import opened Calendar
  import opened Intervals

  /** Positive database ids (AUTO_INCREMENT keys). */
  type Id = x: int | x > 0 witness 1

  /** viajes_discrecionales.estado. */
  datatype Status = Pending | Confirmed | Accepted | Rejected

  /** A row of viajes_discrecionales, reduced to what the rules read:
      fecha_salida / fecha_llegada as ms since the epoch, conductor_id and estado. */
  datatype Trip = Trip(id: Id, departure: int, arrival: int, driver: Option<Id>, status: Status)

  const HourMs: int := 3600000
  /** MIN_REST_MS: minimum rest between two trips of one driver. */
  const MinRestMs: int := 32400000
  /** At most 9 hours of driving per day ... */
  const MaxDailyMs: int := 32400000
  /** ... and 56 hours per week. */
  const MaxWeeklyMs: int := 201600000

  /** The outcome of the check; the first four name the offending trip. */
  datatype Verdict =
    | Ok
    | Overlap(tripId: Id)
    | RestAfter(tripId: Id)
    | RestBefore(tripId: Id)
    | DailyExceeded(drivingMs: int)
    | WeeklyExceeded(drivingMs: int)

  function Duration(t: Trip): int
  {
    t.arrival - t.departure
  }

  /** The row filter `conductor_id = driver AND estado = 'confirmado' AND id != exclude`. */
  predicate Selected(t: Trip, driver: Id, exclude: Id)
  {
    t.driver == Some(driver) && t.status == Confirmed && t.id != exclude
  }

  /** The rows that query returns, in table order. */
  function Considered(store: seq<Trip>, driver: Id, exclude: Id): seq<Trip>
  {
    if store == [] then []
    else
      var last := store[|store| - 1];
      Considered(store[..|store| - 1], driver, exclude) + (if Selected(last, driver, exclude) then [last] else [])
  }

  /** The query returns exactly the selected rows. */
  lemma {:induction false} ConsideredMembers(store: seq<Trip>, driver: Id, exclude: Id)
    ensures forall t :: t in Considered(store, driver, exclude) <==> t in store && Selected(t, driver, exclude)
  {
    if store != [] {
      var last := store[|store| - 1];
      assert store == store[..|store| - 1] + [last];
      ConsideredMembers(store[..|store| - 1], driver, exclude);
    }
  }

  /** Neither interval starts less than MinRestMs after the other one ends. */
  predicate Separated(s1: int, e1: int, s2: int, e2: int)
  {
    e2 + MinRestMs <= s1 || e1 + MinRestMs <= s2
  }

  lemma SeparatedSymmetric(s1: int, e1: int, s2: int, e2: int)
    ensures Separated(s1, e1, s2, e2) == Separated(s2, e2, s1, e1)
  {
  }

  /** How the interval [s, e) fares against one existing trip `t`, as the
      loop body tests it: overlap first, then rest after `t`, then rest before `t`. */
  function Clash(s: int, e: int, t: Trip): (v: Verdict)
    ensures v == Ok || v == Overlap(t.id) || v == RestAfter(t.id) || v == RestBefore(t.id)
    ensures v == Ok ==> Separated(s, e, t.departure, t.arrival)
    ensures s <= e && t.departure <= t.arrival && Separated(s, e, t.departure, t.arrival) ==> v == Ok
  {
    if Overlaps(s, e, t.departure, t.arrival) then Overlap(t.id)
    else if s >= t.arrival && s - t.arrival < MinRestMs then RestAfter(t.id)
    else if e <= t.departure && t.departure - e < MinRestMs then RestBefore(t.id)
    else Ok
  }

  /** The first clash among the first `n` trips, in scan order (Ok when there is none). */
  function ScanUpTo(s: int, e: int, ts: seq<Trip>, n: nat): Verdict
    requires n <= |ts|
  {
    if n == 0 then Ok
    else
      var p := ScanUpTo(s, e, ts, n - 1);
      if p != Ok then p else Clash(s, e, ts[n - 1])
  }

  /** The first clash among all of `ts`. */
  function Scan(s: int, e: int, ts: seq<Trip>): Verdict
  {
    ScanUpTo(s, e, ts, |ts|)
  }

  /** A prefix scan is clean exactly when no trip of the prefix clashes, and
      otherwise reports the clash of the first offending trip. */
  lemma {:induction false} ScanUpToFirstOffender(s: int, e: int, ts: seq<Trip>, n: nat)
    requires n <= |ts|
    ensures ScanUpTo(s, e, ts, n) == Ok <==> forall i :: 0 <= i < n ==> Clash(s, e, ts[i]) == Ok
    ensures ScanUpTo(s, e, ts, n) != Ok ==>
              exists i :: 0 <= i < n && Clash(s, e, ts[i]) == ScanUpTo(s, e, ts, n) &&
                          forall j :: 0 <= j < i ==> Clash(s, e, ts[j]) == Ok
  {
    if n > 0 {
      ScanUpToFirstOffender(s, e, ts, n - 1);
    }
  }

  /** The whole scan is clean exactly when no trip clashes, and otherwise
      reports the clash of the first offending trip. */
  lemma ScanFirstOffender(s: int, e: int, ts: seq<Trip>)
    ensures Scan(s, e, ts) == Ok <==> forall i :: 0 <= i < |ts| ==> Clash(s, e, ts[i]) == Ok
    ensures Scan(s, e, ts) != Ok ==>
              exists i :: 0 <= i < |ts| && Clash(s, e, ts[i]) == Scan(s, e, ts) &&
                          forall j :: 0 <= j < i ==> Clash(s, e, ts[j]) == Ok
  {
    ScanUpToFirstOffender(s, e, ts, |ts|);
  }

  /** Once a prefix has a clash, scanning further never changes the answer. */
  lemma {:induction false} ScanSticks(s: int, e: int, ts: seq<Trip>, n: nat)
    requires n <= |ts|
    requires ScanUpTo(s, e, ts, n) != Ok
    ensures Scan(s, e, ts) == ScanUpTo(s, e, ts, n)
    decreases |ts| - n
  {
    if n < |ts| {
      ScanSticks(s, e, ts, n + 1);
    }
  }

  /** The week number and year the server's local clock gives an instant
      (getWeek(d) and d.getFullYear() read local time). */
  datatype LocalCalendar = LocalCalendar(weekOf: int -> int, yearOf: int -> int)

  /** The local calendar of a server whose clock is `offsetMs` ahead of UTC. */
  function Zone(offsetMs: int): LocalCalendar
  {
    LocalCalendar((ms: int) => IsoWeek(ms + offsetMs), (ms: int) => CalendarYear(ms + offsetMs))
  }

  /** The two accumulation periods: a UTC day, and a local ISO week together with
      the local calendar year (getWeek(d) and getFullYear() are both compared). */
  datatype Bucket = Day(day: int) | Week(week: int, year: int)

  /** The UTC day an instant falls in (the date part of toISOString()). */
  function DayBucket(ms: int): Bucket
  {
    Day(DayOf(ms))
  }

  /** The local week and year of an instant. */
  function WeekBucket(cal: LocalCalendar, ms: int): Bucket
  {
    Week(cal.weekOf(ms), cal.yearOf(ms))
  }

  /** On a UTC server the week bucket is the ISO week and year of the UTC date. */
  lemma UtcWeekBucket(ms: int)
    ensures WeekBucket(Zone(0), ms) == Week(IsoWeek(ms), CalendarYear(ms))
  {
  }

  /** A trip counts towards bucket `b` when it departs within it. */
  predicate InBucket(cal: LocalCalendar, ms: int, b: Bucket)
  {
    match b
    case Day(_) => DayBucket(ms) == b
    case Week(_, _) => WeekBucket(cal, ms) == b
  }

  /** Driving time of the first `n` trips of `ts` that depart within bucket `b`. */
  function SumUpTo(cal: LocalCalendar, ts: seq<Trip>, n: nat, b: Bucket): int
    requires n <= |ts|
  {
    if n == 0 then 0
    else SumUpTo(cal, ts, n - 1, b) + (if InBucket(cal, ts[n - 1].departure, b) then Duration(ts[n - 1]) else 0)
  }

  /** Driving time of the trips of `ts` that depart within bucket `b`. */
  function BucketSum(cal: LocalCalendar, ts: seq<Trip>, b: Bucket): int
  {
    SumUpTo(cal, ts, |ts|, b)
  }

  /** A prefix sum only reads the prefix. */
  lemma {:induction false} SumUpToPrefix(cal: LocalCalendar, ts: seq<Trip>, us: seq<Trip>, n: nat, b: Bucket)
    requires n <= |ts| && n <= |us| && ts[..n] == us[..n]
    ensures SumUpTo(cal, ts, n, b) == SumUpTo(cal, us, n, b)
  {
    if n > 0 {
      assert ts[n - 1] == ts[..n][n - 1] == us[n - 1];
      assert ts[..n - 1] == ts[..n][..n - 1];
      assert us[..n - 1] == us[..n][..n - 1];
      SumUpToPrefix(cal, ts, us, n - 1, b);
    }
  }

  /** Appending one trip adds its share. */
  lemma BucketSumAppend(cal: LocalCalendar, ts: seq<Trip>, t: Trip, b: Bucket)
    ensures BucketSum(cal, ts + [t], b) == BucketSum(cal, ts, b) + (if InBucket(cal, t.departure, b) then Duration(t) else 0)
  {
    assert (ts + [t])[..|ts|] == ts[..|ts|];
    SumUpToPrefix(cal, ts + [t], ts, |ts|, b);
  }

  /** checkTachograph's answer for a driver whose confirmed trips (other than the
      one being placed) are `ts`, when the trip being placed runs over [s, e). */
  function Evaluate(cal: LocalCalendar, s: int, e: int, ts: seq<Trip>): Verdict
  {
    var clash := Scan(s, e, ts);
    if clash != Ok then clash
    else
      var daily := (e - s) + BucketSum(cal, ts, DayBucket(s));
      var weekly := (e - s) + BucketSum(cal, ts, WeekBucket(cal, s));
      if daily > MaxDailyMs then DailyExceeded(daily)
      else if weekly > MaxWeeklyMs then WeeklyExceeded(weekly)
      else Ok
  }

  /** The trip fits: no clash with any trip, and both limits hold (inclusive). */
  predicate Fits(cal: LocalCalendar, s: int, e: int, ts: seq<Trip>)
  {
    (forall i :: 0 <= i < |ts| ==> Separated(s, e, ts[i].departure, ts[i].arrival)) &&
    (e - s) + BucketSum(cal, ts, DayBucket(s)) <= MaxDailyMs &&
    (e - s) + BucketSum(cal, ts, WeekBucket(cal, s)) <= MaxWeeklyMs
  }

  /** For well-ordered intervals a trip is accepted exactly when it fits. */
  lemma EvaluateOkIffFits(cal: LocalCalendar, s: int, e: int, ts: seq<Trip>)
    requires s <= e
    requires forall i :: 0 <= i < |ts| ==> ts[i].departure <= ts[i].arrival
    ensures Evaluate(cal, s, e, ts) == Ok <==> Fits(cal, s, e, ts)
  {
    ScanFirstOffender(s, e, ts);
    if Fits(cal, s, e, ts) {
      assert forall i :: 0 <= i < |ts| ==> Clash(s, e, ts[i]) == Ok;
    }
  }

  /** A rejection names a trip of `ts` that comes before every other offender,
      or carries the driving total that broke a limit. */
  lemma EvaluateRejection(cal: LocalCalendar, s: int, e: int, ts: seq<Trip>)
    ensures Evaluate(cal, s, e, ts).DailyExceeded? ==>
              Evaluate(cal, s, e, ts).drivingMs == (e - s) + BucketSum(cal, ts, DayBucket(s)) > MaxDailyMs
    ensures Evaluate(cal, s, e, ts).WeeklyExceeded? ==>
              Evaluate(cal, s, e, ts).drivingMs == (e - s) + BucketSum(cal, ts, WeekBucket(cal, s)) > MaxWeeklyMs &&
              (e - s) + BucketSum(cal, ts, DayBucket(s)) <= MaxDailyMs
    ensures Evaluate(cal, s, e, ts).DailyExceeded? || Evaluate(cal, s, e, ts).WeeklyExceeded? ==>
              forall i :: 0 <= i < |ts| ==> Clash(s, e, ts[i]) == Ok
  {
    ScanFirstOffender(s, e, ts);
  }

  /** A gap of exactly 9 hours is enough, on either side. */
  lemma NineHourGapSuffices(s: int, e: int, t: Trip)
    requires s <= e && t.departure <= t.arrival
    requires s == t.arrival + MinRestMs || t.departure == e + MinRestMs
    ensures Clash(s, e, t) == Ok
  {
  }

  /** One millisecond less is not. */
  lemma ShorterGapRejected(s: int, e: int, t: Trip)
    requires s <= e && t.departure <= t.arrival
    ensures s == t.arrival + MinRestMs - 1 ==> Clash(s, e, t) == RestAfter(t.id)
    ensures t.departure == e + MinRestMs - 1 ==> Clash(s, e, t) == RestBefore(t.id)
  {
  }

  /** checkTachograph in the PUT handler: scan the driver's other confirmed trips,
      return at the first clash, accumulate the daily and weekly totals, then test
      the limits. */
  method CheckTachograph(cal: LocalCalendar, store: seq<Trip>, driver: Id, tripId: Id, s: int, e: int) returns (v: Verdict)
    ensures v == Evaluate(cal, s, e, Considered(store, driver, tripId))
  {
    var trips := Considered(store, driver, tripId);
    var newDuration := e - s;
    var startDay := DayBucket(s);
    var startWeek := WeekBucket(cal, s);
    var daily := newDuration;
    var weekly := newDuration;

    for i := 0 to |trips|
      invariant ScanUpTo(s, e, trips, i) == Ok
      invariant daily == newDuration + SumUpTo(cal, trips, i, startDay)
      invariant weekly == newDuration + SumUpTo(cal, trips, i, startWeek)
    {
      var t := trips[i];
      if Overlaps(s, e, t.departure, t.arrival) {
        ScanSticks(s, e, trips, i + 1);
        return Overlap(t.id);
      }
      if s >= t.arrival && s - t.arrival < MinRestMs {
        ScanSticks(s, e, trips, i + 1);
        return RestAfter(t.id);
      }
      if e <= t.departure && t.departure - e < MinRestMs {
        ScanSticks(s, e, trips, i + 1);
        return RestBefore(t.id);
      }
      if DayOf(t.departure) == DayOf(s) {
        daily := daily + Duration(t);
      }
      if cal.weekOf(t.departure) == cal.weekOf(s) && cal.yearOf(t.departure) == cal.yearOf(s) {
        weekly := weekly + Duration(t);
      }
    }
    assert Evaluate(cal, s, e, trips) ==
      if daily > MaxDailyMs then DailyExceeded(daily)
      else if weekly > MaxWeeklyMs then WeeklyExceeded(weekly)
      else Ok;
    if daily > MaxDailyMs {
      return DailyExceeded(daily);
    }
    if weekly > MaxWeeklyMs {
      return WeeklyExceeded(weekly);
    }
    return Ok;
  }

  /** The per-candidate test of auto-assign and of the batch job: the same scan,
      written with an isValid flag and a break, then
      `isValid && daily <= 9h && weekly <= 56h`. */
  method Passes(cal: LocalCalendar, store: seq<Trip>, driver: Id, tripId: Id, s: int, e: int) returns (ok: bool)
    ensures ok <==> Evaluate(cal, s, e, Considered(store, driver, tripId)) == Ok
  {
    var trips := Considered(store, driver, tripId);
    var startDay := DayBucket(s);
    var startWeek := WeekBucket(cal, s);
    var daily := e - s;
    var weekly := e - s;
    var isValid := true;
    var i := 0;
    while i < |trips|
      invariant 0 <= i <= |trips|
      invariant isValid
      invariant ScanUpTo(s, e, trips, i) == Ok
      invariant daily == (e - s) + SumUpTo(cal, trips, i, startDay)
      invariant weekly == (e - s) + SumUpTo(cal, trips, i, startWeek)
    {
      var t := trips[i];
      if s < t.arrival && e > t.departure {
        ScanSticks(s, e, trips, i + 1);
        assert Evaluate(cal, s, e, trips) != Ok;
        isValid := false;
        break;
      }
      if s >= t.arrival && s - t.arrival < MinRestMs {
        ScanSticks(s, e, trips, i + 1);
        assert Evaluate(cal, s, e, trips) != Ok;
        isValid := false;
        break;
      }
      if e <= t.departure && t.departure - e < MinRestMs {
        ScanSticks(s, e, trips, i + 1);
        assert Evaluate(cal, s, e, trips) != Ok;
        isValid := false;
        break;
      }
      if DayOf(t.departure) == DayOf(s) {
        daily := daily + Duration(t);
      }
      if cal.weekOf(t.departure) == cal.weekOf(s) && cal.yearOf(t.departure) == cal.yearOf(s) {
        weekly := weekly + Duration(t);
      }
      i := i + 1;
    }
    if isValid {
      assert Evaluate(cal, s, e, trips) == Ok <==> daily <= MaxDailyMs && weekly <= MaxWeeklyMs;
    }
    ok := isValid && daily <= MaxDailyMs && weekly <= MaxWeeklyMs;
  }

  /** The weekly total pairs the week number with the calendar year of the
      departure, not with the year the week belongs to. In UTC, Monday
      2024-01-01 and Monday 2024-12-30 share a weekly total although they are
      52 weeks apart, while 2024-12-30 and Wednesday 2025-01-01, in the same
      Monday-to-Sunday week, do not. */
  lemma WeekBucketAtTurnOfYear(a: int, b: int, c: int)
    requires DayOf(a) == 19723 && DayOf(b) == 20087 && DayOf(c) == 20089
    ensures WeekBucket(Zone(0), a) == WeekBucket(Zone(0), b)
    ensures b - a > 51 * 7 * MsPerDay
    ensures MondayOf(DayOf(b)) == MondayOf(DayOf(c))
    ensures WeekBucket(Zone(0), b) != WeekBucket(Zone(0), c)
  {
    TurnOf2024(a, b, c);
    UtcWeekBucket(a);
    UtcWeekBucket(b);
    UtcWeekBucket(c);
  }

  /** Two five-hour trips departing on the same day make ten hours: over the
      daily limit, whichever calendar the weeks are counted in. */
  lemma TenHoursInOneDayRejected(cal: LocalCalendar)
    ensures Evaluate(cal, 14 * HourMs, 19 * HourMs, [Trip(1, 0, 5 * HourMs, Some(1), Confirmed)]) ==
            DailyExceeded(10 * HourMs)
  {
    var ts := [Trip(1, 0, 5 * HourMs, Some(1), Confirmed)];
    assert ScanUpTo(14 * HourMs, 19 * HourMs, ts, 1) == Ok;
    assert BucketSum(cal, ts, DayBucket(14 * HourMs)) == 5 * HourMs by {
      assert SumUpTo(cal, ts, 1, DayBucket(14 * HourMs)) == 5 * HourMs;
    }
  }

  /** Four hours and five hours on one day, nine hours after the first trip
      ends, make exactly the daily limit, which is allowed. */
  lemma NineHoursInOneDayAccepted(cal: LocalCalendar)
    ensures Evaluate(cal, 13 * HourMs, 18 * HourMs, [Trip(1, 0, 4 * HourMs, Some(1), Confirmed)]) == Ok
  {
    var ts := [Trip(1, 0, 4 * HourMs, Some(1), Confirmed)];
    assert ScanUpTo(13 * HourMs, 18 * HourMs, ts, 1) == Ok;
    assert BucketSum(cal, ts, DayBucket(13 * HourMs)) == 4 * HourMs by {
      assert SumUpTo(cal, ts, 1, DayBucket(13 * HourMs)) == 4 * HourMs;
    }
    assert BucketSum(cal, ts, WeekBucket(cal, 13 * HourMs)) <= 4 * HourMs by {
      assert SumUpTo(cal, ts, 1, WeekBucket(cal, 13 * HourMs)) <= 4 * HourMs;
    }
  }
}
