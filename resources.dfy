/** The booking page's search for a free bus and a free driver among the fleet,
    the staff and the trips kept in the browser. */
module Resources {
  import opened Opt
  import opened Intervals
  import opened Sorting

  /** A fleet entry; a missing seat count is 0. */
  datatype Bus = Bus(id: string, plate: string, seats: int)

  /** A stored trip: which bus and driver it uses, and when. */
  datatype Booking = Booking(busPlate: string, driverId: string, start: int, end: int)

  /** A staff entry; a missing role is the empty string. */
  datatype Employee = Employee(id: string, role: string)

  /** Some stored trip of the bus with that plate overlaps [s, e). */
  predicate BusUsed(trips: seq<Booking>, plate: string, s: int, e: int)
  {
    exists i :: 0 <= i < |trips| && trips[i].busPlate == plate && Overlaps(trips[i].start, trips[i].end, s, e)
  }

  /** The sort key of the fleet search: the seat count, a missing one counting as 999. */
  function SeatKey(b: Bus): int
  {
    if b.seats == 0 then 999 else b.seats
  }

  /** The buses with at least `needed` seats, in fleet order. */
  function LargeEnough(buses: seq<Bus>, needed: int): (r: seq<Bus>)
    ensures forall b :: b in r <==> b in buses && b.seats >= needed
  {
    if buses == [] then []
    else (if buses[0].seats >= needed then [buses[0]] else []) + LargeEnough(buses[1..], needed)
  }

  /** The order findAvailableBus tries the buses in. */
  function BusCandidates(buses: seq<Bus>, needed: int): (r: seq<Bus>)
    ensures SortedBy(r, SeatKey)
    ensures forall b :: b in r <==> b in buses && b.seats >= needed
  {
    var r := SortBy(LargeEnough(buses, needed), SeatKey);
    assert forall b :: b in r <==> b in LargeEnough(buses, needed) by {
      forall b {
        SortByMembers(LargeEnough(buses, needed), SeatKey, b);
      }
    }
    r
  }

  /** The first free candidate has the fewest seats among the free candidates. */
  lemma FirstFreeBusIsSmallest(buses: seq<Bus>, trips: seq<Booking>, needed: int, s: int, e: int, i: nat)
    requires i < |BusCandidates(buses, needed)|
    requires forall j :: 0 <= j < i ==> BusUsed(trips, BusCandidates(buses, needed)[j].plate, s, e)
    ensures forall b :: b in buses && b.seats >= needed && !BusUsed(trips, b.plate, s, e) ==>
                        SeatKey(BusCandidates(buses, needed)[i]) <= SeatKey(b)
  {
    var cands := BusCandidates(buses, needed);
    forall b | b in buses && b.seats >= needed && !BusUsed(trips, b.plate, s, e)
      ensures SeatKey(cands[i]) <= SeatKey(b)
    {
      var j :| 0 <= j < |cands| && cands[j] == b;
      assert i <= j;
    }
  }

  /** When every candidate is in use, so is every bus with enough seats. */
  lemma AllBusesUsed(buses: seq<Bus>, trips: seq<Booking>, needed: int, s: int, e: int)
    requires forall j :: 0 <= j < |BusCandidates(buses, needed)| ==> BusUsed(trips, BusCandidates(buses, needed)[j].plate, s, e)
    ensures forall b :: b in buses && b.seats >= needed ==> BusUsed(trips, b.plate, s, e)
  {
    var cands := BusCandidates(buses, needed);
    forall b | b in buses && b.seats >= needed
      ensures BusUsed(trips, b.plate, s, e)
    {
      var j :| 0 <= j < |cands| && cands[j] == b;
    }
  }

  /** findAvailableBus: among the buses with enough seats, by increasing seat
      count, the first one that no stored trip uses during [s, e). */
  method FindAvailableBus(buses: seq<Bus>, trips: seq<Booking>, needed: int, s: int, e: int) returns (r: Option<Bus>)
    ensures r.Some? ==> r.value in buses && r.value.seats >= needed && !BusUsed(trips, r.value.plate, s, e)
    ensures r.Some? ==> forall b :: b in buses && b.seats >= needed && !BusUsed(trips, b.plate, s, e) ==>
                                     SeatKey(r.value) <= SeatKey(b)
    ensures r.None? <==> forall b :: b in buses && b.seats >= needed ==> BusUsed(trips, b.plate, s, e)
  {
    var cands := BusCandidates(buses, needed);
    for i := 0 to |cands|
      invariant forall j :: 0 <= j < i ==> BusUsed(trips, cands[j].plate, s, e)
    {
      if !BusUsed(trips, cands[i].plate, s, e) {
        FirstFreeBusIsSmallest(buses, trips, needed, s, e, i);
        assert cands[i] in cands;
        return Some(cands[i]);
      }
    }
    AllBusesUsed(buses, trips, needed, s, e);
    return None;
  }

  /** toLowerCase on the ASCII letters. */
  function Lower(c: char): char
  {
    if 'A' <= c <= 'Z' then (c as int + 32) as char else c
  }

  function LowerString(s: string): (r: string)
    ensures |r| == |s|
    ensures forall i :: 0 <= i < |s| ==> r[i] == Lower(s[i])
  {
    if s == [] then [] else [Lower(s[0])] + LowerString(s[1..])
  }

  /** The role is 'driver' in any letter case. */
  predicate IsDriverRole(role: string)
  {
    LowerString(role) == "driver"
  }

  /** Roles match whatever their letter case; others do not. */
  lemma DriverRoleSpellings()
    ensures IsDriverRole("Driver") && IsDriverRole("DRIVER")
    ensures !IsDriverRole("conductor") && !IsDriverRole("")
  {
    LowersToDriver("Driver");
    LowersToDriver("DRIVER");
  }

  lemma LowersToDriver(s: string)
    requires |s| == 6 && Lower(s[0]) == 'd' && Lower(s[1]) == 'r' && Lower(s[2]) == 'i'
    requires Lower(s[3]) == 'v' && Lower(s[4]) == 'e' && Lower(s[5]) == 'r'
    ensures IsDriverRole(s)
  {
    var r := LowerString(s);
    assert forall i :: 0 <= i < 6 ==> r[i] == "driver"[i];
  }

  /** A driver who may be proposed: the role matches and it is not the excluded id. */
  predicate Selectable(emp: Employee, exclude: Option<string>)
  {
    IsDriverRole(emp.role) && (exclude.None? || emp.id != exclude.value)
  }

  /** Some stored trip of that driver overlaps [s, e). */
  predicate DriverBusy(trips: seq<Booking>, id: string, s: int, e: int)
  {
    exists i :: 0 <= i < |trips| && trips[i].driverId == id && Overlaps(trips[i].start, trips[i].end, s, e)
  }

  /** The staff filter of findAvailableDriver, in staff order. */
  function DriverPool(emps: seq<Employee>, exclude: Option<string>): (r: seq<Employee>)
    ensures forall x :: x in r <==> x in emps && Selectable(x, exclude)
  {
    if emps == [] then []
    else (if Selectable(emps[0], exclude) then [emps[0]] else []) + DriverPool(emps[1..], exclude)
  }

  /** The first of `pool` who is free during [s, e). */
  function FirstFree(pool: seq<Employee>, trips: seq<Booking>, s: int, e: int): (r: Option<Employee>)
    ensures r.Some? ==> r.value in pool && !DriverBusy(trips, r.value.id, s, e)
  {
    if pool == [] then None
    else if !DriverBusy(trips, pool[0].id, s, e) then Some(pool[0])
    else FirstFree(pool[1..], trips, s, e)
  }

  /** A reference reading of the search over the whole staff list: the first
      selectable employee who is free. */
  function FirstFreeDriver(emps: seq<Employee>, trips: seq<Booking>, s: int, e: int, exclude: Option<string>): Option<Employee>
  {
    if emps == [] then None
    else if Selectable(emps[0], exclude) && !DriverBusy(trips, emps[0].id, s, e) then Some(emps[0])
    else FirstFreeDriver(emps[1..], trips, s, e, exclude)
  }

  /** Filtering first and then searching finds the same driver. */
  lemma {:induction false} PoolSearch(emps: seq<Employee>, trips: seq<Booking>, s: int, e: int, exclude: Option<string>)
    ensures FirstFree(DriverPool(emps, exclude), trips, s, e) == FirstFreeDriver(emps, trips, s, e, exclude)
  {
    if emps != [] {
      PoolSearch(emps[1..], trips, s, e, exclude);
      var rest := DriverPool(emps[1..], exclude);
      if Selectable(emps[0], exclude) {
        assert ([emps[0]] + rest)[1..] == rest;
      } else {
        assert [] + rest == rest;
      }
    }
  }

  /** The reference search: nobody when every selectable employee is busy, and
      otherwise the earliest selectable employee who is free. */
  lemma {:induction false} FirstFreeDriverIsFirst(emps: seq<Employee>, trips: seq<Booking>, s: int, e: int, exclude: Option<string>)
    ensures FirstFreeDriver(emps, trips, s, e, exclude).None? <==>
            forall j :: 0 <= j < |emps| && Selectable(emps[j], exclude) ==> DriverBusy(trips, emps[j].id, s, e)
    ensures FirstFreeDriver(emps, trips, s, e, exclude).Some? ==>
            exists k :: 0 <= k < |emps| && emps[k] == FirstFreeDriver(emps, trips, s, e, exclude).value &&
                        Selectable(emps[k], exclude) && !DriverBusy(trips, emps[k].id, s, e) &&
                        forall j :: 0 <= j < k && Selectable(emps[j], exclude) ==> DriverBusy(trips, emps[j].id, s, e)
  {
    if emps != [] && !(Selectable(emps[0], exclude) && !DriverBusy(trips, emps[0].id, s, e)) {
      var tail := emps[1..];
      FirstFreeDriverIsFirst(tail, trips, s, e, exclude);
      assert forall j :: 0 < j < |emps| ==> emps[j] == tail[j - 1];
      var r := FirstFreeDriver(tail, trips, s, e, exclude);
      if r.Some? {
        var k :| 0 <= k < |tail| && tail[k] == r.value && Selectable(tail[k], exclude) &&
                 !DriverBusy(trips, tail[k].id, s, e) &&
                 forall j :: 0 <= j < k && Selectable(tail[j], exclude) ==> DriverBusy(trips, tail[j].id, s, e);
        assert emps[k + 1] == r.value;
      }
    }
  }

  /** findAvailableDriver: the first employee with the driver role, other than
      the excluded one, whom no stored trip occupies during [s, e). */
  method FindAvailableDriver(emps: seq<Employee>, trips: seq<Booking>, s: int, e: int, exclude: Option<string>)
      returns (r: Option<Employee>)
    ensures r == FirstFreeDriver(emps, trips, s, e, exclude)
  {
    var pool := DriverPool(emps, exclude);
    PoolSearch(emps, trips, s, e, exclude);
    for i := 0 to |pool|
      invariant FirstFree(pool, trips, s, e) == FirstFree(pool[i..], trips, s, e)
    {
      assert pool[i..][1..] == pool[i + 1..];
      if !DriverBusy(trips, pool[i].id, s, e) {
        return Some(pool[i]);
      }
    }
    return None;
  }
}
