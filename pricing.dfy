/** The booking page's arithmetic: the break rule and the round-trip pre-check
    for the driving-time regulation, the day count derived from the chosen
    dates, and the price with its two surcharges. Hours and euros are exact
    reals. */
module Pricing {
  import opened Opt
  import Calendar

  const SecondDriverDailyCost: real := 180.0
  const OvernightCostPerDriver: real := 120.0
  const DefaultAvgSpeedKmh: real := 70.0
  const MaxDailyDrivingH: real := 9.0
  /** A break is due after every complete 4.5 hours of driving ... */
  const BreakAfterH: real := 4.5
  /** ... and lasts 45 minutes. */
  const BreakH: real := 0.75
  const MsPerHour: real := 3600000.0

  /** requiredBreaksHours: 45 minutes for every complete 4.5-hour block. */
  function RequiredBreaksHours(driveHours: real): (r: real)
    ensures (r / BreakH).Floor as real == r / BreakH
    ensures BreakAfterH * (r / BreakH) <= driveHours < BreakAfterH * (r / BreakH + 1.0)
  {
    (driveHours / BreakAfterH).Floor as real * BreakH
  }

  /** More driving never needs fewer breaks. */
  lemma RequiredBreaksMonotone(a: real, b: real)
    requires a <= b
    ensures RequiredBreaksHours(a) <= RequiredBreaksHours(b)
  {
    var na := RequiredBreaksHours(a) / BreakH;
    var nb := RequiredBreaksHours(b) / BreakH;
    assert BreakAfterH * na <= a <= b < BreakAfterH * (nb + 1.0);
    assert na.Floor < nb.Floor + 1;
  }

  /** One-way driving hours: the routing service's duration, or, when it gave
      none, the distance at the default average speed. */
  function OneWayHours(routeSeconds: real, km: real): real
  {
    if routeSeconds != 0.0 then routeSeconds / 3600.0 else km / DefaultAvgSpeedKmh
  }

  /** The hours between departure and arrival, never negative. */
  function WindowHours(departure: int, arrival: int): (w: real)
    ensures w >= 0.0
    ensures departure <= arrival ==> w * MsPerHour == (arrival - departure) as real
    ensures arrival <= departure ==> w == 0.0
  {
    var h := (arrival - departure) as real / MsPerHour;
    if h > 0.0 then h else 0.0
  }

  /** The client-side pre-check: the round trip, at twice the one-way time,
      must keep within a day's driving and, with its breaks, fit between the
      chosen departure and arrival. No usable dates means no objection. */
  predicate RoundTripFits(oneWay: real, departure: Option<int>, arrival: Option<int>)
  {
    if departure.None? || arrival.None? then true
    else
      var drive := 2.0 * oneWay;
      var needed := drive + RequiredBreaksHours(drive);
      !(drive > MaxDailyDrivingH) && !(needed > WindowHours(departure.value, arrival.value))
  }

  /** Without both dates the pre-check never objects. */
  lemma FitsWithoutDates(oneWay: real, departure: Option<int>, arrival: Option<int>)
    requires departure.None? || arrival.None?
    ensures RoundTripFits(oneWay, departure, arrival)
  {
  }

  /** A trip that passes drives at most 4.5 hours each way, and its round-trip
      driving alone fits into the window. */
  lemma FitsBounds(oneWay: real, s: int, l: int)
    requires oneWay >= 0.0
    requires RoundTripFits(oneWay, Some(s), Some(l))
    ensures oneWay <= BreakAfterH
    ensures 2.0 * oneWay <= WindowHours(s, l)
  {
    var drive := 2.0 * oneWay;
    var nb := RequiredBreaksHours(drive) / BreakH;
    assert nb >= 0.0 by {
      assert BreakAfterH * (nb + 1.0) > 0.0;
    }
  }

  /** Moving the arrival later never turns an accepted trip down. */
  lemma LaterArrivalStillFits(oneWay: real, s: int, l: int, l2: int)
    requires l <= l2
    requires RoundTripFits(oneWay, Some(s), Some(l))
    ensures RoundTripFits(oneWay, Some(s), Some(l2))
  {
  }

  /** A shorter route never turns an accepted trip down. */
  lemma ShorterRouteStillFits(oneWay: real, shorter: real, s: int, l: int)
    requires shorter <= oneWay
    requires RoundTripFits(oneWay, Some(s), Some(l))
    ensures RoundTripFits(shorter, Some(s), Some(l))
  {
    RequiredBreaksMonotone(2.0 * shorter, 2.0 * oneWay);
  }

  /** Six hours each way is twelve hours at the wheel: turned down whatever the dates. */
  lemma SixHoursEachWayNeverFits(s: int, l: int)
    ensures !RoundTripFits(6.0, Some(s), Some(l))
  {
  }

  /** Four hours each way needs 8 hours of driving and one 45-minute break:
      an 8h45 window is enough and one millisecond less is not. */
  lemma FourHoursEachWayNeedsEightFortyFive(s: int)
    ensures RoundTripFits(4.0, Some(s), Some(s + 31500000))
    ensures !RoundTripFits(4.0, Some(s), Some(s + 31499999))
  {
    assert RequiredBreaksHours(8.0) == 0.75 by {
      assert (8.0 / BreakAfterH).Floor == 1;
    }
  }

  /** updateDiasAuto: whole days between the dates, rounded up, at least one. */
  function DaysBetween(departure: int, arrival: int): (n: int)
    ensures n >= 1
    ensures arrival - departure <= n * Calendar.MsPerDay
    ensures n > 1 ==> (n - 1) * Calendar.MsPerDay < arrival - departure
  {
    var diff := if arrival - departure > 0 then arrival - departure else 0;
    var days := (diff + Calendar.MsPerDay - 1) / Calendar.MsPerDay;
    if days > 1 then days else 1
  }

  /** What calcularCoste returns. */
  datatype Quote = Quote(total: real, advance: real, remainder: real, nights: int, drivers: int)

  /** Nights away: one fewer than the days, never negative. */
  function Nights(days: int): (n: int)
    ensures n >= 0
    ensures days >= 1 ==> n == days - 1
    ensures days <= 1 ==> n == 0
  {
    if days - 1 > 0 then days - 1 else 0
  }

  /** calcularCoste: 2 euros a kilometre, 1.20 a seat, 50 a day beyond the
      first, plus 180 a day for a second driver and 120 a night per driver for
      staying away; a fifth of the total is paid in advance. */
  function Cost(km: real, seats: int, days: int, secondDriver: bool, overnight: bool): (q: Quote)
    ensures q.advance + q.remainder == q.total
    ensures 5.0 * q.advance == q.total
    ensures q.drivers == 2 <==> secondDriver
    ensures q.nights == Nights(days)
  {
    var perKm := km * 2.0;
    var perSeat := seats as real * 1.2;
    var perExtraDay := Nights(days) as real * 50.0;
    var drivers := if secondDriver then 2 else 1;
    var secondDriverCost := if secondDriver then SecondDriverDailyCost * days as real else 0.0;
    var nights := Nights(days);
    var overnightCost := if overnight then OvernightCostPerDriver * drivers as real * nights as real else 0.0;
    var total := perKm + perSeat + perExtraDay + secondDriverCost + overnightCost;
    var advance := total * 0.20;
    Quote(total, advance, total - advance, nights, drivers)
  }

  /** With neither extra the price is distance, seats and extra days only. */
  lemma BaseFare(km: real, seats: int, days: int)
    ensures Cost(km, seats, days, false, false).total == 2.0 * km + 1.2 * seats as real + 50.0 * Nights(days) as real
  {
  }

  /** A second driver adds 180 euros for every day, with or without an overnight
      stay being booked as well (the stay itself then costs twice as much). */
  lemma SecondDriverSurcharge(km: real, seats: int, days: int)
    ensures Cost(km, seats, days, true, false).total - Cost(km, seats, days, false, false).total ==
            SecondDriverDailyCost * days as real
    ensures Cost(km, seats, days, true, true).total - Cost(km, seats, days, false, true).total ==
            SecondDriverDailyCost * days as real + OvernightCostPerDriver * Nights(days) as real
  {
  }

  /** Staying away costs 120 euros a night for each driver. */
  lemma OvernightSurcharge(km: real, seats: int, days: int, secondDriver: bool)
    ensures Cost(km, seats, days, secondDriver, true).total - Cost(km, seats, days, secondDriver, false).total ==
            OvernightCostPerDriver * (if secondDriver then 2.0 else 1.0) * Nights(days) as real
  {
  }

  /** On a one-day trip choosing the overnight stay changes nothing in the price. */
  lemma OvernightFreeOnOneDay(km: real, seats: int, days: int, secondDriver: bool)
    requires days <= 1
    ensures Cost(km, seats, days, secondDriver, true) == Cost(km, seats, days, secondDriver, false)
  {
  }

  /** The extras never lower the price. */
  lemma ExtrasNeverLower(km: real, seats: int, days: int, secondDriver: bool, overnight: bool)
    requires days >= 0
    ensures Cost(km, seats, days, secondDriver, overnight).total >= Cost(km, seats, days, false, false).total
  {
  }
}
