/** Day numbers, weekdays, calendar years and the ISO-8601 week number that the
    driving-time rules bucket trips by. Times are integer milliseconds since
    1970-01-01T00:00Z, and every conversion is done in UTC. */
module Calendar {

  const MsPerDay: int := 86400000

  /** Days since 1970-01-01 of the instant `ms` (the date part of its ISO string). */
  function DayOf(ms: int): int
  {
    ms / MsPerDay
  }

  /** getDay(): 0 = Sunday .. 6 = Saturday; day 0 (1970-01-01) was a Thursday. */
  function Weekday(day: int): (w: int)
    ensures 0 <= w < 7
  {
    (day + 4) % 7
  }

  /** The Monday that starts the Monday-to-Sunday week holding `day`. */
  function MondayOf(day: int): int
  {
    day - (Weekday(day) + 6) % 7
  }

  /** MondayOf is a Monday, and the week it starts holds `day`. */
  lemma MondayOfFacts(day: int)
    ensures MondayOf(day) <= day < MondayOf(day) + 7
    ensures Weekday(MondayOf(day)) == 1
  {
    assert (day + 4) % 7 == Weekday(day);
  }

  /** Day number of January 1 of year `y` (proleptic Gregorian calendar). */
  function YearStart(y: int): int
  {
    365 * (y - 1970) + (y - 1) / 4 - (y - 1) / 100 + (y - 1) / 400 - 477
  }

  /** A year start stays within two days of 365.2425 days per year since 1970. */
  lemma YearStartBounds(y: int)
    ensures 146097 * (y - 1970) - 607 < 400 * YearStart(y) < 146097 * (y - 1970) + 593
  {
    var a := y - 1;
    assert 100 * a - 400 < 400 * (a / 4) <= 100 * a;
    assert -4 * a <= -400 * (a / 100) < -4 * a + 400;
    assert a - 400 < 400 * (a / 400) <= a;
  }

  /** Every calendar year has 365 or 366 days. */
  lemma {:induction false} YearLength(y: int)
    ensures YearStart(y + 1) - YearStart(y) == 365 || YearStart(y + 1) - YearStart(y) == 366
  {
    var a := y - 1;
    var d4 := y / 4 - a / 4;
    var d100 := y / 100 - a / 100;
    var d400 := y / 400 - a / 400;
    assert d4 == (if y % 4 == 0 then 1 else 0);
    assert d100 == (if y % 100 == 0 then 1 else 0);
    assert d400 == (if y % 400 == 0 then 1 else 0);
    assert y % 100 == 0 ==> y % 4 == 0;
    assert y % 400 == 0 ==> y % 100 == 0;
  }

  /** Later years start later. */
  lemma YearStartMonotone(y1: int, y2: int)
    requires y1 < y2
    ensures YearStart(y1) < YearStart(y2)
  {
    YearStartBounds(y1);
    YearStartBounds(y2);
  }

  /** The calendar year (getFullYear) that day number `z` falls in. */
  function YearOf(z: int): int
  {
    var g := 1970 + (400 * z) / 146097;
    if z < YearStart(g) then g - 1
    else if z < YearStart(g + 1) then g
    else g + 1
  }

  /** YearOf finds the year whose days include `z`. */
  lemma YearOfBounds(z: int)
    ensures YearStart(YearOf(z)) <= z < YearStart(YearOf(z) + 1)
  {
    var g := 1970 + (400 * z) / 146097;
    YearStartBounds(g - 1);
    YearStartBounds(g + 2);
    YearStartMonotone(g - 1, g);
    YearStartMonotone(g + 1, g + 2);
  }

  /** Years do not overlap: a day lies in one year only. */
  lemma YearsDisjoint(z: int, x: int, y: int)
    requires YearStart(x) <= z < YearStart(x + 1)
    requires YearStart(y) <= z < YearStart(y + 1)
    ensures x == y
  {
    if x + 1 < y { YearStartMonotone(x + 1, y); }
    if y + 1 < x { YearStartMonotone(y + 1, x); }
  }

  /** So YearOf is the only answer. */
  lemma YearOfUnique(z: int, y: int)
    requires YearStart(y) <= z < YearStart(y + 1)
    ensures YearOf(z) == y
  {
    YearOfBounds(z);
    YearsDisjoint(z, YearOf(z), y);
  }

  /** getFullYear() of the instant `ms`. */
  function CalendarYear(ms: int): int
  {
    YearOf(DayOf(ms))
  }

  /** Math.round(num / 7): floor(num / 7 + 1/2). */
  function RoundSevenths(num: int): (r: int)
    ensures 14 * r <= 2 * num + 7 < 14 * (r + 1)
  {
    (2 * num + 7) / 14
  }

  /** The Thursday of the ISO week holding `day` (getWeek's shifted date). */
  function ThursdayOf(day: int): int
  {
    day + 3 - (Weekday(day) + 6) % 7
  }

  /** January 4 of the year the Thursday of `day`'s week falls in. */
  function WeekOneAnchor(day: int): int
  {
    YearStart(YearOf(ThursdayOf(day))) + 3
  }

  /** getWeek: the ISO-8601 week number of the instant `ms`. The date is moved
      to the Thursday of its week, and weeks are counted from January 4 of that
      Thursday's year. */
  function IsoWeek(ms: int): int
  {
    WeekOfThursday(ThursdayOf(DayOf(ms)))
  }

  /** getWeek's arithmetic once the date has been moved to Thursday `date`. */
  function WeekOfThursday(date: int): int
  {
    var week1 := YearStart(YearOf(date)) + 3;
    1 + RoundSevenths(date - week1 - 3 + (Weekday(week1) + 6) % 7)
  }

  /** Two Mondays are a whole number of weeks apart. */
  lemma MondaysWeeksApart(m1: int, m2: int)
    requires Weekday(m1) == 1 && Weekday(m2) == 1
    ensures (m1 - m2) % 7 == 0
  {
    assert (m1 + 4) % 7 == 1 && (m2 + 4) % 7 == 1;
    assert m1 % 7 == 4 && m2 % 7 == 4;
  }

  /** The rounding in getWeek is exact: the week number counts whole weeks from
      the Monday of the week that holds January 4. */
  lemma IsoWeekExact(ms: int)
    ensures (MondayOf(DayOf(ms)) - MondayOf(WeekOneAnchor(DayOf(ms)))) % 7 == 0
    ensures IsoWeek(ms) == 1 + (MondayOf(DayOf(ms)) - MondayOf(WeekOneAnchor(DayOf(ms)))) / 7
  {
    var day := DayOf(ms);
    var jan4 := WeekOneAnchor(day);
    assert IsoWeek(ms) == 1 + RoundSevenths(ThursdayOf(day) - jan4 - 3 + (Weekday(jan4) + 6) % 7);
    var x := ThursdayOf(day) - jan4 - 3 + (Weekday(jan4) + 6) % 7;
    assert x == MondayOf(day) - MondayOf(jan4);
    MondayOfFacts(day);
    MondayOfFacts(jan4);
    MondaysWeeksApart(MondayOf(day), MondayOf(jan4));
    assert x == 7 * (x / 7);
    assert RoundSevenths(x) == x / 7;
  }

  /** ISO week numbers run from 1 to 53. */
  lemma IsoWeekRange(ms: int)
    ensures 1 <= IsoWeek(ms) <= 53
  {
    var day := DayOf(ms);
    var t := ThursdayOf(day);
    var y := YearOf(t);
    YearLength(y);
    YearOfBounds(t);
    MondayOfFacts(WeekOneAnchor(day));
    IsoWeekExact(ms);
    var x := MondayOf(day) - MondayOf(WeekOneAnchor(day));
    assert -6 <= x <= 365;
    assert x % 7 == 0;
  }

  /** Every day of one Monday-to-Sunday week gets the same week number. */
  lemma IsoWeekConstantOnWeek(a: int, b: int)
    requires MondayOf(DayOf(a)) == MondayOf(DayOf(b))
    ensures IsoWeek(a) == IsoWeek(b)
  {
    assert ThursdayOf(DayOf(a)) == ThursdayOf(DayOf(b));
  }

  /** January 4 always lies in week 1 (the anchor of the Thursday rule). */
  lemma Jan4InWeekOne(y: int, ms: int)
    requires DayOf(ms) == YearStart(y) + 3
    ensures IsoWeek(ms) == 1
  {
    var day := DayOf(ms);
    var t := ThursdayOf(day);
    YearLength(y);
    assert YearStart(y) <= t < YearStart(y + 1);
    YearOfUnique(t, y);
    IsoWeekExact(ms);
  }

  /** The week number, once the year of the week's Thursday is known. */
  lemma IsoWeekInYear(ms: int, y: int)
    requires YearStart(y) <= ThursdayOf(DayOf(ms)) < YearStart(y + 1)
    ensures IsoWeek(ms) == 1 + (MondayOf(DayOf(ms)) - MondayOf(YearStart(y) + 3)) / 7
  {
    YearOfUnique(ThursdayOf(DayOf(ms)), y);
    IsoWeekExact(ms);
  }

  lemma YearStarts2020To2022()
    ensures YearStart(2020) == 18262 && YearStart(2021) == 18628 && YearStart(2022) == 18993
  {
  }

  /** getWeek of the Thursday 2020-12-31. */
  lemma WeekOfLastThursdayOf2020()
    ensures WeekOfThursday(18627) == 53
  {
    YearStarts2020To2022();
    YearOfUnique(18627, 2020);
  }

  /** getWeek of the Thursday 2021-12-30. */
  lemma WeekOfLastThursdayOf2021()
    ensures WeekOfThursday(18991) == 52
  {
    YearStarts2020To2022();
    YearOfUnique(18991, 2021);
  }

  /** Every instant of 2021-01-01, a Friday, is in week 53 (of ISO year 2020). */
  lemma FirstOf2021IsWeek53(ms: int)
    requires DayOf(ms) == 18628
    ensures Weekday(DayOf(ms)) == 5
    ensures IsoWeek(ms) == 53
  {
    assert ThursdayOf(DayOf(ms)) == 18627;
    WeekOfLastThursdayOf2020();
  }

  /** Every instant of 2022-01-01, a Saturday, is in week 52 (of ISO year 2021). */
  lemma FirstOf2022IsWeek52(ms: int)
    requires DayOf(ms) == 18993
    ensures Weekday(DayOf(ms)) == 6
    ensures IsoWeek(ms) == 52
  {
    assert ThursdayOf(DayOf(ms)) == 18991;
    WeekOfLastThursdayOf2021();
  }

  lemma YearStarts2024To2026()
    ensures YearStart(2024) == 19723 && YearStart(2025) == 20089 && YearStart(2026) == 20454
  {
  }

  /** getWeek of the Thursday 2024-01-04. */
  lemma WeekOfFirstThursdayOf2024()
    ensures WeekOfThursday(19726) == 1
  {
    YearStarts2024To2026();
    YearOfUnique(19726, 2024);
  }

  /** getWeek of the Thursday 2025-01-02. */
  lemma WeekOfFirstThursdayOf2025()
    ensures WeekOfThursday(20090) == 1
  {
    YearStarts2024To2026();
    YearOfUnique(20090, 2025);
  }

  /** Monday 2024-01-01 (day `a`) and Monday 2024-12-30 (day `b`) are both in a
      week 1, of 2024 and of 2025, and both in calendar year 2024; Wednesday
      2025-01-01 (day `c`) is in the week of `b` but in calendar year 2025. */
  lemma TurnOf2024(a: int, b: int, c: int)
    requires DayOf(a) == 19723 && DayOf(b) == 20087 && DayOf(c) == 20089
    ensures IsoWeek(a) == 1 && IsoWeek(b) == 1 && IsoWeek(c) == 1
    ensures CalendarYear(a) == 2024 && CalendarYear(b) == 2024 && CalendarYear(c) == 2025
    ensures MondayOf(DayOf(b)) == MondayOf(DayOf(c))
  {
    assert ThursdayOf(DayOf(a)) == 19726;
    assert ThursdayOf(DayOf(b)) == 20090 && ThursdayOf(DayOf(c)) == 20090;
    WeekOfFirstThursdayOf2024();
    WeekOfFirstThursdayOf2025();
    YearStarts2024To2026();
    YearOfUnique(19723, 2024);
    YearOfUnique(20087, 2024);
    YearOfUnique(20089, 2025);
  }
}
