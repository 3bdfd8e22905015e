/** Time values as the pages use them. An instant is an integer number of
    milliseconds since 1970-01-01T00:00 local time (what `new Date(s)` yields
    for the stored `appointmentDate` strings, and what `new Date()` yields for
    "now"). Calendar arithmetic follows the day-number formulas of
    ECMA-262 section 21.4.1 (Day, DayFromYear, MakeDay, WeekDay), which is
    what `new Date(year, month, day)`, `getDate()` and `getDay()` compute. */
module Dates {

  const MsPerHour: nat := 3_600_000
  const MsPerDay: nat := 86_400_000

  /** The day number of an instant (Euclidean division floors, as ECMA-262's Day does). */
  function DayOf(t: int): (d: int)
    ensures d * MsPerDay <= t < (d + 1) * MsPerDay
  {
    t / MsPerDay
  }

  predicate IsLeapYear(y: int)
  {
    y % 4 == 0 && (y % 100 != 0 || y % 400 == 0)
  }

  function DaysInYear(y: int): (n: nat)
    ensures n == 365 || n == 366
    ensures n == 366 <==> IsLeapYear(y)
  {
    if IsLeapYear(y) then 366 else 365
  }

  /** Day number of January 1st of year `y`. */
  function DayFromYear(y: int): int
  {
    365 * (y - 1970) + (y - 1969) / 4 - (y - 1901) / 100 + (y - 1601) / 400
  }

  lemma DivFourStep(y: int)
    ensures (y - 1968) / 4 - (y - 1969) / 4 == if y % 4 == 0 then 1 else 0
  {
  }

  lemma DivHundredStep(y: int)
    ensures (y - 1900) / 100 - (y - 1901) / 100 == if y % 100 == 0 then 1 else 0
  {
  }

  lemma DivFourHundredStep(y: int)
    ensures (y - 1600) / 400 - (y - 1601) / 400 == if y % 400 == 0 then 1 else 0
  {
  }

  /** A multiple of 400 is a multiple of 100, and one of 100 a multiple of 4. */
  lemma CenturyDivisors(y: int)
    ensures y % 400 == 0 ==> y % 100 == 0
    ensures y % 100 == 0 ==> y % 4 == 0
  {
    var p, q, r := y / 400, y / 100, y / 4;
    assert y == 400 * p + y % 400;
    assert y == 100 * q + y % 100;
    assert y == 4 * r + y % 4;
    if y % 400 == 0 {
      var m := 4 * p - q;
      assert y % 100 == 100 * m;
      assert m == 0;
    }
    if y % 100 == 0 {
      var m := 25 * q - r;
      assert y % 4 == 4 * m;
      assert m == 0;
    }
  }

  /** Consecutive New Year's days are one Gregorian year apart. */
  lemma YearLength(y: int)
    ensures DayFromYear(y + 1) == DayFromYear(y) + DaysInYear(y)
  {
    var four := (y - 1968) / 4 - (y - 1969) / 4;
    var hundred := (y - 1900) / 100 - (y - 1901) / 100;
    var fourHundred := (y - 1600) / 400 - (y - 1601) / 400;
    DivFourStep(y);
    DivHundredStep(y);
    DivFourHundredStep(y);
    assert DayFromYear(y + 1) == DayFromYear(y) + 365 + four - hundred + fourHundred;
    CenturyDivisors(y);
    assert DaysInYear(y) == 365 + four - hundred + fourHundred;
  }

  /** Number of days in month `m` (0 = January, as `getMonth()` counts). */
  function DaysInMonth(y: int, m: int): (n: nat)
    requires 0 <= m < 12
    ensures 28 <= n <= 31
    ensures m == 1 ==> (n == 29 <==> IsLeapYear(y))
    ensures m != 1 ==> n >= 30
  {
    if m == 1 then (if IsLeapYear(y) then 29 else 28)
    else if m == 3 || m == 5 || m == 8 || m == 10 then 30
    else 31
  }

  /** Days of year `y` before the first of month `m`. */
  function MonthStart(y: int, m: int): (n: nat)
    requires 0 <= m <= 12
    decreases m
  {
    if m == 0 then 0 else MonthStart(y, m - 1) + DaysInMonth(y, m - 1)
  }

  /** The twelve months fill the year exactly. */
  lemma MonthsFillYear(y: int)
    ensures MonthStart(y, 12) == DaysInYear(y)
  {
    var feb := DaysInMonth(y, 1);
    assert MonthStart(y, 2) == 31 + feb;
    assert MonthStart(y, 4) == 92 + feb;
    assert MonthStart(y, 6) == 153 + feb;
    assert MonthStart(y, 8) == 215 + feb;
    assert MonthStart(y, 10) == 276 + feb;
    assert MonthStart(y, 12) == 337 + feb;
  }

  /** ECMA-262 MakeDay: the day number of `new Date(year, month, date)`,
      with an out-of-range month carried into the year and an out-of-range
      date (such as 0) carried into the neighbouring month. */
  function MakeDay(year: int, month: int, date: int): int
  {
    var ym := year + month / 12;
    var mn := month % 12;
    DayFromYear(ym) + MonthStart(ym, mn) + date - 1
  }

  /** For an in-range month MakeDay needs no carrying. */
  lemma MakeDayInYear(y: int, m: int, d: int)
    requires 0 <= m < 12
    ensures MakeDay(y, m, d) == DayFromYear(y) + MonthStart(y, m) + d - 1
  {
    assert m / 12 == 0 && m % 12 == m;
  }

  /** A month out of range names the same day as its carried-over form. */
  lemma MakeDayNormal(y: int, m: int, d: int)
    ensures MakeDay(y, m, d) == MakeDay(y + m / 12, m % 12, d)
  {
    MakeDayInYear(y + m / 12, m % 12, d);
  }

  /** Month 12 of a year is January of the next. */
  lemma MakeDayCarry(y: int, d: int)
    ensures MakeDay(y, 12, d) == DayFromYear(y + 1) + d - 1
  {
    assert 12 / 12 == 1 && 12 % 12 == 0;
  }

  /** "Day 0 of the next month" is the last day of this month: the source's
      `new Date(year, month + 1, 0).getDate()` is `DaysInMonth(year, month)`. */
  lemma DayZeroOfNextMonth(y: int, m: int)
    requires 0 <= m < 12
    ensures MakeDay(y, m + 1, 0) == MakeDay(y, m, DaysInMonth(y, m))
  {
    MakeDayInYear(y, m, DaysInMonth(y, m));
    if m == 11 {
      MakeDayCarry(y, 0);
      YearLength(y);
      MonthsFillYear(y);
    } else {
      MakeDayInYear(y, m + 1, 0);
    }
  }

  /** Consecutive dates are consecutive days, whatever the month. */
  lemma MakeDayStep(y: int, m: int, d: int)
    ensures MakeDay(y, m, d + 1) == MakeDay(y, m, d) + 1
  {
  }

  /** Distinct valid dates of one month fall on distinct days. */
  lemma MakeDayInjectiveInMonth(y: int, m: int, d1: int, d2: int)
    requires 0 <= m < 12
    requires MakeDay(y, m, d1) == MakeDay(y, m, d2)
    ensures d1 == d2
  {
  }

  /** ECMA-262 WeekDay: 0 = Sunday; day 0 (1970-01-01) was a Thursday. */
  function WeekDay(day: int): (w: nat)
    ensures w < 7
    ensures (day - w + 4) % 7 == 0
  {
    (day + 4) % 7
  }

  /** The instant of `year-month-date hour:minute` local time. */
  function MakeInstant(year: int, month: int, date: int, hour: int, minute: int): int
  {
    MakeDay(year, month, date) * MsPerDay + hour * MsPerHour + minute * 60_000
  }

  /** A time of day keeps the instant on the date it names. */
  lemma MakeInstantDay(year: int, month: int, date: int, hour: int, minute: int)
    requires 0 <= hour < 24 && 0 <= minute < 60
    ensures DayOf(MakeInstant(year, month, date, hour, minute)) == MakeDay(year, month, date)
  {
    var d := MakeDay(year, month, date);
    var t := MakeInstant(year, month, date, hour, minute);
    assert d * MsPerDay <= t < (d + 1) * MsPerDay;
  }
}
