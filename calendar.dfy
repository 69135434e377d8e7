/**
 * UTC calendar arithmetic on time values, following the definitions that
 * ECMA-262 gives for Date (section 21.4.1, "Overview of Date Objects and
 * Definitions of Abstract Operations"):
 * Day(t), DayFromYear(y), YearFromTime(t), InLeapYear, MonthFromTime,
 * DateFromTime and MakeDay. This is what `getUTCFullYear`, `getUTCMonth`
 * and `getUTCDate` compute, and what `Date.parse` inverts.
 */
module Calendar {

  /** msPerDay, one of ECMA-262's "Time-related Constants". */
  const MsPerDay: int := 86400000

  /** The largest magnitude a Date's time value may have (ECMA-262 section 21.4.1.1, "Time Values and Time Range"). */
  const MaxTimeValue: int := 8640000000000000

  /** A time value that `new Date(t)` keeps; outside this range TimeClip yields NaN. */
  predicate InTimeRange(t: int) {
    -MaxTimeValue <= t <= MaxTimeValue
  }

  /** Day(t) = floor(t / msPerDay); Dafny's `/` floors when the divisor is positive. */
  function DayFromTime(t: int): (d: int)
    ensures d * MsPerDay <= t < (d + 1) * MsPerDay
  {
    t / MsPerDay
  }

  /** The day number of the first day of year y. */
  function DayFromYear(y: int): int {
    365 * (y - 1970) + (y - 1969) / 4 - (y - 1901) / 100 + (y - 1601) / 400
  }

  predicate IsLeapYear(y: int) {
    y % 4 == 0 && (y % 100 != 0 || y % 400 == 0)
  }

  function DaysInYear(y: int): int {
    if IsLeapYear(y) then 366 else 365
  }

  /** Consecutive years are DaysInYear apart. */
  lemma DayFromYearStep(y: int)
    ensures DayFromYear(y + 1) == DayFromYear(y) + DaysInYear(y)
  {
    CountStep4(y);
    CountStep100(y);
    CountStep400(y);
    DivisorChain(y);
  }

  /** A multiple of 400 is a multiple of 100, and a multiple of 100 is a multiple of 4. */
  lemma DivisorChain(y: int)
    ensures y % 400 == 0 ==> y % 100 == 0
    ensures y % 100 == 0 ==> y % 4 == 0
  {
    var q4, r4 := y / 4, y % 4;
    var q100, r100 := y / 100, y % 100;
    var q400, r400 := y / 400, y % 400;
    assert y == 4 * q4 + r4 && 0 <= r4 < 4;
    assert y == 100 * q100 + r100 && 0 <= r100 < 100;
    assert y == 400 * q400 + r400 && 0 <= r400 < 400;
    if r100 == 0 {
      assert 4 * (25 * q100 - q4) == r4;
    }
    if r400 == 0 {
      assert 100 * (4 * q400 - q100) == r100;
    }
  }

  /** The count of years divisible by 4 grows by one exactly at such a year. */
  lemma CountStep4(y: int)
    ensures (y + 1 - 1969) / 4 == (y - 1969) / 4 + (if y % 4 == 0 then 1 else 0)
  {
    var q, r := (y - 1969) / 4, (y - 1969) % 4;
    assert y - 1969 == 4 * q + r && 0 <= r < 4;
    assert y % 4 == 0 <==> r == 3;
    if r == 3 {
      assert y + 1 - 1969 == 4 * (q + 1);
    } else {
      assert y + 1 - 1969 == 4 * q + (r + 1);
    }
  }

  lemma CountStep100(y: int)
    ensures (y + 1 - 1901) / 100 == (y - 1901) / 100 + (if y % 100 == 0 then 1 else 0)
  {
    var q, r := (y - 1901) / 100, (y - 1901) % 100;
    assert y - 1901 == 100 * q + r && 0 <= r < 100;
    assert y % 100 == 0 <==> r == 99;
    if r == 99 {
      assert y + 1 - 1901 == 100 * (q + 1);
    } else {
      assert y + 1 - 1901 == 100 * q + (r + 1);
    }
  }

  lemma CountStep400(y: int)
    ensures (y + 1 - 1601) / 400 == (y - 1601) / 400 + (if y % 400 == 0 then 1 else 0)
  {
    var q, r := (y - 1601) / 400, (y - 1601) % 400;
    assert y - 1601 == 400 * q + r && 0 <= r < 400;
    assert y % 400 == 0 <==> r == 399;
    if r == 399 {
      assert y + 1 - 1601 == 400 * (q + 1);
    } else {
      assert y + 1 - 1601 == 400 * q + (r + 1);
    }
  }

  /** The first day of a later year is not before the first day after an earlier one. */
  lemma {:induction false} DayFromYearMonotone(a: int, b: int)
    requires a < b
    ensures DayFromYear(a + 1) <= DayFromYear(b)
    decreases b - a
  {
    if a + 1 < b {
      DayFromYearMonotone(a + 1, b);
      DayFromYearStep(a + 1);
    }
  }

  /** Searches upwards from y for the year that holds day d. */
  function ScanYearUp(y: int, d: int): (r: int)
    requires DayFromYear(y) <= d
    ensures DayFromYear(r) <= d < DayFromYear(r + 1)
    decreases d - DayFromYear(y)
  {
    DayFromYearStep(y);
    if d < DayFromYear(y + 1) then y else ScanYearUp(y + 1, d)
  }

  /** Searches downwards from y for the year that holds day d. */
  function ScanYearDown(y: int, d: int): (r: int)
    requires d < DayFromYear(y + 1)
    ensures DayFromYear(r) <= d < DayFromYear(r + 1)
    decreases DayFromYear(y + 1) - d
  {
    DayFromYearStep(y);
    if DayFromYear(y) <= d then y else ScanYearDown(y - 1, d)
  }

  /**
   * YearFromTime, stated on day numbers: the largest y whose first day is
   * not after d. The start of the search is only a guess; the scans make
   * the result exact whatever the guess.
   */
  function YearFromDay(d: int): (y: int)
    ensures DayFromYear(y) <= d < DayFromYear(y + 1)
  {
    var guess := 1970 + (d * 400) / 146097;
    if DayFromYear(guess) <= d then ScanYearUp(guess, d) else ScanYearDown(guess - 1, d)
  }

  /** Only one year holds a given day. */
  lemma YearUnique(y1: int, y2: int, d: int)
    requires DayFromYear(y1) <= d < DayFromYear(y1 + 1)
    requires DayFromYear(y2) <= d < DayFromYear(y2 + 1)
    ensures y1 == y2
  {
    if y1 < y2 {
      DayFromYearMonotone(y1, y2);
    } else if y2 < y1 {
      DayFromYearMonotone(y2, y1);
    }
  }

  /**
   * Number of days of the year before month m (0-based, January is 0);
   * MonthStart(12, leap) is the length of the year.
   */
  function MonthStart(m: int, leap: bool): int
    requires 0 <= m <= 12
  {
    var common := [0, 31, 59, 90, 120, 151, 181, 212, 243, 273, 304, 334, 365][m];
    if leap && m >= 2 then common + 1 else common
  }

  /** MonthFromTime, stated on the day within the year (0-based month). */
  function MonthFromDayInYear(dwy: int, leap: bool): (m: int)
    requires 0 <= dwy < MonthStart(12, leap)
    ensures 0 <= m < 12 && MonthStart(m, leap) <= dwy < MonthStart(m + 1, leap)
  {
    var l := if leap then 1 else 0;
    if dwy < 31 then 0
    else if dwy < 59 + l then 1
    else if dwy < 90 + l then 2
    else if dwy < 120 + l then 3
    else if dwy < 151 + l then 4
    else if dwy < 181 + l then 5
    else if dwy < 212 + l then 6
    else if dwy < 243 + l then 7
    else if dwy < 273 + l then 8
    else if dwy < 304 + l then 9
    else if dwy < 334 + l then 10
    else 11
  }

  /** A proleptic Gregorian date: month 1..12, day of month from 1. */
  datatype CalendarDate = CalendarDate(year: int, month: int, day: int)

  /**
   * The Gregorian month lengths: February has 29 days in a leap year and 28
   * otherwise; April, June, September and November have 30; the rest 31.
   */
  function DaysInMonth(year: int, month: int): (n: int)
    requires 1 <= month <= 12
    ensures 28 <= n <= 31
    ensures month == 2 ==> (n == 29 <==> IsLeapYear(year)) && (n == 28 <==> !IsLeapYear(year))
    ensures month == 4 || month == 6 || month == 9 || month == 11 ==> n == 30
    ensures month != 2 && month != 4 && month != 6 && month != 9 && month != 11 ==> n == 31
  {
    var leap := IsLeapYear(year);
    MonthStart(month, leap) - MonthStart(month - 1, leap)
  }

  /** A date that exists in the calendar: "2024-02-29" does, "2023-02-29" and "2024-13-40" do not. */
  predicate IsValidDate(c: CalendarDate) {
    1 <= c.month <= 12 && 1 <= c.day <= DaysInMonth(c.year, c.month)
  }

  /** MakeDay(year, month - 1, day) for a date inside its month: the day number of c. */
  function MakeDay(c: CalendarDate): int
    requires 1 <= c.month <= 12
  {
    DayFromYear(c.year) + MonthStart(c.month - 1, IsLeapYear(c.year)) + c.day - 1
  }

  /**
   * The UTC fields of day d: YearFromTime, MonthFromTime + 1 and DateFromTime.
   * The result is a real date and MakeDay takes it back to d.
   */
  function CivilFromDay(d: int): (c: CalendarDate)
    ensures IsValidDate(c) && MakeDay(c) == d
  {
    var y := YearFromDay(d);
    var leap := IsLeapYear(y);
    YearLength(y);
    var dwy := d - DayFromYear(y);
    var m := MonthFromDayInYear(dwy, leap);
    var c := CalendarDate(y, m + 1, dwy - MonthStart(m, leap) + 1);
    assert DaysInMonth(y, m + 1) == MonthStart(m + 1, leap) - MonthStart(m, leap);
    assert MakeDay(c) == DayFromYear(y) + dwy;
    c
  }

  /** The months of a year fill it exactly. */
  lemma YearLength(y: int)
    ensures DayFromYear(y + 1) - DayFromYear(y) == MonthStart(12, IsLeapYear(y))
  {
    DayFromYearStep(y);
  }

  lemma MonthStartMonotone(a: int, b: int, leap: bool)
    requires 0 <= a <= b <= 12
    ensures MonthStart(a, leap) <= MonthStart(b, leap)
  {
  }

  /** Only one month holds a given day of the year. */
  lemma MonthUnique(m1: int, m2: int, dwy: int, leap: bool)
    requires 0 <= m1 < 12 && 0 <= m2 < 12
    requires MonthStart(m1, leap) <= dwy < MonthStart(m1 + 1, leap)
    requires MonthStart(m2, leap) <= dwy < MonthStart(m2 + 1, leap)
    ensures m1 == m2
  {
    if m1 < m2 {
      MonthStartMonotone(m1 + 1, m2, leap);
    } else if m2 < m1 {
      MonthStartMonotone(m2 + 1, m1, leap);
    }
  }

  /** The day of a real date lies within its month of the year. */
  lemma DayWithinMonth(c: CalendarDate)
    requires IsValidDate(c)
    ensures var leap := IsLeapYear(c.year);
      var dwy := MonthStart(c.month - 1, leap) + c.day - 1;
      MonthStart(c.month - 1, leap) <= dwy < MonthStart(c.month, leap) <= MonthStart(12, leap)
  {
    MonthStartMonotone(c.month, 12, IsLeapYear(c.year));
  }

  /** The day number of a real date falls inside its year. */
  lemma MakeDayInYear(c: CalendarDate)
    requires IsValidDate(c)
    ensures DayFromYear(c.year) <= MakeDay(c) < DayFromYear(c.year + 1)
  {
    DayWithinMonth(c);
    DayFromYearStep(c.year);
  }

  /** Every real date is the UTC date of its own day number. */
  lemma CivilOfMakeDay(c: CalendarDate)
    requires IsValidDate(c)
    ensures CivilFromDay(MakeDay(c)) == c
  {
    var d := MakeDay(c);
    var leap := IsLeapYear(c.year);
    var dwy := MonthStart(c.month - 1, leap) + c.day - 1;
    DayWithinMonth(c);
    MakeDayInYear(c);
    YearOfDay(d, c.year);
    MonthOfDay(dwy, c.month - 1, leap);
    assert d - DayFromYear(c.year) == dwy;
  }

  /** YearFromDay finds the year whose days include d. */
  lemma YearOfDay(d: int, y: int)
    requires DayFromYear(y) <= d < DayFromYear(y + 1)
    ensures YearFromDay(d) == y
  {
    YearUnique(YearFromDay(d), y, d);
  }

  /** MonthFromDayInYear finds the month whose days include dwy. */
  lemma MonthOfDay(dwy: int, m: int, leap: bool)
    requires 0 <= m < 12 && MonthStart(m, leap) <= dwy < MonthStart(m + 1, leap)
    ensures 0 <= dwy < MonthStart(12, leap) && MonthFromDayInYear(dwy, leap) == m
  {
    MonthStartMonotone(m + 1, 12, leap);
    MonthUnique(MonthFromDayInYear(dwy, leap), m, dwy, leap);
  }
}
