/**
 * The date strings of the daily-close pipeline: `toUtcYmd(ms)` (the UTC day
 * of a sample as "YYYY-MM-DD"), `endOfDayIso(ymd)`, the request's
 * `/^\d{4}-\d{2}-\d{2}$/` check, what `new Date(ymd)` and `Date.parse` make
 * of such a string (the date-only form of the ECMA-262 Date Time String
 * Format, which is read as UTC), and the `from`/`to`
 * bounds, in whole seconds, of the range request.
 */
module UtcDates {
  import opened Options
  import opened Text
  import opened Calendar

  /**
   * s is the year text y, a dash, two digits that read as the month, a dash
   * and two digits that read as the day.
   */
  predicate IsYmdOf(s: string, y: string, month: int, day: int) {
    |s| == |y| + 6 && s[..|y|] == y && s[|y|] == '-' && s[|y| + 3] == '-'
    && AllDigits(s[|y| + 1..|y| + 3]) && DigitsValue(s[|y| + 1..|y| + 3]) == month
    && AllDigits(s[|y| + 4..]) && DigitsValue(s[|y| + 4..]) == day
  }

  /** `${y}-${pad(m)}-${pad(d)}` for the UTC fields of a real date. */
  function FormatYmd(c: CalendarDate): (s: string)
    requires IsValidDate(c)
    ensures IsYmdOf(s, IntToString(c.year), c.month, c.day)
  {
    var y, m, d := IntToString(c.year), TwoDigits(c.month), TwoDigits(c.day);
    YmdLayout(y, m, d);
    y + "-" + m + "-" + d
  }

  lemma YmdLayout(y: string, m: string, d: string)
    requires |m| == 2 && |d| == 2 && AllDigits(m) && AllDigits(d)
    ensures IsYmdOf(y + "-" + m + "-" + d, y, DigitsValue(m), DigitsValue(d))
  {
    var s := y + "-" + m + "-" + d;
    assert s[..|y|] == y;
    assert s[|y| + 1..|y| + 3] == m;
    assert s[|y| + 4..] == d;
  }

  /** What toUtcYmd produces for an Invalid Date: every field is NaN. */
  const InvalidYmd: string := "NaN-NaN-NaN"

  /**
   * `toUtcYmd(ms)`: the UTC calendar day of time value t. A number outside the
   * Date range makes an Invalid Date, whose fields all print as NaN, and
   * only such a number gets that string.
   */
  function ToUtcYmd(t: int): (s: string)
    ensures s == InvalidYmd <==> !InTimeRange(t)
  {
    if InTimeRange(t) then
      FormatYmdIsNotInvalid(CivilFromDay(DayFromTime(t)));
      FormatYmd(CivilFromDay(DayFromTime(t)))
    else InvalidYmd
  }

  /** The fields of a "Y-MM-DD" string can be read back from it. */
  lemma SplitYmd(y1: string, m1: string, d1: string, y2: string, m2: string, d2: string)
    requires |m1| == |m2| == |d1| == |d2| == 2
    requires y1 + "-" + m1 + "-" + d1 == y2 + "-" + m2 + "-" + d2
    ensures y1 == y2 && m1 == m2 && d1 == d2
  {
    var s := y1 + "-" + m1 + "-" + d1;
    var n := |y1|;
    assert |s| == n + 6 && |y2| == n;
    assert y1 == s[..n] && y2 == s[..n];
    assert m1 == s[n + 1..n + 3] && m2 == s[n + 1..n + 3];
    assert d1 == s[n + 4..] && d2 == s[n + 4..];
  }

  /** Distinct real dates are formatted differently. */
  lemma FormatYmdInjective(c1: CalendarDate, c2: CalendarDate)
    requires IsValidDate(c1) && IsValidDate(c2)
    requires FormatYmd(c1) == FormatYmd(c2)
    ensures c1 == c2
  {
    var m1, m2 := TwoDigits(c1.month), TwoDigits(c2.month);
    var d1, d2 := TwoDigits(c1.day), TwoDigits(c2.day);
    SplitYmd(IntToString(c1.year), m1, d1, IntToString(c2.year), m2, d2);
    IntToStringInjective(c1.year, c2.year);
  }

  /** A formatted date ends in a digit, so it is never the Invalid Date string. */
  lemma FormatYmdIsNotInvalid(c: CalendarDate)
    requires IsValidDate(c)
    ensures FormatYmd(c) != InvalidYmd
  {
    var d := TwoDigits(c.day);
    var s := FormatYmd(c);
    assert s == (IntToString(c.year) + "-" + TwoDigits(c.month) + "-") + d;
    assert s[|s| - 1] == d[1];
    assert IsDigit(d[1]);
  }

  /**
   * Two in-range time values get the same day string exactly when they fall
   * on the same UTC day, and an out-of-range value never shares a string
   * with an in-range one.
   */
  lemma SameYmdIffSameDay(t1: int, t2: int)
    ensures InTimeRange(t1) && InTimeRange(t2) ==>
      (ToUtcYmd(t1) == ToUtcYmd(t2) <==> DayFromTime(t1) == DayFromTime(t2))
    ensures InTimeRange(t1) && !InTimeRange(t2) ==> ToUtcYmd(t1) != ToUtcYmd(t2)
    ensures !InTimeRange(t1) && !InTimeRange(t2) ==> ToUtcYmd(t1) == ToUtcYmd(t2)
  {
    if InTimeRange(t1) && InTimeRange(t2) && ToUtcYmd(t1) == ToUtcYmd(t2) {
      FormatYmdInjective(CivilFromDay(DayFromTime(t1)), CivilFromDay(DayFromTime(t2)));
    }
    if InTimeRange(t1) {
      FormatYmdIsNotInvalid(CivilFromDay(DayFromTime(t1)));
    }
  }

  /** A later time value never falls on an earlier UTC day. */
  lemma DayFromTimeMonotone(t1: int, t2: int)
    requires t1 <= t2
    ensures DayFromTime(t1) <= DayFromTime(t2)
  {
  }

  /** `endOfDayIso(ymd)`: the last millisecond of the day, as an ISO 8601 instant. */
  function EndOfDayIso(ymd: string): (s: string)
    ensures |s| == |ymd| + 14 && s[..|ymd|] == ymd
    ensures s[|ymd|..] == "T23:59:59.999Z"
  {
    ymd + "T23:59:59.999Z"
  }

  /** Different days get different end-of-day instants. */
  lemma EndOfDayIsoInjective(a: string, b: string)
    requires EndOfDayIso(a) == EndOfDayIso(b)
    ensures a == b
  {
    assert a == EndOfDayIso(a)[..|a|];
  }

  /**
   * `/^\d{4}-\d{2}-\d{2}$/.test(s)`: ten characters, dashes at positions 4
   * and 7, and a decimal digit everywhere else.
   */
  predicate MatchesDateRegex(s: string): (b: bool)
    ensures b <==>
      |s| == 10 && s[4] == '-' && s[7] == '-'
      && forall i :: 0 <= i < 10 && i != 4 && i != 7 ==> IsDigit(s[i])
  {
    |s| == 10 && s[4] == '-' && s[7] == '-'
    && AllDigits(s[..4]) && AllDigits(s[5..7]) && AllDigits(s[8..])
  }

  /** The year, month and day numbers written in a string that passes the regex. */
  function DateFields(s: string): CalendarDate
    requires MatchesDateRegex(s)
  {
    CalendarDate(DigitsValue(s[..4]), DigitsValue(s[5..7]), DigitsValue(s[8..]))
  }

  /**
   * The UTC day `new Date(s)` and `Date.parse(s + 'T…Z')` stand for, or None
   * for NaN: the string must be in the date-only form and name a real date.
   */
  function ParseDay(s: string): (r: Option<int>)
    ensures r.Some? ==> (MatchesDateRegex(s) && IsValidDate(DateFields(s))
      && CivilFromDay(r.value) == DateFields(s))
    ensures MatchesDateRegex(s) && IsValidDate(DateFields(s)) ==> r.Some?
  {
    if MatchesDateRegex(s) && IsValidDate(DateFields(s)) then
      CivilOfMakeDay(DateFields(s));
      Some(MakeDay(DateFields(s)))
    else None
  }

  /**
   * A date string with a four-digit year from 1000 on is exactly what
   * toUtcYmd prints for every instant of the day it names.
   */
  lemma ParseDayRoundTrip(s: string, t: int)
    requires ParseDay(s).Some? && s[0] != '0'
    requires DayFromTime(t) == ParseDay(s).value && InTimeRange(t)
    ensures ToUtcYmd(t) == s
  {
    var c := DateFields(s);
    assert CivilFromDay(DayFromTime(t)) == c;
    NatToStringOfDigits(s[..4]);
    TwoDigitsOfDigits(s[5..7]);
    TwoDigitsOfDigits(s[8..]);
    assert s == s[..4] + "-" + s[5..7] + "-" + s[8..];
  }

  /** Conversely, the day string of an instant in the years 1000 to 9999 parses back to its day. */
  lemma ToUtcYmdParses(t: int)
    requires InTimeRange(t)
    requires 1000 <= CivilFromDay(DayFromTime(t)).year <= 9999
    ensures ParseDay(ToUtcYmd(t)) == Some(DayFromTime(t))
  {
    var c := CivilFromDay(DayFromTime(t));
    var y, m, d := NatToString(c.year), TwoDigits(c.month), TwoDigits(c.day);
    FourDigitYear(c.year);
    assert ToUtcYmd(t) == y + "-" + m + "-" + d;
    YmdFields(y, m, d);
  }

  /** A four-digit year, a dash, two digits, a dash and two digits pass the regex. */
  lemma YmdFields(y: string, m: string, d: string)
    requires |y| == 4 && |m| == 2 && |d| == 2 && AllDigits(y) && AllDigits(m) && AllDigits(d)
    ensures var s := y + "-" + m + "-" + d;
      MatchesDateRegex(s) && DateFields(s) == CalendarDate(DigitsValue(y), DigitsValue(m), DigitsValue(d))
  {
    var s := y + "-" + m + "-" + d;
    assert s[..4] == y && s[5..7] == m && s[8..] == d;
  }

  lemma FourDigitYear(y: int)
    requires 1000 <= y <= 9999
    ensures |NatToString(y)| == 4
  {
    var a := y / 10;
    var b := a / 10;
    var c := b / 10;
    assert c < 10 && 10 <= b < 100 && 100 <= a < 1000;
    assert |NatToString(c)| == 1;
    assert |NatToString(b)| == 2;
    assert |NatToString(a)| == 3;
  }

  /** `new Date(start) > new Date(end)`: false whenever either side is NaN. */
  predicate StartAfterEnd(start: string, end: string): (b: bool)
    ensures b <==> ParseDay(start).Some? && ParseDay(end).Some? && ParseDay(end).value < ParseDay(start).value
  {
    var a := ParseDay(start);
    var b := ParseDay(end);
    a.Some? && b.Some? && a.value * MsPerDay > b.value * MsPerDay
  }

  /** MakeDay follows the order of dates: first by year, then month, then day. */
  lemma MakeDayOrder(c1: CalendarDate, c2: CalendarDate)
    requires IsValidDate(c1) && IsValidDate(c2)
    ensures MakeDay(c1) < MakeDay(c2) <==>
      c1.year < c2.year
      || (c1.year == c2.year && c1.month < c2.month)
      || (c1.year == c2.year && c1.month == c2.month && c1.day < c2.day)
  {
    if c1.year < c2.year {
      YearsOrderDays(c1, c2);
    } else if c2.year < c1.year {
      YearsOrderDays(c2, c1);
    } else {
      WithinYearOrder(c1.month, c1.day, c2.month, c2.day, IsLeapYear(c1.year));
    }
  }

  /** Every day of an earlier year comes before every day of a later one. */
  lemma YearsOrderDays(c1: CalendarDate, c2: CalendarDate)
    requires IsValidDate(c1) && IsValidDate(c2) && c1.year < c2.year
    ensures MakeDay(c1) < MakeDay(c2)
  {
    MakeDayInYear(c1);
    MakeDayInYear(c2);
    DayFromYearMonotone(c1.year, c2.year);
  }

  /** Inside one year, the day within the year follows the order of (month, day). */
  lemma WithinYearOrder(m1: int, d1: int, m2: int, d2: int, leap: bool)
    requires 1 <= m1 <= 12 && 1 <= d1 <= MonthStart(m1, leap) - MonthStart(m1 - 1, leap)
    requires 1 <= m2 <= 12 && 1 <= d2 <= MonthStart(m2, leap) - MonthStart(m2 - 1, leap)
    ensures MonthStart(m1 - 1, leap) + d1 < MonthStart(m2 - 1, leap) + d2
      <==> m1 < m2 || (m1 == m2 && d1 < d2)
  {
    if m1 < m2 {
      MonthStartMonotone(m1, m2 - 1, leap);
    } else if m2 < m1 {
      MonthStartMonotone(m2, m1 - 1, leap);
    }
  }

  /**
   * For strings naming real dates, the ordering check rejects exactly the
   * requests whose start date comes after the end date; a string that passes
   * the regex but names no real date (such as "2024-13-40") is never rejected
   * by it.
   */
  lemma StartAfterEndMeaning(start: string, end: string)
    ensures ParseDay(start).Some? && ParseDay(end).Some? ==>
      (StartAfterEnd(start, end) <==> MakeDay(DateFields(end)) < MakeDay(DateFields(start)))
    ensures ParseDay(start).Some? && ParseDay(end).Some? ==>
      var s, e := DateFields(start), DateFields(end);
      (StartAfterEnd(start, end) <==>
        e.year < s.year || (e.year == s.year && e.month < s.month)
        || (e.year == s.year && e.month == s.month && e.day < s.day))
    ensures ParseDay(start).None? || ParseDay(end).None? ==> !StartAfterEnd(start, end)
  {
    if ParseDay(start).Some? && ParseDay(end).Some? {
      MakeDayOrder(DateFields(end), DateFields(start));
    }
  }

  /** `Math.floor(t / 1000)` for the first millisecond of day d. */
  function StartSecond(d: int): int {
    (d * MsPerDay) / 1000
  }

  /** `Math.floor(t / 1000)` for the last millisecond of day d. */
  function EndSecond(d: int): int {
    (d * MsPerDay + MsPerDay - 1) / 1000
  }

  /** `from = Math.floor(Date.parse(ymd + 'T00:00:00.000Z') / 1000)`; None stands for NaN. */
  function RangeFrom(ymd: string): (r: Option<int>)
    ensures r.Some? <==> ParseDay(ymd).Some?
    ensures r.Some? ==> r.value == ParseDay(ymd).value * 86400
  {
    match ParseDay(ymd)
    case Some(d) =>
      DaySeconds(d);
      Some(StartSecond(d))
    case None => None
  }

  /** `to = Math.floor(Date.parse(ymd + 'T23:59:59.999Z') / 1000)`; None stands for NaN. */
  function RangeTo(ymd: string): (r: Option<int>)
    ensures r.Some? <==> ParseDay(ymd).Some?
    ensures r.Some? ==> r.value == ParseDay(ymd).value * 86400 + 86399
  {
    match ParseDay(ymd)
    case Some(d) =>
      DaySeconds(d);
      Some(EndSecond(d))
    case None => None
  }

  /**
   * The range asked for spans 86400 seconds for each day after the start day,
   * plus the 86399 seconds after the end day's midnight.
   */
  lemma RangeBounds(start: string, end: string)
    requires ParseDay(start).Some? && ParseDay(end).Some?
    ensures RangeTo(end).value - RangeFrom(start).value
      == 86400 * (ParseDay(end).value - ParseDay(start).value) + 86399
  {
  }

  /** Day d starts at second d * 86400 and its last millisecond lies in second d * 86400 + 86399. */
  lemma DaySeconds(d: int)
    ensures StartSecond(d) == d * 86400
    ensures EndSecond(d) == d * 86400 + 86399
  {
    assert d * MsPerDay == 1000 * (d * 86400);
    DivThousand(d * 86400, 0);
    assert d * MsPerDay + MsPerDay - 1 == 1000 * (d * 86400 + 86399) + 999;
    DivThousand(d * 86400 + 86399, 999);
  }

  /**
   * A millisecond instant lies between `from` and the last millisecond of
   * `to` exactly when its UTC day lies between the start and end days.
   */
  lemma RangeCoversDays(start: string, end: string, t: int)
    requires RangeFrom(start).Some? && RangeTo(end).Some?
    ensures RangeFrom(start).value * 1000 <= t < (RangeTo(end).value + 1) * 1000
      <==> ParseDay(start).value <= DayFromTime(t) <= ParseDay(end).value
  {
    RangeBounds(start, end);
  }

  lemma DivThousand(q: int, r: int)
    requires 0 <= r < 1000
    ensures (1000 * q + r) / 1000 == q
  {
  }
}
