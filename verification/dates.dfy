/** Local calendar dates as integer tuples, with the arithmetic of the
    JavaScript `Date` constructor: `new Date(y, m0, d)` takes a zero-based
    month, maps a year 0..99 to 1900..1999, and carries an out-of-range month
    or day into the neighbouring year or month. Months in DateTime are 1..12. */
module Dates {

  datatype DateTime = DateTime(year: int, month: int, day: int, hour: int, minute: int, second: int)

  predicate IsLeapYear(y: int) {
    (y % 4 == 0 && y % 100 != 0) || y % 400 == 0
  }

  /** Length of month `m` (1..12) of year `y` in the proleptic Gregorian calendar. */
  function DaysInMonth(y: int, m: int): (r: int)
    requires 1 <= m <= 12
    ensures 28 <= r <= 31
    ensures r == 31 <==> m in {1, 3, 5, 7, 8, 10, 12}
    ensures r == 28 || r == 29 <==> m == 2
    ensures m == 2 ==> (r == 29 <==> IsLeapYear(y))
  {
    if m == 2 then (if IsLeapYear(y) then 29 else 28)
    else if m == 4 || m == 6 || m == 9 || m == 11 then 30
    else 31
  }

  predicate ValidDate(d: DateTime) {
    && 1 <= d.month <= 12
    && 1 <= d.day <= DaysInMonth(d.year, d.month)
    && 0 <= d.hour < 24 && 0 <= d.minute < 60 && 0 <= d.second < 60
  }

  /** A date-time a JavaScript `Date` can hold: always a real calendar date. */
  type CivilDate = d: DateTime | ValidDate(d) witness DateTime(1970, 1, 1, 0, 0, 0)

  /** The `Date` constructor reads a year 0..99 as 1900..1999. */
  function JsYear(y: int): int {
    if 0 <= y <= 99 then 1900 + y else y
  }

  /** Count of months since the start of year 0; consecutive months differ by one. */
  function MonthIndex(y: int, m: int): int {
    y * 12 + m - 1
  }

  /** Year and 1-based month that `new Date(y, m0, 1)` lands on. */
  function MonthOf(y: int, m0: int): (r: (int, int))
    ensures 1 <= r.1 <= 12
    ensures MonthIndex(r.0, r.1) == JsYear(y) * 12 + m0
  {
    (JsYear(y) + m0 / 12, m0 % 12 + 1)
  }

  function PrevMonth(y: int, m: int): (r: (int, int))
    requires 1 <= m <= 12
    ensures 1 <= r.1 <= 12 && MonthIndex(r.0, r.1) == MonthIndex(y, m) - 1
  {
    if m == 1 then (y - 1, 12) else (y, m - 1)
  }

  function NextMonth(y: int, m: int): (r: (int, int))
    requires 1 <= m <= 12
    ensures 1 <= r.1 <= 12 && MonthIndex(r.0, r.1) == MonthIndex(y, m) + 1
  {
    if m == 12 then (y + 1, 1) else (y, m + 1)
  }

  /** A month index names one year and month. */
  lemma MonthIndexInjective(y1: int, m1: int, y2: int, m2: int)
    requires 1 <= m1 <= 12 && 1 <= m2 <= 12 && MonthIndex(y1, m1) == MonthIndex(y2, m2)
    ensures y1 == y2 && m1 == m2
  {
    MixedRadix(y1, m1 - 1, y2, m2 - 1, 12);
    MixedRadix(y2, m2 - 1, y1, m1 - 1, 12);
  }

  /** Leap years among the years 1..x (for x below 1, minus those among x+1..0):
      a count whose differences count the leap years of any span. */
  function Leaps(x: int): int {
    x / 4 - x / 100 + x / 400
  }

  function YearLength(y: int): (r: int)
    ensures r == 365 || r == 366
  {
    if IsLeapYear(y) then 366 else 365
  }

  /** Days from 1 January 1970 to 1 January of year `y` (negative before 1970). */
  function YearStart(y: int): int {
    365 * (y - 1970) + Leaps(y - 1) - Leaps(1969)
  }

  /** Days of year `y` before the first of month `m`. */
  function MonthOffset(y: int, m: int): (r: int)
    requires 1 <= m <= 12
    ensures 0 <= r
  {
    var before := [0, 31, 59, 90, 120, 151, 181, 212, 243, 273, 304, 334];
    before[m - 1] + if m > 2 && IsLeapYear(y) then 1 else 0
  }

  /** Day `d` of month `m` of year `y` counted in days since 1 January 1970;
      a day outside the month counts on into the neighbouring months. */
  function DayNumber(y: int, m: int, d: int): int
    requires 1 <= m <= 12
  {
    YearStart(y) + MonthOffset(y, m) + d - 1
  }

  /** The count of leap years goes up by one exactly at a leap year. */
  lemma LeapsStep(y: int)
    ensures Leaps(y) - Leaps(y - 1) == if IsLeapYear(y) then 1 else 0
  {
    DivStep4(y);
    DivStep100(y);
    DivStep400(y);
  }

  /** Each of the three divisions steps up by one exactly at a multiple. */
  lemma DivStep4(y: int)
    ensures y / 4 - (y - 1) / 4 == if y % 4 == 0 then 1 else 0
  {
  }

  lemma DivStep100(y: int)
    ensures y / 100 - (y - 1) / 100 == if y % 100 == 0 then 1 else 0
    ensures y % 100 == 0 ==> y % 4 == 0
  {
    if y % 100 == 0 {
      assert y == 4 * (25 * (y / 100));
    }
  }

  lemma DivStep400(y: int)
    ensures y / 400 - (y - 1) / 400 == if y % 400 == 0 then 1 else 0
    ensures y % 400 == 0 ==> y % 100 == 0
  {
    if y % 400 == 0 {
      assert y == 100 * (4 * (y / 400));
    }
  }

  /** Consecutive years start a year's length apart. */
  lemma YearStartStep(y: int)
    ensures YearStart(y + 1) == YearStart(y) + YearLength(y)
  {
    LeapsStep(y);
  }

  /** A year's months fill the year: the last starts 31 days before its end. */
  lemma MonthsFillYear(y: int)
    ensures MonthOffset(y, 12) + DaysInMonth(y, 12) == YearLength(y)
  {
  }

  /** The first of the next month comes a month's length after the first of this one. */
  lemma NextMonthStart(y: int, m: int)
    requires 1 <= m <= 12
    ensures var n := NextMonth(y, m);
      DayNumber(n.0, n.1, 1) == DayNumber(y, m, 1) + DaysInMonth(y, m)
  {
    if m == 12 {
      YearStartStep(y);
      MonthsFillYear(y);
    } else {
      MonthOffsetStep(y, m);
    }
  }

  /** The day numbers of a valid date's year lie in YearStart(y)..YearStart(y + 1) - 1. */
  lemma DayNumberInYear(y: int, m: int, d: int)
    requires 1 <= m <= 12 && 1 <= d <= DaysInMonth(y, m)
    ensures YearStart(y) <= DayNumber(y, m, d) < YearStart(y + 1)
  {
    YearStartStep(y);
  }

  /** Later years start later. */
  lemma YearStartMonotone(y1: int, y2: int)
    requires y1 <= y2
    ensures YearStart(y1) <= YearStart(y2)
  {
  }

  /** Different valid dates have different day numbers: a day number names
      one calendar day. */
  lemma DayNumberInjective(a: DateTime, b: DateTime)
    requires ValidDate(a) && ValidDate(b)
    requires DayNumber(a.year, a.month, a.day) == DayNumber(b.year, b.month, b.day)
    ensures a.year == b.year && a.month == b.month && a.day == b.day
  {
    SameYear(a.year, a.month, a.day, b.year, b.month, b.day);
    if a.month < b.month {
      MonthOffsetGap(a.year, a.month, b.month);
    } else if b.month < a.month {
      MonthOffsetGap(a.year, b.month, a.month);
    }
  }

  /** Valid dates with the same day number lie in the same year. */
  lemma SameYear(y1: int, m1: int, d1: int, y2: int, m2: int, d2: int)
    requires 1 <= m1 <= 12 && 1 <= d1 <= DaysInMonth(y1, m1)
    requires 1 <= m2 <= 12 && 1 <= d2 <= DaysInMonth(y2, m2)
    requires DayNumber(y1, m1, d1) == DayNumber(y2, m2, d2)
    ensures y1 == y2
  {
    DayNumberInYear(y1, m1, d1);
    DayNumberInYear(y2, m2, d2);
    if y1 < y2 {
      YearStartMonotone(y1 + 1, y2);
    } else if y2 < y1 {
      YearStartMonotone(y2 + 1, y1);
    }
  }

  /** Within a year, the next month starts a month's length later. */
  lemma MonthOffsetStep(y: int, m: int)
    requires 1 <= m < 12
    ensures MonthOffset(y, m + 1) == MonthOffset(y, m) + DaysInMonth(y, m)
  {
  }

  /** A later month of the same year starts after the whole of an earlier one. */
  lemma {:induction false} MonthOffsetGap(y: int, m1: int, m2: int)
    requires 1 <= m1 < m2 <= 12
    ensures MonthOffset(y, m2) >= MonthOffset(y, m1) + DaysInMonth(y, m1)
    decreases m2
  {
    MonthOffsetStep(y, m2 - 1);
    if m2 - 1 > m1 {
      MonthOffsetGap(y, m1, m2 - 1);
    }
  }

  /** Carries a day number outside month `m` of year `y` into the neighbouring
      months, as the `Date` constructor does (day 0 is the last day of the
      month before). Returns a valid date at midnight; which one is stated by
      NormalizeDayCounts. */
  function NormalizeDay(y: int, m: int, d: int): (r: DateTime)
    requires 1 <= m <= 12
    ensures ValidDate(r) && r.hour == 0 && r.minute == 0 && r.second == 0
    ensures 1 <= d <= DaysInMonth(y, m) ==> r == DateTime(y, m, d, 0, 0, 0)
    decreases if d < 1 then 1 else 0, if d < 1 then -d else d
  {
    if d < 1 then
      var p := PrevMonth(y, m);
      NormalizeDay(p.0, p.1, d + DaysInMonth(p.0, p.1))
    else if d > DaysInMonth(y, m) then
      var n := NextMonth(y, m);
      NormalizeDay(n.0, n.1, d - DaysInMonth(y, m))
    else
      DateTime(y, m, d, 0, 0, 0)
  }

  /** The normalised date lies `d - 1` days after the first of month `m`;
      with DayNumberInjective this singles it out among valid dates. */
  lemma {:induction false} NormalizeDayCounts(y: int, m: int, d: int)
    requires 1 <= m <= 12
    ensures var r := NormalizeDay(y, m, d);
      DayNumber(r.year, r.month, r.day) == DayNumber(y, m, d)
    decreases if d < 1 then 1 else 0, if d < 1 then -d else d
  {
    if d < 1 {
      var p := PrevMonth(y, m);
      assert NextMonth(p.0, p.1) == (y, m);
      NextMonthStart(p.0, p.1);
      NormalizeDayCounts(p.0, p.1, d + DaysInMonth(p.0, p.1));
    } else if d > DaysInMonth(y, m) {
      var n := NextMonth(y, m);
      NextMonthStart(y, m);
      NormalizeDayCounts(n.0, n.1, d - DaysInMonth(y, m));
    }
  }

  /** `new Date(y, m0, d)`: local midnight of a valid date. */
  function MakeDate(y: int, m0: int, d: int): (r: DateTime)
    ensures ValidDate(r) && r.hour == 0 && r.minute == 0 && r.second == 0
  {
    var ym := MonthOf(y, m0);
    NormalizeDay(ym.0, ym.1, d)
  }

  /** `new Date(y, m0, d)` is the day `d - 1` days after the first of the
      month `new Date(y, m0, 1)` falls in. */
  lemma MakeDateCounts(y: int, m0: int, d: int)
    ensures var r := MakeDate(y, m0, d);
      var ym := MonthOf(y, m0);
      DayNumber(r.year, r.month, r.day) == DayNumber(ym.0, ym.1, 1) + d - 1
  {
    var ym := MonthOf(y, m0);
    NormalizeDayCounts(ym.0, ym.1, d);
  }

  /** Day 0 of a month is the last day of the month before it. */
  lemma DayZeroIsLastDayOfPreviousMonth(y: int, m0: int)
    ensures var p := MonthOf(y, m0 - 1);
      MakeDate(y, m0, 0) == DateTime(p.0, p.1, DaysInMonth(p.0, p.1), 0, 0, 0)
  {
    var ym := MonthOf(y, m0);
    var p := MonthOf(y, m0 - 1);
    var q := PrevMonth(ym.0, ym.1);
    assert MonthIndex(q.0, q.1) == MonthIndex(p.0, p.1);
    assert q == p;
  }

  /** The same local time of day on another date (`new Date(y, m0, d, h, mi, s)`
      with an in-range time). */
  function AtTime(d: DateTime, h: int, mi: int, s: int): DateTime {
    d.(hour := h, minute := mi, second := s)
  }

  /** `date.getDay()`: 0 is Sunday; 1 January 1970 was a Thursday. */
  function Weekday(y: int, m: int, d: int): (r: int)
    requires 1 <= m <= 12
    ensures 0 <= r < 7
  {
    (DayNumber(y, m, d) + 4) % 7
  }

  /** Known weekdays: 1 January 1970 a Thursday, 1 January 2000 a Saturday,
      1 February 2024 a Thursday, 1 March 2024 (after a leap February) a Friday. */
  lemma WeekdayAnchors()
    ensures Weekday(1970, 1, 1) == 4
    ensures Weekday(2000, 1, 1) == 6
    ensures Weekday(2024, 2, 1) == 4
    ensures Weekday(2024, 3, 1) == 5
  {
  }

  /** The first of the next month falls the month's length (mod 7) later in the week:
      a 28-day February leaves the weekday unchanged, a 31-day month moves it by three. */
  lemma WeekdayNextMonth(y: int, m: int)
    requires 1 <= m <= 12
    ensures var n := NextMonth(y, m);
      Weekday(n.0, n.1, 1) == (Weekday(y, m, 1) + DaysInMonth(y, m)) % 7
  {
    NextMonthStart(y, m);
    ModShift(DayNumber(y, m, 1) + 4, DaysInMonth(y, m));
  }

  /** The weekday of a normalised date is the weekday its day count gives:
      `new Date(y, m0, d).getDay()` counts on from the first of the month. */
  lemma WeekdayOfNormalized(y: int, m: int, d: int)
    requires 1 <= m <= 12
    ensures var r := NormalizeDay(y, m, d);
      Weekday(r.year, r.month, r.day) == (Weekday(y, m, 1) + d - 1) % 7
  {
    NormalizeDayCounts(y, m, d);
    ModShift(DayNumber(y, m, 1) + 4, d - 1);
  }

  lemma ModShift(a: int, b: int)
    ensures (a + b) % 7 == (a % 7 + b) % 7
  {
    var q := a / 7;
    assert a + b == 7 * q + (a % 7 + b);
  }

  /** `a.toDateString() === b.toDateString()`: same local calendar day. */
  predicate SameDay(a: DateTime, b: DateTime) {
    a.year == b.year && a.month == b.month && a.day == b.day
  }

  function DayKey(d: DateTime): int {
    MonthIndex(d.year, d.month) * 31 + d.day - 1
  }

  function SecondOfDay(d: DateTime): int {
    d.hour * 3600 + d.minute * 60 + d.second
  }

  /** A number that orders valid dates as the instants they denote (mixed radix;
      gaps after short months do not matter for comparisons). */
  function Ordinal(d: DateTime): int {
    DayKey(d) * 86400 + SecondOfDay(d)
  }

  /** Comparing mixed-radix numbers compares their high digits first. */
  lemma MixedRadix(q1: int, r1: int, q2: int, r2: int, k: int)
    requires k > 0 && 0 <= r1 < k && 0 <= r2 < k
    ensures q1 * k + r1 <= q2 * k + r2 <==> q1 < q2 || (q1 == q2 && r1 <= r2)
  {
    if q1 < q2 {
      StepAtLeast(q1, q2, k);
    } else if q1 > q2 {
      StepAtLeast(q2, q1, k);
    }
  }

  /** A higher digit outweighs any low digit. */
  lemma StepAtLeast(a: int, b: int, k: int)
    requires a < b && k > 0
    ensures b * k >= a * k + k
  {
    var d := b - a;
    assert b * k == a * k + d * k;
    PositiveMultiple(d, k);
  }

  lemma {:induction false} PositiveMultiple(d: int, k: int)
    requires d >= 1 && k > 0
    ensures d * k >= k
    decreases d
  {
    if d > 1 {
      PositiveMultiple(d - 1, k);
      assert d * k == (d - 1) * k + k;
    }
  }

  /** Between midnight of day `lo` and 23:59:59 of day `hi` lie exactly the
      valid instants whose day lies between them. */
  lemma OrdinalDayRange(d: DateTime, lo: DateTime, hi: DateTime)
    requires ValidDate(d) && ValidDate(lo) && ValidDate(hi)
    requires SecondOfDay(lo) == 0 && hi.hour == 23 && hi.minute == 59 && hi.second == 59
    ensures Ordinal(lo) <= Ordinal(d) <= Ordinal(hi) <==> DayKey(lo) <= DayKey(d) <= DayKey(hi)
  {
    MixedRadix(DayKey(lo), SecondOfDay(lo), DayKey(d), SecondOfDay(d), 86400);
    MixedRadix(DayKey(d), SecondOfDay(d), DayKey(hi), SecondOfDay(hi), 86400);
  }

  /** First instant of month `m` of year `y`. */
  function MonthStart(y: int, m: int): DateTime {
    DateTime(y, m, 1, 0, 0, 0)
  }

  /** 23:59:59 on the last day of month `m` of year `y`. */
  function MonthEnd(y: int, m: int): DateTime
    requires 1 <= m <= 12
  {
    DateTime(y, m, DaysInMonth(y, m), 23, 59, 59)
  }

  /** The closed range from MonthStart to MonthEnd holds exactly the valid
      dates of that month. */
  lemma MonthRangeIsMonth(d: DateTime, y: int, m: int)
    requires ValidDate(d) && 1 <= m <= 12
    ensures Ordinal(MonthStart(y, m)) <= Ordinal(d) <= Ordinal(MonthEnd(y, m))
        <==> d.year == y && d.month == m
  {
    OrdinalDayRange(d, MonthStart(y, m), MonthEnd(y, m));
    var mi, md := MonthIndex(y, m), MonthIndex(d.year, d.month);
    MixedRadix(mi, 0, md, d.day - 1, 31);
    MixedRadix(md, d.day - 1, mi, DaysInMonth(y, m) - 1, 31);
    MixedRadix(y, m - 1, d.year, d.month - 1, 12);
    MixedRadix(d.year, d.month - 1, y, m - 1, 12);
  }

  /** The closed range from January 1 00:00:00 to December 31 23:59:59 of `y`
      holds exactly the valid dates of year `y`. */
  lemma YearRangeIsYear(d: DateTime, y: int)
    requires ValidDate(d)
    ensures Ordinal(MonthStart(y, 1)) <= Ordinal(d) <= Ordinal(MonthEnd(y, 12))
        <==> d.year == y
  {
    OrdinalDayRange(d, MonthStart(y, 1), MonthEnd(y, 12));
    var md := MonthIndex(d.year, d.month);
    MixedRadix(MonthIndex(y, 1), 0, md, d.day - 1, 31);
    MixedRadix(md, d.day - 1, MonthIndex(y, 12), 30, 31);
    MixedRadix(y, 0, d.year, d.month - 1, 12);
    MixedRadix(d.year, d.month - 1, y, 11, 12);
  }
}
