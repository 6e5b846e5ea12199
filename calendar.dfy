/**
 * The proleptic Gregorian calendar as Python's `datetime.date` counts it,
 * and the two week numberings the service mixes:
 *
 *  - ISO 8601 weeks, as `date.isocalendar()` computes them (the request
 *    guard asks how many ISO weeks a year has);
 *  - the `%W` week of SQLite's `strftime`, which is what `extract('week')`
 *    yields on the configured SQLite store (Monday-first weeks, the days
 *    before the year's first Monday are week 0).
 */
module Calendar {

  datatype Date = Date(year: int, month: int, day: int)

  predicate IsLeap(y: int)
  {
    y % 4 == 0 && (y % 100 != 0 || y % 400 == 0)
  }

  function DaysInMonth(y: int, m: int): (n: int)
    requires 1 <= m <= 12
    ensures 28 <= n <= 31
  {
    if m == 2 then (if IsLeap(y) then 29 else 28)
    else if m == 4 || m == 6 || m == 9 || m == 11 then 30
    else 31
  }

  /** The dates `datetime.date` accepts: years 1 to 9999, real months and days. */
  predicate ValidDate(d: Date)
  {
    1 <= d.year <= 9999 && 1 <= d.month <= 12 && 1 <= d.day <= DaysInMonth(d.year, d.month)
  }

  /** Days in the years before `y` (Python's `_days_before_year`, floor division). */
  function DaysBeforeYear(y: int): int
  {
    var y1 := y - 1;
    y1 * 365 + y1 / 4 - y1 / 100 + y1 / 400
  }

  /** Days in the months of year `y` before month `m` (Python's `_days_before_month`). */
  function DaysBeforeMonth(y: int, m: int): (n: int)
    requires 1 <= m <= 12
    ensures 0 <= n <= 335
  {
    var common :=
      if m == 1 then 0 else if m == 2 then 31 else if m == 3 then 59
      else if m == 4 then 90 else if m == 5 then 120 else if m == 6 then 151
      else if m == 7 then 181 else if m == 8 then 212 else if m == 9 then 243
      else if m == 10 then 273 else if m == 11 then 304 else 334;
    common + (if m > 2 && IsLeap(y) then 1 else 0)
  }

  /** Proleptic Gregorian ordinal: 0001-01-01 is day 1 (`date.toordinal()`). */
  function Ordinal(d: Date): int
    requires 1 <= d.month <= 12
  {
    DaysBeforeYear(d.year) + DaysBeforeMonth(d.year, d.month) + d.day
  }

  /** Day of the week, Monday 0 to Sunday 6 (`date.weekday()`). */
  function Weekday(d: Date): (w: int)
    requires 1 <= d.month <= 12
    ensures 0 <= w < 7
  {
    (Ordinal(d) + 6) % 7
  }

  /** Zero-based day of the year. */
  function YearDay0(d: Date): (k: int)
    requires ValidDate(d)
    ensures 0 <= k <= 365
  {
    DaysBeforeMonth(d.year, d.month) + d.day - 1
  }

  // ---------------------------------------------------------------------------
  // SQLite strftime('%W')

  /** `%W` from a zero-based day of the year and a Monday-first weekday. */
  function PercentW(yday0: int, weekday: int): int
  {
    (yday0 + 7 - weekday) / 7
  }

  /** The week number `extract('week', completed_at)` gives on SQLite. */
  function WeekW(d: Date): (w: int)
    requires ValidDate(d)
    ensures 0 <= w <= 53
  {
    PercentW(YearDay0(d), Weekday(d))
  }

  /** The year's first day is in week 1 exactly when it is a Monday, and week 0 otherwise. */
  lemma {:induction false} PercentWFirstDay(weekday: int)
    requires 0 <= weekday < 7
    ensures PercentW(0, weekday) == if weekday == 0 then 1 else 0
  {
  }

  /**
   * From one day of the year to the next, the `%W` week grows by one exactly
   * when the new day is a Monday: the week number counts the Mondays so far.
   */
  lemma {:induction false} PercentWNextDay(yday0: int, weekday: int)
    requires 0 <= yday0 && 0 <= weekday < 7
    ensures var next := (weekday + 1) % 7;
      PercentW(yday0 + 1, next) == PercentW(yday0, weekday) + (if next == 0 then 1 else 0)
  {
    if weekday == 6 {
      assert yday0 + 1 + 7 - 0 == (yday0 + 7 - weekday) + 7;
    } else {
      assert yday0 + 1 + 7 - (weekday + 1) == yday0 + 7 - weekday;
    }
  }

  /** Consecutive days of a year: one more day of the year, the next weekday. */
  lemma {:induction false} NextDayOfYear(d: Date, e: Date)
    requires ValidDate(d) && ValidDate(e) && d.year == e.year
    requires Ordinal(e) == Ordinal(d) + 1
    ensures YearDay0(e) == YearDay0(d) + 1
    ensures Weekday(e) == (Weekday(d) + 1) % 7
  {
    var o := Ordinal(d);
    assert YearDay0(e) - YearDay0(d) == Ordinal(e) - o;
    NextWeekday(o + 6);
  }

  lemma {:induction false} NextWeekday(x: int)
    ensures (x + 1) % 7 == (x % 7 + 1) % 7
  {
  }

  // ---------------------------------------------------------------------------
  // ISO 8601 weeks: date.isocalendar()

  datatype IsoDate = IsoDate(isoYear: int, week: int, weekday: int)

  /** The ordinal of the Monday that starts ISO week 1 of year `y` (Python's `_isoweek1monday`). */
  function IsoWeek1Monday(y: int): int
  {
    var firstday := DaysBeforeYear(y) + 1;
    var firstweekday := (firstday + 6) % 7;
    var week1monday := firstday - firstweekday;
    if firstweekday > 3 then week1monday + 7 else week1monday
  }

  /** `date.isocalendar()`: ISO year, week (from 1) and weekday (Monday 1). */
  function IsoCalendar(d: Date): IsoDate
    requires ValidDate(d)
  {
    var today := Ordinal(d);
    var week := (today - IsoWeek1Monday(d.year)) / 7;
    var day := (today - IsoWeek1Monday(d.year)) % 7;
    if week < 0 then
      var week' := (today - IsoWeek1Monday(d.year - 1)) / 7;
      var day' := (today - IsoWeek1Monday(d.year - 1)) % 7;
      IsoDate(d.year - 1, week' + 1, day' + 1)
    else if week >= 52 && today >= IsoWeek1Monday(d.year + 1) then
      IsoDate(d.year + 1, 1, day + 1)
    else
      IsoDate(d.year, week + 1, day + 1)
  }

  /** `y / k - (y - 1) / k` is one exactly when `k` divides `y`, for the divisors of the leap-year rule. */
  lemma {:induction false} FloorSteps(y: int)
    ensures y / 4 - (y - 1) / 4 == if y % 4 == 0 then 1 else 0
    ensures y / 100 - (y - 1) / 100 == if y % 100 == 0 then 1 else 0
    ensures y / 400 - (y - 1) / 400 == if y % 400 == 0 then 1 else 0
  {
  }

  /** A year has 365 days, 366 when it is a leap year. */
  lemma {:induction false} YearLength(y: int)
    ensures DaysBeforeYear(y + 1) == DaysBeforeYear(y) + (if IsLeap(y) then 366 else 365)
  {
    FloorSteps(y);
    assert DaysBeforeYear(y + 1) - DaysBeforeYear(y)
        == 365 + (y / 4 - (y - 1) / 4) - (y / 100 - (y - 1) / 100) + (y / 400 - (y - 1) / 400);
    LeapDivisors(y);
  }

  /** The divisors of the leap-year rule divide one another. */
  lemma {:induction false} LeapDivisors(y: int)
    ensures y % 400 == 0 ==> y % 100 == 0
    ensures y % 100 == 0 ==> y % 4 == 0
  {
  }

  /**
   * The ISO week of 28 December is the number of ISO weeks of the year:
   * 53 when the year starts on a Thursday, or on a Wednesday in a leap year,
   * 52 otherwise. This is the rule of section 2.2.8 and 4.1.4 of ISO 8601:2004
   * ("long years"), worked out from the ordinal arithmetic `isocalendar` does.
   */
  lemma {:induction false} IsoWeekOfDecember28(y: int)
    requires 1 <= y <= 9999
    ensures var iso := IsoCalendar(Date(y, 12, 28));
      var jan1 := Weekday(Date(y, 1, 1));
      && iso.isoYear == y
      && iso.week == (if jan1 == 3 || (jan1 == 2 && IsLeap(y)) then 53 else 52)
  {
    var firstday := DaysBeforeYear(y) + 1;
    var fw := (firstday + 6) % 7;
    var leap := if IsLeap(y) then 1 else 0;
    var today := Ordinal(Date(y, 12, 28));
    assert today == firstday + 361 + leap;
    var w1 := IsoWeek1Monday(y);
    assert w1 == firstday - fw + (if fw > 3 then 7 else 0);
    var diff := today - w1;
    assert diff == 361 + leap + fw - (if fw > 3 then 7 else 0);
    YearLength(y);
    var nextFirst := DaysBeforeYear(y + 1) + 1;
    assert nextFirst == firstday + 365 + leap;
    var nfw := (nextFirst + 6) % 7;
    assert IsoWeek1Monday(y + 1) == nextFirst - nfw + (if nfw > 3 then 7 else 0);
    assert today < IsoWeek1Monday(y + 1);
    assert diff / 7 == (if fw <= 3 && leap + fw >= 3 then 52 else 51);
  }

  // ---------------------------------------------------------------------------
  // Dates the tests and the week guard turn on

  /** 1 January 2020 was a Wednesday, in %W week 0. */
  lemma NewYear2020()
    ensures ValidDate(Date(2020, 1, 1))
    ensures Weekday(Date(2020, 1, 1)) == 2 && WeekW(Date(2020, 1, 1)) == 0
  {
  }

  /** 27 December 2021 was a Monday, the first day of %W week 52 of 2021. */
  lemma LateDecember2021()
    ensures ValidDate(Date(2021, 12, 27))
    ensures Weekday(Date(2021, 12, 27)) == 0 && WeekW(Date(2021, 12, 27)) == 52
  {
  }
}
