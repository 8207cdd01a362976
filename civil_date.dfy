/** Calendar dates as JavaScript's `Date` sees them once the time of day is
    set aside: a proleptic Gregorian (year, month, day) with months counted
    0..11 as `getMonth()` does, a day count from 1970-01-01 (the Unix epoch)
    standing for the instant of local midnight, and `getDay()` with
    0 = Sunday. */
module CivilDate {

  datatype Date = Date(year: int, month: int, day: int)

  predicate IsLeapYear(y: int)
  {
    y % 4 == 0 && (y % 100 != 0 || y % 400 == 0)
  }

  function YearLength(y: int): int
  {
    if IsLeapYear(y) then 366 else 365
  }

  /** The day of the month that `new Date(y, m + 1, 0).getDate()` gives. */
  function DaysInMonth(y: int, m: int): (n: int)
    requires 0 <= m < 12
    ensures 28 <= n <= 31
    ensures n == 29 <==> m == 1 && IsLeapYear(y)
    ensures n == 28 <==> m == 1 && !IsLeapYear(y)
  {
    if m == 1 then (if IsLeapYear(y) then 29 else 28)
    else if m == 3 || m == 5 || m == 8 || m == 10 then 30
    else 31
  }

  predicate Valid(d: Date)
  {
    0 <= d.month < 12 && 1 <= d.day <= DaysInMonth(d.year, d.month)
  }

  /** Days of year `y` before the first of month `m`. */
  function DaysBeforeMonth(y: int, m: int): int
    requires 0 <= m <= 12
  {
    if m == 0 then 0 else DaysBeforeMonth(y, m - 1) + DaysInMonth(y, m - 1)
  }

  /** Number of leap years among 1..y (shifted consistently for y <= 0). */
  function LeapsThrough(y: int): int
  {
    y / 4 - y / 100 + y / 400
  }

  /** Days from 1970-01-01 to January 1 of year `y` (negative before 1970). */
  function DaysBeforeYear(y: int): int
  {
    365 * (y - 1970) + LeapsThrough(y - 1) - LeapsThrough(1969)
  }

  /** The day count of a date: 0 for 1970-01-01; one more for each following day. */
  function DayNumber(d: Date): int
    requires 0 <= d.month < 12
  {
    DaysBeforeYear(d.year) + DaysBeforeMonth(d.year, d.month) + d.day - 1
  }

  /** `getDay()`: 0 = Sunday, ..., 6 = Saturday. 1970-01-01 was a Thursday. */
  function Weekday(d: Date): (w: int)
    requires 0 <= d.month < 12
    ensures 0 <= w < 7
  {
    (DayNumber(d) + 4) % 7
  }

  predicate IsWeekend(d: Date)
    requires 0 <= d.month < 12
  {
    Weekday(d) == 0 || Weekday(d) == 6
  }

  lemma YearHasAllMonths(y: int)
    ensures DaysBeforeMonth(y, 12) == YearLength(y)
  {
    var feb := DaysInMonth(y, 1);
    assert DaysBeforeMonth(y, 1) == 31;
    assert DaysBeforeMonth(y, 2) == 31 + feb;
    assert DaysBeforeMonth(y, 3) == 62 + feb;
    assert DaysBeforeMonth(y, 4) == 92 + feb;
    assert DaysBeforeMonth(y, 5) == 123 + feb;
    assert DaysBeforeMonth(y, 6) == 153 + feb;
    assert DaysBeforeMonth(y, 7) == 184 + feb;
    assert DaysBeforeMonth(y, 8) == 215 + feb;
    assert DaysBeforeMonth(y, 9) == 245 + feb;
    assert DaysBeforeMonth(y, 10) == 276 + feb;
    assert DaysBeforeMonth(y, 11) == 306 + feb;
  }

  lemma DivStep(y: int, k: int)
    requires k == 4 || k == 100 || k == 400
    ensures y / k - (y - 1) / k == if y % k == 0 then 1 else 0
  {
    var q, r := y / k, y % k;
    assert y == k * q + r && 0 <= r < k;
    if r == 0 {
      assert y - 1 == k * (q - 1) + (k - 1);
    } else {
      assert y - 1 == k * q + (r - 1);
    }
  }

  /** One more year: January 1 of `y + 1` comes `YearLength(y)` days after January 1 of `y`. */
  lemma YearStep(y: int)
    ensures DaysBeforeYear(y + 1) == DaysBeforeYear(y) + YearLength(y)
  {
    DivStep(y, 4);
    DivStep(y, 100);
    DivStep(y, 400);
  }

  lemma {:induction false} DaysBeforeYearMonotone(y1: int, y2: int)
    requires y1 <= y2
    ensures DaysBeforeYear(y1) + 365 * (y2 - y1) <= DaysBeforeYear(y2)
    decreases y2 - y1
  {
    if y1 < y2 {
      DaysBeforeYearMonotone(y1, y2 - 1);
      YearStep(y2 - 1);
    }
  }

  lemma {:induction false} DaysBeforeMonthMonotone(y: int, m1: int, m2: int)
    requires 0 <= m1 <= m2 <= 12
    ensures DaysBeforeMonth(y, m1) + 28 * (m2 - m1) <= DaysBeforeMonth(y, m2)
    decreases m2 - m1
  {
    if m1 < m2 {
      DaysBeforeMonthMonotone(y, m1, m2 - 1);
    }
  }

  /** A valid date lies within its year: 0 <= day-of-year < YearLength. */
  lemma DayOfYearBounds(d: Date)
    requires Valid(d)
    ensures DaysBeforeYear(d.year) <= DayNumber(d) < DaysBeforeYear(d.year) + YearLength(d.year)
  {
    var y, m := d.year, d.month;
    assert DaysBeforeMonth(y, m + 1) == DaysBeforeMonth(y, m) + DaysInMonth(y, m);
    DaysBeforeMonthMonotone(y, 0, m);
    DaysBeforeMonthMonotone(y, m + 1, 12);
    YearHasAllMonths(y);
    assert 0 <= DaysBeforeMonth(y, m) + d.day - 1 < YearLength(y);
  }

  /** Different valid dates have different day counts (so instants at local
      midnight identify calendar days). */
  lemma DayNumberInjective(a: Date, b: Date)
    requires Valid(a) && Valid(b) && DayNumber(a) == DayNumber(b)
    ensures a == b
  {
    if a.year < b.year {
      EarlierYearEarlierDay(a, b);
    } else if b.year < a.year {
      EarlierYearEarlierDay(b, a);
    } else if a.month < b.month {
      EarlierMonthEarlierDay(a, b);
    } else if b.month < a.month {
      EarlierMonthEarlierDay(b, a);
    }
  }

  /** A valid date of an earlier year has a smaller day count. */
  lemma EarlierYearEarlierDay(a: Date, b: Date)
    requires Valid(a) && Valid(b) && a.year < b.year
    ensures DayNumber(a) < DayNumber(b)
  {
    DayOfYearBounds(a);
    DayOfYearBounds(b);
    YearStep(a.year);
    DaysBeforeYearMonotone(a.year + 1, b.year);
  }

  /** Within one year, a valid date of an earlier month has a smaller day count. */
  lemma EarlierMonthEarlierDay(a: Date, b: Date)
    requires Valid(a) && Valid(b) && a.year == b.year && a.month < b.month
    ensures DayNumber(a) < DayNumber(b)
  {
    assert DaysBeforeMonth(a.year, a.month + 1) == DaysBeforeMonth(a.year, a.month) + DaysInMonth(a.year, a.month);
    DaysBeforeMonthMonotone(a.year, a.month + 1, b.month);
  }

  /** The calendar day after `d`, carrying into the next month and year. */
  function NextDay(d: Date): (r: Date)
    requires Valid(d)
    ensures Valid(r) && DayNumber(r) == DayNumber(d) + 1
  {
    if d.day < DaysInMonth(d.year, d.month) then Date(d.year, d.month, d.day + 1)
    else if d.month < 11 then Date(d.year, d.month + 1, 1)
    else
      YearStep(d.year);
      YearHasAllMonths(d.year);
      assert DaysBeforeMonth(d.year, 12) == DaysBeforeMonth(d.year, 11) + 31;
      Date(d.year + 1, 0, 1)
  }

  /** Weekdays advance with the day count, modulo 7. */
  lemma WeekdayShift(d: Date, e: Date, n: int)
    requires 0 <= d.month < 12 && 0 <= e.month < 12
    requires DayNumber(e) == DayNumber(d) + n
    ensures Weekday(e) == (Weekday(d) + n) % 7
  {
    ModSevenShift(DayNumber(d) + 4, n);
  }

  lemma ModSevenShift(x: int, n: int)
    ensures (x + n) % 7 == (x % 7 + n) % 7
  {
    assert x == 7 * (x / 7) + x % 7;
    assert x + n == 7 * (x / 7) + (x % 7 + n);
  }

  /** `date.setDate(date.getDate() + n)` for n >= 0. */
  function AddDays(d: Date, n: nat): (r: Date)
    requires Valid(d)
    ensures Valid(r) && DayNumber(r) == DayNumber(d) + n
  {
    if n == 0 then d else NextDay(AddDays(d, n - 1))
  }

  /** Leap years repeat every 400 years, so 400 years always hold 146097 days. */
  lemma EraLength(q: int)
    ensures DaysBeforeYear(1970 + 400 * q) == 146097 * q
  {
    var y := 1969 + 400 * q;
    assert y == 4 * (492 + 100 * q) + 1;
    assert y / 4 == 492 + 100 * q;
    assert y == 100 * (19 + 4 * q) + 69;
    assert y / 100 == 19 + 4 * q;
    assert y == 400 * (4 + q) + 369;
    assert y / 400 == 4 + q;
  }

  function YearWalk(y: int, rem: int): (r: (int, int))
    requires 0 <= rem
    ensures 0 <= r.1 < YearLength(r.0)
    ensures DaysBeforeYear(r.0) + r.1 == DaysBeforeYear(y) + rem
    decreases rem
  {
    if rem < YearLength(y) then (y, rem)
    else
      YearStep(y);
      YearWalk(y + 1, rem - YearLength(y))
  }

  function MonthWalk(y: int, m: int, rem: int): (d: Date)
    requires 0 <= m < 12 && 0 <= rem
    requires DaysBeforeMonth(y, m) + rem < YearLength(y)
    ensures Valid(d) && d.year == y
    ensures DaysBeforeMonth(y, d.month) + d.day - 1 == DaysBeforeMonth(y, m) + rem
    decreases 12 - m
  {
    if rem < DaysInMonth(y, m) then Date(y, m, rem + 1)
    else
      YearHasAllMonths(y);
      MonthWalk(y, m + 1, rem - DaysInMonth(y, m))
  }

  /** The calendar day with day count `n` (what the `getUTC*` accessors read
      off an instant `n` days after the epoch). */
  function CivilFromDays(n: int): (d: Date)
    ensures Valid(d) && DayNumber(d) == n
  {
    var q := n / 146097;
    EraLength(q);
    var yr := YearWalk(1970 + 400 * q, n % 146097);
    YearHasAllMonths(yr.0);
    MonthWalk(yr.0, 0, yr.1)
  }

  /** Every valid date is what its own day count decodes to. */
  lemma CivilFromDaysOfDayNumber(d: Date)
    requires Valid(d)
    ensures CivilFromDays(DayNumber(d)) == d
  {
    DayNumberInjective(CivilFromDays(DayNumber(d)), d);
  }
}
