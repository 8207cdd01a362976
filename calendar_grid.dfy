/** The calendar navigator of the appointment scheduler
    (src/components/AppointmentScheduler.jsx): the Sunday-based day grid of
    the displayed month, month/year navigation with wrap-around, the rule
    that disables past dates and weekends, the weekend shift of the initial
    date and the same-day test. */
module CalendarGrid {
  import opened Wrappers
  import opened CivilDate

  /** Reference definition of the grid: `w` blanks, `w` the weekday of the
      first, then the days 1..N of the month. */
  function MonthGrid(year: int, month: int): (grid: seq<Option<Date>>)
    requires 0 <= month < 12
  {
    var w := Weekday(Date(year, month, 1));
    seq(w + DaysInMonth(year, month),
        i requires 0 <= i < w + DaysInMonth(year, month) =>
          if i < w then None else Some(Date(year, month, i - w + 1)))
  }

  /** `daysInMonth`: push one blank per weekday before the first, then one
      date per day of the month. */
  method BuildMonthGrid(year: int, month: int) returns (days: seq<Option<Date>>)
    requires 0 <= month < 12
    ensures days == MonthGrid(year, month)
  {
    days := [];
    var firstWeekday := Weekday(Date(year, month, 1));
    var lastDay := DaysInMonth(year, month);
    for i := 0 to firstWeekday
      invariant |days| == i
      invariant forall k :: 0 <= k < i ==> days[k] == None
    {
      days := days + [None];
    }
    for d := 1 to lastDay + 1
      invariant |days| == firstWeekday + d - 1
      invariant forall k :: 0 <= k < firstWeekday ==> days[k] == None
      invariant forall k :: firstWeekday <= k < |days| ==> days[k] == Some(Date(year, month, k - firstWeekday + 1))
    {
      days := days + [Some(Date(year, month, d))];
    }
  }

  /** The grid is a 7-column calendar starting on Sunday: exactly the leading
      blanks are empty, every other cell holds a valid date of the month,
      the days run 1..N in order, and each date sits in the column of its
      weekday. */
  lemma {:induction false} MonthGridShape(year: int, month: int)
    requires 0 <= month < 12
    ensures var grid := MonthGrid(year, month);
            var w := Weekday(Date(year, month, 1));
            && |grid| == w + DaysInMonth(year, month)
            && (forall i :: 0 <= i < |grid| ==> (grid[i] == None <==> i < w))
            && (forall i :: w <= i < |grid| ==>
                  grid[i].Some? && Valid(grid[i].value)
                  && grid[i].value.year == year && grid[i].value.month == month
                  && grid[i].value.day == i - w + 1
                  && Weekday(grid[i].value) == i % 7)
  {
    var grid := MonthGrid(year, month);
    var first := Date(year, month, 1);
    var w := Weekday(first);
    forall i | w <= i < |grid|
      ensures Weekday(grid[i].value) == i % 7
    {
      var d := grid[i].value;
      assert DayNumber(d) == DayNumber(first) + (i - w);
      WeekdayShift(first, d, i - w);
    }
  }

  /** February has 29 days in 2024 and 28 in 2023, so the grid holds that many dates. */
  lemma FebruaryGrids()
    ensures |MonthGrid(2024, 1)| == Weekday(Date(2024, 1, 1)) + 29
    ensures |MonthGrid(2023, 1)| == Weekday(Date(2023, 1, 1)) + 28
    ensures Weekday(Date(2024, 1, 1)) == 4 && Weekday(Date(2023, 1, 1)) == 3
  {
  }

  /** `handleMonthChange`: step the displayed month by `direction`, wrapping
      below 0 to December of the year before and above 11 to January of the
      year after. */
  function NavigateMonth(month: int, year: int, direction: int): (r: (int, int))
    ensures 0 <= r.0 <= 11
    ensures 0 <= month <= 11 && -1 <= direction <= 1 ==>
              r.1 * 12 + r.0 == year * 12 + month + direction
  {
    var next := month + direction;
    if next < 0 then (11, year - 1)
    else if next > 11 then (0, year + 1)
    else (next, year)
  }

  /** Forward from December lands in January of the next year, back from
      January in December of the year before; any step that stays inside the
      year keeps the year; forward then back restores the month and year. */
  lemma NavigateMonthWraps(month: int, year: int, direction: int)
    requires 0 <= month <= 11 && -1 <= direction <= 1
    ensures NavigateMonth(11, year, 1) == (0, year + 1)
    ensures NavigateMonth(0, year, -1) == (11, year - 1)
    ensures 0 <= month + direction <= 11 ==> NavigateMonth(month, year, direction) == (month + direction, year)
    ensures var f := NavigateMonth(month, year, 1); NavigateMonth(f.0, f.1, -1) == (month, year)
    ensures var b := NavigateMonth(month, year, -1); NavigateMonth(b.0, b.1, 1) == (month, year)
  {
  }

  /** The instant of local midnight at the start of `d`, in days: `date <
      new Date(y, m, d)` compares these. */
  predicate IsBefore(a: Date, b: Date)
    requires 0 <= a.month < 12 && 0 <= b.month < 12
  {
    DayNumber(a) < DayNumber(b)
  }

  /** The selectability rule of the grid: a date is disabled when it lies
      before today's date or falls on a Saturday or Sunday. */
  predicate IsDisabled(date: Date, today: Date)
    requires 0 <= date.month < 12 && 0 <= today.month < 12
  {
    IsBefore(date, today) || IsWeekend(date)
  }

  /** The first and last columns of the grid (Sunday and Saturday) are always
      disabled, whatever today is; a date in the five middle columns is
      disabled exactly when it is before today. */
  lemma GridWeekendColumnsDisabled(year: int, month: int, today: Date, i: int)
    requires 0 <= month < 12 && 0 <= today.month < 12
    requires 0 <= i < |MonthGrid(year, month)| && MonthGrid(year, month)[i].Some?
    ensures var d := MonthGrid(year, month)[i].value;
            (i % 7 == 0 || i % 7 == 6 ==> IsDisabled(d, today))
            && (1 <= i % 7 <= 5 ==> (IsDisabled(d, today) <==> IsBefore(d, today)))
  {
    MonthGridShape(year, month);
  }

  /** The initial selected date: today, moved to Monday when today is a
      weekend day (Sunday + 1 day, Saturday + 2 days). */
  function InitialDate(now: Date): (r: Date)
    requires Valid(now)
    ensures Valid(r)
    ensures DayNumber(now) <= DayNumber(r) <= DayNumber(now) + 2
  {
    var day := Weekday(now);
    if day == 0 then AddDays(now, 1)
    else if day == 6 then AddDays(now, 2)
    else now
  }

  /** The initial date is the first weekday on or after today: it is not a
      Saturday or Sunday, and every day skipped to reach it is one. */
  lemma InitialDateIsFirstWeekday(now: Date)
    requires Valid(now)
    ensures !IsWeekend(InitialDate(now))
    ensures !IsWeekend(now) ==> InitialDate(now) == now
    ensures forall k :: DayNumber(now) <= k < DayNumber(InitialDate(now)) ==> IsWeekend(CivilFromDays(k))
  {
    var wd := Weekday(now);
    if wd == 0 {
      SundayShift(now);
    } else if wd == 6 {
      SaturdayShift(now);
    }
  }

  lemma SundayShift(now: Date)
    requires Valid(now) && Weekday(now) == 0
    ensures var r := AddDays(now, 1);
            Weekday(r) == 1 && forall k :: DayNumber(now) <= k < DayNumber(r) ==> IsWeekend(CivilFromDays(k))
  {
    var r := AddDays(now, 1);
    WeekdayShift(now, r, 1);
    forall k | DayNumber(now) <= k < DayNumber(r) ensures IsWeekend(CivilFromDays(k)) {
      WeekendDay(now, k);
    }
  }

  lemma SaturdayShift(now: Date)
    requires Valid(now) && Weekday(now) == 6
    ensures var r := AddDays(now, 2);
            Weekday(r) == 1 && forall k :: DayNumber(now) <= k < DayNumber(r) ==> IsWeekend(CivilFromDays(k))
  {
    var r := AddDays(now, 2);
    WeekdayShift(now, r, 2);
    forall k | DayNumber(now) <= k < DayNumber(r) ensures IsWeekend(CivilFromDays(k)) {
      WeekendDay(now, k);
    }
  }

  /** The days a weekend start skips: a Saturday and the Sunday after it, or a Sunday. */
  lemma WeekendDay(now: Date, k: int)
    requires Valid(now)
    requires || (Weekday(now) == 6 && DayNumber(now) <= k <= DayNumber(now) + 1)
             || (Weekday(now) == 0 && k == DayNumber(now))
    ensures IsWeekend(CivilFromDays(k))
  {
    var day := CivilFromDays(k);
    if k == DayNumber(now) {
      WeekdayShift(now, day, 0);
    } else {
      WeekdayShift(now, day, 1);
    }
  }

  /** The initial date is never disabled, on any day the widget opens. */
  lemma InitialDateSelectable(now: Date)
    requires Valid(now)
    ensures !IsDisabled(InitialDate(now), InitialDate(now))
  {
    InitialDateIsFirstWeekday(now);
  }

  /** `isSameDay`: both dates present and equal in year, month and day. */
  predicate IsSameDay(a: Option<Date>, b: Option<Date>)
  {
    a.Some? && b.Some? && a.value.year == b.value.year
    && a.value.month == b.value.month && a.value.day == b.value.day
  }

  /** For valid dates, the component-wise test is the same as comparing the
      instants of local midnight: two dates are the same day exactly when
      they denote the same day count. */
  lemma IsSameDayIffSameInstant(a: Option<Date>, b: Option<Date>)
    requires a.Some? ==> Valid(a.value)
    requires b.Some? ==> Valid(b.value)
    ensures IsSameDay(a, b) <==> a.Some? && b.Some? && DayNumber(a.value) == DayNumber(b.value)
  {
    if a.Some? && b.Some? && DayNumber(a.value) == DayNumber(b.value) {
      DayNumberInjective(a.value, b.value);
    }
  }
}
