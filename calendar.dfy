/** The proleptic Gregorian calendar, as far as the weekday of a parsed date needs it.
    Weekdays are numbered as pandas' `dayofweek` numbers them: Monday = 0 ... Sunday = 6. */
module Calendar {

  predicate IsLeapYear(y: int) {
    y % 4 == 0 && (y % 100 != 0 || y % 400 == 0)
  }

  function YearLength(y: int): int {
    if IsLeapYear(y) then 366 else 365
  }

  function DaysInMonth(y: int, m: int): (n: int)
    requires 1 <= m <= 12
    ensures 28 <= n <= 31
  {
    if m == 2 then (if IsLeapYear(y) then 29 else 28)
    else if m == 4 || m == 6 || m == 9 || m == 11 then 30
    else 31
  }

  predicate ValidDate(y: int, m: int, d: int) {
    y >= 1 && 1 <= m <= 12 && 1 <= d <= DaysInMonth(y, m)
  }

  /** Days in the years 1 .. y-1, in closed form. */
  function DaysBeforeYear(y: int): int
    requires y >= 1
  {
    365 * (y - 1) + (y - 1) / 4 - (y - 1) / 100 + (y - 1) / 400
  }

  /** Days in the months 1 .. m-1 of year y. */
  function DaysBeforeMonth(y: int, m: int): int
    requires 1 <= m <= 12
  {
    if m == 1 then 0 else DaysBeforeMonth(y, m - 1) + DaysInMonth(y, m - 1)
  }

  /** Days elapsed since 0001-01-01 (which was a Monday). */
  function DayNumber(y: int, m: int, d: int): int
    requires ValidDate(y, m, d)
  {
    DaysBeforeYear(y) + DaysBeforeMonth(y, m) + d - 1
  }

  /** Day of the week, Monday = 0. */
  function Weekday(y: int, m: int, d: int): (w: int)
    requires ValidDate(y, m, d)
    ensures 0 <= w < 7
  {
    DayNumber(y, m, d) % 7
  }

  /** The calendar day after y-m-d. */
  function NextDay(y: int, m: int, d: int): (r: (int, int, int))
    requires ValidDate(y, m, d)
    ensures ValidDate(r.0, r.1, r.2)
  {
    if d < DaysInMonth(y, m) then (y, m, d + 1)
    else if m < 12 then (y, m + 1, 1)
    else (y + 1, 1, 1)
  }

  /** Reference count of the days before year y: the lengths of the years 1 .. y-1 summed one by one. */
  function DaysBeforeYearByCount(y: int): int
    requires y >= 1
  {
    if y == 1 then 0 else DaysBeforeYearByCount(y - 1) + YearLength(y - 1)
  }

  /** Dividing by k, n and n - 1 differ by one exactly when k divides n. */
  lemma DivStep(n: int, k: int)
    requires n >= 1 && (k == 4 || k == 100 || k == 400)
    ensures n / k - (n - 1) / k == if n % k == 0 then 1 else 0
  {
    if k == 4 {
      assert n / 4 - (n - 1) / 4 == if n % 4 == 0 then 1 else 0;
    } else if k == 100 {
      assert n / 100 - (n - 1) / 100 == if n % 100 == 0 then 1 else 0;
    } else {
      assert n / 400 - (n - 1) / 400 == if n % 400 == 0 then 1 else 0;
    }
  }

  /** Each year's contribution to the closed form is its length. */
  lemma YearStep(y: int)
    requires y >= 1
    ensures DaysBeforeYear(y + 1) == DaysBeforeYear(y) + YearLength(y)
  {
    DivStep(y, 4);
    DivStep(y, 100);
    DivStep(y, 400);
    var c4 := if y % 4 == 0 then 1 else 0;
    var c100 := if y % 100 == 0 then 1 else 0;
    var c400 := if y % 400 == 0 then 1 else 0;
    assert DaysBeforeYear(y + 1) - DaysBeforeYear(y) == 365 + c4 - c100 + c400;
    if y % 400 == 0 {
      assert y == 100 * (4 * (y / 400));
      assert y % 100 == 0;
    }
    if y % 100 == 0 {
      assert y == 4 * (25 * (y / 100));
      assert y % 4 == 0;
    }
    assert c4 - c100 + c400 == if IsLeapYear(y) then 1 else 0;
  }

  /** The closed form agrees with counting year by year. */
  lemma {:induction false} DaysBeforeYearCounts(y: int)
    requires y >= 1
    ensures DaysBeforeYear(y) == DaysBeforeYearByCount(y)
  {
    if y > 1 {
      DaysBeforeYearCounts(y - 1);
      YearStep(y - 1);
    }
  }

  lemma MonthsFillYear(y: int)
    ensures DaysBeforeMonth(y, 12) + DaysInMonth(y, 12) == YearLength(y)
  {
    assert DaysBeforeMonth(y, 2) == 31;
    assert DaysBeforeMonth(y, 3) == 31 + DaysInMonth(y, 2);
    assert DaysBeforeMonth(y, 4) == DaysBeforeMonth(y, 3) + 31;
    assert DaysBeforeMonth(y, 5) == DaysBeforeMonth(y, 4) + 30;
    assert DaysBeforeMonth(y, 6) == DaysBeforeMonth(y, 5) + 31;
    assert DaysBeforeMonth(y, 7) == DaysBeforeMonth(y, 6) + 30;
    assert DaysBeforeMonth(y, 8) == DaysBeforeMonth(y, 7) + 31;
    assert DaysBeforeMonth(y, 9) == DaysBeforeMonth(y, 8) + 31;
    assert DaysBeforeMonth(y, 10) == DaysBeforeMonth(y, 9) + 30;
    assert DaysBeforeMonth(y, 11) == DaysBeforeMonth(y, 10) + 31;
    assert DaysBeforeMonth(y, 12) == DaysBeforeMonth(y, 11) + 30;
  }

  /** Consecutive days have consecutive day numbers. */
  lemma NextDayNumber(y: int, m: int, d: int)
    requires ValidDate(y, m, d)
    ensures DayNumber(NextDay(y, m, d).0, NextDay(y, m, d).1, NextDay(y, m, d).2) == DayNumber(y, m, d) + 1
  {
    if d == DaysInMonth(y, m) && m == 12 {
      YearStep(y);
      MonthsFillYear(y);
    }
  }

  /** The weekday advances by one, Sunday wrapping to Monday, from each day to the next. */
  lemma WeekdayAdvances(y: int, m: int, d: int)
    requires ValidDate(y, m, d)
    ensures Weekday(NextDay(y, m, d).0, NextDay(y, m, d).1, NextDay(y, m, d).2) == (Weekday(y, m, d) + 1) % 7
  {
    NextDayNumber(y, m, d);
  }

  /** Anchors: 0001-01-01 and 2024-06-10 were Mondays, 2024-06-15 a Saturday. */
  lemma KnownWeekdays()
    ensures Weekday(1, 1, 1) == 0
    ensures Weekday(2024, 6, 10) == 0
    ensures Weekday(2024, 6, 15) == 5
  {
  }
}
