/**
 The calendar requests of VirginMobile: a month or a year turned into the
 inclusive interval from its first second to one second before the next
 month or year begins.
 */
module Bounds {
  import opened Wrappers
  import opened Calendar

  /** iter_history_month's bounds: datetime(year, month, 1) up to one second
      before the first day of the next month, December rolling over to January
      of year+1. The datetime constructor raises OverflowError for a year or
      month that is not a C int, ValueError for a year outside 1..9999 or a
      month outside 1..12, and ValueError for the rollover past year 9999. */
  function MonthBounds(year: int, month: int): (r: Result<Interval>)
    ensures r.Success? <==>
      MinYear <= year <= MaxYear && 1 <= month <= 12 && !(month == 12 && year == MaxYear)
    ensures r.Failure? ==>
      r.error == if FitsCInt(year) && FitsCInt(month) then ValueError else OverflowError
    ensures r.Success? ==>
      && r.value.start == Instant(year, month, 1, 0, 0, 0)
      && r.value.end == Instant(year, month, DaysInMonth(year, month), 23, 59, 59)
      && r.value.start < r.value.end
      && ValidInstant(r.value.start) && ValidInstant(r.value.end)
    ensures r.Success? ==> var (ny, nm) := NextMonth(year, month);
      r.value.end + 1 == Instant(ny, nm, 1, 0, 0, 0)
  {
    if !(FitsCInt(year) && FitsCInt(month)) then Failure(OverflowError)
    else if !(MinYear <= year <= MaxYear && 1 <= month <= 12) then Failure(ValueError)
    else
      var start := Instant(year, month, 1, 0, 0, 0);
      var (ny, nm) := NextMonth(year, month);
      if ny > MaxYear then Failure(ValueError)
      else
        MonthEndsWhereNextBegins(year, month);
        InstantInRange(year, month, 1, 0, 0, 0);
        InstantInRange(year, month, DaysInMonth(year, month), 23, 59, 59);
        Success(Interval(start, Instant(ny, nm, 1, 0, 0, 0) - 1))
  }

  /** iter_history_year's bounds: datetime(year, 1, 1) up to one second before
      datetime(year + 1, 1, 1); OverflowError when the year is not a C int,
      ValueError when either year is out of 1..9999. */
  function YearBounds(year: int): (r: Result<Interval>)
    ensures r.Success? <==> MinYear <= year < MaxYear
    ensures r.Failure? ==> r.error == if FitsCInt(year) then ValueError else OverflowError
    ensures r.Success? ==>
      && r.value.start == Instant(year, 1, 1, 0, 0, 0)
      && r.value.end == Instant(year, 12, 31, 23, 59, 59)
      && r.value.end + 1 == Instant(year + 1, 1, 1, 0, 0, 0)
      && r.value.end - r.value.start + 1 == DaysInYear(year) * Day
      && ValidInstant(r.value.start) && ValidInstant(r.value.end)
  {
    if !FitsCInt(year) then Failure(OverflowError)
    else if !(MinYear <= year <= MaxYear) || year + 1 > MaxYear then Failure(ValueError)
    else
      MonthEndsWhereNextBegins(year, 12);
      DaysBeforeYearNext(year);
      InstantInRange(year, 1, 1, 0, 0, 0);
      InstantInRange(year, 12, 31, 23, 59, 59);
      Success(Interval(Instant(year, 1, 1, 0, 0, 0), Instant(year + 1, 1, 1, 0, 0, 0) - 1))
  }

  /** A month request asks for exactly the instants of that civil month. */
  lemma MonthBoundsExact(year: int, month: int, t: int)
    requires MonthBounds(year, month).Success?
    ensures var b := MonthBounds(year, month).value;
      b.start <= t <= b.end <==> InMonth(t, year, month)
  {
    InMonthIff(t, year, month);
  }

  /** A year request asks for exactly the instants of that civil year. */
  lemma YearBoundsExact(year: int, t: int)
    requires YearBounds(year).Success?
    ensures var b := YearBounds(year).value;
      b.start <= t <= b.end <==> InYear(t, year)
  {
    InYearIff(t, year);
  }

  /** A year request spans its twelve month requests: it starts where January
      starts and ends where December ends. */
  lemma YearIsTwelveMonths(year: int)
    requires YearBounds(year).Success?
    ensures MonthBounds(year, 1).Success? && MonthBounds(year, 12).Success?
    ensures YearBounds(year).value.start == MonthBounds(year, 1).value.start
    ensures YearBounds(year).value.end == MonthBounds(year, 12).value.end
  {
  }
}
