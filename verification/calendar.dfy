/**
 Proleptic Gregorian civil time at one-second resolution, built the way Python's
 datetime module numbers its days: the ordinal of 0001-01-01 is 1, and an instant
 is the number of seconds since 0001-01-01T00:00:00.
 */
module Calendar {

  /** Seconds in one day. */
  const Day: int := 86400

  /** The year range of Python's datetime (MINYEAR and MAXYEAR). */
  const MinYear: int := 1
  const MaxYear: int := 9999

  /** The range of a C int. CPython's datetime constructor converts each of
      its arguments to one and raises OverflowError for a value outside it,
      before it checks any calendar range. */
  const IntMin: int := -0x8000_0000
  const IntMax: int := 0x7FFF_FFFF

  predicate FitsCInt(x: int) {
    IntMin <= x <= IntMax
  }

  predicate IsLeap(year: int) {
    year % 4 == 0 && (year % 100 != 0 || year % 400 == 0)
  }

  function DaysInYear(year: int): int {
    if IsLeap(year) then 366 else 365
  }

  function DaysInMonth(year: int, month: int): int
    requires 1 <= month <= 12
  {
    if month == 2 && IsLeap(year) then 29
    else [31, 28, 31, 30, 31, 30, 31, 31, 30, 31, 30, 31][month - 1]
  }

  /** Days in the years 1 .. year-1, in closed form. */
  function DaysBeforeYear(year: int): int
    requires year >= 1
  {
    var y := year - 1;
    y * 365 + y / 4 - y / 100 + y / 400
  }

  /** Days in the months 1 .. month-1 of `year`, from the cumulative table. */
  function DaysBeforeMonth(year: int, month: int): int
    requires 1 <= month <= 12
  {
    [0, 31, 59, 90, 120, 151, 181, 212, 243, 273, 304, 334][month - 1]
    + (if month > 2 && IsLeap(year) then 1 else 0)
  }

  /** Day number of a date; 0001-01-01 is day 1. */
  function Ordinal(year: int, month: int, day: int): int
    requires year >= 1 && 1 <= month <= 12
  {
    DaysBeforeYear(year) + DaysBeforeMonth(year, month) + day
  }

  predicate ValidDate(year: int, month: int, day: int) {
    MinYear <= year <= MaxYear && 1 <= month <= 12 && 1 <= day <= DaysInMonth(year, month)
  }

  predicate ValidClock(hour: int, minute: int, second: int) {
    0 <= hour < 24 && 0 <= minute < 60 && 0 <= second < 60
  }

  /** Seconds since 0001-01-01T00:00:00 of a civil date and time of day. */
  function Instant(year: int, month: int, day: int, hour: int, minute: int, second: int): int
    requires year >= 1 && 1 <= month <= 12
  {
    (Ordinal(year, month, day) - 1) * Day + hour * 3600 + minute * 60 + second
  }

  /** datetime.max at one-second resolution: 9999-12-31T23:59:59. */
  const MaxInstant: int := Instant(MaxYear, 12, 31, 23, 59, 59)

  /** The instants a Python datetime can hold. */
  predicate ValidInstant(t: int) {
    0 <= t <= MaxInstant
  }

  /** First and last second of a civil month. */
  function MonthStart(year: int, month: int): int
    requires year >= 1 && 1 <= month <= 12
  {
    Instant(year, month, 1, 0, 0, 0)
  }

  function MonthEnd(year: int, month: int): int
    requires year >= 1 && 1 <= month <= 12
  {
    Instant(year, month, DaysInMonth(year, month), 23, 59, 59)
  }

  /** A closed interval of instants [start, end]. */
  datatype Interval = Interval(start: int, end: int)

  /** The month after (year, month); December rolls over to January of year+1. */
  function NextMonth(year: int, month: int): (r: (int, int))
    requires 1 <= month <= 12
    ensures 1 <= r.1 <= 12
    ensures r.0 * 12 + r.1 == year * 12 + month + 1
  {
    if month == 12 then (year + 1, 1) else (year, month + 1)
  }

  /** The instants of one civil month. */
  ghost predicate InMonth(t: int, year: int, month: int)
    requires year >= 1 && 1 <= month <= 12
  {
    exists day, hour, minute, second ::
      && 1 <= day <= DaysInMonth(year, month)
      && ValidClock(hour, minute, second)
      && t == Instant(year, month, day, hour, minute, second)
  }

  /** The instants of one civil year. */
  ghost predicate InYear(t: int, year: int)
    requires year >= 1
  {
    exists month :: 1 <= month <= 12 && InMonth(t, year, month)
  }

  // ---------------------------------------------------------------------------
  // Lemmas relating the closed forms to the calendar they encode
  // ---------------------------------------------------------------------------

  /** Counting multiples of `k` up to `year` gains one exactly when `year` is one. */
  lemma MultiplesUpTo(year: int, k: int)
    requires year >= 1 && (k == 4 || k == 100 || k == 400)
    ensures year / k == (year - 1) / k + (if year % k == 0 then 1 else 0)
  {
    if k == 4 {
      var q, r := (year - 1) / 4, (year - 1) % 4;
      assert year - 1 == 4 * q + r && 0 <= r < 4;
      if r == 3 {
        assert year == 4 * (q + 1);
      } else {
        assert year == 4 * q + (r + 1);
      }
    } else if k == 100 {
      var q, r := (year - 1) / 100, (year - 1) % 100;
      assert year - 1 == 100 * q + r && 0 <= r < 100;
      if r == 99 {
        assert year == 100 * (q + 1);
      } else {
        assert year == 100 * q + (r + 1);
      }
    } else {
      var q, r := (year - 1) / 400, (year - 1) % 400;
      assert year - 1 == 400 * q + r && 0 <= r < 400;
      if r == 399 {
        assert year == 400 * (q + 1);
      } else {
        assert year == 400 * q + (r + 1);
      }
    }
  }

  /** Multiples of 400 are multiples of 100, which are multiples of 4. */
  lemma CenturiesAreLeapCandidates(year: int)
    ensures year % 100 == 0 ==> year % 4 == 0
    ensures year % 400 == 0 ==> year % 100 == 0
  {
    if year % 100 == 0 {
      HundredsAreFours(year);
    }
    if year % 400 == 0 {
      FourHundredsAreHundreds(year);
    }
  }

  lemma HundredsAreFours(year: int)
    requires year % 100 == 0
    ensures year % 4 == 0
  {
    var q := year / 100;
    assert year == 100 * q;
    var k := 25 * q;
    assert year == 4 * k;
  }

  lemma FourHundredsAreHundreds(year: int)
    requires year % 400 == 0
    ensures year % 100 == 0
  {
    var q := year / 400;
    assert year == 400 * q;
    var k := 4 * q;
    assert year == 100 * k;
  }

  /** The closed form of DaysBeforeYear adds exactly the length of each year. */
  lemma DaysBeforeYearNext(year: int)
    requires year >= 1
    ensures DaysBeforeYear(year + 1) == DaysBeforeYear(year) + DaysInYear(year)
  {
    MultiplesUpTo(year, 4);
    MultiplesUpTo(year, 100);
    MultiplesUpTo(year, 400);
    CenturiesAreLeapCandidates(year);
    var y := year - 1;
    assert DaysBeforeYear(year) == y * 365 + y / 4 - y / 100 + y / 400;
    assert DaysBeforeYear(year + 1) == year * 365 + year / 4 - year / 100 + year / 400;
    assert year * 365 == y * 365 + 365;
  }

  /** The cumulative month table agrees with the month lengths. */
  lemma DaysBeforeMonthNext(year: int, month: int)
    requires 1 <= month < 12
    ensures DaysBeforeMonth(year, month + 1) == DaysBeforeMonth(year, month) + DaysInMonth(year, month)
  {
  }

  /** December ends the year: its last day is the year's last day. */
  lemma DecemberEndsYear(year: int)
    ensures DaysBeforeMonth(year, 12) + DaysInMonth(year, 12) == DaysInYear(year)
  {
  }

  /** The instant after the last second of a month is the first instant of the next month. */
  lemma {:induction false} MonthEndsWhereNextBegins(year: int, month: int)
    requires year >= 1 && 1 <= month <= 12
    ensures var (ny, nm) := NextMonth(year, month);
      MonthEnd(year, month) + 1 == MonthStart(ny, nm)
  {
    if month == 12 {
      DaysBeforeYearNext(year);
      DecemberEndsYear(year);
    } else {
      DaysBeforeMonthNext(year, month);
    }
  }

  /** The instants of a month are exactly the interval from its first to its last second. */
  lemma {:induction false} InMonthIff(t: int, year: int, month: int)
    requires year >= 1 && 1 <= month <= 12
    ensures InMonth(t, year, month) <==> MonthStart(year, month) <= t <= MonthEnd(year, month)
  {
    var first := MonthStart(year, month);
    var last := MonthEnd(year, month);
    if first <= t <= last {
      var off := t - first;
      var day := off / Day + 1;
      var rem := off % Day;
      var hour, minute, second := rem / 3600, (rem % 3600) / 60, rem % 60;
      assert off == (day - 1) * Day + rem;
      assert rem == hour * 3600 + minute * 60 + second;
      assert 1 <= day <= DaysInMonth(year, month);
      assert t == Instant(year, month, day, hour, minute, second);
      assert InMonth(t, year, month);
    }
    if InMonth(t, year, month) {
      var day, hour, minute, second :|
        && 1 <= day <= DaysInMonth(year, month)
        && ValidClock(hour, minute, second)
        && t == Instant(year, month, day, hour, minute, second);
      assert first <= t <= last;
    }
  }

  /** Later years start later: each year holds at least 365 days. */
  lemma {:induction false} DaysBeforeYearGrows(a: int, b: int)
    requires 1 <= a <= b
    ensures DaysBeforeYear(a) + (b - a) * 365 <= DaysBeforeYear(b)
    decreases b - a
  {
    if a < b {
      DaysBeforeYearGrows(a, b - 1);
      DaysBeforeYearNext(b - 1);
    }
  }

  /** Every civil date and time of day in datetime's range is an instant in its range. */
  lemma InstantInRange(year: int, month: int, day: int, hour: int, minute: int, second: int)
    requires ValidDate(year, month, day) && ValidClock(hour, minute, second)
    ensures ValidInstant(Instant(year, month, day, hour, minute, second))
  {
    DaysBeforeYearGrows(year, MaxYear);
    if year < MaxYear {
      DaysBeforeYearGrows(year + 1, MaxYear);
      DaysBeforeYearNext(year);
      DaysBeforeMonthWithinYear(year, month);
    }
  }

  /** A month's days fit inside its year. */
  lemma DaysBeforeMonthWithinYear(year: int, month: int)
    requires 1 <= month <= 12
    ensures 0 <= DaysBeforeMonth(year, month)
    ensures DaysBeforeMonth(year, month) + DaysInMonth(year, month) <= DaysInYear(year)
  {
  }

  /** The months of a year, taken in order up to `month`, leave no instant out. */
  lemma {:induction false} SomeMonthHolds(t: int, year: int, month: int)
    requires year >= 1 && 1 <= month <= 12
    requires MonthStart(year, 1) <= t <= MonthEnd(year, month)
    ensures exists m :: 1 <= m <= month && InMonth(t, year, m)
    decreases month
  {
    InMonthIff(t, year, month);
    if t < MonthStart(year, month) {
      MonthEndsWhereNextBegins(year, month - 1);
      SomeMonthHolds(t, year, month - 1);
    }
  }

  /** The instants of a year are exactly the interval from its first to its last second. */
  lemma {:induction false} InYearIff(t: int, year: int)
    requires year >= 1
    ensures InYear(t, year) <==> MonthStart(year, 1) <= t <= MonthEnd(year, 12)
  {
    if MonthStart(year, 1) <= t <= MonthEnd(year, 12) {
      SomeMonthHolds(t, year, 12);
    }
    if InYear(t, year) {
      var m :| 1 <= m <= 12 && InMonth(t, year, m);
      InMonthIff(t, year, m);
      DaysBeforeMonthWithinYear(year, m);
      DecemberEndsYear(year);
    }
  }
}
