/**
 VirginMobile.iter_history and the report `main` builds from it: the planner's
 windows are fetched one after another, every record of every page is passed
 on, and the collected stream is sorted by date.
 */
module History {
  import opened Wrappers
  import opened Calendar
  import opened Entries
  import opened Bounds
  import opened Planner
  import opened Pagination

  /** Every window comes back short at some page index of its own, none of
      them later than `bound`. */
  predicate AllShortBy(t: Transport, number: string, ws: seq<Interval>, bound: nat) {
    forall i :: 0 <= i < |ws| ==> ShortWithin(t, number, ws[i], 0, bound)
  }

  /** The latest of several page indices. */
  function Latest(bounds: seq<nat>): (m: nat)
    ensures forall i :: 0 <= i < |bounds| ==> bounds[i] <= m
    ensures bounds != [] ==> exists i :: 0 <= i < |bounds| && bounds[i] == m
  {
    if bounds == [] then 0
    else
      var rest := Latest(bounds[1..]);
      assert forall i :: 1 <= i < |bounds| ==> bounds[i] == bounds[1..][i - 1];
      if bounds[0] <= rest then rest else bounds[0]
  }

  /** Requiring one `bound` for all windows loses nothing: when window i
      comes back short by its own page `bounds[i]`, the latest of those pages
      bounds every window. */
  lemma CommonBound(t: Transport, number: string, ws: seq<Interval>, bounds: seq<nat>)
    requires |bounds| == |ws|
    requires forall i :: 0 <= i < |ws| ==> ShortWithin(t, number, ws[i], 0, bounds[i])
    ensures AllShortBy(t, number, ws, Latest(bounds))
  {
    forall i | 0 <= i < |ws| ensures ShortWithin(t, number, ws[i], 0, Latest(bounds)) {
      ShortWithinWiden(t, number, ws[i], 0, bounds[i], Latest(bounds));
    }
  }

  /** The requests of several fetches, one after another, and their records likewise. */
  function Join(a: Trace, b: Trace): Trace {
    Trace(a.requests + b.requests, a.records + b.records)
  }

  /** The windows fetched in order: requests and records of window i come
      before those of window i+1. Every request carries the subscriber number,
      one of the windows' bounds and the page size 500, and the records are
      exactly the responses' records in request order. */
  function FetchAll(t: Transport, number: string, ws: seq<Interval>, bound: nat): (f: Trace)
    requires AllShortBy(t, number, ws, bound)
    ensures f.records == Served(t, f.requests)
    ensures forall r :: r in f.requests ==>
      r.number == number && r.pageSize == PageSize && Interval(r.start, r.end) in ws
    ensures |ws| <= |f.requests|
  {
    if ws == [] then Trace([], [])
    else
      var first := FetchWindow(t, number, ws[0], bound);
      var rest := FetchAll(t, number, ws[1..], bound);
      ServedAppend(t, first.requests, rest.requests);
      assert forall r :: r in first.requests ==> Interval(r.start, r.end) == ws[0];
      Join(first, rest)
  }

  /** A run of windows that all reach a short page splits into two such runs. */
  lemma AllShortBySplit(t: Transport, number: string, a: seq<Interval>, b: seq<Interval>, bound: nat)
    requires AllShortBy(t, number, a + b, bound)
    ensures AllShortBy(t, number, a, bound) && AllShortBy(t, number, b, bound)
  {
    forall i | 0 <= i < |a| ensures ShortWithin(t, number, a[i], 0, bound) {
      assert (a + b)[i] == a[i];
    }
    forall i | 0 <= i < |b| ensures ShortWithin(t, number, b[i], 0, bound) {
      assert (a + b)[|a| + i] == b[i];
    }
  }

  /** Fetching consecutive runs of windows is fetching them one run after the other. */
  lemma {:induction false} FetchAllAppend(t: Transport, number: string, a: seq<Interval>, b: seq<Interval>, bound: nat)
    requires AllShortBy(t, number, a + b, bound)
    ensures AllShortBy(t, number, a, bound) && AllShortBy(t, number, b, bound)
    ensures FetchAll(t, number, a + b, bound) == Join(FetchAll(t, number, a, bound), FetchAll(t, number, b, bound))
  {
    AllShortBySplit(t, number, a, b, bound);
    if a == [] {
      var y := FetchAll(t, number, b, bound);
      assert a + b == b;
      assert [] + y.requests == y.requests && [] + y.records == y.records;
    } else {
      TailOfAppend(a, b);
      FetchAllCons(t, number, a + b, bound);
      FetchAllCons(t, number, a, bound);
      var w := FetchWindow(t, number, a[0], bound);
      var x := FetchAll(t, number, a[1..], bound);
      var y := FetchAll(t, number, b, bound);
      calc {
        FetchAll(t, number, a + b, bound);
        Join(w, FetchAll(t, number, a[1..] + b, bound));
        { FetchAllAppend(t, number, a[1..], b, bound); }
        Join(w, Join(x, y));
        { JoinAssociative(w, x, y); }
        Join(Join(w, x), y);
        Join(FetchAll(t, number, a, bound), y);
      }
    }
  }

  /** One step of the window loop: the first window, then the rest. */
  lemma FetchAllCons(t: Transport, number: string, ws: seq<Interval>, bound: nat)
    requires ws != [] && AllShortBy(t, number, ws, bound)
    ensures AllShortBy(t, number, ws[1..], bound)
    ensures FetchAll(t, number, ws, bound) ==
      Join(FetchWindow(t, number, ws[0], bound), FetchAll(t, number, ws[1..], bound))
  {
  }

  lemma JoinAssociative(a: Trace, b: Trace, c: Trace)
    ensures Join(a, Join(b, c)) == Join(Join(a, b), c)
  {
    assert a.requests + (b.requests + c.requests) == (a.requests + b.requests) + c.requests;
    assert a.records + (b.records + c.records) == (a.records + b.records) + c.records;
  }

  /** A single window is fetched by iter_history_step alone. */
  lemma FetchAllSingle(t: Transport, number: string, w: Interval, bound: nat)
    requires ShortWithin(t, number, w, 0, bound)
    ensures AllShortBy(t, number, [w], bound)
    ensures FetchAll(t, number, [w], bound) == FetchWindow(t, number, w, bound)
  {
    var f := FetchWindow(t, number, w, bound);
    assert [w][1..] == [];
    assert f.requests + [] == f.requests && f.records + [] == f.records;
  }

  /** The loop computes start + 15 days for every window it visits; once that
      passes datetime.max the addition raises OverflowError. */
  predicate StepOverflows(ws: seq<Interval>) {
    exists i :: 0 <= i < |ws| && ws[i].start + Step > MaxInstant
  }

  /** Every window the loop gets to fetch comes back short by page `bound`.
      A window whose start + 15 days overflows raises before it is fetched,
      so nothing is asked of it. */
  predicate FetchedShortBy(t: Transport, number: string, ws: seq<Interval>, bound: nat) {
    forall i :: 0 <= i < |ws| && ws[i].start + Step <= MaxInstant ==> ShortWithin(t, number, ws[i], 0, bound)
  }

  /** iter_history(number, start, end), with the clock reading `now`, consumed
      to the end: every window's fetch in window order, or OverflowError when
      some window's start + 15 days lies past datetime.max. */
  function Stream(t: Transport, number: string, start: int, end: int, now: int, bound: nat): (r: Result<Trace>)
    requires FetchedShortBy(t, number, Plan(start, end, now), bound)
    ensures r.Failure? <==> StepOverflows(Plan(start, end, now))
    ensures r.Failure? ==> r.error == OverflowError
    ensures r.Success? ==>
      && AllShortBy(t, number, Plan(start, end, now), bound)
      && r.value == FetchAll(t, number, Plan(start, end, now), bound)
    ensures r.Success? && start > Min(end, now) ==> r.value == Trace([], [])
  {
    var ws := Plan(start, end, now);
    if ws != [] && ws[|ws| - 1].start + Step > MaxInstant then
      assert StepOverflows(ws) by {
        var last := |ws| - 1;
        assert ws[last].start + Step > MaxInstant;
      }
      Failure(OverflowError)
    else
      assert !StepOverflows(ws) by {
        PlanStartsIncrease(start, end, now);
      }
      Success(FetchAll(t, number, ws, bound))
  }

  /** A plan whose every window is fetched, with no overflow, streams
      exactly the fetch of all its windows. */
  lemma StreamWithoutOverflow(t: Transport, number: string, start: int, end: int, now: int, bound: nat)
    requires AllShortBy(t, number, Plan(start, end, now), bound)
    requires !StepOverflows(Plan(start, end, now))
    ensures FetchedShortBy(t, number, Plan(start, end, now), bound)
    ensures Stream(t, number, start, end, now, bound) == Success(FetchAll(t, number, Plan(start, end, now), bound))
  {
  }

  /** The two command-line requests that name a calendar period. */
  datatype Period = Month(year: int, month: int) | Year(year: int)

  /** The command-line numbers of a period are all C ints, as CPython's
      datetime constructor demands of its arguments. */
  predicate ArgumentsFitCInt(p: Period) {
    match p
    case Month(y, m) => FitsCInt(y) && FitsCInt(m)
    case Year(y) => FitsCInt(y)
  }

  /** The range `main` asks iter_history for: the month's or the year's
      bounds; OverflowError for a number that is not a C int, ValueError when
      datetime cannot hold the period. */
  function PeriodBounds(p: Period): (r: Result<Interval>)
    ensures p.Month? ==> (r.Success? <==>
      MinYear <= p.year <= MaxYear && 1 <= p.month <= 12 && !(p.month == 12 && p.year == MaxYear))
    ensures p.Year? ==> (r.Success? <==> MinYear <= p.year < MaxYear)
    ensures r.Failure? ==> r.error == if ArgumentsFitCInt(p) then ValueError else OverflowError
    ensures r.Success? ==>
      r.value.start < r.value.end && ValidInstant(r.value.start) && ValidInstant(r.value.end)
  {
    match p
    case Month(y, m) => MonthBounds(y, m)
    case Year(y) => YearBounds(y)
  }

  /** The service answers every window of the period's plan with a short page by `bound`. */
  predicate Finite(t: Transport, number: string, p: Period, now: int, bound: nat) {
    PeriodBounds(p).Success? ==>
      FetchedShortBy(t, number, Plan(PeriodBounds(p).value.start, PeriodBounds(p).value.end, now), bound)
  }

  /** `sorted(entries)` over the stream for a calendar period: OverflowError
      or ValueError for a period datetime cannot hold, otherwise the stream's
      records ordered by date, equal dates in fetch order. */
  function Report(t: Transport, number: string, p: Period, now: int, bound: nat): (r: Result<seq<Entry>>)
    requires Finite(t, number, p, now, bound)
    ensures r.Failure? <==> PeriodBounds(p).Failure?
    ensures r.Failure? ==> r.error == if ArgumentsFitCInt(p) then ValueError else OverflowError
    ensures PeriodBounds(p).Success? ==>
      var b := PeriodBounds(p).value;
      var s := Stream(t, number, b.start, b.end, now, bound);
      && s.Success? && r.Success?
      && Ordered(r.value) && multiset(r.value) == multiset(s.value.records)
      && (forall d :: WithDate(r.value, d) == WithDate(s.value.records, d))
  {
    var b :- PeriodBounds(p);
    PeriodNeverOverflows(p, now);
    var s := Stream(t, number, b.start, b.end, now, bound).value;
    SortStableAll(s.records);
    Success(Sort(s.records))
  }

  /** No window of a calendar period overflows: the period ends at least a
      month before datetime.max, so every window's start + 15 days is a
      datetime. The planner's OverflowError is out of a period's reach. */
  lemma PeriodNeverOverflows(p: Period, now: int)
    requires PeriodBounds(p).Success?
    ensures var b := PeriodBounds(p).value;
      !StepOverflows(Plan(b.start, b.end, now))
  {
    var b := PeriodBounds(p).value;
    var ny, nm;
    if p.Month? {
      ny, nm := NextMonth(p.year, p.month).0, NextMonth(p.year, p.month).1;
    } else {
      ny, nm := p.year + 1, 1;
    }
    assert b.end + 1 == Instant(ny, nm, 1, 0, 0, 0) && ny <= MaxYear;
    RoomAfterMonthStart(ny, nm);
    PlanWithinRange(b.start, b.end, now);
  }

  /** Fifteen days after the first of any month of 1..9999 is still a datetime. */
  lemma RoomAfterMonthStart(year: int, month: int)
    requires MinYear <= year <= MaxYear && 1 <= month <= 12
    ensures MonthStart(year, month) - 1 + Step <= MaxInstant
  {
    InstantInRange(year, month, 16, 0, 0, 0);
    assert Instant(year, month, 16, 0, 0, 0) == MonthStart(year, month) + 15 * Day;
  }

  /** Which bound is assumed does not change the fetch of any run of windows. */
  lemma {:induction false} FetchAllBoundIrrelevant(t: Transport, number: string, ws: seq<Interval>, b1: nat, b2: nat)
    requires AllShortBy(t, number, ws, b1) && AllShortBy(t, number, ws, b2)
    ensures FetchAll(t, number, ws, b1) == FetchAll(t, number, ws, b2)
  {
    if ws != [] {
      FetchAllCons(t, number, ws, b1);
      FetchAllCons(t, number, ws, b2);
      FetchBoundIrrelevant(t, number, ws[0], 0, b1, b2);
      FetchAllBoundIrrelevant(t, number, ws[1..], b1, b2);
    }
  }

  /** Which bound is assumed does not change the stream. */
  lemma StreamBoundIrrelevant(t: Transport, number: string, start: int, end: int, now: int, b1: nat, b2: nat)
    requires FetchedShortBy(t, number, Plan(start, end, now), b1)
    requires FetchedShortBy(t, number, Plan(start, end, now), b2)
    ensures Stream(t, number, start, end, now, b1) == Stream(t, number, start, end, now, b2)
  {
    var s1 := Stream(t, number, start, end, now, b1);
    if s1.Success? {
      FetchAllBoundIrrelevant(t, number, Plan(start, end, now), b1, b2);
    }
  }

  /** Which bound is assumed does not change the report. */
  lemma ReportBoundIrrelevant(t: Transport, number: string, p: Period, now: int, b1: nat, b2: nat)
    requires Finite(t, number, p, now, b1) && Finite(t, number, p, now, b2)
    ensures Report(t, number, p, now, b1) == Report(t, number, p, now, b2)
  {
    if PeriodBounds(p).Success? {
      var b := PeriodBounds(p).value;
      StreamBoundIrrelevant(t, number, b.start, b.end, now, b1, b2);
    }
  }

  /** Stability at every date at once. */
  lemma SortStableAll(s: seq<Entry>)
    ensures forall d :: WithDate(Sort(s), d) == WithDate(s, d)
  {
    forall d ensures WithDate(Sort(s), d) == WithDate(s, d) {
      SortStable(s, d);
    }
  }

  /** February 2023 requested after it ended: two windows, 1 Feb 00:00:00 to
      16 Feb 00:00:00 and 16 Feb 00:00:00 to 28 Feb 23:59:59, sharing their
      boundary second. */
  lemma FebruaryTwentyTwentyThree(now: int)
    requires now >= Instant(2023, 2, 28, 23, 59, 59)
    ensures MonthBounds(2023, 2).Success?
    ensures var b := MonthBounds(2023, 2).value;
      Plan(b.start, b.end, now) == [
        Interval(Instant(2023, 2, 1, 0, 0, 0), Instant(2023, 2, 16, 0, 0, 0)),
        Interval(Instant(2023, 2, 16, 0, 0, 0), Instant(2023, 2, 28, 23, 59, 59))
      ]
  {
    var b := MonthBounds(2023, 2).value;
    var ws := Plan(b.start, b.end, now);
    assert b.end - b.start == 28 * Day - 1;
    assert |ws| == 2;
  }

  /** A full page of placeholder records. */
  function FullPage(): (p: seq<Entry>)
    ensures |p| == PageSize
  {
    seq(PageSize, i => Entry(0, "", "", 0, 0.0, ""))
  }

  /** A service whose windows stop at different pages: the window starting
      at 0 is short at page 0, the window starting 15 days later at page 1,
      and every other page is full. */
  function StaggeredService(): Transport {
    (r: Request) =>
      if (r.start == 0 && r.page == 0) || (r.start == Step && r.page == 1) then [] else FullPage()
  }

  /** The first window is short at once: one request, no records. */
  lemma StaggeredFirstWindow()
    ensures ShortWithin(StaggeredService(), "n", Interval(0, Step), 0, 1)
    ensures var f := FetchWindow(StaggeredService(), "n", Interval(0, Step), 1);
      |f.requests| == 1 && f.records == []
  {
    var t, w := StaggeredService(), Interval(0, Step);
    assert |t(PageRequest("n", w, 0))| < PageSize;
    FetchFromUnfold(t, "n", w, 0, 1);
  }

  /** The second window has one full page, then a short one. */
  lemma StaggeredSecondWindow()
    ensures ShortWithin(StaggeredService(), "n", Interval(Step, Step + 5), 0, 1)
    ensures var f := FetchWindow(StaggeredService(), "n", Interval(Step, Step + 5), 1);
      |f.requests| == 2 && |f.records| == PageSize
  {
    var t, w := StaggeredService(), Interval(Step, Step + 5);
    assert |t(PageRequest("n", w, 1))| < PageSize;
    assert |t(PageRequest("n", w, 0))| == PageSize;
    FetchFromUnfold(t, "n", w, 0, 1);
    FetchFromUnfold(t, "n", w, 1, 1);
  }

  /** 15 days + 5 s, clamped to a later `now`, is planned as two windows. */
  lemma StaggeredPlan(now: int)
    requires now >= Step + 5
    ensures Plan(0, Step + 5, now) == [Interval(0, Step), Interval(Step, Step + 5)]
  {
    var ws := Plan(0, Step + 5, now);
    assert |ws| == 2;
  }

  /** Both windows fetched: three requests, the 500 records of the one full page. */
  lemma StaggeredFetchAll()
    ensures AllShortBy(StaggeredService(), "n", [Interval(0, Step), Interval(Step, Step + 5)], 1)
    ensures var f := FetchAll(StaggeredService(), "n", [Interval(0, Step), Interval(Step, Step + 5)], 1);
      |f.requests| == 3 && |f.records| == PageSize
  {
    var t := StaggeredService();
    var w0, w1 := Interval(0, Step), Interval(Step, Step + 5);
    var ws := [w0, w1];
    StaggeredFirstWindow();
    StaggeredSecondWindow();
    assert AllShortBy(t, "n", ws, 1);
    FetchAllCons(t, "n", ws, 1);
    assert ws[1..] == [w1];
    FetchAllSingle(t, "n", w1, 1);
  }

  /** Neither window's start + 15 days passes datetime.max. */
  lemma StaggeredNoOverflow()
    ensures !StepOverflows([Interval(0, Step), Interval(Step, Step + 5)])
  {
    InstantInRange(1, 1, 31, 0, 0, 0);
    assert 2 * Step <= MaxInstant;
  }

  /** The plan of [0, 15 days + 5 s] meets Stream's requirement with page
      bound 1 and does not overflow. */
  lemma StaggeredStreamable(now: int)
    requires now >= Step + 5
    ensures AllShortBy(StaggeredService(), "n", Plan(0, Step + 5, now), 1)
    ensures !StepOverflows(Plan(0, Step + 5, now))
  {
    StaggeredPlan(now);
    StaggeredFetchAll();
    StaggeredNoOverflow();
  }

  /** Against that service the two windows of [0, 15 days + 5 s] are fetched
      with page bound 1: one request for the first window, two for the
      second, and the 500 records of the second window's full page. */
  lemma StaggeredShortPages(now: int)
    requires now >= Step + 5
    ensures FetchedShortBy(StaggeredService(), "n", Plan(0, Step + 5, now), 1)
    ensures var r := Stream(StaggeredService(), "n", 0, Step + 5, now, 1);
      && r.Success?
      && |r.value.requests| == 3
      && |r.value.records| == PageSize
  {
    StaggeredStreamable(now);
    StreamWithoutOverflow(StaggeredService(), "n", 0, Step + 5, now, 1);
    StaggeredPlan(now);
    StaggeredFetchAll();
  }
}
