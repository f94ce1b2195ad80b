/**
 The window planner of VirginMobile.iter_history: the requested end is clamped
 to the current time, then the range is walked in 15-day steps, each window
 running from its start to the earlier of the clamped end and start + 15 days.
 The next window starts a full step later, at the previous window's end, so
 consecutive windows share their boundary instant.
 */
module Planner {
  import opened Calendar

  /** timedelta(days=15), in seconds. */
  const Step: int := 15 * Day

  function Min(a: int, b: int): int {
    if a <= b then a else b
  }

  /** The windows the loop `while start <= end` visits for an already clamped `end`. */
  function Windows(start: int, end: int): (ws: seq<Interval>)
    ensures start > end ==> ws == []
    ensures start <= end ==> |ws| == (end - start) / Step + 1
    ensures forall i :: 0 <= i < |ws| ==>
      ws[i] == Interval(start + i * Step, Min(end, start + (i + 1) * Step))
    decreases end - start
  {
    if start > end then []
    else [Interval(start, Min(end, start + Step))] + Windows(start + Step, end)
  }

  /** iter_history's plan: the end is first clamped to `now`. */
  function Plan(start: int, end: int, now: int): (ws: seq<Interval>)
    ensures ws == [] <==> start > Min(end, now)
    ensures ws != [] ==> ws[0].start == start && ws[|ws| - 1].end == Min(end, now)
    ensures forall i :: 0 <= i < |ws| ==> ws[i].end <= now
  {
    WindowsEndAtEnd(start, Min(end, now));
    Windows(start, Min(end, now))
  }

  /** The last window ends exactly at the (clamped) end. */
  lemma WindowsEndAtEnd(start: int, end: int)
    ensures var ws := Windows(start, end); ws != [] ==> ws[|ws| - 1].end == end
  {
    if start <= end {
      var n := (end - start) / Step;
      assert end - start < (n + 1) * Step;
    }
  }

  /** Every window is non-empty, at most one step long, and starts a full step
      after its predecessor, exactly where its predecessor ends. */
  lemma WindowsShape(start: int, end: int, i: int)
    requires 0 <= i < |Windows(start, end)|
    ensures var ws := Windows(start, end);
      && ws[i].start <= ws[i].end
      && ws[i].end - ws[i].start <= Step
      && (i + 1 < |ws| ==> ws[i].end == ws[i + 1].start && ws[i + 1].start == ws[i].start + Step)
  {
    var ws := Windows(start, end);
    if i + 1 < |ws| {
      var n := (end - start) / Step;
      StepsGrow(i + 1, n);
      StepOf(end - start);
    }
  }

  /** The windows cover the clamped range and nothing outside it. */
  lemma WindowsCover(start: int, end: int, t: int)
    ensures var ws := Windows(start, end);
      start <= t <= end <==> exists i :: 0 <= i < |ws| && ws[i].start <= t <= ws[i].end
  {
    var ws := Windows(start, end);
    if start <= t <= end {
      var i := (t - start) / Step;
      StepOf(t - start);
      DivMonotone(t - start, end - start);
      assert ws[i].start <= t <= ws[i].end;
    }
  }

  /** Windows that are not neighbours are disjoint, and neighbours share
      exactly one instant: the boundary, which is requested twice. */
  lemma WindowsOverlapOnlyAtBoundary(start: int, end: int, i: int, j: int, t: int)
    requires 0 <= i < j < |Windows(start, end)|
    requires var ws := Windows(start, end);
      ws[i].start <= t <= ws[i].end && ws[j].start <= t <= ws[j].end
    ensures j == i + 1 && t == Windows(start, end)[i].end
  {
    var ws := Windows(start, end);
    assert ws[i].end <= start + (i + 1) * Step <= start + j * Step == ws[j].start;
  }

  /** Window starts only grow: the last window of a plan starts latest. */
  lemma PlanStartsIncrease(start: int, end: int, now: int)
    ensures var ws := Plan(start, end, now);
      forall i :: 0 <= i < |ws| ==> ws[i].start <= ws[|ws| - 1].start
  {
    var ws := Windows(start, Min(end, now));
    forall i | 0 <= i < |ws| ensures ws[i].start <= ws[|ws| - 1].start {
      StepsGrow(i, |ws| - 1);
    }
  }

  /** Every window lies inside the clamped range: start <= end <= min(end, now). */
  lemma PlanWithinRange(start: int, end: int, now: int)
    ensures var ws := Plan(start, end, now);
      forall i :: 0 <= i < |ws| ==> ws[i].start <= ws[i].end <= Min(end, now)
  {
    var ws := Windows(start, Min(end, now));
    forall i | 0 <= i < |ws| ensures ws[i].start <= ws[i].end <= Min(end, now) {
      WindowsShape(start, Min(end, now), i);
    }
  }

  lemma StepsGrow(i: int, j: int)
    requires 0 <= i <= j
    ensures i * Step <= j * Step
  {
  }

  /** The step a non-negative offset falls in. */
  lemma StepOf(q: int)
    requires q >= 0
    ensures (q / Step) * Step <= q < (q / Step + 1) * Step
  {
  }

  lemma DivMonotone(p: int, q: int)
    requires 0 <= p <= q
    ensures p / Step <= q / Step
  {
  }

  /** The loop runs floor((end - start) / 15 days) + 1 times on a non-empty range,
      and never when the range is empty. */
  lemma PlanLength(start: int, end: int, now: int)
    ensures var e := Min(end, now);
      |Plan(start, end, now)| == if start <= e then (e - start) / Step + 1 else 0
  {
  }
}
