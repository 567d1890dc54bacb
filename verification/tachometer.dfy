/** The tachometer period estimator `TicksDiff` of `mesaure_rpm.py`, as an
    immutable record. Every falling edge calls `SetTicks` with pigpio's
    microsecond tick and the monotonic clock reading `now` in seconds; an
    edge more than a second after the previous one starts over, otherwise the
    doubled tick delta feeds an exponential average whose weight adapts to
    the delta. */
module Tachometer {
  import opened Common

  /** `average_multiplier`: the smoothing weight per second of period. */
  const AverageMultiplier: real := 0.25
  /** Ticks per second (pigpio ticks are microseconds). */
  const TicksPerSecond: real := 1000000.0
  /** An edge this long after the previous one (seconds) resets the estimate. */
  const StaleWindow: real := 1.0
  /** Edges seen per full period of the signal. */
  const EdgesPerPeriod: real := 2.0

  /** The estimator's fields: the last doubled delta, the last tick, the
      smoothed period in ticks, the monotonic deadline after which the next
      edge resets, and how many deltas the average has absorbed. */
  datatype TicksDiff = TicksDiff(
    diff: Option<real>,
    ticks: Option<int>,
    avgPeriod: Option<real>,
    timeout: real,
    count: nat)

  /** `__init__`: nothing known, and a deadline of 0 already passed. */
  function Init(): (s: TicksDiff)
    ensures s.ticks.None? && s.diff.None? && s.avgPeriod.None? && s.count == 0
  {
    TicksDiff(None, None, None, 0.0, 0)
  }

  /** `is_timeout`: the deadline has passed at `now`. */
  predicate IsTimeout(s: TicksDiff, now: real): (t: bool)
    ensures t ==> now >= s.timeout
    ensures s.timeout <= 0.0 && now >= 0.0 ==> t
  {
    now >= s.timeout
  }

  /** `clear`: forget the delta, the average, the last tick and the count. */
  function Clear(s: TicksDiff): (c: TicksDiff)
    ensures c.diff.None? && c.avgPeriod.None? && c.ticks.None? && c.count == 0
    ensures c.timeout == s.timeout
  {
    TicksDiff(None, None, None, s.timeout, 0)
  }

  /** The smoothing weight `mul` for a doubled delta. */
  function Weight(newDiff: real): real
    requires newDiff != 0.0
  {
    AverageMultiplier * TicksPerSecond / newDiff
  }

  /** The adaptive exponential average: the old average weighted by `mul`,
      the new doubled delta by 1. Dividing by `mul + 1` raises when the
      delta is exactly -250,000 ticks. */
  function Smooth(avg: real, newDiff: real): (r: Result<real>)
    requires newDiff != 0.0
    ensures r.Raise? <==> newDiff == -AverageMultiplier * TicksPerSecond
    ensures r.Raise? ==> r.error == ZeroDivisionError
  {
    var mul := Weight(newDiff);
    if mul + 1.0 == 0.0 then Raise(ZeroDivisionError)
    else Ok((avg * mul + newDiff) / (mul + 1.0))
  }

  /** `set_ticks(ticks)` at monotonic time `now`. The only exception it can
      raise is the division by `mul + 1` when a negative delta makes it 0. */
  function SetTicks(s: TicksDiff, t: int, now: real): (r: Result<TicksDiff>)
    ensures r.Ok? ==> r.value.timeout == now + StaleWindow
    ensures r.Ok? ==> r.value.ticks == Some(t)
    ensures r.Raise? ==> r.error == ZeroDivisionError
    ensures r.Raise? <==>
      && !IsTimeout(s, now) && s.ticks.Some? && s.avgPeriod.Some?
      && s.diff.Some? && s.diff.value != 0.0
      && (t - s.ticks.value) as real * EdgesPerPeriod == -AverageMultiplier * TicksPerSecond
  {
    var timedOut := IsTimeout(s, now);
    var armed := s.(timeout := now + StaleWindow);
    if timedOut then
      Ok(Clear(armed).(ticks := Some(t)))
    else if armed.ticks.None? then
      Ok(armed.(ticks := Some(t), diff := None, avgPeriod := None))
    else
      var oldTicks := armed.ticks.value;
      var ticked := armed.(ticks := Some(t));
      var newDiff := (t - oldTicks) as real * EdgesPerPeriod;
      if newDiff == 0.0 then
        Ok(ticked)
      else if ticked.diff.None? || ticked.diff.value == 0.0 then
        Ok(ticked.(diff := Some(newDiff), avgPeriod := None))
      else if ticked.avgPeriod.None? then
        Ok(ticked.(diff := Some(newDiff), avgPeriod := Some(newDiff), count := 1))
      else
        match Smooth(ticked.avgPeriod.value, newDiff)
        case Raise(e) => Raise(e)
        case Ok(avg) => Ok(ticked.(diff := Some(newDiff), avgPeriod := Some(avg), count := ticked.count + 1))
  }

  /** The fields `set_ticks` has already written when the division at line 61
      raises: the new deadline, the new tick, the new doubled delta (which is
      then -250,000) and the incremented count; the average is untouched. */
  function RaisedState(s: TicksDiff, t: int, now: real): (r: TicksDiff)
    requires SetTicks(s, t, now).Raise?
    ensures r.timeout == now + StaleWindow && r.ticks == Some(t)
    ensures r.diff == Some(-AverageMultiplier * TicksPerSecond)
    ensures r.count == s.count + 1 && r.avgPeriod == s.avgPeriod
  {
    var newDiff := (t - s.ticks.value) as real * EdgesPerPeriod;
    s.(timeout := now + StaleWindow, ticks := Some(t), diff := Some(newDiff), count := s.count + 1)
  }

  /** `get_period`: the smoothed period in ticks, if there is one. */
  function GetPeriod(s: TicksDiff): (p: Option<real>)
    ensures p == s.avgPeriod
  {
    if s.avgPeriod.None? then None else Some(s.avgPeriod.value)
  }

  /** `get_hz`: edges per second from the smoothed period (raises on a zero
      period). */
  function GetHz(s: TicksDiff): (r: Result<Option<real>>)
    ensures r.Ok? && r.value.None? <==> s.avgPeriod.None?
    ensures r.Raise? <==> s.avgPeriod == Some(0.0)
    ensures r.Ok? && r.value.Some? ==> r.value.value * s.avgPeriod.value == TicksPerSecond
  {
    match GetPeriod(s)
    case None => Ok(None)
    case Some(p) => if p == 0.0 then Raise(ZeroDivisionError) else Ok(Some(TicksPerSecond / p))
  }

  /** `get_rpm`: sixty times `get_hz`. */
  function GetRpm(s: TicksDiff): (r: Result<Option<real>>)
    ensures r.Raise? <==> GetHz(s).Raise?
    ensures r.Ok? ==> (r.value.None? <==> s.avgPeriod.None?)
    ensures r.Ok? && r.value.Some? ==> r.value.value == GetHz(s).value.value * 60.0
  {
    match GetHz(s)
    case Raise(e) => Raise(e)
    case Ok(None) => Ok(None)
    case Ok(Some(hz)) => Ok(Some(hz * 60.0))
  }

  // ---------------------------------------------------------------------
  // Single steps

  /** An edge after the deadline starts over: nothing is known but the new
      tick, so all three readings are `None`. */
  lemma StaleEdgeForgets(s: TicksDiff, t: int, now: real)
    requires IsTimeout(s, now)
    ensures SetTicks(s, t, now).Ok?
    ensures var n := SetTicks(s, t, now).value;
      && n.diff.None? && n.avgPeriod.None? && n.count == 0 && n.ticks == Some(t)
      && GetPeriod(n).None? && GetHz(n) == Ok(None) && GetRpm(n) == Ok(None)
  {
  }

  /** The very first edge after `__init__` (at any clock reading >= 0) takes
      the reset branch. */
  lemma FirstEdgeResets(t: int, now: real)
    requires now >= 0.0
    ensures SetTicks(Init(), t, now) == Ok(TicksDiff(None, Some(t), None, now + StaleWindow, 0))
  {
  }

  /** A repeated tick inside the window changes nothing but the deadline. */
  lemma ZeroDeltaKeeps(s: TicksDiff, now: real)
    requires !IsTimeout(s, now) && s.ticks.Some?
    ensures SetTicks(s, s.ticks.value, now) == Ok(s.(timeout := now + StaleWindow))
  {
  }

  /** The second edge, counting the one that resets (so the first in-window
      edge), records the doubled delta but no average. */
  lemma SecondEdge(t1: int, now1: real, t2: int, now2: real)
    requires t2 != t1
    requires now2 < now1 + StaleWindow
    ensures var s1 := TicksDiff(None, Some(t1), None, now1 + StaleWindow, 0);
      SetTicks(s1, t2, now2)
        == Ok(TicksDiff(Some((t2 - t1) as real * EdgesPerPeriod), Some(t2), None, now2 + StaleWindow, 0))
  {
  }

  /** The third edge, counting the one that resets (so the second in-window
      edge), starts the average at its own doubled delta, with a count of 1. */
  lemma ThirdEdge(d: real, t2: int, now2: real, t3: int, now3: real)
    requires d != 0.0 && t3 != t2
    requires now3 < now2 + StaleWindow
    ensures var s2 := TicksDiff(Some(d), Some(t2), None, now2 + StaleWindow, 0);
      SetTicks(s2, t3, now3)
        == Ok(TicksDiff(Some((t3 - t2) as real * EdgesPerPeriod), Some(t3),
                        Some((t3 - t2) as real * EdgesPerPeriod), now3 + StaleWindow, 1))
  {
  }

  /** With a non-negative weight, the weighted mean lies between its parts. */
  lemma {:induction false} WeightedMeanBetween(a: real, d: real, m: real)
    requires m >= 0.0
    ensures Min(a, d) <= (a * m + d) / (m + 1.0) <= Max(a, d)
  {
    var q := (a * m + d) / (m + 1.0);
    assert q * (m + 1.0) == a * m + d;
    if a <= d {
      assert a * m + d >= a * m + a;
      assert a * m + d <= d * m + d;
      assert q * (m + 1.0) >= a * (m + 1.0);
      assert q * (m + 1.0) <= d * (m + 1.0);
    } else {
      assert a * m + d <= a * m + a;
      assert a * m + d >= d * m + d;
      assert q * (m + 1.0) <= a * (m + 1.0);
      assert q * (m + 1.0) >= d * (m + 1.0);
    }
  }

  /** A positive delta never raises and moves the average to a point between
      the old average and the delta. */
  lemma SmoothBetween(avg: real, newDiff: real)
    requires newDiff > 0.0
    ensures Smooth(avg, newDiff).Ok?
    ensures Min(avg, newDiff) <= Smooth(avg, newDiff).value <= Max(avg, newDiff)
  {
    var m := Weight(newDiff);
    assert m > 0.0;
    var x := avg * m + newDiff;
    var y := m + 1.0;
    WeightedMeanBetween(avg, newDiff, m);
    assert Smooth(avg, newDiff) == Ok(x / y);
  }

  /** Averaging a period with an equal delta leaves it unchanged. */
  lemma SmoothOfEqualParts(d: real)
    requires d > 0.0
    ensures Smooth(d, d) == Ok(d)
  {
    var m := Weight(d);
    assert m > 0.0;
    var x := d * m + d;
    var y := m + 1.0;
    assert x == d * y;
    DivCancel(d, y);
    assert x / y == d;
    assert Smooth(d, d) == Ok(x / y);
  }

  /** Once an average exists, each later in-window edge with a positive delta
      adds one to the count and moves the average to a point between the old
      average and the new doubled delta. */
  lemma {:induction false} LaterEdgeAverages(s: TicksDiff, t: int, now: real)
    requires !IsTimeout(s, now)
    requires s.ticks.Some? && s.diff.Some? && s.diff.value != 0.0 && s.avgPeriod.Some?
    requires t > s.ticks.value
    ensures SetTicks(s, t, now).Ok?
    ensures var n := SetTicks(s, t, now).value;
      && n.count == s.count + 1
      && n.diff == Some((t - s.ticks.value) as real * EdgesPerPeriod)
      && n.avgPeriod.Some?
      && Min(s.avgPeriod.value, n.diff.value) <= n.avgPeriod.value <= Max(s.avgPeriod.value, n.diff.value)
  {
    var nd := (t - s.ticks.value) as real * EdgesPerPeriod;
    assert nd > 0.0;
    SmoothBetween(s.avgPeriod.value, nd);
  }

  // ---------------------------------------------------------------------
  // Runs of edges

  /** One tachometer edge: pigpio's tick and the monotonic clock reading. */
  datatype Edge = Edge(tick: int, now: real)

  /** Feed a sequence of edges in order; the first exception stops the run. */
  function Run(s: TicksDiff, es: seq<Edge>): Result<TicksDiff>
    decreases |es|
  {
    if |es| == 0 then Ok(s)
    else
      match Run(s, es[..|es| - 1])
      case Raise(e) => Raise(e)
      case Ok(p) => SetTicks(p, es[|es| - 1].tick, es[|es| - 1].now)
  }

  /** The estimator's shape in every reachable state: an average exists exactly
      when the count is positive, and only once a delta and a tick exist; a
      recorded delta is never 0 and comes with a tick. */
  predicate Inv(s: TicksDiff)
  {
    && (s.count == 0 <==> s.avgPeriod.None?)
    && (s.avgPeriod.Some? ==> s.diff.Some? && s.ticks.Some?)
    && (s.diff.Some? ==> s.ticks.Some? && s.diff.value != 0.0)
  }

  lemma SetTicksKeepsInv(s: TicksDiff, t: int, now: real)
    requires Inv(s)
    requires SetTicks(s, t, now).Ok?
    ensures Inv(SetTicks(s, t, now).value)
  {
  }

  /** Every state reachable from `__init__` keeps the shape invariant. */
  lemma {:induction false} ReachableInv(es: seq<Edge>)
    requires Run(Init(), es).Ok?
    ensures Inv(Run(Init(), es).value)
  {
    if |es| > 0 {
      ReachableInv(es[..|es| - 1]);
      var p := Run(Init(), es[..|es| - 1]).value;
      SetTicksKeepsInv(p, es[|es| - 1].tick, es[|es| - 1].now);
    }
  }

  /** The invariant plus positive delta and average: what increasing ticks buy. */
  predicate Positive(s: TicksDiff)
  {
    && Inv(s)
    && (s.diff.Some? ==> s.diff.value > 0.0)
    && (s.avgPeriod.Some? ==> s.avgPeriod.value > 0.0)
  }

  lemma {:induction false} SetTicksKeepsPositive(s: TicksDiff, t: int, now: real)
    requires Positive(s)
    requires s.ticks.Some? ==> s.ticks.value <= t
    ensures SetTicks(s, t, now).Ok?
    ensures Positive(SetTicks(s, t, now).value)
  {
    if !IsTimeout(s, now) && s.ticks.Some? && t != s.ticks.value
       && s.diff.Some? && s.avgPeriod.Some? {
      LaterEdgeAverages(s, t, now);
    }
  }

  /** Ticks that never decrease along a run. */
  predicate NonDecreasing(es: seq<Edge>)
  {
    forall i :: 0 < i < |es| ==> es[i - 1].tick <= es[i].tick
  }

  /** With ticks that never decrease, no edge raises, delta and average stay
      positive, and `get_hz`/`get_rpm` never raise. */
  lemma {:induction false} OrderedRunIsSafe(es: seq<Edge>)
    requires NonDecreasing(es)
    ensures Run(Init(), es).Ok?
    ensures Positive(Run(Init(), es).value)
    ensures |es| > 0 ==> Run(Init(), es).value.ticks == Some(es[|es| - 1].tick)
    ensures GetHz(Run(Init(), es).value).Ok? && GetRpm(Run(Init(), es).value).Ok?
  {
    if |es| > 0 {
      var pre := es[..|es| - 1];
      assert NonDecreasing(pre) by {
        forall i | 0 < i < |pre|
          ensures pre[i - 1].tick <= pre[i].tick
        {
          assert pre[i - 1] == es[i - 1] && pre[i] == es[i];
        }
      }
      OrderedRunIsSafe(pre);
      var p := Run(Init(), pre).value;
      if |pre| > 0 {
        assert es[|es| - 2] == pre[|pre| - 1];
      }
      SetTicksKeepsPositive(p, es[|es| - 1].tick, es[|es| - 1].now);
    }
  }

  /** Edges `h` ticks apart, each within a second of the previous one,
      starting `h` after the tick `t0` recorded in a state whose deadline the
      first edge meets. */
  predicate Steady(es: seq<Edge>, t0: int, h: int, deadline: real)
  {
    && (forall i :: 0 <= i < |es| ==> es[i].tick == t0 + (i + 1) * h)
    && (|es| > 0 ==> es[0].now < deadline)
    && (forall i :: 0 < i < |es| ==> es[i].now < es[i - 1].now + StaleWindow)
  }

  /** One steady edge: `h` ticks after the last one, before the deadline, with
      the average already at `2h`, leaves delta and average at `2h`. */
  lemma SteadyStep(p: TicksDiff, t: int, now: real, h: int)
    requires h > 0
    requires p.ticks.Some? && p.diff == Some(2.0 * h as real) && p.avgPeriod == Some(2.0 * h as real)
    requires t == p.ticks.value + h
    requires now < p.timeout
    ensures SetTicks(p, t, now) == Ok(p.(ticks := Some(t), timeout := now + StaleWindow, count := p.count + 1))
  {
    var d := 2.0 * h as real;
    assert (t - p.ticks.value) as real * EdgesPerPeriod == d;
    SmoothOfEqualParts(d);
  }

  /** When the average already equals the steady doubled delta `2h`, further
      steady edges keep it exactly there and add one to the count each. */
  lemma {:induction false} SteadyEdgesKeepPeriod(s: TicksDiff, es: seq<Edge>, h: int)
    requires h > 0
    requires s.ticks.Some? && s.diff == Some(2.0 * h as real) && s.avgPeriod == Some(2.0 * h as real)
    requires Steady(es, s.ticks.value, h, s.timeout)
    ensures Run(s, es).Ok?
    ensures var n := Run(s, es).value;
      && n.avgPeriod == Some(2.0 * h as real) && n.diff == Some(2.0 * h as real)
      && n.count == s.count + |es|
      && n.ticks == Some(s.ticks.value + |es| * h)
      && n.timeout == (if |es| > 0 then es[|es| - 1].now + StaleWindow else s.timeout)
  {
    if |es| > 0 {
      var pre := es[..|es| - 1];
      assert Steady(pre, s.ticks.value, h, s.timeout) by {
        forall i | 0 <= i < |pre|
          ensures pre[i].tick == s.ticks.value + (i + 1) * h
        {
          assert pre[i] == es[i];
        }
        forall i | 0 < i < |pre|
          ensures pre[i].now < pre[i - 1].now + StaleWindow
        {
          assert pre[i] == es[i] && pre[i - 1] == es[i - 1];
        }
      }
      SteadyEdgesKeepPeriod(s, pre, h);
      var p := Run(s, pre).value;
      var e := es[|es| - 1];
      assert e.tick == s.ticks.value + |es| * h;
      assert |es| * h == |pre| * h + h;
      assert e.tick == p.ticks.value + h;
      if |pre| > 0 {
        assert pre[|pre| - 1] == es[|es| - 2];
      }
      assert e.now < p.timeout;
      SteadyStep(p, e.tick, e.now, h);
    }
  }

  /** Steady edges give `get_hz() == 1e6 / d` for the doubled delta `d`. */
  lemma SteadyEdgesFrequency(s: TicksDiff, es: seq<Edge>, h: int)
    requires h > 0
    requires s.ticks.Some? && s.diff == Some(2.0 * h as real) && s.avgPeriod == Some(2.0 * h as real)
    requires Steady(es, s.ticks.value, h, s.timeout)
    ensures Run(s, es).Ok?
    ensures GetHz(Run(s, es).value) == Ok(Some(TicksPerSecond / (2.0 * h as real)))
    ensures GetRpm(Run(s, es).value) == Ok(Some(TicksPerSecond / (2.0 * h as real) * 60.0))
  {
    SteadyEdgesKeepPeriod(s, es, h);
  }

  /** Edges every 500,000 ticks, half a second apart: after two edges there
      is still no reading; the third gives a 1,000,000-tick period, 1 Hz and
      60 rpm. */
  lemma HalfSecondEdges()
    ensures var e1 := Edge(0, 0.0); var e2 := Edge(500000, 0.5); var e3 := Edge(1000000, 1.0);
      && Run(Init(), [e1, e2]).Ok?
      && GetHz(Run(Init(), [e1, e2]).value) == Ok(None)
      && Run(Init(), [e1, e2, e3]).Ok?
      && GetPeriod(Run(Init(), [e1, e2, e3]).value) == Some(1000000.0)
      && GetHz(Run(Init(), [e1, e2, e3]).value) == Ok(Some(1.0))
      && GetRpm(Run(Init(), [e1, e2, e3]).value) == Ok(Some(60.0))
  {
    var e1 := Edge(0, 0.0);
    var e2 := Edge(500000, 0.5);
    var e3 := Edge(1000000, 1.0);
    var s1 := TicksDiff(None, Some(0), None, 1.0, 0);
    var s2 := TicksDiff(Some(1000000.0), Some(500000), None, 1.5, 0);
    var s3 := TicksDiff(Some(1000000.0), Some(1000000), Some(1000000.0), 2.0, 1);
    assert [e1][..0] == [];
    assert Run(Init(), [e1]) == Ok(s1);
    assert [e1, e2][..1] == [e1];
    assert Run(Init(), [e1, e2]) == Ok(s2);
    assert [e1, e2, e3][..2] == [e1, e2];
    assert Run(Init(), [e1, e2, e3]) == Ok(s3);
  }
}
