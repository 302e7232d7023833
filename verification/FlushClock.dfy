/** When the next flush is due. All times are in milliseconds. */
module FlushClock {
  import opened Samples
  import opened TimerMetrics

  /** `startup_time` is kept in whole seconds. */
  function Origin(startupSeconds: int): real
  {
    startupSeconds as real * 1000.0
  }

  /** The grid point the timeout aims for. */
  function TimeoutAttempt(interval: PositiveReal, startupSeconds: int, now: real): int
  {
    Round((now - Origin(startupSeconds)) / interval) + 1
  }

  function GetFlushTimeout(interval: PositiveReal, startupSeconds: int, now: real): real
  {
    (Origin(startupSeconds) + TimeoutAttempt(interval, startupSeconds, now) as real * interval) - now
  }

  /** The time of grid point m. */
  function GridPoint(interval: PositiveReal, startupSeconds: int, m: int): real
  {
    Origin(startupSeconds) + m as real * interval
  }

  lemma RoundBounds(x: real)
    ensures x - 0.5 < Round(x) as real <= x + 0.5
  {
  }

  lemma ScaleStrictly(a: real, b: real, interval: PositiveReal)
    requires a < b
    ensures a * interval < b * interval
  {
    ProductIsPositive(b - a, interval);
    assert (b - a) * interval == b * interval - a * interval;
  }

  lemma ProductIsPositive(a: real, b: real)
    requires a > 0.0 && b > 0.0
    ensures a * b > 0.0
  {
  }

  /** The wait until grid point a, for a time that is q intervals past the origin. */
  lemma WaitIs(origin: real, now: real, interval: PositiveReal, q: real, a: real)
    requires q * interval == now - origin
    ensures (origin + a * interval) - now == Times(a - q, interval)
  {
  }

  lemma IntervalsBound(d: real, interval: PositiveReal)
    requires 0.5 < d <= 1.5
    ensures 0.5 * interval < Times(d, interval) <= 1.5 * interval
  {
    ScaleStrictly(0.5, d, interval);
    if d < 1.5 {
      ScaleStrictly(d, 1.5, interval);
    }
  }

  /** However late, early or negative the elapsed time, the timeout is more than half an
      interval and at most one and a half, and the flush is due exactly on the grid. */
  lemma TimeoutLandsOnGrid(interval: PositiveReal, startupSeconds: int, now: real)
    ensures var timeout := GetFlushTimeout(interval, startupSeconds, now);
      var m := TimeoutAttempt(interval, startupSeconds, now);
      && 0.5 * interval < timeout <= 1.5 * interval
      && now + timeout == startupSeconds as real * 1000.0 + m as real * interval
      && GridPoint(interval, startupSeconds, m) == startupSeconds as real * 1000.0 + m as real * interval
  {
    var q := (now - Origin(startupSeconds)) / interval;
    var a := TimeoutAttempt(interval, startupSeconds, now) as real;
    RoundBounds(q);
    assert q * interval == now - Origin(startupSeconds);
    WaitIs(Origin(startupSeconds), now, interval, q, a);
    IntervalsBound(a - q, interval);
  }

  /** A flush aimed at grid point m and finished at time `done` aims next at m + 1 exactly when
      it finished within half an interval of m: early inclusive, late strict. */
  lemma NextTargetIff(interval: PositiveReal, startupSeconds: int, m: int, done: real)
    ensures TimeoutAttempt(interval, startupSeconds, done) == m + 1 <==>
              -0.5 * interval <= done - GridPoint(interval, startupSeconds, m) < 0.5 * interval
  {
    var q := (done - Origin(startupSeconds)) / interval;
    assert q * interval == done - Origin(startupSeconds);
    var d := q - m as real;
    assert d * interval == done - GridPoint(interval, startupSeconds, m);
    if d < -0.5 {
      ScaleStrictly(d, -0.5, interval);
    } else if d > -0.5 {
      ScaleStrictly(-0.5, d, interval);
    }
    if d < 0.5 {
      ScaleStrictly(d, 0.5, interval);
    } else if d > 0.5 {
      ScaleStrictly(0.5, d, interval);
    }
  }

  /** The grid point aimed for after each of a run of flushes; the first aims for m. */
  function Targets(interval: PositiveReal, startupSeconds: int, m: int, finished: seq<real>): seq<int>
  {
    if finished == [] then [m]
    else
      var last := |finished| - 1;
      Targets(interval, startupSeconds, m, finished[..last])
        + [TimeoutAttempt(interval, startupSeconds, finished[last])]
  }

  lemma {:induction false} TargetsLength(interval: PositiveReal, startupSeconds: int, m: int, finished: seq<real>)
    ensures |Targets(interval, startupSeconds, m, finished)| == |finished| + 1
  {
    if finished != [] {
      TargetsLength(interval, startupSeconds, m, finished[..|finished| - 1]);
    }
  }

  /** The flush aimed at point m + i finishes within its window. */
  ghost predicate InWindow(interval: PositiveReal, startupSeconds: int, m: int, finished: seq<real>, i: int)
    requires 0 <= i < |finished|
  {
    -0.5 * interval <= finished[i] - GridPoint(interval, startupSeconds, m + i) < 0.5 * interval
  }

  ghost predicate AllInWindow(interval: PositiveReal, startupSeconds: int, m: int, finished: seq<real>)
  {
    forall i :: 0 <= i < |finished| ==> InWindow(interval, startupSeconds, m, finished, i)
  }

  ghost predicate Consecutive(targets: seq<int>, m: int)
  {
    forall i :: 0 <= i < |targets| ==> targets[i] == m + i
  }

  /** Over a whole run the targets are consecutive grid points, with none skipped or repeated,
      exactly when every timer and flush together finish within their window. */
  lemma {:induction false} FlushesDoNotDrift(interval: PositiveReal, startupSeconds: int, m: int, finished: seq<real>)
    ensures Consecutive(Targets(interval, startupSeconds, m, finished), m) <==>
              AllInWindow(interval, startupSeconds, m, finished)
  {
    if finished != [] {
      var last := |finished| - 1;
      var init := finished[..last];
      FlushesDoNotDrift(interval, startupSeconds, m, init);
      TargetsLength(interval, startupSeconds, m, init);
      NextTargetIff(interval, startupSeconds, m + last, finished[last]);
      WindowsOfPrefix(interval, startupSeconds, m, finished);
      var targets := Targets(interval, startupSeconds, m, finished);
      assert targets == Targets(interval, startupSeconds, m, init) + [targets[last + 1]];
      assert targets[last + 1] == TimeoutAttempt(interval, startupSeconds, finished[last]);
      ConsecutiveSnoc(Targets(interval, startupSeconds, m, init), targets[last + 1], m);
    }
  }

  lemma WindowsOfPrefix(interval: PositiveReal, startupSeconds: int, m: int, finished: seq<real>)
    requires finished != []
    ensures AllInWindow(interval, startupSeconds, m, finished) <==>
              && AllInWindow(interval, startupSeconds, m, finished[..|finished| - 1])
              && InWindow(interval, startupSeconds, m, finished, |finished| - 1)
  {
    var init := finished[..|finished| - 1];
    assert forall i :: 0 <= i < |init| ==>
      (InWindow(interval, startupSeconds, m, init, i) <==> InWindow(interval, startupSeconds, m, finished, i));
  }

  lemma ConsecutiveSnoc(targets: seq<int>, t: int, m: int)
    ensures Consecutive(targets + [t], m) <==> Consecutive(targets, m) && t == m + |targets|
  {
    var all := targets + [t];
    if Consecutive(all, m) {
      assert all[|targets|] == t;
      assert forall i :: 0 <= i < |targets| ==> targets[i] == all[i];
    }
  }
}
