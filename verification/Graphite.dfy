/** Flushing counters to graphite: from a snapshot through paths and pickle to the receiver. */
module Graphite {
  import opened JsStrings
  import opened Naming
  import opened Pickle
  import Aggregator
  import KeyRuns
  import Packets

  /** What a flush knows about its counters; `show` prints a number as JavaScript would. */
  datatype Flush = Flush(
    counters: map<string, real>,
    rates: map<string, real>,
    ts: nat,
    flushCounts: bool,
    show: real -> string)

  predicate IsComplete(f: Flush)
  {
    f.rates.Keys == f.counters.Keys
  }

  function MetricOf(p: Paths, f: Flush, k: string, kind: Kind): Metric
    requires IsComplete(f) && k in f.counters
  {
    Metric(CounterPath(p, k, kind), f.show(if kind.Rate? then f.rates[k] else f.counters[k]), f.ts)
  }

  /** Settings and keys under which paths identify counters. */
  ghost predicate IsReadable(p: Paths, f: Flush)
  {
    IsComplete(f) && IsUnambiguous(p) && forall k <- f.counters :: IsSettled(p, k)
  }

  /** m is the metric of the counter and kind its path names, and is due in this flush. */
  predicate IsDue(p: Paths, f: Flush, m: Metric)
  {
    var (k, kind) := Recover(p, m.key);
    IsComplete(f) && k in f.counters && (kind.Total? ==> f.flushCounts) && m == MetricOf(p, f, k, kind)
  }

  ghost predicate HasDistinctPaths(metrics: seq<Metric>)
  {
    forall i, j :: 0 <= i < j < |metrics| ==> metrics[i].key != metrics[j].key
  }

  lemma MetricIsDue(p: Paths, f: Flush, k: string, kind: Kind)
    requires IsReadable(p, f) && k in f.counters && (kind.Total? ==> f.flushCounts)
    ensures IsDue(p, f, MetricOf(p, f, k, kind))
    ensures Recover(p, MetricOf(p, f, k, kind).key) == (k, kind)
  {
    hide CounterPath, Recover;
    PathRoundTrip(p, k, kind);
  }

  /** The metrics of one counter, in the order the flush adds them. */
  function MetricsOf(p: Paths, f: Flush, k: string): seq<Metric>
    requires IsComplete(f) && k in f.counters
  {
    [MetricOf(p, f, k, Rate)] + if f.flushCounts then [MetricOf(p, f, k, Total)] else []
  }

  /** Every metric is due and belongs to a counter in `written`. */
  ghost predicate AreDue(p: Paths, f: Flush, metrics: seq<Metric>, written: set<string>)
  {
    forall i :: 0 <= i < |metrics| ==> IsDue(p, f, metrics[i]) && Recover(p, metrics[i].key).0 in written
  }

  /** Every counter in `written` has its metrics. */
  ghost predicate AreWritten(p: Paths, f: Flush, metrics: seq<Metric>, written: set<string>)
    requires IsComplete(f) && written <= f.counters.Keys
  {
    forall k <- written :: forall m <- MetricsOf(p, f, k) :: m in metrics
  }

  /** The metrics are exactly those of the counters in `written`, each under its own path. */
  ghost predicate Covers(p: Paths, f: Flush, metrics: seq<Metric>, written: set<string>)
    requires IsComplete(f) && written <= f.counters.Keys
  {
    HasDistinctPaths(metrics) && AreDue(p, f, metrics, written) && AreWritten(p, f, metrics, written)
  }

  lemma NewMetricsAreDue(p: Paths, f: Flush, k: string)
    requires IsReadable(p, f) && k in f.counters
    ensures AreDue(p, f, MetricsOf(p, f, k), {k}) && HasDistinctPaths(MetricsOf(p, f, k))
  {
    hide MetricOf, IsDue, Recover, IsReadable, IsUnambiguous, IsSettled;
    MetricIsDue(p, f, k, Rate);
    if f.flushCounts {
      MetricIsDue(p, f, k, Total);
    }
  }

  lemma DistinctConcat(p: Paths, f: Flush, a: seq<Metric>, b: seq<Metric>, written: set<string>, k: string)
    requires k !in written && AreDue(p, f, a, written) && AreDue(p, f, b, {k})
    requires HasDistinctPaths(a) && HasDistinctPaths(b)
    ensures HasDistinctPaths(a + b) && AreDue(p, f, a + b, written + {k})
  {
    hide IsDue, Recover;
    var all := a + b;
    forall i, j | 0 <= i < j < |all|
      ensures all[i].key != all[j].key
    {
      if i < |a| <= j {
        assert Recover(p, a[i].key).0 in written;
        assert Recover(p, b[j - |a|].key).0 in {k};
      }
    }
  }

  lemma CoversOneMore(p: Paths, f: Flush, metrics: seq<Metric>, written: set<string>, k: string)
    requires IsReadable(p, f) && written <= f.counters.Keys && k in f.counters && k !in written
    requires Covers(p, f, metrics, written)
    ensures Covers(p, f, metrics + MetricsOf(p, f, k), written + {k})
  {
    hide MetricsOf, IsDue, Recover, HasDistinctPaths, AreDue;
    NewMetricsAreDue(p, f, k);
    DistinctConcat(p, f, metrics, MetricsOf(p, f, k), written, k);
  }

  lemma NothingIsCovered(p: Paths, f: Flush)
    requires IsComplete(f)
    ensures Covers(p, f, [], {})
  {
  }

  /** The metrics hold every counter's rate under its rate path and, exactly when totals are flushed,
      its total under its total path; no other metric uses these paths. */
  ghost predicate HoldCounters(p: Paths, f: Flush, metrics: seq<Metric>)
    requires IsComplete(f)
  {
    forall k <- f.counters ::
      && Metric(CounterPath(p, k, Rate), f.show(f.rates[k]), f.ts) in metrics
      && (if f.flushCounts then Metric(CounterPath(p, k, Total), f.show(f.counters[k]), f.ts) in metrics
          else forall i :: 0 <= i < |metrics| ==> metrics[i].key != CounterPath(p, k, Total))
  }

  lemma MetricsHold(p: Paths, f: Flush, k: string)
    requires IsComplete(f) && k in f.counters
    ensures Metric(CounterPath(p, k, Rate), f.show(f.rates[k]), f.ts) in MetricsOf(p, f, k)
    ensures f.flushCounts ==> Metric(CounterPath(p, k, Total), f.show(f.counters[k]), f.ts) in MetricsOf(p, f, k)
  {
    hide CounterPath;
    var ms := MetricsOf(p, f, k);
    assert ms[0] == MetricOf(p, f, k, Rate);
    if f.flushCounts {
      assert ms[1] == MetricOf(p, f, k, Total);
    }
  }

  lemma NoTotals(p: Paths, f: Flush, metrics: seq<Metric>, k: string)
    requires IsReadable(p, f) && !f.flushCounts && k in f.counters
    requires AreDue(p, f, metrics, f.counters.Keys)
    ensures forall i :: 0 <= i < |metrics| ==> metrics[i].key != CounterPath(p, k, Total)
  {
    hide CounterPath, Recover, MetricOf, IsUnambiguous, IsSettled;
    PathRoundTrip(p, k, Total);
  }

  lemma CoveredIsHeld(p: Paths, f: Flush, metrics: seq<Metric>)
    requires IsReadable(p, f) && Covers(p, f, metrics, f.counters.Keys)
    ensures HoldCounters(p, f, metrics)
  {
    assert IsComplete(f);
    hide CounterPath, MetricsOf, AreDue, HasDistinctPaths, IsReadable;
    forall k <- f.counters
      ensures Metric(CounterPath(p, k, Rate), f.show(f.rates[k]), f.ts) in metrics
      ensures if f.flushCounts then Metric(CounterPath(p, k, Total), f.show(f.counters[k]), f.ts) in metrics
              else forall i :: 0 <= i < |metrics| ==> metrics[i].key != CounterPath(p, k, Total)
    {
      MetricsHold(p, f, k);
      if !f.flushCounts {
        NoTotals(p, f, metrics, k);
      }
    }
  }

  /** The counter loop of `flush_stats`: every counter's rate, and its total when totals are
      flushed, once each and under a path of its own. */
  method FlushCounters(p: Paths, f: Flush) returns (metrics: seq<Metric>, numStats: nat)
    requires IsReadable(p, f)
    ensures numStats == |f.counters| && |metrics| == if f.flushCounts then 2 * |f.counters| else |f.counters|
    ensures Covers(p, f, metrics, f.counters.Keys) && HoldCounters(p, f, metrics)
  {
    hide MetricOf, Covers, IsSettled, IsUnambiguous;
    metrics, numStats := [], 0;
    var todo := f.counters.Keys;
    NothingIsCovered(p, f);
    assert f.counters.Keys - todo == {};
    while todo != {}
      invariant todo <= f.counters.Keys
      invariant numStats + |todo| == |f.counters|
      invariant |metrics| == if f.flushCounts then 2 * numStats else numStats
      invariant Covers(p, f, metrics, f.counters.Keys - todo)
    {
      var key :| key in todo;
      ghost var before, written := metrics, f.counters.Keys - todo;
      CoversOneMore(p, f, metrics, written, key);
      metrics := metrics + [MetricOf(p, f, key, Rate)];
      if f.flushCounts {
        metrics := metrics + [MetricOf(p, f, key, Total)];
      }
      numStats := numStats + 1;
      todo := todo - {key};
      assert metrics == before + MetricsOf(p, f, key);
      assert f.counters.Keys - todo == written + {key};
    }
    assert f.counters.Keys - todo == f.counters.Keys;
    CoveredIsHeld(p, f, metrics);
  }

  /** Keys, settings and printed numbers the pickle writer takes verbatim. */
  ghost predicate IsPrintable(p: Paths, f: Flush)
  {
    && AreKeys(p.counters) && IsKey(p.suffix)
    && (forall k <- f.counters :: IsKey(k))
    && (forall x :: IsVerbatim(f.show(x)))
  }

  lemma DueIsSerialisable(p: Paths, f: Flush, m: Metric)
    requires IsPrintable(p, f) && IsDue(p, f, m)
    ensures IsSerialisable(m)
  {
    var (k, kind) := Recover(p, m.key);
    PathIsSafe(p, k, kind);
  }

  /** The counters of a published snapshot. */
  function FlushOf(snapshot: Aggregator.Snapshot, ts: nat, flushCounts: bool, show: real -> string): Flush
  {
    Flush(snapshot.counters, snapshot.counterRates, ts, flushCounts, show)
  }

  /** Sanitised keys need no further treatment by `sk`. */
  lemma KeyIsSettled(p: Paths, key: string)
    requires IsKey(key)
    ensures IsSettled(p, key)
  {
    hide Split, IsKey;
    KeyParts(key);
    PartsAreKeys(NameOf(key), TagsOf(key), key);
    SanitizeFixes(NameOf(key));
  }

  /** Settings made of key characters, and numbers printed without quotes or line breaks. */
  ghost predicate AreSafe(p: Paths, show: real -> string)
  {
    IsUnambiguous(p) && AreKeys(p.counters) && IsKey(p.suffix) && forall x :: IsVerbatim(show(x))
  }

  /** Every snapshot of every run with sanitising on can be flushed to graphite. */
  lemma SnapshotIsReadable(p: Paths, cfg: Aggregator.Config, prefix: string, events: seq<Aggregator.Event>,
                           i: nat, ts: nat, flushCounts: bool, show: real -> string)
    requires cfg.syntax.sanitizeKeys && cfg.syntax.names == Packets.NamesFor(prefix) && IsKey(prefix)
    requires i < |Aggregator.Run(cfg, Aggregator.Start(cfg), events).snapshots| && AreSafe(p, show)
    ensures var f := FlushOf(Aggregator.Run(cfg, Aggregator.Start(cfg), events).snapshots[i], ts, flushCounts, show);
      IsReadable(p, f) && IsPrintable(p, f)
  {
    hide IsKey, IsSettled, IsUnambiguous, AreKeys, IsVerbatim, Aggregator.Run;
    KeyRuns.EveryKeyIsSanitized(cfg, prefix, events);
    var snapshot := Aggregator.Run(cfg, Aggregator.Start(cfg), events).snapshots[i];
    forall k <- snapshot.counters
      ensures IsKey(k) && IsSettled(p, k)
    {
      KeyIsSettled(p, k);
    }
  }

  lemma CountersAreSerialisable(p: Paths, f: Flush, metrics: seq<Metric>)
    requires IsPrintable(p, f) && AreDue(p, f, metrics, f.counters.Keys)
    ensures forall m <- metrics :: IsSerialisable(m)
  {
    hide IsDue, Recover, IsPrintable, IsSerialisable;
    forall m <- metrics
      ensures IsSerialisable(m)
    {
      var i :| 0 <= i < |metrics| && metrics[i] == m;
      DueIsSerialisable(p, f, m);
    }
  }

  /** The (path, (timestamp, value)) of one metric as the receiver reads it. */
  function Point(path: string, ts: nat, value: string): Value
  {
    Tuple([Str(path), Tuple([Long(ts), Str(value)])])
  }

  lemma PointIsListed(metrics: seq<Metric>, path: string, value: string, ts: nat)
    requires Metric(path, value, ts) in metrics
    ensures Point(path, ts, value) in MetricValues(metrics)
  {
    ValueIsListed(metrics, Metric(path, value, ts));
  }

  /** End to end, for every snapshot of every run: whatever serialisable metrics follow those of
      the counters in the payload, the receiver unpickles it into a list that holds, for every
      counter of the snapshot, its printed rate under its rate path and, when totals are flushed, its
      printed count under its total path. */
  lemma CountersReachTheReceiver(p: Paths, cfg: Aggregator.Config, prefix: string, events: seq<Aggregator.Event>,
                                 i: nat, f: Flush, metrics: seq<Metric>, others: seq<Metric>)
    requires cfg.syntax.sanitizeKeys && cfg.syntax.names == Packets.NamesFor(prefix) && IsKey(prefix)
    requires i < |Aggregator.Run(cfg, Aggregator.Start(cfg), events).snapshots| && AreSafe(p, f.show)
    requires f == FlushOf(Aggregator.Run(cfg, Aggregator.Start(cfg), events).snapshots[i],
                          f.ts, f.flushCounts, f.show)
    requires IsComplete(f) && Covers(p, f, metrics, f.counters.Keys) && forall m <- others :: IsSerialisable(m)
    requires IsAscii(Body(metrics + others)) && |Body(metrics + others)| < 0x1_0000_0000
    ensures var body := Body(metrics + others);
      Receive(UInt32BE(|body|) + Encode(body)) == Some(List(MetricValues(metrics + others)))
    ensures ShowPoints(p, f, Aggregator.Run(cfg, Aggregator.Start(cfg), events).snapshots[i],
                       MetricValues(metrics + others))
  {
    hide Receive, Exec, UInt32BE, Body, IsSerialisable, IsKey, AreSafe, IsPrintable, IsReadable, Covers,
         HoldCounters, ShowPoints, FlushOf, MetricValues, Aggregator.Run;
    var s := Aggregator.Run(cfg, Aggregator.Start(cfg), events).snapshots[i];
    SnapshotIsReadable(p, cfg, prefix, events, i, f.ts, f.flushCounts, f.show);
    AreDueOf(p, f, metrics);
    CountersAreSerialisable(p, f, metrics);
    PicklePayloadRoundTrip(metrics + others);
    CoveredIsHeld(p, f, metrics);
    HeldArePoints(p, f, s, metrics, others);
  }

  lemma AreDueOf(p: Paths, f: Flush, metrics: seq<Metric>)
    requires IsComplete(f) && Covers(p, f, metrics, f.counters.Keys)
    ensures AreDue(p, f, metrics, f.counters.Keys)
  {
  }

  /** Every counter of the snapshot is among the points: its printed rate under its rate path and,
      when totals are flushed, its printed count under its total path. */
  ghost predicate ShowPoints(p: Paths, f: Flush, s: Aggregator.Snapshot, points: seq<Value>)
  {
    forall k <- s.counters ::
      && k in s.counterRates && Point(CounterPath(p, k, Rate), f.ts, f.show(s.counterRates[k])) in points
      && (f.flushCounts ==> Point(CounterPath(p, k, Total), f.ts, f.show(s.counters[k])) in points)
  }

  lemma HeldArePoints(p: Paths, f: Flush, s: Aggregator.Snapshot, metrics: seq<Metric>, others: seq<Metric>)
    requires f == FlushOf(s, f.ts, f.flushCounts, f.show) && IsComplete(f) && HoldCounters(p, f, metrics)
    ensures ShowPoints(p, f, s, MetricValues(metrics + others))
  {
    hide CounterPath, Point;
    forall k <- s.counters
      ensures k in s.counterRates
      ensures Point(CounterPath(p, k, Rate), f.ts, f.show(s.counterRates[k])) in MetricValues(metrics + others)
      ensures f.flushCounts ==>
                Point(CounterPath(p, k, Total), f.ts, f.show(s.counters[k])) in MetricValues(metrics + others)
    {
      PointIsListed(metrics + others, CounterPath(p, k, Rate), f.show(s.counterRates[k]), f.ts);
      if f.flushCounts {
        PointIsListed(metrics + others, CounterPath(p, k, Total), f.show(s.counters[k]), f.ts);
      }
    }
  }

  lemma {:induction false} ValueIsListed(metrics: seq<Metric>, m: Metric)
    requires m in metrics
    ensures MetricValue(m) in MetricValues(metrics)
  {
    if metrics[0] != m {
      ValueIsListed(metrics[1..], m);
    }
  }
}
