/** What a flush publishes of timers and sets, in terms of what the run received. */
module PublishedRuns {
  import opened Samples
  import opened TimerMetrics
  import opened SummaryTheorems
  import opened Packets
  import opened Aggregator
  import opened TimerRuns
  import SetRuns
  import StepTheorems

  /** Each weight, as often as its sample's rate, is 1. */
  ghost predicate AreWeights(weights: seq<real>, samples: seq<Sample>)
  {
    && |weights| == |samples|
    && forall i :: 0 <= i < |samples| ==> weights[i] * samples[i].rate == 1.0
  }

  ghost predicate AreValues(values: seq<real>, samples: seq<Sample>)
  {
    && |values| == |samples|
    && forall i :: 0 <= i < |samples| ==> values[i] == samples[i].value
  }

  lemma {:induction false} WeightsAre(samples: seq<Sample>)
    ensures AreWeights(Weights(samples), samples)
  {
    if samples != [] {
      hide Weight;
      var m := |samples| - 1;
      WeightsAre(samples[..m]);
      WeightTimesRate(samples[m].rate);
    }
  }

  lemma {:induction false} ValuesAre(samples: seq<Sample>)
    ensures AreValues(Values(samples), samples)
  {
    if samples != [] {
      ValuesAre(samples[..|samples| - 1]);
    }
  }

  /** Between any two steps the list stored for a timer is the values of its pending samples, in
      order of arrival, and its counter the sum of figures that are each 1 when taken as often as the
      sample's rate. */
  lemma TimerHoldsPending(cfg: Config, events: seq<Event>, k: string)
      returns (values: seq<real>, weights: seq<real>)
    requires !Run(cfg, Start(cfg), events).st.halted
    ensures var st, pending := Run(cfg, Start(cfg), events).st, Pending(cfg, events, k);
      && AreValues(values, pending) && AreWeights(weights, pending)
      && SamplesOf(st.timers, k) == values
      && (k in st.timers ==> k in st.timerCounters && st.timerCounters[k] == Sum(weights))
      && (pending != [] ==> k in st.timers)
  {
    hide Run, Pending, Values, Weights, AreValues, AreWeights;
    var pending := Pending(cfg, events, k);
    values, weights := Values(pending), Weights(pending);
    TimersAreTracked(cfg, events, k);
    ValuesAre(pending);
    WeightsAre(pending);
  }

  lemma FlushedTimer(cfg: Config, w: World, now: int, k: string)
    requires !w.st.halted && k in w.st.timers && k in w.st.timerCounters
    ensures var w' := Advance(cfg, w, Flush(now));
      && |w'.snapshots| == |w.snapshots| + 1
      && var s := w'.snapshots[|w.snapshots|];
      && k in s.timerData && k in s.timers && k in s.timerCounters
      && s.timers[k] == Sort(w.st.timers[k]) && s.timerCounters[k] == w.st.timerCounters[k]
      && s.timerData[k] == Summary(k, Sort(w.st.timers[k]), w.st.timerCounters[k], cfg.summary)
  {
    hide Cleared, Summary, Sort, Rates, WithLag;
  }

  /** For every run that has not ended early, the next flush publishes of every timer with pending
      samples: the sorted values; a count that is the sum of 1 over each sample's rate; that count per
      second; and the sum, sum of squares, extremes, mean, variance and median of the pending values. */
  lemma RunPublishesTimer(cfg: Config, events: seq<Event>, now: int, k: string)
      returns (values: seq<real>, weights: seq<real>, o: Overall, perSecond: real)
    requires !Run(cfg, Start(cfg), events).st.halted && Pending(cfg, events, k) != []
    ensures AreValues(values, Pending(cfg, events, k)) && AreWeights(weights, Pending(cfg, events, k))
    ensures values != [] && AreFigures(o, values)
    ensures IsShare(perSecond, Sum(weights), cfg.summary.interval / 1000.0)
    ensures var n := |Run(cfg, Start(cfg), events).snapshots|;
      var w := Run(cfg, Start(cfg), events + [Flush(now)]);
      && |w.snapshots| == n + 1
      && var s := w.snapshots[n];
      && k in s.timers && Sorted(s.timers[k]) && multiset(s.timers[k]) == multiset(values)
      && k in s.timerCounters && s.timerCounters[k] == Sum(weights)
      && k in s.timerData
      && ShowsOverall(s.timerData[k], cfg.summary.kept, o, Sum(values), SumSquares(values), Sum(weights), perSecond)
  {
    hide Run, Pending, AreValues, AreWeights, Summary, AreFigures, ShowsOverall, Sum, SumSquares, IsShare, Advance;
    var w := Run(cfg, Start(cfg), events);
    values, weights := TimerHoldsPending(cfg, events, k);
    SameLengths(values, Pending(cfg, events, k));
    StepTheorems.RunSnoc(cfg, Start(cfg), events, Flush(now));
    FlushedTimer(cfg, w, now, k);
    o, perSecond := SummaryShowsOverall(k, values, Sum(weights), cfg.summary);
  }

  lemma SameLengths(values: seq<real>, samples: seq<Sample>)
    requires AreValues(values, samples)
    ensures values == [] <==> samples == []
  {
  }

  /** The next flush publishes of every set exactly the distinct elements received since the last. */
  lemma RunPublishesSet(cfg: Config, events: seq<Event>, now: int, k: string)
    requires !Run(cfg, Start(cfg), events).st.halted
    ensures var n := |Run(cfg, Start(cfg), events).snapshots|;
      var w := Run(cfg, Start(cfg), events + [Flush(now)]);
      && |w.snapshots| == n + 1
      && MembersOf(w.snapshots[n].sets, k) == SetRuns.Distinct(cfg, events, k)
  {
    hide Run, SetRuns.Distinct, Advance;
    SetRuns.SetsAreDistinctElements(cfg, events, k);
    StepTheorems.RunSnoc(cfg, Start(cfg), events, Flush(now));
    StepTheorems.FlushPublishes(cfg, Run(cfg, Start(cfg), events), now, k);
  }
}
