/** Timer lists and their counters over whole runs. */
module TimerRuns {
  import opened JsStrings
  import opened Samples
  import opened Packets
  import opened Aggregator

  /** A stored sample with the rate it was taken at. */
  datatype Sample = Sample(value: real, rate: NonZero)

  function TimeSamples(us: seq<Update>, k: string): seq<Sample>
  {
    if us == [] then [] else TimeSamples(us[..|us| - 1], k) + NewSample(us[|us| - 1], k)
  }

  /** What one update adds to the pending samples of timer k. */
  function NewSample(u: Update, k: string): seq<Sample>
  {
    if u.Time? && u.key == k then [Sample(u.value, u.rate)] else []
  }

  /** The samples of timer k received since it was last flushed or deleted. */
  function Pending(cfg: Config, events: seq<Event>, k: string): seq<Sample>
  {
    if events == [] then []
    else
      var before := Pending(cfg, events[..|events| - 1], k);
      match events[|events| - 1]
      case Packet(msg) => before + TimeSamples(PacketUpdates(cfg.syntax, msg), k)
      case Flush(_) => []
      case DelTimers(cmdline) => if MatchesAny(cmdline, k) then [] else before
      case _ => before
  }

  function Values(samples: seq<Sample>): seq<real>
  {
    if samples == [] then []
    else Values(samples[..|samples| - 1]) + [samples[|samples| - 1].value]
  }

  function Weights(samples: seq<Sample>): seq<real>
  {
    if samples == [] then []
    else Weights(samples[..|samples| - 1]) + [Weight(samples[|samples| - 1].rate)]
  }

  ghost predicate Tracks(st: Stores, k: string, samples: seq<Sample>)
  {
    && SamplesOf(st.timers, k) == Values(samples)
    && (k in st.timers ==> k in st.timerCounters && st.timerCounters[k] == Sum(Weights(samples)))
    && (k !in st.timers ==> samples == [])
  }

  lemma OneMoreSample(samples: seq<Sample>, s: Sample)
    ensures Values(samples + [s]) == Values(samples) + [s.value]
    ensures Sum(Weights(samples + [s])) == Sum(Weights(samples)) + Weight(s.rate)
  {
    assert (samples + [s])[..|samples|] == samples;
    var w := Weights(samples);
    assert (w + [Weight(s.rate)])[..|w|] == w;
  }

  lemma ApplyTracks(cfg: Config, st: Stores, u: Update, k: string, samples: seq<Sample>)
    requires Tracks(st, k, samples) && !Apply(cfg, st, u).halted
    ensures Tracks(Apply(cfg, st, u), k, samples + NewSample(u, k))
  {
    hide Values, Weights, Sum, Apply;
    ApplyFromHalted(cfg, st, u);
    if u.Time? && u.key == k {
      OneMoreSample(samples, Sample(u.value, u.rate));
      NoSamples();
      TimeUpdate(cfg, st, k, u.value, u.rate);
    } else {
      OtherUpdate(cfg, st, u, k);
      assert samples + [] == samples;
    }
  }

  lemma TimeUpdate(cfg: Config, st: Stores, k: string, value: real, rate: NonZero)
    requires !st.halted
    ensures var st' := Apply(cfg, st, Time(k, value, rate));
      && k in st'.timers && st'.timers[k] == SamplesOf(st.timers, k) + [value]
      && k in st'.timerCounters
      && st'.timerCounters[k] == (if k in st.timers then Get(st.timerCounters, k) else 0.0) + Weight(rate)
  {
  }

  lemma OtherUpdate(cfg: Config, st: Stores, u: Update, k: string)
    requires !(u.Time? && u.key == k)
    ensures var st' := Apply(cfg, st, u);
      && (k in st'.timers <==> k in st.timers)
      && (k in st.timers ==> st'.timers[k] == st.timers[k])
      && (k in st'.timerCounters <==> k in st.timerCounters)
      && (k in st.timerCounters ==> st'.timerCounters[k] == st.timerCounters[k])
  {
  }

  lemma NoSamples()
    ensures Values([]) == [] && Sum(Weights([])) == 0.0
  {
  }

  lemma {:induction false} ApplyAllTracks(cfg: Config, st: Stores, us: seq<Update>, k: string, samples: seq<Sample>)
    requires Tracks(st, k, samples) && !ApplyAll(cfg, st, us).halted
    ensures Tracks(ApplyAll(cfg, st, us), k, samples + TimeSamples(us, k))
  {
    if us == [] {
      assert samples + [] == samples;
    } else {
      hide Tracks, Apply;
      var m := |us| - 1;
      ApplyFromHalted(cfg, ApplyAll(cfg, st, us[..m]), us[m]);
      ApplyAllTracks(cfg, st, us[..m], k, samples);
      ApplyTracks(cfg, ApplyAll(cfg, st, us[..m]), us[m], k, samples + TimeSamples(us[..m], k));
      Associative(samples, TimeSamples(us[..m], k), NewSample(us[m], k));
    }
  }

  lemma StepTracks(cfg: Config, st: Stores, e: Event, k: string, events: seq<Event>)
    requires events != [] && e == events[|events| - 1] && !Step(cfg, st, e).halted
    requires Tracks(st, k, Pending(cfg, events[..|events| - 1], k))
    ensures Tracks(Step(cfg, st, e), k, Pending(cfg, events, k))
  {
    var before := Pending(cfg, events[..|events| - 1], k);
    match e
    case Packet(msg) =>
      ApplyAllTracks(cfg, st, PacketUpdates(cfg.syntax, msg), k, before);
    case Flush(now) =>
      assert Sum(Weights([])) == 0.0;
    case DelTimers(cmdline) =>
    case _ =>
  }

  /** Between any two steps of any run, the list stored for a timer is exactly what arrived
      since it was last cleared, and its counter is the sum of 1/rate over those samples. */
  lemma {:induction false} TimersAreTracked(cfg: Config, events: seq<Event>, k: string)
    requires !Run(cfg, Start(cfg), events).st.halted
    ensures Tracks(Run(cfg, Start(cfg), events).st, k, Pending(cfg, events, k))
  {
    if events == [] {
    } else {
      hide Step, Tracks, Pending;
      var m := |events| - 1;
      var w := Run(cfg, Start(cfg), events[..m]);
      assert !w.st.halted by { StepFromHalted(cfg, w.st, events[m]); }
      TimersAreTracked(cfg, events[..m], k);
      StepTracks(cfg, w.st, events[m], k, events);
    }
  }

  /** The rates of the samples are positive and at most 1. */
  ghost predicate AreSampled(samples: seq<Sample>)
  {
    forall i :: 0 <= i < |samples| ==> 0.0 < samples[i].rate <= 1.0
  }

  /** A weight is at least 1 exactly when the rate is positive and at most 1. */
  lemma WeightOfRate(rate: NonZero)
    ensures Weight(rate) >= 1.0 <==> 0.0 < rate <= 1.0
    ensures Weight(rate) == 1.0 <==> rate == 1.0
  {
    InverseBounds(rate, Weight(rate));
  }

  lemma InverseBounds(rate: real, w: real)
    requires w * rate == 1.0
    ensures w >= 1.0 <==> 0.0 < rate <= 1.0
    ensures w == 1.0 <==> rate == 1.0
  {
    assert (w - 1.0) * rate == 1.0 - rate;
    SignOfProduct(w, rate);
    SignOfProduct(w - 1.0, rate);
  }

  lemma SignOfProduct(x: real, y: real)
    ensures x >= 0.0 && y >= 0.0 ==> x * y >= 0.0
    ensures x >= 0.0 && y <= 0.0 ==> x * y <= 0.0
    ensures x < 0.0 && y > 0.0 ==> x * y < 0.0
  {
  }

  lemma {:induction false} AsManyValues(samples: seq<Sample>)
    ensures |Values(samples)| == |samples|
  {
    if samples != [] {
      AsManyValues(samples[..|samples| - 1]);
    }
  }

  lemma {:induction false} WeightsAtLeastCount(samples: seq<Sample>)
    requires AreSampled(samples)
    ensures Sum(Weights(samples)) >= |samples| as real
    ensures Sum(Weights(samples)) == |samples| as real <==>
              forall i :: 0 <= i < |samples| ==> samples[i].rate == 1.0
  {
    if samples == [] {
      NoSamples();
    } else {
      var m := |samples| - 1;
      assert samples == samples[..m] + [samples[m]];
      OneMoreSample(samples[..m], samples[m]);
      WeightsAtLeastCount(samples[..m]);
      WeightOfRate(samples[m].rate);
      hide Values, Weights, Weight, Sum;
    }
  }

  /** When the pending samples were taken at rates of at most 1, a timer's counter is at least
      their number, and it is their number exactly when every rate is 1. */
  lemma TimerCounterBounds(cfg: Config, events: seq<Event>, k: string)
    requires !Run(cfg, Start(cfg), events).st.halted
    requires k in Run(cfg, Start(cfg), events).st.timers
    requires AreSampled(Pending(cfg, events, k))
    ensures var st, pending := Run(cfg, Start(cfg), events).st, Pending(cfg, events, k);
      && k in st.timerCounters
      && st.timerCounters[k] >= |st.timers[k]| as real
      && (st.timerCounters[k] == |st.timers[k]| as real <==>
            forall i :: 0 <= i < |pending| ==> pending[i].rate == 1.0)
  {
    hide Run, Pending, AreSampled, Weights;
    TimersAreTracked(cfg, events, k);
    AsManyValues(Pending(cfg, events, k));
    WeightsAtLeastCount(Pending(cfg, events, k));
  }

  // ----- idle timers

  /** Every stored list has a sample. */
  ghost predicate NoneIdle(timers: map<string, seq<real>>)
  {
    forall k <- timers :: timers[k] != []
  }

  lemma {:induction false} ApplyAllNoneIdle(cfg: Config, st: Stores, us: seq<Update>)
    requires NoneIdle(st.timers)
    ensures NoneIdle(ApplyAll(cfg, st, us).timers)
  {
    if us != [] {
      hide Halts, NewCounters, NewTimerCounters, NewGauges, NewTTL, NewSets;
      ApplyAllNoneIdle(cfg, st, us[..|us| - 1]);
    }
  }

  lemma {:induction false} RunNoneIdle(cfg: Config, events: seq<Event>)
    requires cfg.deleteTimers
    ensures NoneIdle(Run(cfg, Start(cfg), events).st.timers)
  {
    if events != [] {
      var m := |events| - 1;
      hide Step, NoneIdle;
      RunNoneIdle(cfg, events[..m]);
      StepNoneIdle(cfg, Run(cfg, Start(cfg), events[..m]).st, events[m]);
    }
  }

  lemma StepNoneIdle(cfg: Config, st: Stores, e: Event)
    requires cfg.deleteTimers && NoneIdle(st.timers)
    ensures NoneIdle(Step(cfg, st, e).timers)
  {
    hide PacketUpdates, ApplyAll, ClearCounters, ClearTimerCounters, ClearSets, WithLag, AgeGauges, MatchesAny;
    if e.Packet? {
      ApplyAllNoneIdle(cfg, st, PacketUpdates(cfg.syntax, e.msg));
    }
  }

  /** With `deleteTimers` a timer exists exactly while it has unflushed samples. */
  lemma IdleTimersVanish(cfg: Config, events: seq<Event>, k: string)
    requires cfg.deleteTimers && !Run(cfg, Start(cfg), events).st.halted
    ensures k in Run(cfg, Start(cfg), events).st.timers <==> Pending(cfg, events, k) != []
  {
    hide Pending, Run;
    TimersAreTracked(cfg, events, k);
    RunNoneIdle(cfg, events);
    AsManyValues(Pending(cfg, events, k));
  }

  // ----- no sample is lost or published twice

  /** All samples of timer k that some snapshots show. */
  function PublishedSamples(snapshots: seq<Snapshot>, k: string): multiset<real>
  {
    if snapshots == [] then multiset{}
    else
      var m := |snapshots| - 1;
      PublishedSamples(snapshots[..m], k) + multiset(SamplesOf(snapshots[m].timers, k))
  }

  /** The samples for timer k that an event brings. */
  function BroughtSamples(syn: Syntax, e: Event, k: string): multiset<real>
  {
    if e.Packet? then multiset(Values(TimeSamples(PacketUpdates(syn, e.msg), k))) else multiset{}
  }

  function AcceptedSamples(syn: Syntax, events: seq<Event>, k: string): multiset<real>
  {
    if events == [] then multiset{}
    else
      var m := |events| - 1;
      AcceptedSamples(syn, events[..m], k) + BroughtSamples(syn, events[m], k)
  }

  /** The samples that a deletion command takes away. */
  function RemovedSamples(st: Stores, e: Event, k: string): multiset<real>
  {
    if e.DelTimers? && MatchesAny(e.cmdline, k) then multiset(SamplesOf(st.timers, k)) else multiset{}
  }

  function DeletedSamples(cfg: Config, events: seq<Event>, k: string): multiset<real>
  {
    if events == [] then multiset{}
    else
      var m := |events| - 1;
      DeletedSamples(cfg, events[..m], k) + RemovedSamples(Run(cfg, Start(cfg), events[..m]).st, events[m], k)
  }

  lemma ApplySamples(cfg: Config, st: Stores, u: Update, k: string)
    requires !Apply(cfg, st, u).halted
    ensures SamplesOf(Apply(cfg, st, u).timers, k) == SamplesOf(st.timers, k) + Values(NewSample(u, k))
  {
    hide NewCounters, NewTimerCounters, NewGauges, NewTTL, NewSets, Halts;
    NoSamples();
    if u.Time? && u.key == k {
      var one := [Sample(u.value, u.rate)];
      assert one[..0] == [];
      assert Values(one) == [] + [u.value] == [u.value];
    }
  }

  lemma {:induction false} ValuesConcat(a: seq<Sample>, b: seq<Sample>)
    requires |b| <= 1
    ensures Values(a + b) == Values(a) + Values(b)
  {
    if b == [] {
      assert a + b == a;
      NoSamples();
    } else {
      assert b == [] + [b[0]] && a + b == a + [b[0]];
      OneMoreSample(a, b[0]);
      OneMoreSample([], b[0]);
      NoSamples();
    }
  }

  lemma {:induction false} ApplyAllSamples(cfg: Config, st: Stores, us: seq<Update>, k: string)
    requires !ApplyAll(cfg, st, us).halted
    ensures SamplesOf(ApplyAll(cfg, st, us).timers, k) == SamplesOf(st.timers, k) + Values(TimeSamples(us, k))
  {
    if us == [] {
      NoSamples();
    } else {
      hide Apply, SamplesOf, Values;
      var m := |us| - 1;
      ApplyFromHalted(cfg, ApplyAll(cfg, st, us[..m]), us[m]);
      ApplyAllSamples(cfg, st, us[..m], k);
      ApplySamples(cfg, ApplyAll(cfg, st, us[..m]), us[m], k);
      ValuesConcat(TimeSamples(us[..m], k), NewSample(us[m], k));
      Associative(SamplesOf(st.timers, k), Values(TimeSamples(us[..m], k)), Values(NewSample(us[m], k)));
    }
  }

  lemma PublishedSamplesSnoc(snapshots: seq<Snapshot>, s: Snapshot, k: string)
    ensures PublishedSamples(snapshots + [s], k) == PublishedSamples(snapshots, k) + multiset(SamplesOf(s.timers, k))
    ensures snapshots + [] == snapshots
  {
    hide SamplesOf;
    assert (snapshots + [s])[..|snapshots|] == snapshots;
  }

  lemma SnapshotSamples(cfg: Config, st: Stores, now: int, k: string)
    ensures multiset(SamplesOf(Publish(cfg, st, now).timers, k)) == multiset(SamplesOf(st.timers, k))
    ensures SamplesOf(Cleared(cfg, st, now).timers, k) == []
  {
    hide Sort, Summaries, Rates, WithLag, ClearCounters, ClearTimerCounters, ClearSets, AgeGauges, Expired;
  }

  /** The samples of timer k that the snapshots show or the stores hold. */
  function KeptSamples(w: World, k: string): multiset<real>
  {
    PublishedSamples(w.snapshots, k) + multiset(SamplesOf(w.st.timers, k))
  }

  lemma Rebalance(kept: multiset<real>, deleted: multiset<real>, accepted: multiset<real>,
                  kept': multiset<real>, removed: multiset<real>, brought: multiset<real>)
    requires kept + deleted == accepted && kept' + removed == kept + brought
    ensures kept' + (deleted + removed) == accepted + brought
  {
    assert kept' + (deleted + removed) == (kept' + removed) + deleted;
    assert (kept + brought) + deleted == (kept + deleted) + brought;
  }

  lemma StepKeepsSamples(cfg: Config, w: World, e: Event, k: string)
    requires !w.st.halted && !Advance(cfg, w, e).st.halted
    ensures KeptSamples(Advance(cfg, w, e), k) + RemovedSamples(w.st, e, k)
         == KeptSamples(w, k) + BroughtSamples(cfg.syntax, e, k)
  {
    hide PacketUpdates, ApplyAll, PublishedSamples, TimeSamples, Values, MatchesAny, Publish, Cleared;
    if e.Packet? {
      PublishedSamplesSnoc(w.snapshots, Publish(cfg, w.st, 0), k);
      ApplyAllSamples(cfg, w.st, PacketUpdates(cfg.syntax, e.msg), k);
    } else if e.Flush? {
      PublishedSamplesSnoc(w.snapshots, Publish(cfg, w.st, e.now), k);
      SnapshotSamples(cfg, w.st, e.now, k);
    } else {
      PublishedSamplesSnoc(w.snapshots, Publish(cfg, w.st, 0), k);
    }
  }

  lemma StartIsEmpty(cfg: Config, k: string)
    ensures KeptSamples(Start(cfg), k) == multiset{}
  {
  }

  /** Over every run that has not ended early: the samples of timer k in all snapshots, those
      still stored and those `deltimers` took away are together exactly the accepted ones. */
  lemma {:induction false} SamplesAreConserved(cfg: Config, events: seq<Event>, k: string)
    requires !Run(cfg, Start(cfg), events).st.halted
    ensures KeptSamples(Run(cfg, Start(cfg), events), k) + DeletedSamples(cfg, events, k)
         == AcceptedSamples(cfg.syntax, events, k)
  {
    if events != [] {
      hide Advance, RemovedSamples, BroughtSamples, KeptSamples;
      var m := |events| - 1;
      var w := Run(cfg, Start(cfg), events[..m]);
      AdvanceFromHalted(cfg, w, events[m]);
      SamplesAreConserved(cfg, events[..m], k);
      StepKeepsSamples(cfg, w, events[m], k);
      Rebalance(KeptSamples(w, k), DeletedSamples(cfg, events[..m], k), AcceptedSamples(cfg.syntax, events[..m], k),
                KeptSamples(Advance(cfg, w, events[m]), k), RemovedSamples(w.st, events[m], k),
                BroughtSamples(cfg.syntax, events[m], k));
    } else {
      StartIsEmpty(cfg, k);
    }
  }
}
