/** Gauge expiry over whole runs with `deleteGauges` on. */
module GaugeRuns {
  import opened JsStrings
  import opened TimerMetrics
  import opened Packets
  import opened Aggregator

  /** Every gauge but the daemon's own lag gauge has between 1 and T cycles left. */
  ghost predicate Ticking(cfg: Config, st: Stores)
  {
    && (forall k <- st.gaugesTTL :: 1 <= st.gaugesTTL[k] <= cfg.maxTTL)
    && (forall k <- st.gauges :: k == cfg.syntax.names.lag || k in st.gaugesTTL)
  }

  lemma {:induction false} ApplyAllTicks(cfg: Config, st: Stores, us: seq<Update>)
    requires cfg.deleteGauges && cfg.maxTTL >= 1 && Ticking(cfg, st)
    ensures Ticking(cfg, ApplyAll(cfg, st, us))
  {
    if us != [] {
      ApplyAllTicks(cfg, st, us[..|us| - 1]);
    }
  }

  /** The bound holds between any two steps of any run. */
  lemma {:induction false} GaugesTick(cfg: Config, events: seq<Event>)
    requires cfg.deleteGauges && cfg.maxTTL >= 1
    ensures Ticking(cfg, Run(cfg, Start(cfg), events).st)
  {
    if events != [] {
      var m := |events| - 1;
      GaugesTick(cfg, events[..m]);
      StepTicks(cfg, Run(cfg, Start(cfg), events[..m]).st, events[m]);
    }
  }

  lemma StepTicks(cfg: Config, st: Stores, e: Event)
    requires cfg.deleteGauges && cfg.maxTTL >= 1 && Ticking(cfg, st)
    ensures Ticking(cfg, Step(cfg, st, e))
  {
    if e.Packet? {
      ApplyAllTicks(cfg, st, PacketUpdates(cfg.syntax, e.msg));
    }
  }

  /** No event writes gauge k or asks for its deletion. */
  ghost predicate LeavesAlone(cfg: Config, e: Event, k: string)
  {
    match e
    case Packet(msg) => forall u <- PacketUpdates(cfg.syntax, msg) :: u.Gauge? ==> u.key != k
    case DelGauges(cmdline) => !MatchesAny(cmdline, k)
    case _ => true
  }

  /** Gauge k with value v was written n flushes ago. */
  ghost predicate WrittenAgo(cfg: Config, st: Stores, k: string, v: real, n: nat)
  {
    if n < cfg.maxTTL then
      && k in st.gauges && st.gauges[k] == v
      && k in st.gaugesTTL && st.gaugesTTL[k] == cfg.maxTTL - n
    else k !in st.gauges && k !in st.gaugesTTL
  }

  /** Writing a gauge starts its cycles afresh. */
  lemma WriteStartsCycle(cfg: Config, st: Stores, k: string, signed: bool, value: real)
    requires cfg.deleteGauges && cfg.maxTTL >= 1 && !st.halted
    ensures var v := if signed then Get(st.gauges, k) + value else value;
      WrittenAgo(cfg, Apply(cfg, st, Gauge(k, signed, value)), k, v, 0)
  {
  }

  lemma {:induction false} OtherUpdatesKeep(cfg: Config, st: Stores, us: seq<Update>, k: string, v: real, n: nat)
    requires WrittenAgo(cfg, st, k, v, n)
    requires forall u <- us :: u.Gauge? ==> u.key != k
    ensures WrittenAgo(cfg, ApplyAll(cfg, st, us), k, v, n)
  {
    if us != [] {
      var m := |us| - 1;
      assert us == us[..m] + [us[m]];
      OtherUpdatesKeep(cfg, st, us[..m], k, v, n);
    }
  }

  lemma OtherStepKeeps(cfg: Config, st: Stores, e: Event, k: string, v: real, n: nat)
    requires cfg.deleteGauges && k != cfg.syntax.names.lag
    requires WrittenAgo(cfg, st, k, v, n) && LeavesAlone(cfg, e, k) && !st.halted
    ensures WrittenAgo(cfg, Step(cfg, st, e), k, v, if e.Flush? then n + 1 else n)
    ensures e.Flush? ==> var g := Publish(cfg, st, e.now).gauges;
      (k in g <==> n < cfg.maxTTL) && (k in g ==> g[k] == v)
  {
    if e.Packet? {
      OtherUpdatesKeep(cfg, st, PacketUpdates(cfg.syntax, e.msg), k, v, n);
    }
  }

  /** The snapshots a run adds show gauge k with value v exactly in the first t of them. */
  ghost predicate ShownFor(t: int, snapshots: seq<Snapshot>, k: string, v: real)
  {
    forall j :: 0 <= j < |snapshots| ==>
      && (k in snapshots[j].gauges <==> j < t)
      && (k in snapshots[j].gauges ==> snapshots[j].gauges[k] == v)
  }

  /** Whatever else happens, a gauge that is not written or deleted again is published by
      exactly the next T flushes and by none after them. */
  lemma {:induction false} GaugeExpires(cfg: Config, w: World, events: seq<Event>, k: string, v: real)
    returns (added: seq<Snapshot>)
    requires cfg.deleteGauges && k != cfg.syntax.names.lag
    requires WrittenAgo(cfg, w.st, k, v, 0)
    requires forall e <- events :: LeavesAlone(cfg, e, k)
    requires !Run(cfg, w, events).st.halted
    ensures Run(cfg, w, events).snapshots == w.snapshots + added
    ensures ShownFor(cfg.maxTTL, added, k, v)
    ensures WrittenAgo(cfg, Run(cfg, w, events).st, k, v, |added|)
  {
    added := [];
    assert w.snapshots + [] == w.snapshots;
    if events != [] {
      hide Step, Published, WrittenAgo, ShownFor, LeavesAlone;
      var m := |events| - 1;
      var mid := Run(cfg, w, events[..m]);
      assert events == events[..m] + [events[m]];
      StepFromHalted(cfg, mid.st, events[m]);
      added := GaugeExpires(cfg, w, events[..m], k, v);
      StepShows(cfg, mid.st, events[m], k, v, added);
      Associative(w.snapshots, added, Published(cfg, mid.st, events[m]));
      added := added + Published(cfg, mid.st, events[m]);
    }
  }

  lemma StepShows(cfg: Config, st: Stores, e: Event, k: string, v: real, added: seq<Snapshot>)
    requires cfg.deleteGauges && k != cfg.syntax.names.lag && LeavesAlone(cfg, e, k) && !st.halted
    requires WrittenAgo(cfg, st, k, v, |added|) && ShownFor(cfg.maxTTL, added, k, v)
    ensures var all := added + Published(cfg, st, e);
      ShownFor(cfg.maxTTL, all, k, v) && WrittenAgo(cfg, Step(cfg, st, e), k, v, |all|)
  {
    hide Publish, WrittenAgo, LeavesAlone, Step;
    OtherStepKeeps(cfg, st, e, k, v, |added|);
  }

  /** With `deleteGauges` off a gauge that is left alone keeps its value for ever. */
  lemma {:induction false} GaugePersists(cfg: Config, w: World, events: seq<Event>, k: string)
    requires !cfg.deleteGauges && k != cfg.syntax.names.lag && k in w.st.gauges
    requires forall e <- events :: LeavesAlone(cfg, e, k)
    ensures var st := Run(cfg, w, events).st; k in st.gauges && st.gauges[k] == w.st.gauges[k]
  {
    if events != [] {
      var m := |events| - 1;
      assert events == events[..m] + [events[m]];
      GaugePersists(cfg, w, events[..m], k);
      StepKeepsGauge(cfg, Run(cfg, w, events[..m]).st, events[m], k);
    }
  }

  lemma StepKeepsGauge(cfg: Config, st: Stores, e: Event, k: string)
    requires !cfg.deleteGauges && k != cfg.syntax.names.lag && k in st.gauges && LeavesAlone(cfg, e, k)
    ensures var st' := Step(cfg, st, e); k in st'.gauges && st'.gauges[k] == st.gauges[k]
  {
    if e.Packet? {
      UpdatesKeepGauge(cfg, st, PacketUpdates(cfg.syntax, e.msg), k);
    } else if e.Flush? {
      assert Expired(cfg, st.gaugesTTL) == {};
    }
  }

  lemma {:induction false} UpdatesKeepGauge(cfg: Config, st: Stores, us: seq<Update>, k: string)
    requires k in st.gauges && forall u <- us :: u.Gauge? ==> u.key != k
    ensures var st' := ApplyAll(cfg, st, us); k in st'.gauges && st'.gauges[k] == st.gauges[k]
  {
    if us != [] {
      var m := |us| - 1;
      assert us == us[..m] + [us[m]];
      UpdatesKeepGauge(cfg, st, us[..m], k);
    }
  }

  // ----- from the configuration file to the snapshots

  /** The configured TTL is the whole number t above 1. */
  predicate IsWholeTTL(ttl: Option<real>, t: int)
  {
    t > 1 && ttl == Some(t as real)
  }

  /** t is the TTL a configuration means: its whole number above 1, or else 1. */
  ghost predicate IsMeantTTL(ttl: Option<real>, t: int)
  {
    IsWholeTTL(ttl, t) || (t == 1 && forall n :: !IsWholeTTL(ttl, n))
  }

  lemma NormalisedTTL(ttl: Option<real>)
    ensures IsMeantTTL(ttl, NormalTTL(ttl))
  {
    if n :| IsWholeTTL(ttl, n) {
      assert ttl.value.Floor == n;
    }
  }

  lemma MeantTTLIsUnique(ttl: Option<real>, t: int, u: int)
    requires IsMeantTTL(ttl, t) && IsMeantTTL(ttl, u)
    ensures t == u
  {
  }

  /** Packet `us` writes gauge k. */
  predicate WritesGauge(us: seq<Update>, k: string)
  {
    exists i :: 0 <= i < |us| && us[i].Gauge? && us[i].key == k
  }

  lemma WrittenNow(cfg: Config, st: Stores, u: Update, k: string)
    requires cfg.deleteGauges && cfg.maxTTL >= 1 && !Apply(cfg, st, u).halted
    requires u.Gauge? && u.key == k
    ensures k in Apply(cfg, st, u).gauges
    ensures WrittenAgo(cfg, Apply(cfg, st, u), k, Apply(cfg, st, u).gauges[k], 0)
  {
    WriteStartsCycle(cfg, st, k, u.signed, u.value);
  }

  lemma OtherUpdateKeeps(cfg: Config, st: Stores, u: Update, k: string)
    requires cfg.maxTTL >= 1 && !(u.Gauge? && u.key == k)
    requires k in st.gauges && WrittenAgo(cfg, st, k, st.gauges[k], 0)
    ensures k in Apply(cfg, st, u).gauges
    ensures WrittenAgo(cfg, Apply(cfg, st, u), k, Apply(cfg, st, u).gauges[k], 0)
  {
    hide NewCounters, NewTimers, NewTimerCounters, NewSets, Halts;
  }

  /** After a packet that writes gauge k, the gauge has all its cycles left. */
  lemma {:induction false} PacketStartsCycle(cfg: Config, st: Stores, us: seq<Update>, k: string)
    requires cfg.deleteGauges && cfg.maxTTL >= 1 && WritesGauge(us, k) && !ApplyAll(cfg, st, us).halted
    ensures var st' := ApplyAll(cfg, st, us); k in st'.gauges && WrittenAgo(cfg, st', k, st'.gauges[k], 0)
  {
    hide Apply, WrittenAgo;
    var m := |us| - 1;
    var init, u := us[..m], us[m];
    if u.Gauge? && u.key == k {
      WrittenNow(cfg, ApplyAll(cfg, st, init), u, k);
    } else {
      var i :| 0 <= i < |us| && us[i].Gauge? && us[i].key == k;
      assert init[i] == us[i];
      ApplyFromHalted(cfg, ApplyAll(cfg, st, init), u);
      PacketStartsCycle(cfg, st, init, k);
      OtherUpdateKeeps(cfg, ApplyAll(cfg, st, init), u, k);
    }
  }

  lemma PacketRuns(cfg: Config, w: World, msg: string)
    requires !Advance(cfg, w, Packet(msg)).st.halted
    ensures Advance(cfg, w, Packet(msg)).st == ApplyAll(cfg, w.st, PacketUpdates(cfg.syntax, msg))
  {
    hide PacketUpdates, ApplyAll;
  }

  /** For any configuration file with idle gauges deleted, and whatever happened before: from a
      packet that writes a gauge and while nothing writes or deletes it, exactly the next T
      flushes publish it, with the value the packet left, where T is the TTL the file means. */
  lemma WrittenGaugeExpires(raw: RawConfig, syn: Syntax, summary: Settings, before: seq<Event>, msg: string,
                            after: seq<Event>, k: string, t: int)
    returns (added: seq<Snapshot>)
    requires Normalise(raw, syn, summary).deleteGauges && k != syn.names.lag
    requires IsMeantTTL(raw.gaugesMaxTTL, t)
    requires WritesGauge(PacketUpdates(syn, msg), k)
    requires var cfg := Normalise(raw, syn, summary);
      && (forall e <- after :: LeavesAlone(cfg, e, k))
      && !Run(cfg, Start(cfg), before + [Packet(msg)] + after).st.halted
    ensures var cfg := Normalise(raw, syn, summary);
      var written := Run(cfg, Start(cfg), before + [Packet(msg)]);
      && Run(cfg, Start(cfg), before + [Packet(msg)] + after).snapshots == written.snapshots + added
      && k in written.st.gauges
      && ShownFor(t, added, k, written.st.gauges[k])
  {
    NormalisedTTL(raw.gaugesMaxTTL);
    MeantTTLIsUnique(raw.gaugesMaxTTL, t, NormalTTL(raw.gaugesMaxTTL));
    hide PacketUpdates, LeavesAlone, ShownFor, WritesGauge, Advance, ApplyAll, Flag, NormalTTL;
    var cfg := Normalise(raw, syn, summary);
    var w := Run(cfg, Start(cfg), before);
    var events := before + [Packet(msg)];
    assert events[..|before|] == before;
    var written := Run(cfg, Start(cfg), events);
    RunConcat(cfg, Start(cfg), events, after);
    RunKeepsHalt(cfg, written, after);
    PacketRuns(cfg, w, msg);
    PacketStartsCycle(cfg, w.st, PacketUpdates(syn, msg), k);
    added := GaugeExpires(cfg, written, after, k, written.st.gauges[k]);
  }

  /** The bound on idle cycles, for any configuration file. */
  lemma NormalisedGaugesTick(raw: RawConfig, syn: Syntax, summary: Settings, events: seq<Event>, t: int)
    requires Normalise(raw, syn, summary).deleteGauges && IsMeantTTL(raw.gaugesMaxTTL, t)
    ensures var cfg := Normalise(raw, syn, summary);
      cfg.maxTTL == t >= 1 && Ticking(cfg, Run(cfg, Start(cfg), events).st)
  {
    hide Run, Flag, NormalTTL;
    NormalisedTTL(raw.gaugesMaxTTL);
    MeantTTLIsUnique(raw.gaugesMaxTTL, t, NormalTTL(raw.gaugesMaxTTL));
    GaugesTick(Normalise(raw, syn, summary), events);
  }
}
