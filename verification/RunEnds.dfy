/** When a run ends early, for every run: a fault, or an internal counter that is incremented
    while `delcounters` has it removed, so that the daemon would count NaN. */
module RunEnds {
  import opened JsStrings
  import opened Packets
  import opened Aggregator
  import opened CounterTheorems

  /** `counters[k]++`: unlike a client's write it needs the counter to be there. */
  predicate Increments(syn: Syntax, u: Update, k: string)
  {
    (u.Bump? && u.key == k) || (u.BadLine? && syn.names.badLines == k)
  }

  /** Update i of a packet ends the run, when `present` are the counters before the packet. */
  ghost predicate EndsAt(syn: Syntax, us: seq<Update>, i: nat, present: set<string>)
    requires i < |us|
  {
    || us[i] == Fault
    || exists k :: Increments(syn, us[i], k) && k !in present && !WritesAny(syn, us[..i], k)
  }

  lemma HaltsIff(cfg: Config, st: Stores, u: Update)
    requires !st.halted
    ensures Apply(cfg, st, u).halted <==>
              u == Fault || exists k :: Increments(cfg.syntax, u, k) && k !in st.counters
  {
    hide NewCounters, NewTimers, NewTimerCounters, NewGauges, NewTTL, NewSets;
    assert u.Bump? ==> Increments(cfg.syntax, u, u.key);
    assert u.BadLine? ==> Increments(cfg.syntax, u, cfg.syntax.names.badLines);
  }

  lemma EndsAtIff(syn: Syntax, us: seq<Update>, m: nat, present: set<string>, now: set<string>)
    requires m < |us| && forall k :: k in now <==> k in present || WritesAny(syn, us[..m], k)
    ensures EndsAt(syn, us, m, present) <==>
              us[m] == Fault || exists k :: Increments(syn, us[m], k) && k !in now
  {
    hide Increments, WritesAny;
  }

  lemma LastEndsIff(cfg: Config, st: Stores, us: seq<Update>)
    requires us != [] && !ApplyAll(cfg, st, us[..|us| - 1]).halted
    ensures ApplyAll(cfg, st, us).halted <==> EndsAt(cfg.syntax, us, |us| - 1, st.counters.Keys)
  {
    var m := |us| - 1;
    var mid := ApplyAll(cfg, st, us[..m]);
    assert ApplyAll(cfg, st, us) == Apply(cfg, mid, us[m]);
    hide Apply, ApplyAll, Increments, WritesAny, EndsAt;
    HaltsIff(cfg, mid, us[m]);
    forall k
      ensures k in mid.counters.Keys <==> k in st.counters.Keys || WritesAny(cfg.syntax, us[..m], k)
    {
      ApplyAllWrites(cfg, st, us[..m], k);
    }
    EndsAtIff(cfg.syntax, us, m, st.counters.Keys, mid.counters.Keys);
  }

  lemma EndsInInit(syn: Syntax, us: seq<Update>, i: nat, present: set<string>)
    requires i < |us| - 1
    ensures EndsAt(syn, us[..|us| - 1], i, present) <==> EndsAt(syn, us, i, present)
  {
    hide Increments, WritesAny;
    assert us[..|us| - 1][..i] == us[..i] && us[..|us| - 1][i] == us[i];
  }

  /** A list of updates ends the run exactly at its first update that does. */
  lemma {:induction false} UpdatesEndIff(cfg: Config, st: Stores, us: seq<Update>)
    requires !st.halted
    ensures ApplyAll(cfg, st, us).halted
            <==> exists i :: 0 <= i < |us| && EndsAt(cfg.syntax, us, i, st.counters.Keys)
  {
    if us != [] {
      hide Apply, EndsAt;
      var m := |us| - 1;
      UpdatesEndIff(cfg, st, us[..m]);
      forall i | 0 <= i < m
        ensures EndsAt(cfg.syntax, us[..m], i, st.counters.Keys) <==> EndsAt(cfg.syntax, us, i, st.counters.Keys)
      {
        EndsInInit(cfg.syntax, us, i, st.counters.Keys);
      }
      if ApplyAll(cfg, st, us[..m]).halted {
        ApplyFromHalted(cfg, ApplyAll(cfg, st, us[..m]), us[m]);
      } else {
        LastEndsIff(cfg, st, us);
      }
    }
  }

  // ----- from events alone

  predicate PresentAfter(cfg: Config, before: bool, e: Event, k: string)
  {
    match e
    case Packet(msg) => before || WritesAny(cfg.syntax, PacketUpdates(cfg.syntax, msg), k)
    case DelCounters(cmdline) => before && !MatchesAny(cmdline, k)
    case _ => before
  }

  /** Internal counter k is there: not deleted, or written since. */
  predicate Present(cfg: Config, events: seq<Event>, k: string)
  {
    if events == [] then true
    else
      var m := |events| - 1;
      PresentAfter(cfg, Present(cfg, events[..m], k), events[m], k)
  }

  lemma StepPresent(cfg: Config, prefix: string, st: Stores, e: Event, k: string)
    requires cfg.syntax.names == NamesFor(prefix) && IsOwnName(cfg.syntax, k)
    requires !Step(cfg, st, e).halted
    ensures k in Step(cfg, st, e).counters <==> PresentAfter(cfg, k in st.counters, e, k)
  {
    StepFromHalted(cfg, st, e);
    InternalNames(prefix);
    hide PacketUpdates, ApplyAll, WritesAny, IsInternal, MatchesAny, NamesFor, ClearTimers, ClearTimerCounters,
         ClearSets, WithLag, AgeGauges, Expired;
    if e.Packet? {
      ApplyAllWrites(cfg, st, PacketUpdates(cfg.syntax, e.msg), k);
    }
  }

  lemma {:induction false} PresentIff(cfg: Config, prefix: string, events: seq<Event>, k: string)
    requires cfg.syntax.names == NamesFor(prefix) && IsOwnName(cfg.syntax, k)
    requires !Run(cfg, Start(cfg), events).st.halted
    ensures k in Run(cfg, Start(cfg), events).st.counters <==> Present(cfg, events, k)
  {
    if events != [] {
      hide Step, PresentAfter, IsOwnName;
      var m := |events| - 1;
      var st := Run(cfg, Start(cfg), events[..m]).st;
      StepFromHalted(cfg, st, events[m]);
      PresentIff(cfg, prefix, events[..m], k);
      StepPresent(cfg, prefix, st, events[m], k);
    }
  }

  /** Update i of packet j ends the run: it is a fault, or it increments an internal counter that
      is neither present before the packet nor written earlier in it. */
  ghost predicate EndsRunAt(cfg: Config, events: seq<Event>, j: nat, i: nat)
    requires j < |events|
  {
    && events[j].Packet?
    && var us := PacketUpdates(cfg.syntax, events[j].msg);
    && i < |us|
    && (|| us[i] == Fault
        || exists k :: IsOwnName(cfg.syntax, k) && Increments(cfg.syntax, us[i], k)
                       && !Present(cfg, events[..j], k) && !WritesAny(cfg.syntax, us[..i], k))
  }

  lemma PacketEndsIff(cfg: Config, prefix: string, events: seq<Event>, i: nat)
    requires cfg.syntax.names == NamesFor(prefix) && events != []
    requires var m := |events| - 1;
      && events[m].Packet? && i < |PacketUpdates(cfg.syntax, events[m].msg)|
      && !Run(cfg, Start(cfg), events[..m]).st.halted
    ensures var m := |events| - 1;
      EndsAt(cfg.syntax, PacketUpdates(cfg.syntax, events[m].msg), i,
             Run(cfg, Start(cfg), events[..m]).st.counters.Keys)
      <==> EndsRunAt(cfg, events, m, i)
  {
    hide PacketUpdates, Run, Present, WritesAny, NamesFor;
    var m := |events| - 1;
    var us := PacketUpdates(cfg.syntax, events[m].msg);
    PacketBumps(cfg.syntax, events[m].msg);
    assert IsOwnBump(cfg.syntax, us[i]);
    forall k | IsOwnName(cfg.syntax, k)
      ensures k in Run(cfg, Start(cfg), events[..m]).st.counters.Keys <==> Present(cfg, events[..m], k)
    {
      PresentIff(cfg, prefix, events[..m], k);
    }
    assert forall k :: Increments(cfg.syntax, us[i], k) ==> IsOwnName(cfg.syntax, k);
  }

  /** Some update of packet j ends the run. */
  ghost predicate EndsRunIn(cfg: Config, events: seq<Event>, j: nat)
    requires j < |events|
  {
    exists i :: EndsRunAt(cfg, events, j, i)
  }

  lemma LastPacketEndsIff(cfg: Config, prefix: string, events: seq<Event>, m: nat)
    requires cfg.syntax.names == NamesFor(prefix) && m == |events| - 1 && events[m].Packet?
    requires !Run(cfg, Start(cfg), events[..m]).st.halted
    ensures ApplyAll(cfg, Run(cfg, Start(cfg), events[..m]).st, PacketUpdates(cfg.syntax, events[m].msg)).halted
            <==> EndsRunIn(cfg, events, m)
  {
    hide PacketUpdates, EndsAt, NamesFor, ApplyAll, EndsRunAt, Run;
    var st := Run(cfg, Start(cfg), events[..m]).st;
    var us := PacketUpdates(cfg.syntax, events[m].msg);
    UpdatesEndIff(cfg, st, us);
    forall i | 0 <= i < |us|
      ensures EndsAt(cfg.syntax, us, i, st.counters.Keys) <==> EndsRunAt(cfg, events, m, i)
    {
      PacketEndsIff(cfg, prefix, events, i);
    }
    forall i: nat | EndsRunAt(cfg, events, m, i)
      ensures i < |us|
    {
      EndsWithin(cfg, events, m, i);
    }
  }

  lemma EndsWithin(cfg: Config, events: seq<Event>, j: nat, i: nat)
    requires j < |events| && EndsRunAt(cfg, events, j, i)
    ensures events[j].Packet? && i < |PacketUpdates(cfg.syntax, events[j].msg)|
  {
  }

  lemma OthersNeverEnd(cfg: Config, events: seq<Event>, j: nat, st: Stores)
    requires j < |events| && !events[j].Packet? && !st.halted
    ensures !Step(cfg, st, events[j]).halted && !EndsRunIn(cfg, events, j)
  {
    hide PacketUpdates, ApplyAll, ClearCounters, ClearTimers, ClearTimerCounters, ClearSets, WithLag;
  }

  lemma LastEventEndsIff(cfg: Config, prefix: string, events: seq<Event>, m: nat)
    requires cfg.syntax.names == NamesFor(prefix) && m == |events| - 1
    requires !Run(cfg, Start(cfg), events[..m]).st.halted
    ensures Run(cfg, Start(cfg), events).st.halted <==> EndsRunIn(cfg, events, m)
  {
    hide PacketUpdates, EndsRunIn, NamesFor, ApplyAll, Published;
    if events[m].Packet? {
      LastPacketEndsIff(cfg, prefix, events, m);
    } else {
      OthersNeverEnd(cfg, events, m, Run(cfg, Start(cfg), events[..m]).st);
    }
  }

  lemma EndsEarlier(cfg: Config, events: seq<Event>, j: nat, i: nat)
    requires j < |events| - 1
    ensures EndsRunAt(cfg, events[..|events| - 1], j, i) <==> EndsRunAt(cfg, events, j, i)
  {
    hide PacketUpdates, Present, WritesAny, Increments;
    assert events[..|events| - 1][..j] == events[..j] && events[..|events| - 1][j] == events[j];
  }

  lemma EndsInEarlier(cfg: Config, events: seq<Event>, init: seq<Event>, j: nat)
    requires events != [] && init == events[..|events| - 1] && j < |init|
    ensures EndsRunIn(cfg, init, j) <==> EndsRunIn(cfg, events, j)
  {
    hide EndsRunAt;
    if EndsRunIn(cfg, init, j) {
      var i :| EndsRunAt(cfg, init, j, i);
      EndsEarlier(cfg, events, j, i);
    }
    if EndsRunIn(cfg, events, j) {
      var i :| EndsRunAt(cfg, events, j, i);
      EndsEarlier(cfg, events, j, i);
    }
  }

  /** Some packet of the run ends it. */
  ghost predicate SomePacketEnds(cfg: Config, events: seq<Event>)
  {
    exists j :: 0 <= j < |events| && EndsRunIn(cfg, events, j)
  }

  lemma SomePacketEndsStep(cfg: Config, events: seq<Event>, m: nat)
    requires m == |events| - 1
    ensures SomePacketEnds(cfg, events) <==> SomePacketEnds(cfg, events[..m]) || EndsRunIn(cfg, events, m)
  {
    hide EndsRunIn;
    forall j | 0 <= j < m
      ensures EndsRunIn(cfg, events[..m], j) <==> EndsRunIn(cfg, events, j)
    {
      EndsInEarlier(cfg, events, events[..m], j);
    }
  }

  /** For every run without restriction: it ends early exactly when some packet holds a fault, or
      increments an internal counter that a deletion command removed and nothing wrote since. */
  lemma {:induction false} RunEndsIff(cfg: Config, prefix: string, events: seq<Event>)
    requires cfg.syntax.names == NamesFor(prefix)
    ensures Run(cfg, Start(cfg), events).st.halted <==> SomePacketEnds(cfg, events)
  {
    if events != [] {
      hide SomePacketEnds, EndsRunIn, Advance, NamesFor;
      var m := |events| - 1;
      RunEndsIff(cfg, prefix, events[..m]);
      SomePacketEndsStep(cfg, events, m);
      var w := Run(cfg, Start(cfg), events[..m]);
      if w.st.halted {
        AdvanceFromHalted(cfg, w, events[m]);
      } else {
        LastEventEndsIff(cfg, prefix, events, m);
      }
    }
  }

  // ----- a real input

  lemma FolderHoldsPackets(prefix: string)
    ensures MatchesAny([prefix + ".*"], NamesFor(prefix).packets)
  {
    var bucket, key := prefix + ".*", prefix + ".packets_received";
    assert bucket[|bucket| - 2..] == ".*";
    assert bucket[..|bucket| - 1] == prefix + "." == key[..|prefix| + 1];
    assert [bucket][0] == bucket && Matches(bucket, key);
  }

  /** After `delcounters statsd.*` (or that of any other prefix) the very next packet ends the
      run, whatever it holds. */
  lemma DeletedCounterEndsRun(cfg: Config, prefix: string, st: Stores, msg: string)
    requires cfg.syntax.names == NamesFor(prefix) && !st.halted
    ensures Step(cfg, Step(cfg, st, DelCounters([prefix + ".*"])), Packet(msg)).halted
  {
    FolderHoldsPackets(prefix);
    hide Lines, LinesUpdates, MatchesAny, NamesFor;
    var deleted := Step(cfg, st, DelCounters([prefix + ".*"]));
    var bump, us := [Bump(cfg.syntax.names.packets)], LinesUpdates(cfg.syntax, Lines(msg));
    assert bump[..0] == [];
    assert ApplyAll(cfg, deleted, bump).halted;
    ApplyAllConcat(cfg, deleted, bump, us);
    HaltedIsFinal(cfg, ApplyAll(cfg, deleted, bump), us);
  }
}
