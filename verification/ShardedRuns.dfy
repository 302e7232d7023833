/** Sharding over whole runs: several daemons behind the proxy, with flushes and deletions in
    between, against one daemon that receives everything. */
module ShardedRuns {
  import opened JsStrings
  import Samples
  import TimerMetrics
  import opened Packets
  import opened Aggregator
  import opened CounterTheorems
  import opened OrderTheorems
  import opened Deliveries
  import opened Proxy

  /** The packets of a run, in order. */
  function PacketsOf(events: seq<Event>): seq<string>
  {
    if events == [] then []
    else
      var m := |events| - 1;
      PacketsOf(events[..m]) + if events[m].Packet? then [events[m].msg] else []
  }

  // ----- counters, with any schedule of flushes on every node

  /** What a run published of counter k, still stores of it and had deleted of it. */
  function Accounted(cfg: Config, events: seq<Event>, k: string): real
  {
    var w := Run(cfg, Start(cfg), events);
    PublishedTotal(w.snapshots, k) + Get(w.st.counters, k) + DeletedTotal(cfg, events, k)
  }

  lemma IntervalSnoc(syn: Syntax, packets: seq<string>, msg: string)
    ensures IntervalUpdates(syn, packets + [msg]) == IntervalUpdates(syn, packets) + PacketUpdates(syn, msg)
    ensures packets + [] == packets
  {
    hide PacketUpdates;
    assert (packets + [msg])[..|packets|] == packets;
  }

  lemma {:induction false} ContributionOfPackets(syn: Syntax, events: seq<Event>, k: string)
    ensures TotalContribution(syn, events, k) == Contributed(syn, IntervalUpdates(syn, PacketsOf(events)), k)
  {
    if events != [] {
      hide PacketUpdates, Contributed, IntervalUpdates;
      var m := |events| - 1;
      var init, msg := PacketsOf(events[..m]), if events[m].Packet? then events[m].msg else "";
      ContributionOfPackets(syn, events[..m], k);
      IntervalSnoc(syn, init, msg);
      ContributedConcat(syn, IntervalUpdates(syn, init), PacketUpdates(syn, msg), k);
    }
  }

  /** A run that has not ended early accounts for its lines. */
  lemma AccountedIsLines(cfg: Config, events: seq<Event>, k: string)
    requires !Run(cfg, Start(cfg), events).st.halted && k != cfg.syntax.names.packets
    ensures Accounted(cfg, events, k) == LinesTotal(cfg.syntax, IntervalLines(PacketsOf(events)), k)
  {
    hide Run, PublishedTotal, DeletedTotal, TotalContribution, IntervalUpdates, LinesUpdates, Contributed,
         IntervalLines, LinesTotal, PacketsOf;
    var packets := PacketsOf(events);
    CountersBalance(cfg, events, k);
    ContributionOfPackets(cfg.syntax, events, k);
    LinesContribute(cfg.syntax, packets, k);
    TotalsOfLines(cfg.syntax, IntervalLines(packets), k);
  }

  type Schedule = nat -> seq<Event>

  /** The packets of node i are those the proxy sends it; flushes and commands come at any time. */
  ghost predicate Delivers(route: Route, packets: seq<string>, schedule: Schedule, i: nat)
  {
    PacketsOf(schedule(i)) == Messages(PacketSends(route, packets), i)
  }

  function AccountedTotal(cfg: Config, schedule: Schedule, n: nat, k: string): real
    decreases n
  {
    if n == 0 then 0.0 else AccountedTotal(cfg, schedule, n - 1, k) + Accounted(cfg, schedule(n - 1), k)
  }

  lemma NodeAccounts(cfg: Config, route: Route, packets: seq<string>, schedule: Schedule, i: nat, k: string)
    requires k != cfg.syntax.names.packets
    requires Delivers(route, packets, schedule, i) && !Run(cfg, Start(cfg), schedule(i)).st.halted
    ensures Accounted(cfg, schedule(i), k)
         == LinesTotal(cfg.syntax, NodeLines(route, IntervalLines(packets), i), k)
  {
    hide Run, Accounted, IntervalLines, LinesTotal, NodeLines;
    NodeMessages(route, packets, i);
    AccountedIsLines(cfg, schedule(i), k);
  }

  lemma {:induction false} NodesAccount(cfg: Config, route: Route, packets: seq<string>, schedule: Schedule,
                                        n: nat, k: string)
    requires k != cfg.syntax.names.packets
    requires forall i: nat :: i < n ==>
               Delivers(route, packets, schedule, i) && !Run(cfg, Start(cfg), schedule(i)).st.halted
    ensures AccountedTotal(cfg, schedule, n, k)
         == LinesTotal(cfg.syntax, Below(route, IntervalLines(packets), n), k)
    decreases n
  {
    hide Run, Accounted, IntervalLines, LinesTotal, NodeLines, Below, Delivers;
    if n == 0 {
      NothingBelowZero(route, IntervalLines(packets));
      NoLinesNoTotal(cfg.syntax, k);
    } else {
      NodesAccount(cfg, route, packets, schedule, n - 1, k);
      NodeAccounts(cfg, route, packets, schedule, n - 1, k);
      BelowSplits(cfg.syntax, route, IntervalLines(packets), n, k);
    }
  }

  lemma NoLinesNoTotal(syn: Syntax, k: string)
    ensures LinesTotal(syn, [], k) == 0.0
  {
  }

  /** However often and whenever each node flushes, and whatever is deleted where: what the nodes
      together published, store and had deleted of a counter is what one daemon has that receives
      everything, on a schedule of its own. */
  lemma ShardedRunsConserveCounters(cfg: Config, route: Route, n: nat, single: seq<Event>, schedule: Schedule,
                                    k: string)
    requires AllRouted(route, n) && k != cfg.syntax.names.packets
    requires !Run(cfg, Start(cfg), single).st.halted
    requires forall i: nat :: i < n ==>
               Delivers(route, PacketsOf(single), schedule, i) && !Run(cfg, Start(cfg), schedule(i)).st.halted
    ensures AccountedTotal(cfg, schedule, n, k) == Accounted(cfg, single, k)
  {
    hide Run, Accounted, AccountedTotal, IntervalLines, LinesTotal, Below, Delivers, PacketsOf;
    NodesAccount(cfg, route, PacketsOf(single), schedule, n, k);
    AllBelow(route, IntervalLines(PacketsOf(single)), n);
    AccountedIsLines(cfg, single, k);
  }

  // ----- one key's entry as a value

  function Only<V>(k: string, v: Option<V>): map<string, V>
  {
    if v.Some? then map[k := v.value] else map[]
  }

  /** Stores that hold nothing but one entry. */
  function StoresOf(en: Entry, k: string): Stores
  {
    Stores(Only(k, en.counter), Only(k, en.timer), Only(k, en.timerCounter), Only(k, en.gauge),
           Only(k, en.gaugeTTL), Only(k, en.members), 0, 0, false)
  }

  lemma EntryOfStores(en: Entry, k: string)
    ensures EntryOf(StoresOf(en, k), k) == en
  {
  }

  function EntryStep(cfg: Config, en: Entry, u: Update, k: string): Entry
  {
    EntryOf(Apply(cfg, StoresOf(en, k), u), k)
  }

  function EntryFold(cfg: Config, en: Entry, us: seq<Update>, k: string): Entry
  {
    if us == [] then en else EntryStep(cfg, EntryFold(cfg, en, us[..|us| - 1], k), us[|us| - 1], k)
  }

  lemma SameHalts(cfg: Config, a: Stores, b: Stores, u: Update, k: string)
    requires EntryOf(a, k) == EntryOf(b, k) && Touches(cfg.syntax, u, k)
    ensures Halts(cfg, a.counters, u) <==> Halts(cfg, b.counters, u)
  {
  }

  lemma ApplyIsEntryStep(cfg: Config, st: Stores, u: Update, k: string)
    requires !Apply(cfg, st, u).halted
    ensures !st.halted
    ensures EntryOf(Apply(cfg, st, u), k)
         == if Touches(cfg.syntax, u, k) then EntryStep(cfg, EntryOf(st, k), u, k) else EntryOf(st, k)
  {
    HaltsWith(cfg, st, u);
    hide EntryOf, Apply, Touches, Halts;
    if Touches(cfg.syntax, u, k) {
      var alone := StoresOf(EntryOf(st, k), k);
      EntryOfStores(EntryOf(st, k), k);
      SameHalts(cfg, st, alone, u, k);
      EntryCongruence(cfg, st, alone, u, k);
    } else {
      EntryFrame(cfg, st, u, k);
    }
  }

  lemma HaltsWith(cfg: Config, st: Stores, u: Update)
    ensures Apply(cfg, st, u).halted <==> st.halted || Halts(cfg, st.counters, u)
  {
    hide Halts;
  }

  /** What updates do to the entry of k depends on the entry and on the updates that touch it. */
  lemma {:induction false} UpdatesFoldEntry(cfg: Config, st: Stores, us: seq<Update>, k: string)
    requires !ApplyAll(cfg, st, us).halted
    ensures EntryOf(ApplyAll(cfg, st, us), k) == EntryFold(cfg, EntryOf(st, k), Touching(cfg.syntax, us, k), k)
  {
    if us != [] {
      hide EntryOf, Apply, Touches, EntryStep;
      var init, u := us[..|us| - 1], us[|us| - 1];
      ApplyIsEntryStep(cfg, ApplyAll(cfg, st, init), u, k);
      UpdatesFoldEntry(cfg, st, init, k);
      FoldSnoc(cfg, EntryOf(st, k), Touching(cfg.syntax, init, k), u, k);
    }
  }

  lemma FoldSnoc(cfg: Config, en: Entry, us: seq<Update>, u: Update, k: string)
    ensures EntryFold(cfg, en, us + [u], k) == EntryStep(cfg, EntryFold(cfg, en, us, k), u, k)
    ensures us + [] == us
  {
    hide EntryStep;
    assert (us + [u])[..|us|] == us;
  }

  // ----- what a snapshot shows of one key

  datatype Shown = Shown(
    counter: Option<real>,
    rate: Option<real>,
    timer: Option<seq<real>>,
    timerCounter: Option<real>,
    data: Option<TimerMetrics.TimerData>,
    gauge: Option<real>,
    members: Option<set<string>>)

  const NOTHING := Shown(None, None, None, None, None, None, None)

  function ShownOf(s: Snapshot, k: string): Shown
  {
    Shown(Lookup(s.counters, k), Lookup(s.counterRates, k), Lookup(s.timers, k), Lookup(s.timerCounters, k),
          Lookup(s.timerData, k), Lookup(s.gauges, k), Lookup(s.sets, k))
  }

  lemma SameEntryShows(cfg: Config, a: Stores, b: Stores, now: int, k: string)
    requires EntryOf(a, k) == EntryOf(b, k) && k != cfg.syntax.names.lag
    ensures ShownOf(Publish(cfg, a, now), k) == ShownOf(Publish(cfg, b, now), k)
  {
    hide TimerMetrics.Summary, Samples.Sort;
    assert Get(a.timerCounters, k) == Get(b.timerCounters, k);
  }

  lemma NoEntryShowsNothing(cfg: Config, st: Stores, now: int, k: string)
    requires EntryOf(st, k) == NO_ENTRY && k != cfg.syntax.names.lag
    ensures ShownOf(Publish(cfg, st, now), k) == NOTHING
  {
    hide TimerMetrics.Summary, Samples.Sort;
  }

  lemma SameEntryClears(cfg: Config, a: Stores, b: Stores, now: int, k: string)
    requires EntryOf(a, k) == EntryOf(b, k) && k != cfg.syntax.names.lag
    ensures EntryOf(Cleared(cfg, a, now), k) == EntryOf(Cleared(cfg, b, now), k)
  {
    hide IsInternal;
  }

  lemma NoEntryStays(cfg: Config, st: Stores, now: int, k: string)
    requires EntryOf(st, k) == NO_ENTRY && k != cfg.syntax.names.lag
    ensures EntryOf(Cleared(cfg, st, now), k) == NO_ENTRY
  {
    hide IsInternal;
  }

  /** A deletion command treats equal entries alike, and creates none. */
  lemma SameEntryDeletes(cfg: Config, a: Stores, b: Stores, e: Event, k: string)
    requires e.DelCounters? || e.DelTimers? || e.DelGauges?
    requires !a.halted && !b.halted
    ensures EntryOf(a, k) == EntryOf(b, k) ==> EntryOf(Step(cfg, a, e), k) == EntryOf(Step(cfg, b, e), k)
    ensures EntryOf(a, k) == NO_ENTRY ==> EntryOf(Step(cfg, a, e), k) == NO_ENTRY
  {
    hide MatchesAny;
  }

  // ----- aligned runs

  function AsPackets(msgs: seq<string>): seq<Event>
  {
    if msgs == [] then []
    else
      var m := |msgs| - 1;
      AsPackets(msgs[..m]) + [Packet(msgs[m])]
  }

  /** What happens at node i while `e` happens to the single daemon: packets are distributed, and
      flushes and commands come to every node. */
  function NodeEvent(route: Route, e: Event, i: nat): seq<Event>
  {
    if e.Packet? then AsPackets(Messages(Sends(route, Lines(e.msg)), i)) else [e]
  }

  function NodeEvents(route: Route, events: seq<Event>, i: nat): seq<Event>
    decreases |events|
  {
    if events == [] then []
    else
      var m := |events| - 1;
      NodeEvents(route, events[..m], i) + NodeEvent(route, events[m], i)
  }

  lemma {:induction false} RunPackets(cfg: Config, w: World, msgs: seq<string>)
    ensures Run(cfg, w, AsPackets(msgs)) == World(Receive(cfg, w.st, msgs), w.snapshots)
  {
    if msgs != [] {
      hide PacketUpdates, Apply;
      var m := |msgs| - 1;
      var init, events := msgs[..m], AsPackets(msgs[..m]);
      RunPackets(cfg, w, init);
      assert (events + [Packet(msgs[m])])[..|events|] == events;
      var mid := Run(cfg, w, events);
      assert mid.snapshots + [] == mid.snapshots;
      var us := PacketUpdates(cfg.syntax, msgs[m]);
      ApplyAllConcat(cfg, w.st, IntervalUpdates(cfg.syntax, init), us);
      if mid.st.halted {
        HaltedIsFinal(cfg, mid.st, us);
      }
    }
  }

  /** The share of node i of one packet, as it arrives there. */
  lemma ShareOfPacket(route: Route, msg: string, i: nat)
    ensures var share := NodeLines(route, Lines(msg), i);
      Messages(Sends(route, Lines(msg)), i) == share && IntervalLines(share) == share
  {
    hide Lines;
    MessagesAreNodeLines(route, Lines(msg), i);
    LinesAreClean(msg);
    NodeLinesAreClean(route, Lines(msg), i);
    LinesAsPackets(NodeLines(route, Lines(msg), i));
  }

  /** The node knows of k what the single daemon knows, or nothing. */
  ghost predicate Agrees(cfg: Config, node: World, single: World, k: string, home: bool)
  {
    && HasInternal(cfg, node.st) && !node.st.halted
    && EntryOf(node.st, k) == (if home then EntryOf(single.st, k) else NO_ENTRY)
    && |node.snapshots| == |single.snapshots|
    && forall j :: 0 <= j < |node.snapshots| ==>
         ShownOf(node.snapshots[j], k) == if home then ShownOf(single.snapshots[j], k) else NOTHING
  }

  /** A node stays calm on its share of a fault-free packet. */
  lemma ShareIsCalm(cfg: Config, route: Route, st: Stores, msg: string, i: nat)
    requires HasInternal(cfg, st) && !st.halted
    requires Fault !in LinesUpdates(cfg.syntax, Lines(msg))
    ensures var after := Receive(cfg, st, NodeLines(route, Lines(msg), i));
      HasInternal(cfg, after) && !after.halted
  {
    hide LinesUpdates, IntervalUpdates, NodeLines, Lines, ApplyAll, HasInternal, IsOwnBump, IntervalLines;
    var share := NodeLines(route, Lines(msg), i);
    ShareOfPacket(route, msg, i);
    NoFaultInShare(cfg.syntax, route, Lines(msg), i);
    LinesContribute(cfg.syntax, share, "");
    ApplyAllCounts(cfg, st, IntervalUpdates(cfg.syntax, share), "");
  }

  lemma ShareTouches(syn: Syntax, route: Route, msg: string, k: string, h: nat, i: nat)
    requires !IsOwnName(syn, k) && HasHome(syn, route, Lines(msg), k, h)
    ensures Touching(syn, IntervalUpdates(syn, NodeLines(route, Lines(msg), i)), k)
         == if i == h then Touching(syn, PacketUpdates(syn, msg), k) else []
  {
    hide LinesUpdates, IntervalUpdates, PacketUpdates, NodeLines, Lines, HasHome, Touching, IntervalLines;
    ShareOfPacket(route, msg, i);
    PacketsTouch(syn, NodeLines(route, Lines(msg), i), k);
    HomeGetsAll(syn, route, Lines(msg), k, h, i);
    PacketTouches(syn, msg, k);
  }

  lemma PacketAgrees(cfg: Config, route: Route, node: World, single: World, msg: string, k: string, h: nat, i: nat)
    requires Agrees(cfg, node, single, k, i == h) && !IsOwnName(cfg.syntax, k)
    requires !single.st.halted && !Advance(cfg, single, Packet(msg)).st.halted
    requires Fault !in LinesUpdates(cfg.syntax, Lines(msg)) && HasHome(cfg.syntax, route, Lines(msg), k, h)
    ensures Agrees(cfg, Run(cfg, node, NodeEvent(route, Packet(msg), i)), Advance(cfg, single, Packet(msg)),
                   k, i == h)
  {
    hide LinesUpdates, IntervalUpdates, PacketUpdates, NodeLines, Lines, HasHome, Touching, ApplyAll, EntryOf,
         HasInternal, ShownOf, Run, EntryFold, Sends, Messages;
    var share := NodeLines(route, Lines(msg), i);
    ShareOfPacket(route, msg, i);
    RunPackets(cfg, node, share);
    ShareIsCalm(cfg, route, node.st, msg, i);
    ShareTouches(cfg.syntax, route, msg, k, h, i);
    UpdatesFoldEntry(cfg, node.st, IntervalUpdates(cfg.syntax, share), k);
    UpdatesFoldEntry(cfg, single.st, PacketUpdates(cfg.syntax, msg), k);
    EmptyFold(cfg, NO_ENTRY, k);
    assert single.snapshots + [] == single.snapshots;
  }

  lemma EmptyFold(cfg: Config, en: Entry, k: string)
    ensures EntryFold(cfg, en, [], k) == en
  {
  }

  lemma EventAgrees(cfg: Config, prefix: string, node: World, single: World, e: Event, k: string, home: bool)
    requires cfg.syntax.names == NamesFor(prefix) && SparesInternal(cfg, e) && !e.Packet?
    requires Agrees(cfg, node, single, k, home) && !single.st.halted && k != cfg.syntax.names.lag
    ensures Agrees(cfg, Advance(cfg, node, e), Advance(cfg, single, e), k, home)
  {
    StepKeepsInternal(cfg, prefix, node.st, e);
    hide PacketUpdates, NamesFor, HasInternal, EntryOf, ShownOf, Publish, Cleared, Without, SparesInternal;
    assert node.snapshots + [] == node.snapshots && single.snapshots + [] == single.snapshots;
    if e.Flush? {
      if home {
        SameEntryShows(cfg, node.st, single.st, e.now, k);
        SameEntryClears(cfg, node.st, single.st, e.now, k);
      } else {
        NoEntryShowsNothing(cfg, node.st, e.now, k);
        NoEntryStays(cfg, node.st, e.now, k);
      }
    } else {
      SameEntryDeletes(cfg, node.st, single.st, e, k);
    }
  }

  lemma RunOne(cfg: Config, w: World, e: Event)
    ensures Run(cfg, w, [e]) == Advance(cfg, w, e)
  {
    hide Advance;
    assert [e][..0] == [];
  }

  lemma StepAgrees(cfg: Config, prefix: string, route: Route, node: World, single: World, e: Event, k: string,
                   h: nat, i: nat)
    requires cfg.syntax.names == NamesFor(prefix) && SparesInternal(cfg, e) && !IsFaulty(cfg.syntax, e)
    requires Agrees(cfg, node, single, k, i == h) && HasInternal(cfg, single.st) && !single.st.halted
    requires !IsOwnName(cfg.syntax, k) && k != cfg.syntax.names.lag
    requires e.Packet? ==> HasHome(cfg.syntax, route, Lines(e.msg), k, h)
    ensures Agrees(cfg, Run(cfg, node, NodeEvent(route, e, i)), Advance(cfg, single, e), k, i == h)
  {
    StepKeepsInternal(cfg, prefix, single.st, e);
    hide NamesFor, Agrees, HasHome, Lines, LinesUpdates, SparesInternal, HasInternal, Step, Run, Messages, Sends;
    if e.Packet? {
      PacketAgrees(cfg, route, node, single, e.msg, k, h, i);
    } else {
      RunOne(cfg, node, e);
      EventAgrees(cfg, prefix, node, single, e, k, i == h);
    }
  }

  /** All lines of a run that carry k are routed to node h. */
  ghost predicate RunHasHome(syn: Syntax, route: Route, events: seq<Event>, k: string, h: nat)
  {
    forall j :: 0 <= j < |events| && events[j].Packet? ==> HasHome(syn, route, Lines(events[j].msg), k, h)
  }

  lemma StartAgrees(cfg: Config, k: string, home: bool)
    requires !IsOwnName(cfg.syntax, k)
    ensures Agrees(cfg, Start(cfg), Start(cfg), k, home)
  {
  }

  /** Over whole runs with aligned flushes and commands: a key all of whose lines go to node h is
      stored there as on the single daemon, every flush there shows of it what the single daemon's
      flush shows, and no other node ever stores or shows it. */
  lemma {:induction false} ShardedRunsKeepKeys(cfg: Config, prefix: string, route: Route, events: seq<Event>,
                                               k: string, h: nat, i: nat)
    requires cfg.syntax.names == NamesFor(prefix)
    requires !IsOwnName(cfg.syntax, k) && k != cfg.syntax.names.lag
    requires forall e <- events :: SparesInternal(cfg, e) && !IsFaulty(cfg.syntax, e)
    requires RunHasHome(cfg.syntax, route, events, k, h)
    ensures Agrees(cfg, Run(cfg, Start(cfg), NodeEvents(route, events, i)), Run(cfg, Start(cfg), events), k, i == h)
    decreases |events|
  {
    if events == [] {
      hide Agrees;
      StartAgrees(cfg, k, i == h);
    } else {
      hide Advance, NodeEvent, Agrees, HasHome, SparesInternal, IsFaulty, NamesFor, HasInternal;
      var m := |events| - 1;
      var init, e := events[..m], events[m];
      assert events == init + [e];
      assert forall j :: 0 <= j < m ==> init[j] == events[j];
      ShardedRunsKeepKeys(cfg, prefix, route, init, k, h, i);
      FaultsEndRuns(cfg, prefix, init);
      RunConcat(cfg, Start(cfg), NodeEvents(route, init, i), NodeEvent(route, e, i));
      StepAgrees(cfg, prefix, route, Run(cfg, Start(cfg), NodeEvents(route, init, i)),
                 Run(cfg, Start(cfg), init), e, k, h, i);
    }
  }
}
