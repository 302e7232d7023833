/** How lines are grouped into packets, and inside one flush interval in which order they come,
    does not matter: only the packet counter sees it. */
module Deliveries {
  import opened JsStrings
  import opened TimerMetrics
  import opened Packets
  import opened Aggregator
  import opened CounterTheorems
  import opened OrderTheorems

  /** Equal stores, except for the value of the received-packets counter. */
  ghost predicate SameButPackets(cfg: Config, a: Stores, b: Stores)
  {
    && SameCountersBut(cfg.syntax.names.packets, a.counters, b.counters)
    && a == b.(counters := a.counters)
  }

  /** Equal counters, except for the value under p. */
  ghost predicate SameCountersBut(p: string, a: map<string, real>, b: map<string, real>)
  {
    && p in a && a.Keys == b.Keys
    && forall k <- a :: k == p || a[k] == b[k]
  }

  lemma CountersButPackets(cfg: Config, a: map<string, real>, b: map<string, real>, u: Update)
    requires SameCountersBut(cfg.syntax.names.packets, a, b)
    ensures SameCountersBut(cfg.syntax.names.packets, NewCounters(cfg, a, u), NewCounters(cfg, b, u))
    ensures Halts(cfg, a, u) <==> Halts(cfg, b, u)
  {
  }

  lemma ApplyButPackets(cfg: Config, a: Stores, b: Stores, u: Update)
    requires SameButPackets(cfg, a, b)
    ensures SameButPackets(cfg, Apply(cfg, a, u), Apply(cfg, b, u))
  {
    hide SameCountersBut, NewCounters, NewTimers, NewTimerCounters, NewGauges, NewTTL, NewSets, Halts;
    CountersButPackets(cfg, a.counters, b.counters, u);
  }

  lemma {:induction false} ApplyAllButPackets(cfg: Config, a: Stores, b: Stores, us: seq<Update>)
    requires SameButPackets(cfg, a, b)
    ensures SameButPackets(cfg, ApplyAll(cfg, a, us), ApplyAll(cfg, b, us))
  {
    if us != [] {
      hide SameButPackets, Apply;
      var m := |us| - 1;
      ApplyAllButPackets(cfg, a, b, us[..m]);
      ApplyButPackets(cfg, ApplyAll(cfg, a, us[..m]), ApplyAll(cfg, b, us[..m]), us[m]);
    }
  }

  lemma BumpIsInvisible(cfg: Config, st: Stores)
    requires cfg.syntax.names.packets in st.counters
    ensures SameButPackets(cfg, Apply(cfg, st, Bump(cfg.syntax.names.packets)), st)
  {
  }

  lemma SameButPacketsTransitive(cfg: Config, a: Stores, b: Stores, c: Stores)
    requires SameButPackets(cfg, a, b) && SameButPackets(cfg, b, c)
    ensures SameButPackets(cfg, a, c)
  {
  }

  lemma SameButPacketsSymmetric(cfg: Config, a: Stores, b: Stores)
    requires SameButPackets(cfg, a, b)
    ensures SameButPackets(cfg, b, a)
  {
  }

  /** A packet does to the stores what its lines do, apart from the packet counter. */
  lemma PacketIsItsLines(cfg: Config, st: Stores, packet: string)
    requires cfg.syntax.names.packets in st.counters
    ensures SameButPackets(cfg, ApplyAll(cfg, st, PacketUpdates(cfg.syntax, packet)),
                           ApplyAll(cfg, st, LinesUpdates(cfg.syntax, Lines(packet))))
  {
    hide SameButPackets, Apply, LinesUpdates;
    var bump := [Bump(cfg.syntax.names.packets)];
    var us := LinesUpdates(cfg.syntax, Lines(packet));
    ApplyAllConcat(cfg, st, bump, us);
    assert bump[..0] == [];
    BumpIsInvisible(cfg, st);
    ApplyAllButPackets(cfg, ApplyAll(cfg, st, bump), st, us);
  }

  /** The stores after a list of packets. */
  function Receive(cfg: Config, st: Stores, packets: seq<string>): Stores
  {
    ApplyAll(cfg, st, IntervalUpdates(cfg.syntax, packets))
  }

  lemma {:induction false} PacketsAreTheirLines(cfg: Config, st: Stores, packets: seq<string>)
    requires cfg.syntax.names.packets in st.counters
    ensures SameButPackets(cfg, Receive(cfg, st, packets),
                           ApplyAll(cfg, st, LinesUpdates(cfg.syntax, IntervalLines(packets))))
  {
    if packets != [] {
      var m := |packets| - 1;
      var init, last := packets[..m], packets[m];
      PacketsAreTheirLines(cfg, st, init);
      OneMorePacket(cfg, st, init, last);
    }
  }

  lemma OneMorePacket(cfg: Config, st: Stores, init: seq<string>, last: string)
    requires SameButPackets(cfg, Receive(cfg, st, init),
                            ApplyAll(cfg, st, LinesUpdates(cfg.syntax, IntervalLines(init))))
    ensures SameButPackets(cfg, Receive(cfg, st, init + [last]),
                           ApplyAll(cfg, st, LinesUpdates(cfg.syntax, IntervalLines(init + [last]))))
  {
    hide Apply, ApplyAll, LinesUpdates, PacketUpdates, Lines;
    var syn := cfg.syntax;
    assert (init + [last])[..|init|] == init;
    var us, ls := PacketUpdates(syn, last), LinesUpdates(syn, Lines(last));
    var a, b := Receive(cfg, st, init), ApplyAll(cfg, st, LinesUpdates(syn, IntervalLines(init)));
    ApplyAllConcat(cfg, st, IntervalUpdates(syn, init), us);
    LinesUpdatesConcat(syn, IntervalLines(init), Lines(last));
    ApplyAllConcat(cfg, st, LinesUpdates(syn, IntervalLines(init)), ls);
    ApplyAllButPackets(cfg, a, b, us);
    PacketIsItsLines(cfg, b, last);
    SameButPacketsTransitive(cfg, ApplyAll(cfg, a, us), ApplyAll(cfg, b, us), ApplyAll(cfg, b, ls));
  }

  /** Two deliveries of the same lines in the same order leave the same stores, however the
      lines are grouped into packets. */
  lemma GroupingIsInvisible(cfg: Config, st: Stores, a: seq<string>, b: seq<string>)
    requires cfg.syntax.names.packets in st.counters
    requires IntervalLines(a) == IntervalLines(b)
    ensures SameButPackets(cfg, Receive(cfg, st, a), Receive(cfg, st, b))
  {
    hide SameButPackets, ApplyAll;
    PacketsAreTheirLines(cfg, st, a);
    PacketsAreTheirLines(cfg, st, b);
    var mid := ApplyAll(cfg, st, LinesUpdates(cfg.syntax, IntervalLines(a)));
    SameButPacketsSymmetric(cfg, Receive(cfg, st, b), mid);
    SameButPacketsTransitive(cfg, Receive(cfg, st, a), mid, Receive(cfg, st, b));
  }

  /** Lines as `Lines` gives them: not empty, and without a newline. */
  ghost predicate AreClean(lines: seq<string>)
  {
    forall i :: 0 <= i < |lines| ==> lines[i] != "" && '\n' !in lines[i]
  }

  /** Sending every line as its own packet delivers the same lines. */
  lemma {:induction false} LinesAsPackets(lines: seq<string>)
    requires AreClean(lines)
    ensures IntervalLines(lines) == lines
  {
    if lines != [] {
      hide Lines;
      var m := |lines| - 1;
      LinesAsPackets(lines[..m]);
      LinesOfOne(lines[m]);
      assert lines == lines[..m] + [lines[m]];
    }
  }

  lemma {:induction false} NonEmptyParts(parts: seq<string>)
    ensures forall part <- NonEmpty(parts) :: part != "" && part in parts
  {
    if parts != [] {
      NonEmptyParts(parts[1..]);
    }
  }

  lemma LinesAreClean(packet: string)
    ensures AreClean(Lines(packet))
  {
    SplitHasNoSeparator(packet, '\n');
    NonEmptyParts(Split(packet, "\n"));
    forall i | 0 <= i < |Lines(packet)|
      ensures Lines(packet)[i] != "" && '\n' !in Lines(packet)[i]
    {
      assert Lines(packet)[i] in NonEmpty(Split(packet, "\n"));
    }
  }

  // ----- any order, any grouping

  /** Packets contribute to each counter what their lines contribute, and one apiece to the packet
      counter. */
  lemma {:induction false} LinesContribute(syn: Syntax, packets: seq<string>, k: string)
    ensures var us, ls := IntervalUpdates(syn, packets), LinesUpdates(syn, IntervalLines(packets));
      && Contributed(syn, us, k)
         == Contributed(syn, ls, k) + (if k == syn.names.packets then |packets| as real else 0.0)
      && BadLineCount(us) == BadLineCount(ls)
      && (Fault in us <==> Fault in ls)
      && forall u <- us :: IsOwnBump(syn, u)
    decreases |packets|
  {
    if packets != [] {
      hide Lines, LinesUpdates, Contribution;
      var m := |packets| - 1;
      var init, last := packets[..m], packets[m];
      LinesContribute(syn, init, k);
      LinesUpdatesConcat(syn, IntervalLines(init), Lines(last));
      ContributedConcat(syn, LinesUpdates(syn, IntervalLines(init)), LinesUpdates(syn, Lines(last)), k);
      ContributedConcat(syn, IntervalUpdates(syn, init), PacketUpdates(syn, last), k);
      PacketContributes(syn, last, k);
    }
  }

  lemma PacketContributes(syn: Syntax, packet: string, k: string)
    ensures var us, ls := PacketUpdates(syn, packet), LinesUpdates(syn, Lines(packet));
      && Contributed(syn, us, k) == Contributed(syn, ls, k) + (if k == syn.names.packets then 1.0 else 0.0)
      && BadLineCount(us) == BadLineCount(ls)
      && (Fault in us <==> Fault in ls)
      && forall u <- us :: IsOwnBump(syn, u)
  {
    hide Lines, LinesUpdates;
    var bump := [Bump(syn.names.packets)];
    PacketBumps(syn, packet);
    ContributedConcat(syn, bump, LinesUpdates(syn, Lines(packet)), k);
    assert bump[..0] == [];
  }

  lemma CalmLines(cfg: Config, lines: seq<string>)
    requires Fault !in LinesUpdates(cfg.syntax, lines)
    ensures Calm(cfg, LinesUpdates(cfg.syntax, lines))
  {
    hide LinesUpdates, IsOwnBump;
    LinesBumps(cfg.syntax, lines);
  }

  /** The packet counter counts the packets on top of what their lines do to it. */
  lemma PacketsAreCounted(cfg: Config, st: Stores, packets: seq<string>)
    requires HasInternal(cfg, st) && !st.halted
    requires Fault !in LinesUpdates(cfg.syntax, IntervalLines(packets))
    ensures var p, lines := cfg.syntax.names.packets, LinesUpdates(cfg.syntax, IntervalLines(packets));
      && p in Receive(cfg, st, packets).counters && p in ApplyAll(cfg, st, lines).counters
      && Receive(cfg, st, packets).counters[p] == ApplyAll(cfg, st, lines).counters[p] + |packets| as real
  {
    hide LinesUpdates, IntervalUpdates, IntervalLines, ApplyAll, IsOwnBump;
    var p := cfg.syntax.names.packets;
    LinesContribute(cfg.syntax, packets, p);
    LinesBumps(cfg.syntax, IntervalLines(packets));
    ApplyAllCounts(cfg, st, IntervalUpdates(cfg.syntax, packets), p);
    ApplyAllCounts(cfg, st, LinesUpdates(cfg.syntax, IntervalLines(packets)), p);
  }

  /** Equal snapshots, gauges and the packet counter with its rate aside. */
  ghost predicate SamePublished(cfg: Config, x: Snapshot, y: Snapshot)
  {
    && SameCountersBut(cfg.syntax.names.packets, x.counters, y.counters)
    && SameCountersBut(cfg.syntax.names.packets, x.counterRates, y.counterRates)
    && x.timers == y.timers && x.timerCounters == y.timerCounters && x.timerData == y.timerData
    && x.sets == y.sets
  }

  lemma RatesBut(p: string, a: map<string, real>, b: map<string, real>, interval: PositiveReal)
    requires SameCountersBut(p, a, b)
    ensures SameCountersBut(p, Rates(a, interval), Rates(b, interval))
  {
  }

  /** Stores that agree up to list order and the packet counter publish the same. */
  lemma AlikePublish(cfg: Config, a: Stores, b: Stores, now: int)
    requires SameCountersBut(cfg.syntax.names.packets, a.counters, b.counters)
    requires SameSamples(a.timers, b.timers) && a.timerCounters == b.timerCounters && a.sets == b.sets
    ensures SamePublished(cfg, Publish(cfg, a, now), Publish(cfg, b, now))
  {
    hide SameCountersBut, SameSamples, Rates, SortAll, Summaries, WithLag;
    RatesBut(cfg.syntax.names.packets, a.counters, b.counters, cfg.summary.interval);
    SortedAlike(a.timers, b.timers);
    SummarisedAlike(a.timers, b.timers, a.timerCounters, cfg.summary);
  }

  /** Inside one flush interval neither the order of the lines nor their grouping into packets
      matters: two fault-free deliveries of the same lines publish the same counters, rates,
      timers, timer counters, timer data and sets. Only the packet counter differs, by the number
      of packets. */
  lemma ArrivalOrderIsInvisible(cfg: Config, st: Stores, a: seq<string>, b: seq<string>, now: int)
    requires HasInternal(cfg, st) && !st.halted
    requires multiset(IntervalLines(a)) == multiset(IntervalLines(b))
    requires Fault !in LinesUpdates(cfg.syntax, IntervalLines(a))
    ensures var x, y := Publish(cfg, Receive(cfg, st, a), now), Publish(cfg, Receive(cfg, st, b), now);
      var p := cfg.syntax.names.packets;
      && SamePublished(cfg, x, y)
      && x.counters[p] - |a| as real == y.counters[p] - |b| as real
  {
    hide Publish, Receive, LinesUpdates, IntervalLines, ApplyAll, SameSamples, SamePublished;
    var us, vs := LinesUpdates(cfg.syntax, IntervalLines(a)), LinesUpdates(cfg.syntax, IntervalLines(b));
    LinesPermuted(cfg.syntax, IntervalLines(a), IntervalLines(b));
    assert Fault !in multiset(us) && Fault !in vs;
    CalmLines(cfg, IntervalLines(a));
    OrderDoesNotMatter(cfg, st, us, vs);
    PacketsAreTheirLines(cfg, st, a);
    PacketsAreTheirLines(cfg, st, b);
    PacketsAreCounted(cfg, st, a);
    PacketsAreCounted(cfg, st, b);
    AlikePublish(cfg, Receive(cfg, st, a), Receive(cfg, st, b), now);
    PublishedCounters(cfg, Receive(cfg, st, a), now);
    PublishedCounters(cfg, Receive(cfg, st, b), now);
  }

  lemma PublishedCounters(cfg: Config, st: Stores, now: int)
    ensures Publish(cfg, st, now).counters == st.counters
  {
  }
}
