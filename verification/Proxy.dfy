/** The proxy's distribution of lines over daemons, for a fixed ring of n nodes. The ring's
    lookup is an arbitrary function of the raw key. */
module Proxy {
  import opened JsStrings
  import opened Packets
  import opened Aggregator
  import opened CounterTheorems
  import opened OrderTheorems
  import opened Deliveries

  type Route = string -> nat

  datatype Send = Send(node: nat, msg: string)

  /** What the proxy hashes: the text before the first colon. Tags at the end of a line are not
      part of it. */
  function RawKey(line: string): string
  {
    Split(line, ":")[0]
  }

  /** `ring.get(key)` */
  function NodeOf(route: Route, line: string): nat
  {
    route(RawKey(line))
  }

  function Sends(route: Route, lines: seq<string>): seq<Send>
    decreases |lines|
  {
    if lines == [] then []
    else
      var last := lines[|lines| - 1];
      Sends(route, lines[..|lines| - 1]) + [Send(NodeOf(route, last), last)]
  }

  lemma {:induction false} SendsConcat(route: Route, a: seq<string>, b: seq<string>)
    ensures Sends(route, a + b) == Sends(route, a) + Sends(route, b)
    decreases |b|
  {
    if b == [] {
      assert a + b == a;
    } else {
      var m := |b| - 1;
      SendsConcat(route, a, b[..m]);
      assert (a + b)[..|a + b| - 1] == a + b[..m] && (a + b)[|a + b| - 1] == b[m];
    }
  }

  /** The server callback: one message for every non-empty line, to the node of its key. */
  method Distribute(route: Route, packet: string) returns (sends: seq<Send>)
    ensures sends == Sends(route, Lines(packet))
  {
    sends := [];
    if '\n' in packet {
      var metrics := Split(packet, "\n");
      ghost var lines: seq<string> := [];
      for midx := 0 to |metrics|
        invariant lines + NonEmpty(metrics[midx..]) == Lines(packet)
        invariant sends == Sends(route, lines)
      {
        assert metrics[midx..][1..] == metrics[midx + 1..];
        var current := metrics[midx];
        if current != "" {
          sends := sends + [Send(NodeOf(route, current), current)];
          assert (lines + [current])[..|lines|] == lines;
          Associative(lines, [current], NonEmpty(metrics[midx + 1..]));
          lines := lines + [current];
        }
      }
      assert lines + [] == lines;
    } else {
      LinesOfOne(packet);
      if packet != "" {
        sends := [Send(NodeOf(route, packet), packet)];
      }
    }
  }

  /** What the proxy sends for a list of packets. */
  function PacketSends(route: Route, packets: seq<string>): seq<Send>
    decreases |packets|
  {
    if packets == [] then []
    else
      var m := |packets| - 1;
      PacketSends(route, packets[..m]) + Sends(route, Lines(packets[m]))
  }

  lemma {:induction false} PacketSendsAreSends(route: Route, packets: seq<string>)
    ensures PacketSends(route, packets) == Sends(route, IntervalLines(packets))
    decreases |packets|
  {
    if packets != [] {
      hide Lines;
      var m := |packets| - 1;
      PacketSendsAreSends(route, packets[..m]);
      SendsConcat(route, IntervalLines(packets[..m]), Lines(packets[m]));
    }
  }

  /** The messages sent to node i. */
  function Messages(sends: seq<Send>, i: nat): seq<string>
  {
    if sends == [] then []
    else
      var last := sends[|sends| - 1];
      Messages(sends[..|sends| - 1], i) + if last.node == i then [last.msg] else []
  }

  /** The lines of the packets whose key belongs to node i. */
  function NodeLines(route: Route, lines: seq<string>, i: nat): seq<string>
    decreases |lines|
  {
    if lines == [] then []
    else
      var last := lines[|lines| - 1];
      NodeLines(route, lines[..|lines| - 1], i) + OnlyIf(NodeOf(route, last) == i, last)
  }

  function OnlyIf(mine: bool, line: string): seq<string>
  {
    if mine then [line] else []
  }

  lemma {:induction false} MessagesAreNodeLines(route: Route, lines: seq<string>, i: nat)
    ensures Messages(Sends(route, lines), i) == NodeLines(route, lines, i)
    decreases |lines|
  {
    if lines != [] {
      MessagesAreNodeLines(route, lines[..|lines| - 1], i);
    }
  }

  // ----- one daemon and many

  /** The stores of node i after the proxy has distributed some packets. */
  function NodeStores(cfg: Config, route: Route, packets: seq<string>, i: nat): Stores
  {
    Receive(cfg, Initial(cfg), Messages(PacketSends(route, packets), i))
  }

  /** A node receives its share of the lines, one per packet. */
  lemma NodeReceives(cfg: Config, route: Route, packets: seq<string>, i: nat)
    ensures var share := NodeLines(route, IntervalLines(packets), i);
      && NodeStores(cfg, route, packets, i) == Receive(cfg, Initial(cfg), share)
      && IntervalLines(share) == share
  {
    hide Receive, IntervalLines, NodeLines;
    NodeMessages(route, packets, i);
  }

  lemma NodeMessages(route: Route, packets: seq<string>, i: nat)
    ensures var share := NodeLines(route, IntervalLines(packets), i);
      Messages(PacketSends(route, packets), i) == share && IntervalLines(share) == share
  {
    hide IntervalLines, Lines;
    var lines := IntervalLines(packets);
    PacketSendsAreSends(route, packets);
    MessagesAreNodeLines(route, lines, i);
    IntervalLinesAreClean(packets);
    NodeLinesAreClean(route, lines, i);
    LinesAsPackets(NodeLines(route, lines, i));
  }

  function CounterTotal(cfg: Config, route: Route, packets: seq<string>, n: nat, k: string): real
    decreases n
  {
    if n == 0 then 0.0
    else CounterTotal(cfg, route, packets, n - 1, k)
         + Get(NodeStores(cfg, route, packets, n - 1).counters, k)
  }

  function BadLineTotal(cfg: Config, route: Route, packets: seq<string>, n: nat): nat
    decreases n
  {
    if n == 0 then 0
    else BadLineTotal(cfg, route, packets, n - 1) + NodeStores(cfg, route, packets, n - 1).badLines
  }

  ghost predicate AllRouted(route: Route, n: nat)
  {
    forall key :: route(key) < n
  }

  lemma {:induction false} NodeLinesAreClean(route: Route, lines: seq<string>, i: nat)
    requires AreClean(lines)
    ensures AreClean(NodeLines(route, lines, i))
    decreases |lines|
  {
    if lines != [] {
      NodeLinesAreClean(route, lines[..|lines| - 1], i);
    }
  }

  lemma {:induction false} IntervalLinesAreClean(packets: seq<string>)
    ensures AreClean(IntervalLines(packets))
    decreases |packets|
  {
    if packets != [] {
      hide Lines;
      IntervalLinesAreClean(packets[..|packets| - 1]);
      LinesAreClean(packets[|packets| - 1]);
    }
  }

  /** The counters of a fresh daemon after some packets without a fault. */
  lemma FreshCounters(cfg: Config, packets: seq<string>, k: string)
    requires k != cfg.syntax.names.packets
    requires Fault !in LinesUpdates(cfg.syntax, IntervalLines(packets))
    ensures var st := Receive(cfg, Initial(cfg), packets);
      var ls := LinesUpdates(cfg.syntax, IntervalLines(packets));
      && !st.halted
      && Get(st.counters, k) == Contributed(cfg.syntax, ls, k)
      && st.badLines == BadLineCount(ls)
  {
    hide Lines, LineUpdates, PacketUpdates, Apply;
    LinesContribute(cfg.syntax, packets, k);
    ApplyAllCounts(cfg, Initial(cfg), IntervalUpdates(cfg.syntax, packets), k);
  }

  lemma LinesUpdatesStep(syn: Syntax, lines: seq<string>, last: string)
    ensures LinesUpdates(syn, lines + [last]) == LinesUpdates(syn, lines) + LineUpdates(syn, last)
    ensures lines + [] == lines
  {
    assert (lines + [last])[..|lines|] == lines;
  }

  lemma {:induction false} NoFaultInShare(syn: Syntax, route: Route, lines: seq<string>, i: nat)
    requires Fault !in LinesUpdates(syn, lines)
    ensures Fault !in LinesUpdates(syn, NodeLines(route, lines, i))
    decreases |lines|
  {
    if lines != [] {
      hide LineUpdates, NodeOf;
      var init, last := lines[..|lines| - 1], lines[|lines| - 1];
      NoFaultInShare(syn, route, init, i);
      LinesUpdatesStep(syn, NodeLines(route, init, i), last);
    }
  }

  /** What a list of lines contributes to counter k, line by line. */
  function LinesTotal(syn: Syntax, lines: seq<string>, k: string): real
    decreases |lines|
  {
    if lines == [] then 0.0
    else LinesTotal(syn, lines[..|lines| - 1], k) + Contributed(syn, LineUpdates(syn, lines[|lines| - 1]), k)
  }

  function BadTotal(syn: Syntax, lines: seq<string>): nat
    decreases |lines|
  {
    if lines == [] then 0
    else BadTotal(syn, lines[..|lines| - 1]) + BadLineCount(LineUpdates(syn, lines[|lines| - 1]))
  }

  lemma {:induction false} TotalsOfLines(syn: Syntax, lines: seq<string>, k: string)
    ensures Contributed(syn, LinesUpdates(syn, lines), k) == LinesTotal(syn, lines, k)
    ensures BadLineCount(LinesUpdates(syn, lines)) == BadTotal(syn, lines)
    decreases |lines|
  {
    if lines != [] {
      hide LineUpdates;
      var init, last := lines[..|lines| - 1], lines[|lines| - 1];
      TotalsOfLines(syn, init, k);
      ContributedConcat(syn, LinesUpdates(syn, init), LineUpdates(syn, last), k);
    }
  }

  /** One daemon's counters, in terms of its share of the lines. */
  lemma NodeCounters(cfg: Config, route: Route, packets: seq<string>, lines: seq<string>, i: nat, k: string)
    requires lines == IntervalLines(packets)
    requires k != cfg.syntax.names.packets
    requires Fault !in LinesUpdates(cfg.syntax, lines)
    ensures !NodeStores(cfg, route, packets, i).halted
    ensures Get(NodeStores(cfg, route, packets, i).counters, k)
         == LinesTotal(cfg.syntax, NodeLines(route, lines, i), k)
    ensures NodeStores(cfg, route, packets, i).badLines
         == BadTotal(cfg.syntax, NodeLines(route, lines, i))
  {
    hide LinesUpdates, Receive, NodeLines, Lines;
    var share := NodeLines(route, lines, i);
    NodeReceives(cfg, route, packets, i);
    NoFaultInShare(cfg.syntax, route, lines, i);
    FreshCounters(cfg, share, k);
    TotalsOfLines(cfg.syntax, share, k);
  }

  /** The lines routed to one of the first n nodes. */
  function Below(route: Route, lines: seq<string>, n: nat): seq<string>
    decreases |lines|
  {
    if lines == [] then []
    else
      var last := lines[|lines| - 1];
      Below(route, lines[..|lines| - 1], n) + if NodeOf(route, last) < n then [last] else []
  }

  lemma LinesTotalStep(syn: Syntax, lines: seq<string>, last: string, k: string)
    ensures LinesTotal(syn, lines + [last], k)
         == LinesTotal(syn, lines, k) + Contributed(syn, LineUpdates(syn, last), k)
    ensures BadTotal(syn, lines + [last]) == BadTotal(syn, lines) + BadLineCount(LineUpdates(syn, last))
    ensures lines + [] == lines
  {
    assert (lines + [last])[..|lines|] == lines;
  }

  /** The lines of the first n nodes are those of the first n - 1 and those of the last one. */
  lemma {:induction false} BelowSplits(syn: Syntax, route: Route, lines: seq<string>, n: nat, k: string)
    requires n > 0
    ensures LinesTotal(syn, Below(route, lines, n), k)
         == LinesTotal(syn, Below(route, lines, n - 1), k) + LinesTotal(syn, NodeLines(route, lines, n - 1), k)
    ensures BadTotal(syn, Below(route, lines, n))
         == BadTotal(syn, Below(route, lines, n - 1)) + BadTotal(syn, NodeLines(route, lines, n - 1))
    decreases |lines|
  {
    hide LineUpdates, NodeOf;
    if lines != [] {
      hide LinesTotal, BadTotal, Contributed, BadLineCount;
      var init, last := lines[..|lines| - 1], lines[|lines| - 1];
      BelowSplits(syn, route, init, n, k);
      LinesTotalStep(syn, Below(route, init, n), last, k);
      LinesTotalStep(syn, Below(route, init, n - 1), last, k);
      LinesTotalStep(syn, NodeLines(route, init, n - 1), last, k);
    }
  }

  lemma {:induction false} NothingBelowZero(route: Route, lines: seq<string>)
    ensures Below(route, lines, 0) == []
    decreases |lines|
  {
    if lines != [] {
      NothingBelowZero(route, lines[..|lines| - 1]);
    }
  }

  lemma {:induction false} AllBelow(route: Route, lines: seq<string>, n: nat)
    requires AllRouted(route, n)
    ensures Below(route, lines, n) == lines
    decreases |lines|
  {
    if lines != [] {
      var init, last := lines[..|lines| - 1], lines[|lines| - 1];
      assert lines == init + [last];
      AllBelow(route, init, n);
      assert NodeOf(route, last) < n;
      hide NodeOf, AllRouted;
    }
  }

  /** The first n nodes together hold what their lines contribute. */
  ghost predicate TotalsAgree(cfg: Config, route: Route, packets: seq<string>, lines: seq<string>, n: nat, k: string)
  {
    && CounterTotal(cfg, route, packets, n, k) == LinesTotal(cfg.syntax, Below(route, lines, n), k)
    && BadLineTotal(cfg, route, packets, n) == BadTotal(cfg.syntax, Below(route, lines, n))
  }

  lemma OneMoreNode(cfg: Config, route: Route, packets: seq<string>, lines: seq<string>, n: nat, k: string)
    requires lines == IntervalLines(packets)
    requires k != cfg.syntax.names.packets
    requires Fault !in LinesUpdates(cfg.syntax, lines)
    requires n > 0 && TotalsAgree(cfg, route, packets, lines, n - 1, k)
    ensures TotalsAgree(cfg, route, packets, lines, n, k)
  {
    hide NodeStores, Get, IntervalLines, LinesUpdates, NodeLines, Below, LinesTotal, BadTotal;
    NodeCounters(cfg, route, packets, lines, n - 1, k);
    BelowSplits(cfg.syntax, route, lines, n, k);
  }

  lemma {:induction false} TotalsOfNodes(cfg: Config, route: Route, packets: seq<string>, lines: seq<string>,
                                         n: nat, k: string)
    requires lines == IntervalLines(packets)
    requires k != cfg.syntax.names.packets
    requires Fault !in LinesUpdates(cfg.syntax, lines)
    ensures TotalsAgree(cfg, route, packets, lines, n, k)
    decreases n
  {
    hide Lines, LineUpdates, NodeStores, NodeOf;
    if n == 0 {
      NothingBelowZero(route, lines);
    } else {
      hide TotalsAgree;
      TotalsOfNodes(cfg, route, packets, lines, n - 1, k);
      OneMoreNode(cfg, route, packets, lines, n, k);
    }
  }

  /** For any assignment of keys to n nodes, the nodes' counters and bad-line totals add up to
      those of one daemon that receives every packet itself; only the packet counter differs. */
  lemma ShardingConservesCounters(cfg: Config, route: Route, packets: seq<string>, n: nat, k: string)
    requires AllRouted(route, n) && k != cfg.syntax.names.packets
    requires Fault !in LinesUpdates(cfg.syntax, IntervalLines(packets))
    ensures var single := Receive(cfg, Initial(cfg), packets);
      && CounterTotal(cfg, route, packets, n, k) == Get(single.counters, k)
      && BadLineTotal(cfg, route, packets, n) == single.badLines
  {
    hide Receive, LinesUpdates, CounterTotal, BadLineTotal, LinesTotal, BadTotal, Below;
    TotalsOfNodes(cfg, route, packets, IntervalLines(packets), n, k);
    AllBelow(route, IntervalLines(packets), n);
    TotalsOfLines(cfg.syntax, IntervalLines(packets), k);
    FreshCounters(cfg, packets, k);
  }

  // ----- each key has one home

  /** Everything the stores hold under one key. */
  datatype Entry = Entry(
    counter: Option<real>,
    timer: Option<seq<real>>,
    timerCounter: Option<real>,
    gauge: Option<real>,
    gaugeTTL: Option<int>,
    members: Option<set<string>>)

  function Lookup<V>(m: map<string, V>, k: string): Option<V>
  {
    if k in m then Some(m[k]) else None
  }

  function EntryOf(st: Stores, k: string): Entry
  {
    Entry(Lookup(st.counters, k), Lookup(st.timers, k), Lookup(st.timerCounters, k),
          Lookup(st.gauges, k), Lookup(st.gaugesTTL, k), Lookup(st.sets, k))
  }

  predicate Touches(syn: Syntax, u: Update, k: string)
  {
    match u
    case BadLine => syn.names.badLines == k
    case Fault => false
    case _ => u.key == k
  }

  function Touching(syn: Syntax, us: seq<Update>, k: string): seq<Update>
  {
    if us == [] then []
    else Touching(syn, us[..|us| - 1], k)
         + if Touches(syn, us[|us| - 1], k) then [us[|us| - 1]] else []
  }

  lemma {:induction false} TouchingConcat(syn: Syntax, a: seq<Update>, b: seq<Update>, k: string)
    ensures Touching(syn, a + b, k) == Touching(syn, a, k) + Touching(syn, b, k)
    decreases |b|
  {
    if b == [] {
      assert a + b == a;
    } else {
      var m := |b| - 1;
      TouchingConcat(syn, a, b[..m], k);
      assert (a + b)[..|a + b| - 1] == a + b[..m] && (a + b)[|a + b| - 1] == b[m];
    }
  }

  lemma StaysCalm(cfg: Config, st: Stores, u: Update)
    requires HasInternal(cfg, st) && !st.halted && u != Fault && IsOwnBump(cfg.syntax, u)
    ensures HasInternal(cfg, Apply(cfg, st, u)) && !Apply(cfg, st, u).halted
    ensures !Halts(cfg, st.counters, u)
  {
  }

  /** An update changes no entry but its own. */
  lemma EntryFrame(cfg: Config, st: Stores, u: Update, k: string)
    requires !Touches(cfg.syntax, u, k)
    ensures EntryOf(Apply(cfg, st, u), k) == EntryOf(st, k)
  {
    hide Halts;
    if !st.halted && !Halts(cfg, st.counters, u) {
      CountersFrame(cfg, st, u, k);
      OthersFrame(cfg, st, u, k);
      hide NewCounters, NewTimers, NewTimerCounters, NewGauges, NewTTL, NewSets, Lookup;
    }
  }

  lemma CountersFrame(cfg: Config, st: Stores, u: Update, k: string)
    requires !Touches(cfg.syntax, u, k)
    ensures Lookup(NewCounters(cfg, st.counters, u), k) == Lookup(st.counters, k)
    ensures Lookup(NewTimers(st.timers, u), k) == Lookup(st.timers, k)
    ensures Lookup(NewTimerCounters(st.timers, st.timerCounters, u), k) == Lookup(st.timerCounters, k)
  {
    hide Get, SamplesOf, Weight;
  }

  lemma OthersFrame(cfg: Config, st: Stores, u: Update, k: string)
    requires !Touches(cfg.syntax, u, k)
    ensures Lookup(NewGauges(st.gauges, u), k) == Lookup(st.gauges, k)
    ensures Lookup(NewTTL(cfg, st.gaugesTTL, u), k) == Lookup(st.gaugesTTL, k)
    ensures Lookup(NewSets(st.sets, u), k) == Lookup(st.sets, k)
  {
    hide Get, MembersOf;
  }

  /** What it does to its own entry depends on nothing else. */
  lemma EntryCongruence(cfg: Config, a: Stores, b: Stores, u: Update, k: string)
    requires !a.halted && !b.halted && !Halts(cfg, a.counters, u) && !Halts(cfg, b.counters, u)
    requires Touches(cfg.syntax, u, k) && EntryOf(a, k) == EntryOf(b, k)
    ensures EntryOf(Apply(cfg, a, u), k) == EntryOf(Apply(cfg, b, u), k)
  {
  }

  lemma {:induction false} EntryOfTouching(cfg: Config, st: Stores, us: seq<Update>, k: string)
    requires HasInternal(cfg, st) && !st.halted && Calm(cfg, us)
    ensures var all, own := ApplyAll(cfg, st, us), ApplyAll(cfg, st, Touching(cfg.syntax, us, k));
      && EntryOf(all, k) == EntryOf(own, k)
      && HasInternal(cfg, all) && !all.halted && HasInternal(cfg, own) && !own.halted
  {
    if us != [] {
      hide EntryOf, Apply, Touches, HasInternal, Halts;
      var init, u := us[..|us| - 1], us[|us| - 1];
      EntryOfTouching(cfg, st, init, k);
      var own := Touching(cfg.syntax, init, k);
      var a, b := ApplyAll(cfg, st, init), ApplyAll(cfg, st, own);
      StaysCalm(cfg, a, u);
      StaysCalm(cfg, b, u);
      if Touches(cfg.syntax, u, k) {
        EntryCongruence(cfg, a, b, u, k);
        assert (own + [u])[..|own|] == own;
      } else {
        EntryFrame(cfg, a, u, k);
        assert own + [] == own;
      }
    }
  }

  lemma {:induction false} OtherKeysUntouched(syn: Syntax, key: string, bits: seq<string>, k: string)
    requires !IsOwnName(syn, k)
    requires key != k || forall i :: 0 <= i < |bits| ==> !IsValidPacket(syn, Split(bits[i], "|"))
    ensures Touching(syn, BitUpdates(syn, key, bits), k) == []
  {
    if bits != [] {
      hide IsValidPacket, Split, FieldsUpdate;
      var m := |bits| - 1;
      assert forall i :: 0 <= i < m ==> bits[..m][i] == bits[i];
      OtherKeysUntouched(syn, key, bits[..m], k);
      FieldsKey(syn, key, bits[m], k);
    }
  }

  /** A value writes to the key of its line, when it is valid, and to no other. */
  lemma FieldsKey(syn: Syntax, key: string, bit: string, k: string)
    requires !IsOwnName(syn, k)
    ensures var u := BitUpdate(syn, key, bit);
      u != Fault ==> (Touches(syn, u, k) <==> key == k && IsValidPacket(syn, Split(bit, "|")))
    ensures var u := BitUpdate(syn, key, bit);
      Touches(syn, u, k) ==> key == k && IsValidPacket(syn, Split(bit, "|"))
  {
    hide IsValidPacket, Split, Trim;
  }

  /** The line holds a valid value for key k. */
  ghost predicate Carries(syn: Syntax, line: string, k: string)
  {
    && KeyOf(syn, line) == k
    && exists i :: 0 <= i < |Bits(line)| && IsValidPacket(syn, Split(Bits(line)[i], "|"))
  }

  lemma LineTouching(syn: Syntax, line: string, k: string)
    requires !IsOwnName(syn, k)
    ensures Touching(syn, LineUpdates(syn, line), k)
         == Touching(syn, BitUpdates(syn, KeyOf(syn, line), Bits(line)), k)
  {
    hide KeyOf, Bits, BitUpdate;
    var bump := [Bump(syn.names.metrics)];
    TouchingConcat(syn, bump, BitUpdates(syn, KeyOf(syn, line), Bits(line)), k);
    assert bump[..0] == [];
  }

  lemma OtherLinesUntouched(syn: Syntax, line: string, k: string)
    requires !Carries(syn, line, k) && !IsOwnName(syn, k)
    ensures Touching(syn, LineUpdates(syn, line), k) == []
  {
    hide KeyOf, Bits, BitUpdate, IsValidPacket, Split, LineUpdates;
    LineTouching(syn, line, k);
    OtherKeysUntouched(syn, KeyOf(syn, line), Bits(line), k);
  }

  /** All lines that carry key k are routed to node h. */
  ghost predicate HasHome(syn: Syntax, route: Route, lines: seq<string>, k: string, h: nat)
  {
    forall i :: 0 <= i < |lines| && Carries(syn, lines[i], k) ==> NodeOf(route, lines[i]) == h
  }

  /** The updates of some lines that touch key k. */
  function TouchingLines(syn: Syntax, lines: seq<string>, k: string): seq<Update>
  {
    Touching(syn, LinesUpdates(syn, lines), k)
  }

  lemma {:induction false} HomeGetsAll(syn: Syntax, route: Route, lines: seq<string>, k: string, h: nat, i: nat)
    requires HasHome(syn, route, lines, k, h) && !IsOwnName(syn, k)
    ensures TouchingLines(syn, NodeLines(route, lines, i), k)
         == if i == h then TouchingLines(syn, lines, k) else []
    decreases |lines|
  {
    hide HasHome, Carries, NodeOf, LineUpdates, IsOwnName;
    if lines != [] {
      hide TouchingLines, OnlyIf;
      var init, last := lines[..|lines| - 1], lines[|lines| - 1];
      HomeOfParts(syn, route, init, last, k, h);
      assert lines == init + [last];
      HomeGetsAll(syn, route, init, k, h, i);
      HomeStep(syn, init, NodeLines(route, init, i), last, k, NodeOf(route, last) == i, i == h);
    }
  }

  lemma HomeOfParts(syn: Syntax, route: Route, init: seq<string>, last: string, k: string, h: nat)
    ensures HasHome(syn, route, init + [last], k, h) ==>
              HasHome(syn, route, init, k, h) && (Carries(syn, last, k) ==> NodeOf(route, last) == h)
  {
    hide Carries, NodeOf;
    var lines := init + [last];
    assert lines[|init|] == last;
    assert forall j :: 0 <= j < |init| ==> init[j] == lines[j];
  }

  /** One more line, which belongs to the share or not. */
  lemma HomeStep(syn: Syntax, init: seq<string>, share: seq<string>, last: string, k: string, mine: bool, home: bool)
    requires !IsOwnName(syn, k) && (Carries(syn, last, k) ==> mine == home)
    requires TouchingLines(syn, share, k) == if home then TouchingLines(syn, init, k) else []
    ensures TouchingLines(syn, share + OnlyIf(mine, last), k)
         == if home then TouchingLines(syn, init + [last], k) else []
  {
    hide TouchingLines, Carries, Touching, LineUpdates;
    TouchingStep(syn, init, last, k);
    TouchingStep(syn, share, last, k);
    if !Carries(syn, last, k) {
      OtherLinesUntouched(syn, last, k);
    }
  }

  lemma TouchingStep(syn: Syntax, lines: seq<string>, last: string, k: string)
    ensures TouchingLines(syn, lines + [last], k)
         == TouchingLines(syn, lines, k) + Touching(syn, LineUpdates(syn, last), k)
    ensures lines + [] == lines
  {
    hide LineUpdates, LinesUpdates;
    LinesUpdatesStep(syn, lines, last);
    TouchingConcat(syn, LinesUpdates(syn, lines), LineUpdates(syn, last), k);
  }

  lemma {:induction false} PacketsTouch(syn: Syntax, packets: seq<string>, k: string)
    requires !IsOwnName(syn, k)
    ensures Touching(syn, IntervalUpdates(syn, packets), k)
         == Touching(syn, LinesUpdates(syn, IntervalLines(packets)), k)
    decreases |packets|
  {
    if packets != [] {
      hide Lines, LinesUpdates, PacketUpdates, Touching;
      var init, last := packets[..|packets| - 1], packets[|packets| - 1];
      PacketsTouch(syn, init, k);
      LinesUpdatesConcat(syn, IntervalLines(init), Lines(last));
      TouchingConcat(syn, LinesUpdates(syn, IntervalLines(init)), LinesUpdates(syn, Lines(last)), k);
      TouchingConcat(syn, IntervalUpdates(syn, init), PacketUpdates(syn, last), k);
      PacketTouches(syn, last, k);
    }
  }

  lemma PacketTouches(syn: Syntax, packet: string, k: string)
    requires !IsOwnName(syn, k)
    ensures Touching(syn, PacketUpdates(syn, packet), k)
         == Touching(syn, LinesUpdates(syn, Lines(packet)), k)
  {
    hide Lines, LinesUpdates;
    var bump := [Bump(syn.names.packets)];
    TouchingConcat(syn, bump, LinesUpdates(syn, Lines(packet)), k);
    assert bump[..0] == [];
  }

  /** The entry of a key after some packets, in terms of the updates that touch it. */
  lemma EntryAfter(cfg: Config, packets: seq<string>, k: string)
    requires !IsOwnName(cfg.syntax, k)
    requires Fault !in LinesUpdates(cfg.syntax, IntervalLines(packets))
    ensures EntryOf(Receive(cfg, Initial(cfg), packets), k)
         == EntryOf(ApplyAll(cfg, Initial(cfg),
                             Touching(cfg.syntax, LinesUpdates(cfg.syntax, IntervalLines(packets)), k)), k)
  {
    hide LinesUpdates, EntryOf;
    LinesContribute(cfg.syntax, packets, k);
    PacketsTouch(cfg.syntax, packets, k);
    EntryOfTouching(cfg, Initial(cfg), IntervalUpdates(cfg.syntax, packets), k);
  }

  const NO_ENTRY := Entry(None, None, None, None, None, None)

  /** The whole entry of key k on node h is the single daemon's, and no other node knows k. */
  ghost predicate LivesOn(cfg: Config, route: Route, packets: seq<string>, k: string, h: nat)
  {
    forall i: nat :: EntryOf(NodeStores(cfg, route, packets, i), k)
                     == if i == h then EntryOf(Receive(cfg, Initial(cfg), packets), k) else NO_ENTRY
  }

  lemma NodeEntry(cfg: Config, route: Route, packets: seq<string>, k: string, i: nat)
    requires !IsOwnName(cfg.syntax, k)
    requires Fault !in LinesUpdates(cfg.syntax, IntervalLines(packets))
    ensures var share := NodeLines(route, IntervalLines(packets), i);
      && Fault !in LinesUpdates(cfg.syntax, share)
      && EntryOf(NodeStores(cfg, route, packets, i), k)
         == EntryOf(ApplyAll(cfg, Initial(cfg), TouchingLines(cfg.syntax, share, k)), k)
  {
    hide LinesUpdates, Receive, NodeLines, Lines, EntryOf, Touching, NodeStores, ApplyAll;
    var lines := IntervalLines(packets);
    NodeReceives(cfg, route, packets, i);
    NoFaultInShare(cfg.syntax, route, lines, i);
    EntryAfter(cfg, NodeLines(route, lines, i), k);
  }

  lemma NoUpdatesNoEntry(cfg: Config, k: string)
    requires !IsOwnName(cfg.syntax, k)
    ensures EntryOf(ApplyAll(cfg, Initial(cfg), []), k) == NO_ENTRY
  {
  }

  /** When all lines that carry a key share a node, its whole entry lives there. */
  lemma ShardingKeepsEntries(cfg: Config, route: Route, packets: seq<string>, k: string, h: nat)
    requires !IsOwnName(cfg.syntax, k)
    requires HasHome(cfg.syntax, route, IntervalLines(packets), k, h)
    requires Fault !in LinesUpdates(cfg.syntax, IntervalLines(packets))
    ensures LivesOn(cfg, route, packets, k, h)
  {
    hide LinesUpdates, Receive, NodeLines, Lines, HasHome, EntryOf, Touching, NodeStores, ApplyAll;
    var lines := IntervalLines(packets);
    EntryAfter(cfg, packets, k);
    NoUpdatesNoEntry(cfg, k);
    forall i: nat
      ensures EntryOf(NodeStores(cfg, route, packets, i), k)
           == if i == h then EntryOf(Receive(cfg, Initial(cfg), packets), k) else NO_ENTRY
    {
      NodeEntry(cfg, route, packets, k, i);
      HomeGetsAll(cfg.syntax, route, lines, k, h, i);
    }
  }

  // ----- and a key without a home is divided

  lemma {:induction false} ValidBitTouches(syn: Syntax, key: string, bits: seq<string>, i: nat)
    requires !IsOwnName(syn, key) && Fault !in BitUpdates(syn, key, bits)
    requires i < |bits| && IsValidPacket(syn, Split(bits[i], "|"))
    ensures Touching(syn, BitUpdates(syn, key, bits), key) != []
  {
    hide IsValidPacket, Split, BitUpdate, Touches;
    var m := |bits| - 1;
    if i == m {
      FieldsKey(syn, key, bits[m], key);
    } else {
      ValidBitTouches(syn, key, bits[..m], i);
    }
  }

  lemma CarryingLineTouches(syn: Syntax, line: string, k: string)
    requires !IsOwnName(syn, k) && Carries(syn, line, k) && Fault !in LineUpdates(syn, line)
    ensures Touching(syn, LineUpdates(syn, line), k) != []
  {
    hide KeyOf, Bits, BitUpdate, IsValidPacket, Split;
    LineTouching(syn, line, k);
    var i :| 0 <= i < |Bits(line)| && IsValidPacket(syn, Split(Bits(line)[i], "|"));
    assert forall u <- BitUpdates(syn, k, Bits(line)) :: u in LineUpdates(syn, line);
    ValidBitTouches(syn, k, Bits(line), i);
  }

  /** A line that carries k reaches its node and touches k there. */
  lemma {:induction false} CarrierReachesNode(syn: Syntax, route: Route, lines: seq<string>, k: string, j: nat)
    requires !IsOwnName(syn, k) && j < |lines| && Carries(syn, lines[j], k)
    requires Fault !in LinesUpdates(syn, lines)
    ensures TouchingLines(syn, NodeLines(route, lines, NodeOf(route, lines[j])), k) != []
    decreases |lines|
  {
    hide LineUpdates, Carries, Touches, NodeOf, Touching;
    var m, i := |lines| - 1, NodeOf(route, lines[j]);
    var init, last := lines[..m], lines[m];
    TouchingStep(syn, NodeLines(route, init, i), last, k);
    if j == m {
      CarryingLineTouches(syn, last, k);
    } else {
      CarrierReachesNode(syn, route, init, k, j);
    }
  }

  lemma {:induction false} TouchingsTouch(syn: Syntax, us: seq<Update>, k: string)
    ensures forall u <- Touching(syn, us, k) :: Touches(syn, u, k) && u in us
  {
    if us != [] {
      hide Touches;
      TouchingsTouch(syn, us[..|us| - 1], k);
    }
  }

  lemma TouchLeavesEntry(cfg: Config, st: Stores, u: Update, k: string)
    requires !st.halted && !Halts(cfg, st.counters, u) && Touches(cfg.syntax, u, k)
    ensures EntryOf(Apply(cfg, st, u), k) != NO_ENTRY
  {
  }

  /** A key that was touched has an entry. */
  lemma TouchedHasEntry(cfg: Config, lines: seq<string>, k: string)
    requires Fault !in LinesUpdates(cfg.syntax, lines)
    requires TouchingLines(cfg.syntax, lines, k) != []
    ensures EntryOf(ApplyAll(cfg, Initial(cfg), TouchingLines(cfg.syntax, lines, k)), k)
         != NO_ENTRY
  {
    hide LinesUpdates, EntryOf, Apply, Touches, Touching, Halts, IsOwnBump;
    var us := LinesUpdates(cfg.syntax, lines);
    var own := Touching(cfg.syntax, us, k);
    var m := |own| - 1;
    TouchingsTouch(cfg.syntax, us, k);
    LinesBumps(cfg.syntax, lines);
    assert forall i :: 0 <= i < m ==> own[i] in own;
    CalmStays(cfg, Initial(cfg), own[..m]);
    var st := ApplyAll(cfg, Initial(cfg), own[..m]);
    assert own[m] in own;
    StaysCalm(cfg, st, own[m]);
    TouchLeavesEntry(cfg, st, own[m], k);
  }

  lemma CarrierHasEntry(cfg: Config, route: Route, packets: seq<string>, k: string, j: nat)
    requires !IsOwnName(cfg.syntax, k)
    requires Fault !in LinesUpdates(cfg.syntax, IntervalLines(packets))
    requires j < |IntervalLines(packets)| && Carries(cfg.syntax, IntervalLines(packets)[j], k)
    ensures EntryOf(NodeStores(cfg, route, packets, NodeOf(route, IntervalLines(packets)[j])), k) != NO_ENTRY
  {
    hide LinesUpdates, EntryOf, Touching, NodeStores, ApplyAll, Carries, NodeOf, NodeLines, IntervalLines;
    var lines := IntervalLines(packets);
    var i := NodeOf(route, lines[j]);
    NodeEntry(cfg, route, packets, k, i);
    CarrierReachesNode(cfg.syntax, route, lines, k, j);
    TouchedHasEntry(cfg, NodeLines(route, lines, i), k);
  }

  /** All lines that carry key k go to one node. */
  ghost predicate ShareNode(syn: Syntax, route: Route, lines: seq<string>, k: string)
  {
    forall i, j :: 0 <= i < |lines| && 0 <= j < |lines| && Carries(syn, lines[i], k) && Carries(syn, lines[j], k)
      ==> NodeOf(route, lines[i]) == NodeOf(route, lines[j])
  }

  /** A key's entry survives sharding exactly when all lines that carry it go to one node. */
  lemma KeyIsWholeIff(cfg: Config, route: Route, packets: seq<string>, k: string)
    requires !IsOwnName(cfg.syntax, k)
    requires Fault !in LinesUpdates(cfg.syntax, IntervalLines(packets))
    ensures (exists h :: LivesOn(cfg, route, packets, k, h))
            <==> ShareNode(cfg.syntax, route, IntervalLines(packets), k)
  {
    hide LinesUpdates, EntryOf, NodeStores, Receive, Carries, NodeOf, IntervalLines;
    var lines := IntervalLines(packets);
    if ShareNode(cfg.syntax, route, lines, k) {
      var h := 0;
      if i :| 0 <= i < |lines| && Carries(cfg.syntax, lines[i], k) {
        h := NodeOf(route, lines[i]);
      }
      ShardingKeepsEntries(cfg, route, packets, k, h);
    } else {
      var i, j :| 0 <= i < |lines| && 0 <= j < |lines|
        && Carries(cfg.syntax, lines[i], k) && Carries(cfg.syntax, lines[j], k)
        && NodeOf(route, lines[i]) != NodeOf(route, lines[j]);
      CarrierHasEntry(cfg, route, packets, k, i);
      CarrierHasEntry(cfg, route, packets, k, j);
      forall h
        ensures !LivesOn(cfg, route, packets, k, h)
      {
        var away := if NodeOf(route, lines[i]) == h then NodeOf(route, lines[j]) else NodeOf(route, lines[i]);
        assert EntryOf(NodeStores(cfg, route, packets, away), k) != NO_ENTRY;
      }
    }
  }

  /** All lines that carry key k start with the same raw name. */
  ghost predicate ShareRawName(syn: Syntax, lines: seq<string>, k: string)
  {
    forall i, j :: 0 <= i < |lines| && 0 <= j < |lines| && Carries(syn, lines[i], k) && Carries(syn, lines[j], k)
      ==> RawKey(lines[i]) == RawKey(lines[j])
  }

  /** Whatever the ring: the lines of key k share a node on every ring exactly when they share
      their raw name. */
  lemma SafeOnEveryRingIff(syn: Syntax, lines: seq<string>, k: string)
    ensures (forall route: Route :: ShareNode(syn, route, lines, k)) <==> ShareRawName(syn, lines, k)
  {
    hide RawKey, Carries;
    if !ShareRawName(syn, lines, k) {
      var i, j :| 0 <= i < |lines| && 0 <= j < |lines|
        && Carries(syn, lines[i], k) && Carries(syn, lines[j], k) && RawKey(lines[i]) != RawKey(lines[j]);
      var name := RawKey(lines[i]);
      var route: Route := key => if key == name then 0 else 1;
      assert NodeOf(route, lines[i]) == 0 && NodeOf(route, lines[j]) == 1;
      assert !ShareNode(syn, route, lines, k);
    }
  }

  // ----- lines that are safe on every ring

  /** An untagged line whose name the sanitiser leaves alone. */
  predicate IsPlain(syn: Syntax, line: string)
  {
    !Contains(line, "|#") && (syn.sanitizeKeys ==> Sanitize(RawKey(line)) == RawKey(line))
  }

  lemma PlainKey(syn: Syntax, line: string)
    requires IsPlain(syn, line)
    ensures KeyOf(syn, line) == RawKey(line)
  {
    SplitUncut(line, "|#");
    assert RawKey(line) + "" == RawKey(line);
  }

  /** The key of a plain line is the key the proxy hashes. */
  lemma PlainLinesAreSafe(syn: Syntax, lines: seq<string>, k: string)
    requires forall i :: 0 <= i < |lines| ==> IsPlain(syn, lines[i])
    ensures ShareRawName(syn, lines, k)
  {
    hide KeyOf, RawKey, IsPlain;
    forall i | 0 <= i < |lines|
      ensures KeyOf(syn, lines[i]) == RawKey(lines[i])
    {
      PlainKey(syn, lines[i]);
    }
  }

  /** A line, tagged or not, whose name holds no semicolon or bar and is left alone by the
      sanitiser. */
  predicate HasCleanName(syn: Syntax, line: string)
  {
    var name := RawKey(line);
    ';' !in name && '|' !in name && (syn.sanitizeKeys ==> Sanitize(name) == name)
  }

  lemma {:induction false} CollapseKeepsKey(a: string, b: string)
    requires IsKey(a)
    ensures CollapseSpaces(a + b) == a + CollapseSpaces(b)
    decreases |a|
  {
    if a == "" {
      assert a + b == b && a + CollapseSpaces(b) == CollapseSpaces(b);
    } else {
      assert IsKeyChar(a[0]);
      CollapseKeepsKey(a[1..], b);
      assert (a + b)[1..] == a[1..] + b && [a[0]] + (a[1..] + CollapseSpaces(b)) == a + CollapseSpaces(b);
    }
  }

  lemma {:induction false} FiltersKeepKey(a: string, b: string)
    requires IsKey(a)
    ensures SlashToDash(a + b) == a + SlashToDash(b) && KeepKeyChars(a + b) == a + KeepKeyChars(b)
    decreases |a|
  {
    if a == "" {
      assert a + b == b && a + SlashToDash(b) == SlashToDash(b) && a + KeepKeyChars(b) == KeepKeyChars(b);
    } else {
      assert IsKeyChar(a[0]);
      FiltersKeepKey(a[1..], b);
      assert (a + b)[1..] == a[1..] + b;
      assert [a[0]] + (a[1..] + SlashToDash(b)) == a + SlashToDash(b);
      assert [a[0]] + (a[1..] + KeepKeyChars(b)) == a + KeepKeyChars(b);
    }
  }

  /** Sanitising leaves a prefix of key characters alone. */
  lemma SanitizeKeepsKey(a: string, b: string)
    requires IsKey(a)
    ensures Sanitize(a + b) == a + Sanitize(b)
  {
    CollapseKeepsKey(a, b);
    FiltersKeepKey(a, CollapseSpaces(b));
    FiltersKeepKey(a, SlashToDash(CollapseSpaces(b)));
  }

  lemma SanitizeTags(tags: string)
    requires tags != "" && tags[0] == ';'
    ensures Sanitize(tags) != "" && Sanitize(tags)[0] == ';'
  {
    var mark := ";";
    assert tags == mark + tags[1..];
    SanitizeKeepsKey(mark, tags[1..]);
  }

  /** A name without a bar stands before the tag mark. */
  lemma {:induction false} NameBeforeTags(line: string)
    requires '|' !in RawKey(line)
    ensures Pieces(line)[0] == RawKey(line)
    decreases |line|
  {
    if |line| >= 2 && line[0] != ':' {
      SplitStep(line, ':');
      var rest := Split(line[1..], ":");
      assert RawKey(line) == [line[0]] + rest[0];
      assert RawKey(line)[0] == line[0];
      assert line[..2] != "|#";
      NameBeforeTags(line[1..]);
      var body := Split(line[1..], "|#")[0];
      assert Split(line, "|#")[0] == [line[0]] + body;
      SplitStep([line[0]] + body, ':');
      assert ([line[0]] + body)[1..] == body;
    } else if |line| < 2 {
      assert Split(line, "|#") == [line];
    } else {
      SplitStep(line, ':');
      assert Split(line, "|#")[0] == [line[0]] + Split(line[1..], "|#")[0];
      SplitStep(Split(line, "|#")[0], ':');
    }
  }

  /** The key of such a line is its name, followed by tags behind a semicolon. */
  lemma CleanNameIsHead(syn: Syntax, line: string)
    requires HasCleanName(syn, line)
    ensures Split(KeyOf(syn, line), ";")[0] == RawKey(line)
  {
    hide Split, Sanitize, RawKey, Pieces, Tags, CleanTags, Join;
    NameBeforeTags(line);
    var name, tags := RawKey(line), Tags(line);
    SplitWithoutSeparator(name, ';');
    if tags == [] {
      assert name + "" == name;
    } else {
      var tail := ";" + Join(CleanTags(tags), ";");
      if syn.sanitizeKeys {
        SanitizeFixes(name);
        SanitizeKeepsKey(name, tail);
        SanitizeTags(tail);
        tail := Sanitize(tail);
      }
      assert name + tail == name + ";" + tail[1..];
      SplitAtSeparator(name, ';', tail[1..]);
    }
  }

  /** Tags do no harm: lines with clean names, tagged or not, keep every key whole. */
  lemma CleanNamesAreSafe(syn: Syntax, lines: seq<string>, k: string)
    requires forall i :: 0 <= i < |lines| ==> HasCleanName(syn, lines[i])
    ensures ShareRawName(syn, lines, k)
  {
    hide KeyOf, RawKey, HasCleanName;
    forall i | 0 <= i < |lines|
      ensures Split(KeyOf(syn, lines[i]), ";")[0] == RawKey(lines[i])
    {
      CleanNameIsHead(syn, lines[i]);
    }
  }

  // ----- lines that are not

  lemma AliasKeys(syn: Syntax, name: string, value: string)
    requires syn.sanitizeKeys && IsAtom(name) && ':' !in value && '#' !in value
    ensures var line := name + ":" + value;
      RawKey(line) == name && KeyOf(syn, line) == Sanitize(name) && Bits(line) == [value]
  {
    hide Sanitize, Split, Pieces, Tags;
    var line := name + ":" + value;
    PiecesOf(name, value);
    SplitAtSeparator(name, ':', value);
    SplitWithoutSeparator(name, ':');
    assert name + "" == name;
    assert [name, value][1..] == [value];
  }

  /** Where the proxy and the daemon disagree: two names that sanitise to one key but hash apart
      leave the key's entry divided between nodes. */
  lemma AliasesAreDivided(cfg: Config, route: Route, a: string, b: string, value: string)
    requires var syn := cfg.syntax;
      && syn.sanitizeKeys && IsAtom(a) && IsAtom(b) && !IsOwnName(syn, Sanitize(a))
      && ':' !in value && '#' !in value && '\n' !in a + b + value
      && IsValidPacket(syn, Split(value, "|")) && BitUpdate(syn, Sanitize(a), value) != Fault
    requires Sanitize(a) == Sanitize(b) && route(a) != route(b)
    ensures forall h :: !LivesOn(cfg, route, [a + ":" + value, b + ":" + value], Sanitize(a), h)
  {
    hide Sanitize, KeyOf, RawKey, LinesUpdates, LivesOn, Bits, Split, IsValidPacket, BitUpdate;
    var lines := [a + ":" + value, b + ":" + value];
    var syn, k := cfg.syntax, Sanitize(a);
    AliasKeys(syn, a, value);
    AliasKeys(syn, b, value);
    assert Bits(lines[0])[0] == value && Bits(lines[1])[0] == value;
    assert Carries(syn, lines[0], k) && Carries(syn, lines[1], k);
    LinesAsPackets(lines);
    TwoCalmLines(syn, lines, k, value);
    KeyIsWholeIff(cfg, route, lines, k);
    assert !ShareNode(syn, route, lines, k);
  }

  lemma TwoCalmLines(syn: Syntax, lines: seq<string>, k: string, value: string)
    requires |lines| == 2 && BitUpdate(syn, k, value) != Fault
    requires forall i :: 0 <= i < 2 ==> KeyOf(syn, lines[i]) == k && Bits(lines[i]) == [value]
    ensures Fault !in LinesUpdates(syn, lines)
  {
    hide KeyOf, Bits, BitUpdate;
    OneBit(syn, k, value);
    assert lines == [lines[0]] + [lines[1]];
    LinesUpdatesStep(syn, [lines[0]], lines[1]);
    LinesUpdatesStep(syn, [], lines[0]);
    assert [] + [lines[0]] == [lines[0]];
  }

  lemma BlankAlias()
    ensures Sanitize("a b") == "a_b" == Sanitize("a_b")
  {
    assert "a b"[1..] == " b" && " b"[1..] == "b" && "b"[1..] == "" && DropSpaces("b") == "b";
    assert CollapseSpaces("b") == "b" && CollapseSpaces(" b") == "_b" && CollapseSpaces("a b") == "a_b";
    KeysAreFixed("a_b");
  }

  /** `a b` and `a_b` are such names: a ring that separates them divides the gauge `a_b`. */
  lemma BlankAliasIsDivided(cfg: Config, route: Route)
    requires cfg.syntax.sanitizeKeys && cfg.syntax.number("1").Some? && !IsOwnName(cfg.syntax, "a_b")
    requires route("a b") != route("a_b")
    ensures forall h :: !LivesOn(cfg, route, ["a b:1|g", "a_b:1|g"], "a_b", h)
  {
    hide Sanitize, LivesOn, Split, Trim;
    BlankAlias();
    TwoFields("1", "g");
    assert "1" + "|" + "g" == "1|g";
    TrimmedKinds();
    AliasesAreDivided(cfg, route, "a b", "a_b", "1|g");
    assert "a b" + ":" + "1|g" == "a b:1|g" && "a_b" + ":" + "1|g" == "a_b:1|g";
  }
}
