/** What each step does to each store, key by key. */
module StepTheorems {
  import opened JsStrings
  import opened TimerMetrics
  import opened Packets
  import opened Aggregator
  import opened CounterTheorems
  import opened LineTheorems

  // ----- start-up

  /** The daemon starts with its three counters at zero and with nothing else. */
  lemma StartsEmpty(cfg: Config, k: string)
    ensures var st := Start(cfg).st;
      && (k in st.counters <==> IsOwnName(cfg.syntax, k)) && Get(st.counters, k) == 0.0
      && k !in st.timers && k !in st.timerCounters && k !in st.gauges && k !in st.gaugesTTL && k !in st.sets
      && !st.halted && st.badLines == 0 && Start(cfg).snapshots == []
  {
  }

  /** The daemon's own names under a prefix, with no other name to confuse them with. */
  lemma OwnNames(prefix: string)
    ensures var n := NamesFor(prefix);
      && n.badLines == prefix + ".bad_lines_seen" && n.packets == prefix + ".packets_received"
      && n.metrics == prefix + ".metrics_received" && n.lag == prefix + ".timestamp_lag"
      && n.packets != n.metrics && n.packets != n.badLines && n.metrics != n.badLines
      && !IsOwnName(Syntax(_ => None, n, true), n.lag)
  {
    var n, p := NamesFor(prefix), |prefix| + 1;
    NamesAreDistinct(prefix);
    assert n.lag[p] == 't' && n.packets[p] == 'p' && n.metrics[p] == 'm' && n.badLines[p] == 'b';
  }

  /** A setting of its own decides, and without one the common setting. */
  ghost predicate IsOn(own: Option<bool>, common: Option<bool>)
  {
    own == Some(true) || (own == None && common == Some(true))
  }

  lemma FlagsAreNormalised(raw: RawConfig, syn: Syntax, summary: Settings)
    ensures var cfg := Normalise(raw, syn, summary);
      && (cfg.deleteCounters <==> IsOn(raw.deleteCounters, raw.deleteIdleStats))
      && (cfg.deleteTimers <==> IsOn(raw.deleteTimers, raw.deleteIdleStats))
      && (cfg.deleteSets <==> IsOn(raw.deleteSets, raw.deleteIdleStats))
      && (cfg.deleteGauges <==> IsOn(raw.deleteGauges, raw.deleteIdleStats))
      && cfg.syntax == syn && cfg.summary == summary
  {
  }

  // ----- a line and its store

  /** The updates of a packet that holds one line with one value. */
  lemma OneLinePacket(syn: Syntax, name: string, x: Val, tags: seq<Tag>) returns (u: Update)
    requires IsAtom(name) && IsFormatted(syn, x) && (forall i :: 0 <= i < |tags| ==> IsTag(tags[i]))
    requires '\n' !in Line(name, [x], tags)
    ensures PacketUpdates(syn, Line(name, [x], tags)) == [Bump(syn.names.packets), Bump(syn.names.metrics), u]
    ensures Means(u, LineKey(syn, name, tags), x)
  {
    hide Line, LineKey, Means, IsFormatted, LineUpdates;
    var line := Line(name, [x], tags);
    LineIsRead(syn, name, [x], tags);
    var us := LineUpdates(syn, line);
    u := us[1];
    assert Means(us[0 + 1], LineKey(syn, name, tags), [x][0]);
    NotEmpty(syn, name, x, tags);
    LinesOfOne(line);
    assert [line][..0] == [];
    assert LinesUpdates(syn, [line]) == [] + us == us == [us[0], us[1]];
  }

  lemma NotEmpty(syn: Syntax, name: string, x: Val, tags: seq<Tag>)
    ensures Line(name, [x], tags) != ""
  {
  }

  lemma ThreeUpdates(cfg: Config, st: Stores, a: Update, b: Update, u: Update)
    ensures ApplyAll(cfg, st, [a, b, u]) == Apply(cfg, Apply(cfg, Apply(cfg, st, a), b), u)
  {
    hide Apply;
    var one, two, three := [a], [a, b], [a, b, u];
    assert one[..0] == [] && two[..1] == one && three[..2] == two;
    assert ApplyAll(cfg, st, one) == Apply(cfg, st, a);
    assert ApplyAll(cfg, st, two) == Apply(cfg, ApplyAll(cfg, st, one), b);
  }

  /** The two bumps that come before a line's value. */
  lemma OwnBumps(cfg: Config, st: Stores)
    requires HasInternal(cfg, st) && !st.halted
    ensures var n := cfg.syntax.names;
      var st' := Apply(cfg, Apply(cfg, st, Bump(n.packets)), Bump(n.metrics));
      && HasInternal(cfg, st') && st' == st.(counters := st'.counters)
      && forall k :: !IsOwnName(cfg.syntax, k) ==> Get(st'.counters, k) == Get(st.counters, k)
  {
  }

  /** What a value asks for is what happens to the entry of its key: a counter grows by the amount
      that r times over is the number; a timer gets the sample, and its counter grows by a weight
      that r times over is 1; a gauge is set, or moved when the value is signed; a set gets the
      element. */
  ghost predicate TakesEffect(cfg: Config, st: Stores, st': Stores, key: string, x: Val, share: real)
  {
    var kind := Trim(x.kind);
    if kind == "s" then key in st'.sets && st'.sets[key] == MembersOf(st.sets, key) + {x.text}
    else if kind == "g" then
      && key in st'.gauges
      && st'.gauges[key] == (if StartsWith(x.text, "+") || StartsWith(x.text, "-")
                             then Get(st.gauges, key) + x.number else x.number)
      && (cfg.deleteGauges ==> key in st'.gaugesTTL && st'.gaugesTTL[key] == cfg.maxTTL)
    else if kind == "ms" then
      && key in st'.timers && st'.timers[key] == SamplesOf(st.timers, key) + [x.number]
      && share * x.r == 1.0 && key in st'.timerCounters
      && st'.timerCounters[key] == (if key in st.timers then Get(st.timerCounters, key) else 0.0) + share
    else
      && share * x.r == x.number && key in st'.counters
      && st'.counters[key] == Get(st.counters, key) + share
  }

  lemma UpdateTakesEffect(cfg: Config, st: Stores, u: Update, key: string, x: Val) returns (share: real)
    requires !st.halted && Means(u, key, x)
    ensures !Apply(cfg, st, u).halted && TakesEffect(cfg, st, Apply(cfg, st, u), key, x, share)
  {
    hide Trim, Weight;
    share := if u.Time? then Weight(u.rate) else if u.Count? then u.amount else 0.0;
    if u.Time? { WeightTimesRate(u.rate); }
  }

  /** From text to store: a packet of one formatted line does to the entry of its key what the line
      says. */
  lemma LineTakesEffect(cfg: Config, st: Stores, name: string, x: Val, tags: seq<Tag>) returns (share: real)
    requires HasInternal(cfg, st) && !st.halted
    requires IsAtom(name) && IsFormatted(cfg.syntax, x) && (forall i :: 0 <= i < |tags| ==> IsTag(tags[i]))
    requires '\n' !in Line(name, [x], tags) && !IsOwnName(cfg.syntax, LineKey(cfg.syntax, name, tags))
    ensures var st' := Step(cfg, st, Packet(Line(name, [x], tags)));
      !st'.halted && TakesEffect(cfg, st, st', LineKey(cfg.syntax, name, tags), x, share)
  {
    hide Line, LineKey, Means, IsFormatted, PacketUpdates, Apply, ApplyAll, Trim;
    var n := cfg.syntax.names;
    var u := OneLinePacket(cfg.syntax, name, x, tags);
    ThreeUpdates(cfg, st, Bump(n.packets), Bump(n.metrics), u);
    OwnBumps(cfg, st);
    var bumped := Apply(cfg, Apply(cfg, st, Bump(n.packets)), Bump(n.metrics));
    share := UpdateTakesEffect(cfg, bumped, u, LineKey(cfg.syntax, name, tags), x);
  }

  // ----- flush

  /** With `deleteTimers` a flush takes every stored timer and its counter away; without, it empties
      the one and zeroes the other. A counter left behind without its timer stays. */
  lemma FlushClearsTimers(cfg: Config, st: Stores, now: int, k: string)
    requires !st.halted
    ensures var st' := Step(cfg, st, Flush(now));
      && (k in st'.timers <==> k in st.timers && !cfg.deleteTimers)
      && (k in st'.timers ==> st'.timers[k] == [])
      && (k in st'.timerCounters <==> if k in st.timers then !cfg.deleteTimers else k in st.timerCounters)
      && (k in st'.timerCounters ==> st'.timerCounters[k] == if k in st.timers then 0.0 else st.timerCounters[k])
  {
    hide ClearCounters, ClearSets, WithLag, AgeGauges, Expired;
  }

  lemma FlushClearsSets(cfg: Config, st: Stores, now: int, k: string)
    requires !st.halted
    ensures var st' := Step(cfg, st, Flush(now));
      && (k in st'.sets <==> k in st.sets && !cfg.deleteSets)
      && (k in st'.sets ==> st'.sets[k] == {})
  {
    hide ClearCounters, ClearTimers, ClearTimerCounters, WithLag, AgeGauges, Expired;
  }

  /** A flush keeps every gauge as it is, except that with `deleteGauges` those in their last cycle go
      and the others lose one. */
  lemma FlushAgesGauges(cfg: Config, st: Stores, now: int, k: string)
    requires !st.halted && k != cfg.syntax.names.lag
    ensures var st' := Step(cfg, st, Flush(now));
      var ends := cfg.deleteGauges && k in st.gaugesTTL && st.gaugesTTL[k] <= 1;
      && (k in st'.gauges <==> k in st.gauges && !ends)
      && (k in st'.gauges ==> st'.gauges[k] == st.gauges[k])
      && (k in st'.gaugesTTL <==> k in st.gaugesTTL && !ends)
      && (k in st'.gaugesTTL ==> st'.gaugesTTL[k] == st.gaugesTTL[k] - if cfg.deleteGauges then 1 else 0)
  {
    hide ClearCounters, ClearTimers, ClearTimerCounters, ClearSets;
  }

  /** A flush publishes exactly one snapshot, of the stores as they are: counters, timer counters and
      sets unchanged, every other gauge, and each rate times the seconds of the interval its count. */
  lemma FlushPublishes(cfg: Config, w: World, now: int, k: string)
    requires !w.st.halted
    ensures var w' := Advance(cfg, w, Flush(now));
      && |w'.snapshots| == |w.snapshots| + 1
      && (forall j :: 0 <= j < |w.snapshots| ==> w'.snapshots[j] == w.snapshots[j])
      && var s := w'.snapshots[|w.snapshots|];
      && s.counters == w.st.counters && s.timerCounters == w.st.timerCounters && s.sets == w.st.sets
      && s.timers.Keys == s.timerData.Keys == w.st.timers.Keys
      && s.counterRates.Keys == s.counters.Keys
      && (k in s.counters ==> s.counterRates[k] * (cfg.summary.interval / 1000.0) == s.counters[k])
      && (k != cfg.syntax.names.lag ==>
            (k in s.gauges <==> k in w.st.gauges) && (k in s.gauges ==> s.gauges[k] == w.st.gauges[k]))
  {
    hide Cleared, Summary;
    if k in w.st.counters {
      RateTimesSeconds(w.st.counters[k], cfg.summary.interval / 1000.0);
    }
  }

  lemma RateTimesSeconds(count: real, seconds: real)
    requires seconds > 0.0
    ensures count / seconds * seconds == count
  {
  }

  // ----- deletion commands

  /** A bucket takes its own name, and with `.*` exactly the names that go on after the folder's dot. */
  lemma MatchesIff(bucket: string, key: string)
    ensures Matches(bucket, key) <==>
              key == bucket || exists folder, rest :: bucket == folder + ".*" && key == folder + "." + rest
  {
    if EndsWith(bucket, ".*") && StartsWith(key, bucket[..|bucket| - 1]) {
      var folder, rest := bucket[..|bucket| - 2], key[|bucket| - 1..];
      assert bucket == folder + ".*";
      assert bucket[..|bucket| - 1] == folder + ".";
      assert key == folder + "." + rest;
    }
    if folder, rest :| bucket == folder + ".*" && key == folder + "." + rest {
      assert bucket[|bucket| - 2..] == ".*" && bucket[..|bucket| - 1] == folder + ".";
      assert key[..|folder| + 1] == folder + ".";
    }
  }

  /** `folder.*` takes `folder.x` but leaves `folder` and `folderx` alone. */
  lemma FolderTakesItsOwn()
    ensures Matches("folder.*", "folder.x") && !Matches("folder.*", "folder") && !Matches("folder.*", "folderx")
  {
    var bucket := "folder.*";
    assert bucket[6..] == ".*" && bucket[..7] == "folder.";
    assert "folder.x"[..7] == "folder." && "folderx"[..7][6] == 'x';
  }

  /** A deletion command takes the matching entries of its own store and nothing else. */
  lemma DeletionTakes(cfg: Config, st: Stores, cmdline: seq<string>, k: string)
    requires !st.halted
    ensures var st' := Step(cfg, st, DelCounters(cmdline));
      && st' == st.(counters := st'.counters)
      && (k in st'.counters <==> k in st.counters && !MatchesAny(cmdline, k))
      && (k in st'.counters ==> st'.counters[k] == st.counters[k])
    ensures var st' := Step(cfg, st, DelTimers(cmdline));
      && st' == st.(timers := st'.timers)
      && (k in st'.timers <==> k in st.timers && !MatchesAny(cmdline, k))
      && (k in st'.timers ==> st'.timers[k] == st.timers[k])
    ensures var st' := Step(cfg, st, DelGauges(cmdline));
      && st' == st.(gauges := st'.gauges)
      && (k in st'.gauges <==> k in st.gauges && !MatchesAny(cmdline, k))
      && (k in st'.gauges ==> st'.gauges[k] == st.gauges[k])
  {
    hide Matches;
  }

  // ----- the lag gauge over runs

  ghost predicate HasNoFlush(events: seq<Event>)
  {
    forall i :: 0 <= i < |events| ==> !events[i].Flush?
  }

  lemma {:induction false} UpdatesKeepTime(cfg: Config, st: Stores, us: seq<Update>)
    ensures ApplyAll(cfg, st, us).oldTimestamp == st.oldTimestamp
  {
    if us != [] {
      hide Halts, NewCounters, NewTimers, NewTimerCounters, NewGauges, NewTTL, NewSets;
      UpdatesKeepTime(cfg, st, us[..|us| - 1]);
    }
  }

  lemma StepKeepsTime(cfg: Config, st: Stores, e: Event)
    requires !e.Flush?
    ensures Step(cfg, st, e).oldTimestamp == st.oldTimestamp
  {
    hide PacketUpdates, ApplyAll;
    if e.Packet? {
      UpdatesKeepTime(cfg, st, PacketUpdates(cfg.syntax, e.msg));
    }
  }

  lemma {:induction false} RunKeepsTime(cfg: Config, w: World, events: seq<Event>)
    requires HasNoFlush(events)
    ensures Run(cfg, w, events).st.oldTimestamp == w.st.oldTimestamp
    ensures Run(cfg, w, events).snapshots == w.snapshots
  {
    if events != [] {
      hide Step;
      var m := |events| - 1;
      RunKeepsTime(cfg, w, events[..m]);
      var mid := Run(cfg, w, events[..m]);
      StepKeepsTime(cfg, mid.st, events[m]);
      assert mid.snapshots + [] == mid.snapshots;
    }
  }

  lemma RunSnoc(cfg: Config, w: World, events: seq<Event>, e: Event)
    ensures Run(cfg, w, events + [e]) == Advance(cfg, Run(cfg, w, events), e)
  {
    hide Advance;
    assert (events + [e])[..|events|] == events;
  }

  lemma FlushKeepsTime(cfg: Config, w: World, now: int)
    requires !w.st.halted
    ensures Advance(cfg, w, Flush(now)).st.oldTimestamp == now
  {
  }

  lemma LagOf(cfg: Config, w: World, now: int)
    requires !w.st.halted && w.st.oldTimestamp > 0
    ensures var s := Advance(cfg, w, Flush(now)).snapshots; var lag := cfg.syntax.names.lag;
      && |s| == |w.snapshots| + 1 && lag in s[|w.snapshots|].gauges
      && s[|w.snapshots|].gauges[lag] == (now - w.st.oldTimestamp) as real - cfg.summary.interval / 1000.0
  {
    hide Cleared, Rates, SortAll, Summaries;
  }

  lemma NoLagOf(cfg: Config, w: World, now: int)
    requires !w.st.halted && w.st.oldTimestamp <= 0
    ensures var s := Advance(cfg, w, Flush(now)).snapshots;
      |s| == |w.snapshots| + 1 && s[|w.snapshots|].gauges == w.st.gauges
  {
    hide Cleared, Rates, SortAll, Summaries;
  }

  /** The first flush of a run publishes the gauges as clients left them, without a lag gauge. */
  lemma FirstFlushHasNoLag(cfg: Config, events: seq<Event>, now: int)
    requires HasNoFlush(events) && !Run(cfg, Start(cfg), events).st.halted
    ensures var snapshots := Run(cfg, Start(cfg), events + [Flush(now)]).snapshots;
      |snapshots| == 1 && snapshots[0].gauges == Run(cfg, Start(cfg), events).st.gauges
  {
    RunKeepsTime(cfg, Start(cfg), events);
    hide Advance, Run;
    RunSnoc(cfg, Start(cfg), events, Flush(now));
    NoLagOf(cfg, Run(cfg, Start(cfg), events), now);
  }

  /** From the second flush on, a flush publishes as the lag gauge the seconds since the one before
      minus those of the interval, whatever happened in between. */
  lemma LagIsPublished(cfg: Config, before: seq<Event>, first: int, between: seq<Event>, second: int)
    requires HasNoFlush(between) && first > 0
    requires !Run(cfg, Start(cfg), before + [Flush(first)] + between).st.halted
    ensures var snapshots := Run(cfg, Start(cfg), before + [Flush(first)] + between + [Flush(second)]).snapshots;
      var lag := cfg.syntax.names.lag;
      && snapshots != [] && lag in snapshots[|snapshots| - 1].gauges
      && snapshots[|snapshots| - 1].gauges[lag] == (second - first) as real - cfg.summary.interval / 1000.0
  {
    hide Advance, HasNoFlush;
    var start := Run(cfg, Start(cfg), before);
    var flushed := before + [Flush(first)];
    RunSnoc(cfg, Start(cfg), before, Flush(first));
    RunConcat(cfg, Start(cfg), flushed, between);
    var w := Run(cfg, Run(cfg, Start(cfg), flushed), between);
    RunKeepsTime(cfg, Run(cfg, Start(cfg), flushed), between);
    RunKeepsHalt(cfg, Run(cfg, Start(cfg), flushed), between);
    AdvanceFromHalted(cfg, start, Flush(first));
    FlushKeepsTime(cfg, start, first);
    RunSnoc(cfg, Start(cfg), flushed + between, Flush(second));
    LagOf(cfg, w, second);
  }
}
