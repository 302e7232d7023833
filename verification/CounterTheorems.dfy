/** Counters over whole runs: nothing that was accepted is lost or counted twice. */
module CounterTheorems {
  import opened JsStrings
  import opened Packets
  import opened Aggregator

  /** What one update adds to the counter k. */
  function Contribution(syn: Syntax, u: Update, k: string): real
  {
    match u
    case Bump(key) => if key == k then 1.0 else 0.0
    case BadLine => if syn.names.badLines == k then 1.0 else 0.0
    case Count(key, amount) => if key == k then amount else 0.0
    case _ => 0.0
  }

  function Contributed(syn: Syntax, us: seq<Update>, k: string): real
  {
    if us == [] then 0.0
    else Contributed(syn, us[..|us| - 1], k) + Contribution(syn, us[|us| - 1], k)
  }

  function BadLineCount(us: seq<Update>): nat
  {
    if us == [] then 0
    else BadLineCount(us[..|us| - 1]) + if us[|us| - 1].BadLine? then 1 else 0
  }

  lemma {:induction false} ContributedConcat(syn: Syntax, a: seq<Update>, b: seq<Update>, k: string)
    ensures Contributed(syn, a + b, k) == Contributed(syn, a, k) + Contributed(syn, b, k)
    ensures BadLineCount(a + b) == BadLineCount(a) + BadLineCount(b)
    decreases |b|
  {
    if b == [] {
      assert a + b == a;
    } else {
      ContributedConcat(syn, a, b[..|b| - 1], k);
      assert (a + b)[..|a + b| - 1] == a + b[..|b| - 1];
    }
  }

  /** The three internal counters exist. */
  ghost predicate HasInternal(cfg: Config, st: Stores)
  {
    var n := cfg.syntax.names;
    n.badLines in st.counters && n.packets in st.counters && n.metrics in st.counters
  }

  /** k is one of the internal counters. */
  ghost predicate IsOwnName(syn: Syntax, k: string)
  {
    k == syn.names.packets || k == syn.names.metrics || k == syn.names.badLines
  }

  /** Only the handler's own two counters are bumped by a packet. */
  predicate IsOwnBump(syn: Syntax, u: Update)
  {
    u.Bump? ==> u.key == syn.names.packets || u.key == syn.names.metrics
  }

  lemma {:induction false} BitBumps(syn: Syntax, key: string, bits: seq<string>)
    ensures forall u <- BitUpdates(syn, key, bits) :: !u.Bump?
  {
    if bits != [] {
      BitBumps(syn, key, bits[..|bits| - 1]);
    }
  }

  lemma {:induction false} LinesBumps(syn: Syntax, lines: seq<string>)
    ensures forall u <- LinesUpdates(syn, lines) :: IsOwnBump(syn, u)
  {
    if lines != [] {
      LinesBumps(syn, lines[..|lines| - 1]);
      var line := lines[|lines| - 1];
      BitBumps(syn, KeyOf(syn, line), Bits(line));
    }
  }

  lemma PacketBumps(syn: Syntax, msg: string)
    ensures forall u <- PacketUpdates(syn, msg) :: IsOwnBump(syn, u)
  {
    LinesBumps(syn, Lines(msg));
  }

  /** One update with the internal counters in place: it halts only on a fault, and otherwise
      adds exactly its contribution to every counter. */
  lemma ApplyCounts(cfg: Config, st: Stores, u: Update, k: string)
    requires HasInternal(cfg, st) && IsOwnBump(cfg.syntax, u) && !st.halted
    ensures var st' := Apply(cfg, st, u);
      && HasInternal(cfg, st')
      && (st'.halted <==> u == Fault)
      && (!st'.halted ==>
            && Get(st'.counters, k) == Get(st.counters, k) + Contribution(cfg.syntax, u, k)
            && st'.badLines == st.badLines + if u.BadLine? then 1 else 0)
  {
  }

  lemma {:induction false} ApplyAllCounts(cfg: Config, st: Stores, us: seq<Update>, k: string)
    requires HasInternal(cfg, st) && !st.halted
    requires forall u <- us :: IsOwnBump(cfg.syntax, u)
    ensures var st' := ApplyAll(cfg, st, us);
      && HasInternal(cfg, st')
      && (st'.halted <==> Fault in us)
      && (!st'.halted ==>
            && Get(st'.counters, k) == Get(st.counters, k) + Contributed(cfg.syntax, us, k)
            && st'.badLines == st.badLines + BadLineCount(us))
  {
    if us != [] {
      var m := |us| - 1;
      assert us == us[..m] + [us[m]];
      ApplyAllCounts(cfg, st, us[..m], k);
      var mid := ApplyAll(cfg, st, us[..m]);
      if !mid.halted {
        ApplyCounts(cfg, mid, us[m], k);
      }
    }
  }

  // ----- runs

  /** The internal names survive a flush that deletes idle counters. */
  lemma InternalNames(prefix: string)
    ensures IsInternal(NamesFor(prefix).badLines)
    ensures IsInternal(NamesFor(prefix).packets)
    ensures IsInternal(NamesFor(prefix).metrics)
  {
    SuffixIsContained(prefix + ".", "bad_lines_seen");
    SuffixIsContained(prefix + ".", "packets_received");
    SuffixIsContained(prefix + ".", "metrics_received");
    assert prefix + ".bad_lines_seen" == (prefix + ".") + "bad_lines_seen";
    assert prefix + ".packets_received" == (prefix + ".") + "packets_received";
    assert prefix + ".metrics_received" == (prefix + ".") + "metrics_received";
  }

  lemma SuffixIsContained(a: string, b: string)
    ensures Contains(a + b, b)
  {
    assert (a + b)[|a|..] == b;
    assert StartsWith((a + b)[|a|..], b);
  }

  function PublishedTotal(snapshots: seq<Snapshot>, k: string): real
  {
    if snapshots == [] then 0.0
    else PublishedTotal(snapshots[..|snapshots| - 1], k) + Get(snapshots[|snapshots| - 1].counters, k)
  }

  function EventContribution(syn: Syntax, e: Event, k: string): real
  {
    if e.Packet? then Contributed(syn, PacketUpdates(syn, e.msg), k) else 0.0
  }

  function TotalContribution(syn: Syntax, events: seq<Event>, k: string): real
  {
    if events == [] then 0.0
    else TotalContribution(syn, events[..|events| - 1], k)
         + EventContribution(syn, events[|events| - 1], k)
  }

  predicate IsFaulty(syn: Syntax, e: Event)
  {
    e.Packet? && Fault in PacketUpdates(syn, e.msg)
  }

  // ----- conservation

  /** What a deletion command takes away from counter k. */
  function DeletedNow(st: Stores, e: Event, k: string): real
  {
    if e.DelCounters? && MatchesAny(e.cmdline, k) then Get(st.counters, k) else 0.0
  }

  /** What all deletion commands of a run took away from counter k. */
  function DeletedTotal(cfg: Config, events: seq<Event>, k: string): real
  {
    if events == [] then 0.0
    else
      var m := |events| - 1;
      DeletedTotal(cfg, events[..m], k) + DeletedNow(Run(cfg, Start(cfg), events[..m]).st, events[m], k)
  }

  lemma ApplyAdds(cfg: Config, st: Stores, u: Update, k: string)
    requires !Apply(cfg, st, u).halted
    ensures Get(Apply(cfg, st, u).counters, k) == Get(st.counters, k) + Contribution(cfg.syntax, u, k)
    ensures !st.halted
  {
    hide NewTimers, NewTimerCounters, NewGauges, NewTTL, NewSets;
  }

  lemma {:induction false} ApplyAllAdds(cfg: Config, st: Stores, us: seq<Update>, k: string)
    requires !ApplyAll(cfg, st, us).halted
    ensures Get(ApplyAll(cfg, st, us).counters, k) == Get(st.counters, k) + Contributed(cfg.syntax, us, k)
  {
    if us != [] {
      hide Apply, Contribution;
      var m := |us| - 1;
      ApplyAdds(cfg, ApplyAll(cfg, st, us[..m]), us[m], k);
      ApplyAllAdds(cfg, st, us[..m], k);
    }
  }

  lemma PublishedSnoc(snapshots: seq<Snapshot>, s: Snapshot, k: string)
    ensures PublishedTotal(snapshots + [s], k) == PublishedTotal(snapshots, k) + Get(s.counters, k)
    ensures snapshots + [] == snapshots
  {
    hide Get;
    assert (snapshots + [s])[..|snapshots|] == snapshots;
  }

  lemma StepBalances(cfg: Config, w: World, e: Event, k: string)
    requires !w.st.halted && !Advance(cfg, w, e).st.halted
    ensures var w' := Advance(cfg, w, e);
      PublishedTotal(w'.snapshots, k) + Get(w'.st.counters, k) + DeletedNow(w.st, e, k)
        == PublishedTotal(w.snapshots, k) + Get(w.st.counters, k) + EventContribution(cfg.syntax, e, k)
  {
    hide PacketUpdates, ApplyAll, PublishedTotal, Contributed, MatchesAny, IsInternal, ClearTimers,
         ClearTimerCounters, ClearSets, WithLag, Expired, AgeGauges, Summaries, SortAll, Rates;
    PublishedSnoc(w.snapshots, Publish(cfg, w.st, if e.Flush? then e.now else 0), k);
    if e.Packet? {
      ApplyAllAdds(cfg, w.st, PacketUpdates(cfg.syntax, e.msg), k);
    }
  }

  /** For every run that has not ended early, whatever its events, and every key: what the
      snapshots published, what is still stored and what `delcounters` took away are together
      what the packets contributed, whether a flush zeroes counters or deletes them. */
  lemma {:induction false} CountersBalance(cfg: Config, events: seq<Event>, k: string)
    requires !Run(cfg, Start(cfg), events).st.halted
    ensures var w := Run(cfg, Start(cfg), events);
      PublishedTotal(w.snapshots, k) + Get(w.st.counters, k) + DeletedTotal(cfg, events, k)
        == TotalContribution(cfg.syntax, events, k)
  {
    if events != [] {
      hide Advance, DeletedNow, EventContribution, PublishedTotal;
      var m := |events| - 1;
      var w := Run(cfg, Start(cfg), events[..m]);
      AdvanceFromHalted(cfg, w, events[m]);
      CountersBalance(cfg, events[..m], k);
      StepBalances(cfg, w, events[m], k);
    }
  }

  // ----- runs whose deletion commands spare some counters

  ghost predicate Spares(e: Event, k: string)
  {
    e.DelCounters? ==> !MatchesAny(e.cmdline, k)
  }

  ghost predicate SparesInternal(cfg: Config, e: Event)
  {
    var n := cfg.syntax.names;
    Spares(e, n.badLines) && Spares(e, n.packets) && Spares(e, n.metrics)
  }

  lemma StepKeepsInternal(cfg: Config, prefix: string, st: Stores, e: Event)
    requires cfg.syntax.names == NamesFor(prefix)
    requires HasInternal(cfg, st) && !st.halted && SparesInternal(cfg, e)
    ensures HasInternal(cfg, Step(cfg, st, e))
    ensures Step(cfg, st, e).halted <==> IsFaulty(cfg.syntax, e)
  {
    hide PacketUpdates, ApplyAll, IsInternal, MatchesAny, NamesFor, ClearTimers, ClearTimerCounters, ClearSets,
         WithLag, AgeGauges, Expired;
    if e.Packet? {
      PacketBumps(cfg.syntax, e.msg);
      ApplyAllCounts(cfg, st, PacketUpdates(cfg.syntax, e.msg), "");
    } else {
      InternalNames(prefix);
    }
  }

  /** As long as no deletion command names an internal counter, all three are always there, and a
      run ends early exactly when a packet holds a fault. */
  lemma {:induction false} FaultsEndRuns(cfg: Config, prefix: string, events: seq<Event>)
    requires cfg.syntax.names == NamesFor(prefix)
    requires forall e <- events :: SparesInternal(cfg, e)
    ensures var st := Run(cfg, Start(cfg), events).st;
      HasInternal(cfg, st) && (st.halted <==> exists e <- events :: IsFaulty(cfg.syntax, e))
  {
    if events != [] {
      hide Advance, IsFaulty, SparesInternal, HasInternal;
      var m := |events| - 1;
      assert events == events[..m] + [events[m]];
      FaultsEndRuns(cfg, prefix, events[..m]);
      var w := Run(cfg, Start(cfg), events[..m]);
      AdvanceFromHalted(cfg, w, events[m]);
      if !w.st.halted {
        StepKeepsInternal(cfg, prefix, w.st, events[m]);
        AdvanceSteps(cfg, w, events[m]);
      }
    } else {
      InitialHasInternal(cfg);
    }
  }

  lemma InitialHasInternal(cfg: Config)
    ensures HasInternal(cfg, Initial(cfg)) && !Initial(cfg).halted
  {
  }

  lemma AdvanceSteps(cfg: Config, w: World, e: Event)
    ensures Advance(cfg, w, e).st == Step(cfg, w.st, e)
  {
  }

  lemma {:induction false} NothingDeleted(cfg: Config, events: seq<Event>, k: string)
    requires forall e <- events :: Spares(e, k)
    ensures DeletedTotal(cfg, events, k) == 0.0
  {
    if events != [] {
      hide Run;
      var m := |events| - 1;
      assert events == events[..m] + [events[m]];
      NothingDeleted(cfg, events[..m], k);
      assert Spares(events[m], k);
    }
  }

  /** For every run in which no deletion command names k or an internal counter: what was
      published of k plus what is still stored is what the packets contributed. */
  lemma CountersAreConserved(cfg: Config, prefix: string, events: seq<Event>, k: string)
    requires cfg.syntax.names == NamesFor(prefix)
    requires forall e <- events :: SparesInternal(cfg, e) && Spares(e, k)
    ensures var w := Run(cfg, Start(cfg), events);
      && HasInternal(cfg, w.st)
      && (w.st.halted <==> exists e <- events :: IsFaulty(cfg.syntax, e))
      && (!w.st.halted ==>
            PublishedTotal(w.snapshots, k) + Get(w.st.counters, k)
              == TotalContribution(cfg.syntax, events, k))
  {
    hide Run, PublishedTotal, DeletedTotal, TotalContribution, IsFaulty, SparesInternal;
    FaultsEndRuns(cfg, prefix, events);
    if !Run(cfg, Start(cfg), events).st.halted {
      CountersBalance(cfg, events, k);
      NothingDeleted(cfg, events, k);
    }
  }

  // ----- rates over whole runs

  function PublishedRates(snapshots: seq<Snapshot>, k: string): real
  {
    if snapshots == [] then 0.0
    else PublishedRates(snapshots[..|snapshots| - 1], k) + Get(snapshots[|snapshots| - 1].counterRates, k)
  }

  /** The rates of the snapshots account for the published counts. */
  ghost predicate RatesAgree(cfg: Config, snapshots: seq<Snapshot>, k: string)
  {
    PublishedRates(snapshots, k) * (cfg.summary.interval / 1000.0) == PublishedTotal(snapshots, k)
  }

  lemma RateOfCount(rate: real, count: real, seconds: real, rates: real, counts: real)
    requires seconds > 0.0 && rate == count / seconds && rates * seconds == counts
    ensures (rates + rate) * seconds == counts + count
  {
    assert rate * seconds == count;
  }

  lemma RatesAgreeStep(cfg: Config, w: World, e: Event, k: string)
    requires RatesAgree(cfg, w.snapshots, k)
    ensures RatesAgree(cfg, Advance(cfg, w, e).snapshots, k)
  {
    hide Step, Publish, RatesAgree;
    assert w.snapshots + [] == w.snapshots;
    if e.Flush? && !w.st.halted {
      RateOfSnapshot(cfg, w.st, e.now, k);
      RatesAgreeSnoc(cfg, w.snapshots, Publish(cfg, w.st, e.now), k);
    }
  }

  lemma RateOfSnapshot(cfg: Config, st: Stores, now: int, k: string)
    ensures var s := Publish(cfg, st, now);
      Get(s.counterRates, k) == Get(s.counters, k) / (cfg.summary.interval / 1000.0)
  {
    hide WithLag, Summaries, SortAll;
  }

  lemma RatesAgreeSnoc(cfg: Config, snapshots: seq<Snapshot>, s: Snapshot, k: string)
    requires RatesAgree(cfg, snapshots, k)
    requires Get(s.counterRates, k) == Get(s.counters, k) / (cfg.summary.interval / 1000.0)
    ensures RatesAgree(cfg, snapshots + [s], k)
  {
    hide Get;
    assert (snapshots + [s])[..|snapshots|] == snapshots;
    RateOfCount(Get(s.counterRates, k), Get(s.counters, k), cfg.summary.interval / 1000.0,
                PublishedRates(snapshots, k), PublishedTotal(snapshots, k));
  }

  lemma {:induction false} RatesAlwaysAgree(cfg: Config, events: seq<Event>, k: string)
    ensures RatesAgree(cfg, Run(cfg, Start(cfg), events).snapshots, k)
  {
    if events != [] {
      hide RatesAgree, Advance;
      var m := |events| - 1;
      RatesAlwaysAgree(cfg, events[..m], k);
      RatesAgreeStep(cfg, Run(cfg, Start(cfg), events[..m]), events[m], k);
    }
  }

  /** The published rates lose nothing either: over every run that has not ended early, the rates
      of a counter times the interval in seconds, what is still stored and what was deleted are
      together what the packets contributed. */
  lemma RatesAreConserved(cfg: Config, events: seq<Event>, k: string)
    requires !Run(cfg, Start(cfg), events).st.halted
    ensures var w := Run(cfg, Start(cfg), events);
      PublishedRates(w.snapshots, k) * (cfg.summary.interval / 1000.0)
        + Get(w.st.counters, k) + DeletedTotal(cfg, events, k)
        == TotalContribution(cfg.syntax, events, k)
  {
    hide Run, PublishedRates, PublishedTotal, DeletedTotal, TotalContribution;
    CountersBalance(cfg, events, k);
    RatesAlwaysAgree(cfg, events, k);
  }

  // ----- idle counters

  /** An update writes counter k. */
  predicate Writes(syn: Syntax, u: Update, k: string)
  {
    match u
    case Bump(key) => key == k
    case Count(key, _) => key == k
    case BadLine => syn.names.badLines == k
    case _ => false
  }

  predicate WritesAny(syn: Syntax, us: seq<Update>, k: string)
  {
    exists i :: 0 <= i < |us| && Writes(syn, us[i], k)
  }

  predicate ActiveAfter(cfg: Config, before: bool, e: Event, k: string)
  {
    match e
    case Packet(msg) => before || WritesAny(cfg.syntax, PacketUpdates(cfg.syntax, msg), k)
    case Flush(_) => false
    case DelCounters(cmdline) => before && !MatchesAny(cmdline, k)
    case _ => before
  }

  /** Counter k was written since the last flush or matching `delcounters`. */
  predicate IsActive(cfg: Config, events: seq<Event>, k: string)
  {
    if events == [] then false
    else
      var m := |events| - 1;
      ActiveAfter(cfg, IsActive(cfg, events[..m], k), events[m], k)
  }

  lemma {:induction false} ApplyAllWrites(cfg: Config, st: Stores, us: seq<Update>, k: string)
    requires !ApplyAll(cfg, st, us).halted
    ensures k in ApplyAll(cfg, st, us).counters <==> k in st.counters || WritesAny(cfg.syntax, us, k)
  {
    if us != [] {
      hide NewTimers, NewTimerCounters, NewGauges, NewTTL, NewSets;
      var m := |us| - 1;
      ApplyAllWrites(cfg, st, us[..m], k);
      WritesSnoc(cfg.syntax, us[..m], us[m], k);
      assert us == us[..m] + [us[m]];
    }
  }

  lemma WritesSnoc(syn: Syntax, us: seq<Update>, u: Update, k: string)
    ensures WritesAny(syn, us + [u], k) <==> WritesAny(syn, us, k) || Writes(syn, u, k)
  {
    if WritesAny(syn, us, k) {
      var i :| 0 <= i < |us| && Writes(syn, us[i], k);
      assert (us + [u])[i] == us[i];
    }
    assert (us + [u])[|us|] == u;
    if WritesAny(syn, us + [u], k) && !Writes(syn, u, k) {
      var i :| 0 <= i < |us + [u]| && Writes(syn, (us + [u])[i], k);
      assert us[i] == (us + [u])[i];
    }
  }

  lemma StepActive(cfg: Config, st: Stores, e: Event, k: string)
    requires cfg.deleteCounters && !IsInternal(k) && !Step(cfg, st, e).halted
    ensures !st.halted
    ensures k in Step(cfg, st, e).counters <==> ActiveAfter(cfg, k in st.counters, e, k)
  {
    hide PacketUpdates, WritesAny, IsInternal, MatchesAny, ClearTimers, ClearTimerCounters, ClearSets, WithLag;
    if e.Packet? && !st.halted {
      ApplyAllWrites(cfg, st, PacketUpdates(cfg.syntax, e.msg), k);
    }
  }

  /** The name holds one of the words that a flush spares. */
  ghost predicate HoldsOwnWord(k: string)
  {
    HoldsWord(k, "packets_received") || HoldsWord(k, "metrics_received") || HoldsWord(k, "bad_lines_seen")
  }

  lemma SparedIff(k: string)
    ensures IsInternal(k) <==> HoldsOwnWord(k)
  {
    ContainsIff(k, "packets_received");
    ContainsIff(k, "metrics_received");
    ContainsIff(k, "bad_lines_seen");
  }

  /** A flush zeroes every counter, and with `deleteCounters` keeps those alone whose name holds one
      of the three words. */
  lemma FlushClearsCounters(cfg: Config, st: Stores, now: int, k: string)
    requires !st.halted
    ensures var counters := Step(cfg, st, Flush(now)).counters;
      && (k in counters <==> k in st.counters && (cfg.deleteCounters ==> HoldsOwnWord(k)))
      && (k in counters ==> counters[k] == 0.0)
  {
    SparedIff(k);
    hide IsInternal, HoldsOwnWord, ClearTimers, ClearTimerCounters, ClearSets, WithLag, AgeGauges, Expired;
  }

  /** With `deleteCounters` a counter whose name holds none of the three words exists exactly while
      it has been written since the last flush. */
  lemma {:induction false} IdleCountersVanish(cfg: Config, prefix: string, events: seq<Event>, k: string)
    requires cfg.deleteCounters && cfg.syntax.names == NamesFor(prefix) && !HoldsOwnWord(k)
    requires !Run(cfg, Start(cfg), events).st.halted
    ensures k in Run(cfg, Start(cfg), events).st.counters <==> IsActive(cfg, events, k)
  {
    SparedIff(k);
    if events == [] {
      InternalNames(prefix);
    } else {
      hide Step, ActiveAfter, IsInternal, HoldsOwnWord;
      var m := |events| - 1;
      var st := Run(cfg, Start(cfg), events[..m]).st;
      StepFromHalted(cfg, st, events[m]);
      IdleCountersVanish(cfg, prefix, events[..m], k);
      StepActive(cfg, st, events[m], k);
    }
  }

  /** A client's counter such as `a.b` is gone after every flush. */
  lemma ClientCounterGoes(cfg: Config, events: seq<Event>, now: int)
    requires cfg.deleteCounters && !Run(cfg, Start(cfg), events).st.halted
    ensures "a.b" !in Run(cfg, Start(cfg), events + [Flush(now)]).st.counters
  {
    var all := events + [Flush(now)];
    assert all[..|all| - 1] == events;
    assert !HoldsOwnWord("a.b") by {
      forall before: string, after: string, word: string | "a.b" == before + word + after
        ensures |word| <= 3
      {
        assert |before + word + after| == 3;
      }
    }
    hide Step, HoldsOwnWord;
    FlushClearsCounters(cfg, Run(cfg, Start(cfg), events).st, now, "a.b");
  }

  // ----- what the internal counters count

  /** No update of the list is a client's write to an internal counter. */
  ghost predicate LeavesInternal(syn: Syntax, us: seq<Update>)
  {
    forall i :: 0 <= i < |us| && us[i].Count? ==>
      us[i].key != syn.names.packets && us[i].key != syn.names.metrics && us[i].key != syn.names.badLines
  }

  lemma {:induction false} BitsCount(syn: Syntax, us: seq<Update>, prefix: string)
    requires syn.names == NamesFor(prefix) && LeavesInternal(syn, us)
    requires forall i :: 0 <= i < |us| ==> !us[i].Bump?
    ensures Contributed(syn, us, syn.names.packets) == 0.0 == Contributed(syn, us, syn.names.metrics)
    ensures Contributed(syn, us, syn.names.badLines) == BadLineCount(us) as real
  {
    NamesAreDistinct(prefix);
    if us != [] {
      BitsCount(syn, us[..|us| - 1], prefix);
    }
  }

  lemma NamesAreDistinct(prefix: string)
    ensures var n := NamesFor(prefix);
      n.packets != n.metrics && n.packets != n.badLines && n.metrics != n.badLines
  {
    var n, p := NamesFor(prefix), |prefix| + 1;
    assert n.packets[p] == 'p' && n.metrics[p] == 'm' && n.badLines[p] == 'b';
  }

  lemma LineCounts(syn: Syntax, prefix: string, line: string)
    requires syn.names == NamesFor(prefix) && LeavesInternal(syn, LineUpdates(syn, line))
    ensures var us := LineUpdates(syn, line);
      && Contributed(syn, us, syn.names.packets) == 0.0
      && Contributed(syn, us, syn.names.metrics) == 1.0
      && Contributed(syn, us, syn.names.badLines) == BadLineCount(us) as real
  {
    hide KeyOf, Bits, BitUpdate;
    var bump := [Bump(syn.names.metrics)];
    var bits := BitUpdates(syn, KeyOf(syn, line), Bits(line));
    BitBumps(syn, KeyOf(syn, line), Bits(line));
    assert forall i :: 0 <= i < |bits| ==> LineUpdates(syn, line)[i + 1] == bits[i];
    BitsCount(syn, bits, prefix);
    NamesAreDistinct(prefix);
    OneBump(syn, syn.names.metrics, syn.names.packets);
    OneBump(syn, syn.names.metrics, syn.names.metrics);
    OneBump(syn, syn.names.metrics, syn.names.badLines);
    ContributedConcat(syn, bump, bits, syn.names.packets);
    ContributedConcat(syn, bump, bits, syn.names.metrics);
    ContributedConcat(syn, bump, bits, syn.names.badLines);
  }

  lemma OneBump(syn: Syntax, key: string, k: string)
    ensures Contributed(syn, [Bump(key)], k) == if key == k then 1.0 else 0.0
    ensures BadLineCount([Bump(key)]) == 0
  {
    assert [Bump(key)][..0] == [];
  }

  lemma LeavesInternalParts(syn: Syntax, a: seq<Update>, b: seq<Update>)
    requires LeavesInternal(syn, a + b)
    ensures LeavesInternal(syn, a) && LeavesInternal(syn, b)
  {
    assert forall i :: 0 <= i < |a| ==> (a + b)[i] == a[i];
    assert forall i :: 0 <= i < |b| ==> (a + b)[|a| + i] == b[i];
  }

  lemma {:induction false} LinesCount(syn: Syntax, prefix: string, lines: seq<string>)
    requires syn.names == NamesFor(prefix) && LeavesInternal(syn, LinesUpdates(syn, lines))
    ensures var us := LinesUpdates(syn, lines);
      && Contributed(syn, us, syn.names.packets) == 0.0
      && Contributed(syn, us, syn.names.metrics) == |lines| as real
      && Contributed(syn, us, syn.names.badLines) == BadLineCount(us) as real
  {
    if lines != [] {
      hide LineUpdates, LeavesInternal, NamesFor;
      var init, last := lines[..|lines| - 1], lines[|lines| - 1];
      var a, b := LinesUpdates(syn, init), LineUpdates(syn, last);
      assert LinesUpdates(syn, lines) == a + b;
      LeavesInternalParts(syn, a, b);
      LinesCount(syn, prefix, init);
      LineCounts(syn, prefix, last);
      ContributedConcat(syn, a, b, syn.names.packets);
      ContributedConcat(syn, a, b, syn.names.metrics);
      ContributedConcat(syn, a, b, syn.names.badLines);
    }
  }

  /** Unless clients write to the internal counters, a packet adds one to the first, its number
      of non-empty lines to the second, and its number of invalid values to the third. */
  lemma InternalCountersCount(syn: Syntax, prefix: string, msg: string)
    requires syn.names == NamesFor(prefix) && LeavesInternal(syn, LinesUpdates(syn, Lines(msg)))
    ensures var us := PacketUpdates(syn, msg);
      && Contributed(syn, us, syn.names.packets) == 1.0
      && Contributed(syn, us, syn.names.metrics) == |Lines(msg)| as real
      && Contributed(syn, us, syn.names.badLines) == BadLineCount(us) as real
  {
    hide Lines, LinesUpdates;
    var bump := [Bump(syn.names.packets)];
    var us := LinesUpdates(syn, Lines(msg));
    LinesCount(syn, prefix, Lines(msg));
    NamesAreDistinct(prefix);
    OneBump(syn, syn.names.packets, syn.names.packets);
    OneBump(syn, syn.names.packets, syn.names.metrics);
    OneBump(syn, syn.names.packets, syn.names.badLines);
    ContributedConcat(syn, bump, us, syn.names.packets);
    ContributedConcat(syn, bump, us, syn.names.metrics);
    ContributedConcat(syn, bump, us, syn.names.badLines);
  }
}
