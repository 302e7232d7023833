/** The daemon as an object: the packet handler, the flush and the deletion commands update
    its maps in place, and each is proved against the aggregator's transition function. */
module Server {
  import opened JsStrings
  import opened Samples
  import opened TimerMetrics
  import opened Packets
  import opened Aggregator
  import MgmtConsole

  lemma FaultEndsRun(cfg: Config, st: Stores, done: seq<Update>, rest: seq<Update>)
    requires ApplyAll(cfg, st, done).halted
    ensures ApplyAll(cfg, st, done + rest) == ApplyAll(cfg, st, done)
  {
    ApplyAllConcat(cfg, st, done, rest);
    HaltedIsFinal(cfg, ApplyAll(cfg, st, done), rest);
  }

  /** One more line handled after a prefix of the packet. */
  lemma ApplyOneMoreLine(cfg: Config, st: Stores, head: seq<Update>, lines: seq<string>, line: string)
    ensures ApplyAll(cfg, st, head + LinesUpdates(cfg.syntax, lines + [line]))
         == ApplyAll(cfg, ApplyAll(cfg, st, head + LinesUpdates(cfg.syntax, lines)),
                     LineUpdates(cfg.syntax, line))
  {
    hide ApplyAll, LineUpdates;
    var syn := cfg.syntax;
    assert (lines + [line])[..|lines|] == lines;
    ApplyAllConcat(cfg, st, head + LinesUpdates(syn, lines), LineUpdates(syn, line));
    Associative(head, LinesUpdates(syn, lines), LineUpdates(syn, line));
  }

  /** A fault inside a packet makes the remaining lines irrelevant. */
  lemma FaultEndsPacket(cfg: Config, st: Stores, head: seq<Update>, lines: seq<string>, rest: seq<string>)
    requires ApplyAll(cfg, st, head + LinesUpdates(cfg.syntax, lines)).halted
    ensures ApplyAll(cfg, st, head + LinesUpdates(cfg.syntax, lines + rest))
         == ApplyAll(cfg, st, head + LinesUpdates(cfg.syntax, lines))
  {
    hide ApplyAll, LinesUpdates;
    var syn := cfg.syntax;
    LinesUpdatesConcat(syn, lines, rest);
    FaultEndsRun(cfg, st, head + LinesUpdates(syn, lines), LinesUpdates(syn, rest));
    Associative(head, LinesUpdates(syn, lines), LinesUpdates(syn, rest));
  }

  lemma ApplyOneMore(cfg: Config, st: Stores, done: seq<Update>, u: Update)
    ensures ApplyAll(cfg, st, done + [u]) == Apply(cfg, ApplyAll(cfg, st, done), u)
  {
    assert (done + [u])[..|done|] == done;
  }

  lemma PutTwice<V>(m: map<string, V>, k: string, a: V, b: V)
    ensures m[k := a][k := b] == m[k := b]
  {
  }

  class Daemon {
    const cfg: Config
    var counters: map<string, real>
    var timers: map<string, seq<real>>
    var timerCounters: map<string, real>
    var gauges: map<string, real>
    var gaugesTTL: map<string, int>
    var sets: map<string, set<string>>
    var badLines: nat
    var oldTimestamp: int
    var halted: bool
    ghost var snapshots: seq<Snapshot>

    /** Every stored timer has its counter. */
    ghost predicate Valid()
      reads this
    {
      timers.Keys <= timerCounters.Keys
    }

    ghost function View(): Stores
      reads this
    {
      Stores(counters, timers, timerCounters, gauges, gaugesTTL, sets, badLines, oldTimestamp, halted)
    }

    ghost function History(): World
      reads this
    {
      World(View(), snapshots)
    }

    constructor (cfg: Config)
      ensures Valid() && this.cfg == cfg && History() == Start(cfg)
    {
      var n := cfg.syntax.names;
      this.cfg := cfg;
      counters := map[n.badLines := 0.0, n.packets := 0.0, n.metrics := 0.0];
      timers, timerCounters := map[], map[];
      gauges, gaugesTTL, sets := map[], map[], map[];
      badLines, oldTimestamp, halted := 0, 0, false;
      snapshots := [];
    }

    method BumpCounter(key: string)
      requires Valid() && !halted
      modifies this`counters, this`halted
      ensures Valid() && View() == Apply(cfg, old(View()), Bump(key))
    {
      if key in counters {
        counters := counters[key := counters[key] + 1.0];
      } else {
        halted := true;
      }
    }

    method RecordTimer(key: string, value: real, rate: NonZero)
      requires Valid() && !halted
      modifies this`timers, this`timerCounters
      ensures Valid() && View() == Apply(cfg, old(View()), Time(key, value, rate))
    {
      if key !in timers {
        PutTwice(timers, key, [], [] + [value]);
        PutTwice(timerCounters, key, 0.0, 0.0 + Weight(rate));
        timers := timers[key := []];
        timerCounters := timerCounters[key := 0.0];
      }
      timers := timers[key := timers[key] + [value]];
      timerCounters := timerCounters[key := timerCounters[key] + Weight(rate)];
    }

    method RecordGauge(key: string, signed: bool, value: real)
      requires Valid() && !halted
      modifies this`gauges, this`gaugesTTL
      ensures Valid() && View() == Apply(cfg, old(View()), Gauge(key, signed, value))
    {
      if cfg.deleteGauges {
        gaugesTTL := gaugesTTL[key := cfg.maxTTL];
      }
      if key in gauges && gauges[key] != 0.0 && signed {
        gauges := gauges[key := gauges[key] + value];
      } else {
        gauges := gauges[key := value];
      }
    }

    method RecordMember(key: string, element: string)
      requires Valid() && !halted
      modifies this`sets
      ensures Valid() && View() == Apply(cfg, old(View()), Member(key, element))
    {
      if key !in sets {
        sets := sets[key := {}];
      }
      sets := sets[key := sets[key] + {element}];
    }

    method RecordCount(key: string, amount: real)
      requires Valid() && !halted
      modifies this`counters
      ensures Valid() && View() == Apply(cfg, old(View()), Count(key, amount))
    {
      if key !in counters || counters[key] == 0.0 {
        counters := counters[key := 0.0];
      }
      counters := counters[key := counters[key] + amount];
    }

    method RecordBadLine()
      requires Valid() && !halted
      modifies this`counters, this`halted, this`badLines
      ensures Valid() && View() == Apply(cfg, old(View()), BadLine)
    {
      BumpCounter(cfg.syntax.names.badLines);
      if !halted {
        badLines := badLines + 1;
      }
    }

    /** The body of the loop over the values of a line. */
    method HandleBit(key: string, bit: string)
      requires Valid() && !halted
      modifies this
      ensures Valid() && View() == Apply(cfg, old(View()), BitUpdate(cfg.syntax, key, bit))
      ensures snapshots == old(snapshots)
    {
      hide Apply;
      var syn := cfg.syntax;
      var fields := Split(bit, "|");
      if !IsValidPacket(syn, fields) {
        RecordBadLine();
        return;
      }
      var sampleRate := Some(1.0);
      if |fields| > 2 {
        var digits := RateDigits(fields[2][1..]);
        if digits == "" {
          Fail();
          return;
        }
        sampleRate := syn.number(digits);
      }
      TypeIsNotExactlySet(fields[1]);
      var metricType := Trim(fields[1]);
      if metricType == "s" {
        RecordMember(key, if fields[0] == "" then "0" else fields[0]);
      } else if metricType == "g" {
        RecordGauge(key, IsSigned(fields[0]), syn.number(fields[0]).value);
      } else if sampleRate.None? || sampleRate.value == 0.0 {
        Fail();
      } else if metricType == "ms" {
        RecordTimer(key, syn.number(fields[0]).value, sampleRate.value);
      } else {
        var amount := syn.number(fields[0]).value * Weight(sampleRate.value);
        assert BitUpdate(syn, key, bit) == Count(key, amount);
        RecordCount(key, amount);
      }
    }

    /** The handler throws, or its stores would hold no finite number. */
    method Fail()
      requires Valid() && !halted
      modifies this`halted
      ensures Valid() && View() == Apply(cfg, old(View()), Fault)
    {
      halted := true;
    }

    method HandleLine(line: string)
      requires Valid() && !halted
      modifies this
      ensures Valid() && View() == ApplyAll(cfg, old(View()), LineUpdates(cfg.syntax, line))
      ensures snapshots == old(snapshots)
    {
      hide Apply, BitUpdate, KeyOf, Bits;
      var syn := cfg.syntax;
      ghost var start := View();
      ghost var all := LineUpdates(syn, line);
      ghost var done := [Bump(syn.names.metrics)];
      BumpCounter(syn.names.metrics);
      ApplyOneMore(cfg, start, [], done[0]);
      assert [] + done == done;
      var key, bits := KeyOf(syn, line), Bits(line);
      for i := 0 to |bits|
        invariant Valid() && snapshots == old(snapshots)
        invariant View() == ApplyAll(cfg, start, done)
        invariant done == [Bump(syn.names.metrics)] + BitUpdates(syn, key, bits[..i])
        invariant all == [Bump(syn.names.metrics)] + BitUpdates(syn, key, bits)
      {
        ghost var rest := BitUpdatesSuffix(syn, key, bits, i);
        if halted {
          FaultEndsRun(cfg, start, done, rest);
          Associative([Bump(syn.names.metrics)], BitUpdates(syn, key, bits[..i]), rest);
          return;
        }
        HandleBit(key, bits[i]);
        ApplyOneMore(cfg, start, done, BitUpdate(syn, key, bits[i]));
        done := done + [BitUpdate(syn, key, bits[i])];
        assert bits[..i + 1][..i] == bits[..i];
      }
      assert bits[..|bits|] == bits;
    }

    /** The updates of the first i values are a prefix of all the updates. */
    static lemma BitUpdatesSuffix(syn: Syntax, key: string, bits: seq<string>, i: nat) returns (rest: seq<Update>)
      requires i <= |bits|
      ensures BitUpdates(syn, key, bits) == BitUpdates(syn, key, bits[..i]) + rest
      decreases |bits|
    {
      if i == |bits| {
        rest := [];
        assert bits[..i] == bits;
      } else {
        var m := |bits| - 1;
        rest := BitUpdatesSuffix(syn, key, bits[..m], i);
        assert bits[..m][..i] == bits[..i];
        rest := rest + [BitUpdate(syn, key, bits[m])];
      }
    }

    method HandlePacket(msg: string)
      requires Valid()
      modifies this
      ensures Valid() && History() == Advance(cfg, old(History()), Packet(msg))
    {
      assert snapshots + [] == snapshots;
      if halted {
        return;
      }
      hide ApplyAll, Apply, LineUpdates, LinesUpdates, Split;
      var syn := cfg.syntax;
      ghost var start := View();
      ghost var head := [Bump(syn.names.packets)];
      BumpCounter(syn.names.packets);
      ApplyOneMore(cfg, start, [], head[0]);
      assert [] + head == head;
      var metrics := [msg];
      if '\n' in msg {
        metrics := Split(msg, "\n");
      } else {
        SplitWithoutSeparator(msg, '\n');
      }
      ghost var lines: seq<string> := [];
      for midx := 0 to |metrics|
        invariant Valid() && snapshots == old(snapshots)
        invariant lines + NonEmpty(metrics[midx..]) == Lines(msg)
        invariant View() == ApplyAll(cfg, start, head + LinesUpdates(syn, lines))
      {
        ghost var tail := NonEmpty(metrics[midx..]);
        assert metrics[midx..][1..] == metrics[midx + 1..];
        if halted {
          FaultEndsPacket(cfg, start, head, lines, tail);
          return;
        }
        if |metrics[midx]| == 0 {
          continue;
        }
        HandleLine(metrics[midx]);
        ApplyOneMoreLine(cfg, start, head, lines, metrics[midx]);
        Associative(lines, [metrics[midx]], NonEmpty(metrics[midx + 1..]));
        lines := lines + [metrics[midx]];
      }
      assert NonEmpty(metrics[|metrics|..]) == [];
      assert lines + [] == lines;
    }

    // ----- flush

    /** Clears or deletes each counter in turn. */
    method ResetCounters()
      requires Valid()
      modifies this`counters
      ensures counters == ClearCounters(cfg, old(counters))
    {
      ghost var before := counters;
      var todo := counters.Keys;
      while todo != {}
        invariant todo <= counters.Keys <= before.Keys
        invariant forall k <- before :: k in counters <==> k in todo || k in ClearCounters(cfg, before)
        invariant forall k <- counters :: counters[k] == if k in todo then before[k] else 0.0
      {
        var key :| key in todo;
        todo := todo - {key};
        if cfg.deleteCounters && !IsInternal(key) {
          counters := counters - {key};
        } else {
          counters := counters[key := 0.0];
        }
      }
    }

    method ResetTimers()
      requires Valid()
      modifies this`timers, this`timerCounters
      ensures Valid()
      ensures timers == ClearTimers(cfg, old(timers))
      ensures timerCounters == ClearTimerCounters(cfg, old(timers), old(timerCounters))
    {
      ghost var before, counts := timers, timerCounters;
      var todo := timers.Keys;
      while todo != {}
        invariant todo <= before.Keys
        invariant timers.Keys == if cfg.deleteTimers then todo else before.Keys
        invariant forall k <- timers :: timers[k] == if k in todo then before[k] else []
        invariant timerCounters.Keys == if cfg.deleteTimers then counts.Keys - (before.Keys - todo) else counts.Keys
        invariant forall k <- timerCounters ::
          timerCounters[k] == if k in todo || k !in before then counts[k] else 0.0
      {
        var key :| key in todo;
        todo := todo - {key};
        if cfg.deleteTimers {
          timers := timers - {key};
          timerCounters := timerCounters - {key};
        } else {
          timers := timers[key := []];
          timerCounters := timerCounters[key := 0.0];
        }
      }
    }

    method ResetSets()
      modifies this`sets
      ensures sets == ClearSets(cfg, old(sets))
    {
      ghost var before := sets;
      var todo := sets.Keys;
      while todo != {}
        invariant todo <= before.Keys
        invariant sets.Keys == if cfg.deleteSets then todo else before.Keys
        invariant forall k <- sets :: sets[k] == if k in todo then before[k] else {}
      {
        var key :| key in todo;
        todo := todo - {key};
        if cfg.deleteSets {
          sets := sets - {key};
        } else {
          sets := sets[key := {}];
        }
      }
    }

    /** Counts every gauge's idle cycles down and deletes those that have none left. */
    method ExpireGauges()
      modifies this`gauges, this`gaugesTTL
      ensures gauges == old(gauges) - Expired(cfg, old(gaugesTTL))
      ensures gaugesTTL == AgeGauges(cfg, old(gaugesTTL))
    {
      if cfg.deleteGauges {
        ghost var before, ttl := gauges, gaugesTTL;
        var todo := gaugesTTL.Keys;
        while todo != {}
          invariant todo <= gaugesTTL.Keys <= ttl.Keys
          invariant forall k <- ttl :: k in gaugesTTL <==> k in todo || ttl[k] - 1 >= 1
          invariant forall k <- gaugesTTL :: gaugesTTL[k] == if k in todo then ttl[k] else ttl[k] - 1
          invariant gauges == before - (Expired(cfg, ttl) - todo)
        {
          var key :| key in todo;
          todo := todo - {key};
          gaugesTTL := gaugesTTL[key := gaugesTTL[key] - 1];
          if gaugesTTL[key] < 1 {
            gauges := gauges - {key};
            gaugesTTL := gaugesTTL - {key};
          }
        }
        assert gaugesTTL == AgeGauges(cfg, ttl);
      }
    }

    /** The rates of all counters. */
    method ComputeRates() returns (rates: map<string, real>)
      ensures rates == Rates(counters, cfg.summary.interval)
    {
      rates := map[];
      var todo := counters.Keys;
      while todo != {}
        invariant todo <= counters.Keys
        invariant rates == Rates(counters - todo, cfg.summary.interval)
      {
        var key :| key in todo;
        todo := todo - {key};
        rates := rates[key := counters[key] / (cfg.summary.interval / 1000.0)];
      }
      assert counters - {} == counters;
    }

    /** Sorts every timer in place and summarises it. */
    method SummariseTimers() returns (data: map<string, TimerData>)
      requires Valid()
      modifies this`timers
      ensures Valid() && timers == SortAll(old(timers))
      ensures data == Summaries(old(timers), timerCounters, cfg.summary)
    {
      hide Summary, Sort;
      ghost var before, counts := timers, timerCounters;
      data := map[];
      var todo := timers.Keys;
      while todo != {}
        invariant todo <= timers.Keys == before.Keys
        invariant data.Keys == before.Keys - todo
        invariant forall k <- todo :: timers[k] == before[k]
        invariant forall k <- data :: timers[k] == Sort(before[k])
        invariant forall k <- data :: data[k] == Summary(k, Sort(before[k]), Get(counts, k), cfg.summary)
      {
        var key :| key in todo;
        var values, current := ProcessTimer(key, timers[key], timerCounters[key], cfg.summary);
        todo := todo - {key};
        timers := timers[key := values];
        data := data[key := current];
      }
    }

    /** The `clear_metrics` listener; the timers it sees are already sorted. */
    method ClearMetrics(ghost before: map<string, seq<real>>)
      requires Valid() && timers == SortAll(before)
      modifies this`counters, this`timers, this`timerCounters, this`sets, this`gauges, this`gaugesTTL
      ensures Valid()
      ensures counters == ClearCounters(cfg, old(counters))
      ensures timers == ClearTimers(cfg, before)
      ensures timerCounters == ClearTimerCounters(cfg, before, old(timerCounters))
      ensures sets == ClearSets(cfg, old(sets))
      ensures gauges == old(gauges) - Expired(cfg, old(gaugesTTL))
      ensures gaugesTTL == AgeGauges(cfg, old(gaugesTTL))
    {
      hide ClearCounters, ClearTimers, ClearTimerCounters, ClearSets, AgeGauges, Expired, SortAll;
      ClearSorted(cfg, before, timerCounters);
      ResetCounters();
      ResetTimers();
      ResetSets();
      ExpireGauges();
    }

    /** Publishes a snapshot to the backends, then lets the clear listener run. */
    method FlushMetrics(now: int)
      requires Valid()
      modifies this
      ensures Valid() && History() == Advance(cfg, old(History()), Flush(now))
    {
      hide Publish, ClearCounters, ClearTimers, ClearTimerCounters, ClearSets, AgeGauges, Expired,
           SortAll, Rates, Summaries, ApplyAll, PacketUpdates, Without;
      if halted {
        assert snapshots + [] == snapshots;
        return;
      }
      ghost var before := View();
      if oldTimestamp > 0 {
        gauges := gauges[cfg.syntax.names.lag :=
          (now - oldTimestamp) as real - cfg.summary.interval / 1000.0];
      }
      oldTimestamp := now;
      var rates := ComputeRates();
      var data := SummariseTimers();
      var snapshot := Snapshot(counters, rates, timers, timerCounters, data, gauges, sets);
      PublishIs(cfg, before, now, snapshot);
      snapshots := snapshots + [snapshot];
      ClearMetrics(before.timers);
    }

    // ----- management console

    method DeleteCounters(cmdline: seq<string>)
      requires Valid()
      modifies this`counters
      ensures Valid() && History() == Advance(cfg, old(History()), DelCounters(cmdline))
    {
      assert snapshots + [] == snapshots;
      if !halted {
        counters := MgmtConsole.DeleteStats(counters, cmdline);
      }
    }

    /** Only the samples go: the timer's counter entry stays behind. */
    method DeleteTimers(cmdline: seq<string>)
      requires Valid()
      modifies this`timers
      ensures Valid() && History() == Advance(cfg, old(History()), DelTimers(cmdline))
    {
      assert snapshots + [] == snapshots;
      if !halted {
        timers := MgmtConsole.DeleteStats(timers, cmdline);
      }
    }

    /** Only the value goes: the gauge's idle count stays behind. */
    method DeleteGauges(cmdline: seq<string>)
      requires Valid()
      modifies this`gauges
      ensures Valid() && History() == Advance(cfg, old(History()), DelGauges(cmdline))
    {
      assert snapshots + [] == snapshots;
      if !halted {
        gauges := MgmtConsole.DeleteStats(gauges, cmdline);
      }
    }
  }

  lemma PublishIs(cfg: Config, st: Stores, now: int, snapshot: Snapshot)
    requires snapshot == Snapshot(st.counters, Rates(st.counters, cfg.summary.interval),
                                  SortAll(st.timers), st.timerCounters,
                                  Summaries(st.timers, st.timerCounters, cfg.summary),
                                  WithLag(cfg, st, now), st.sets)
    ensures snapshot == Publish(cfg, st, now)
  {
  }

  /** Clearing does not depend on whether the lists were sorted first. */
  lemma ClearSorted(cfg: Config, timers: map<string, seq<real>>, timerCounters: map<string, real>)
    ensures ClearTimers(cfg, SortAll(timers)) == ClearTimers(cfg, timers)
    ensures ClearTimerCounters(cfg, SortAll(timers), timerCounters)
         == ClearTimerCounters(cfg, timers, timerCounters)
  {
    assert SortAll(timers).Keys == timers.Keys;
  }
}
