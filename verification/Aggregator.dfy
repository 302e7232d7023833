/** The aggregator as a state machine on values: updates, flushes and deletions. */
module Aggregator {
  import opened JsStrings
  import opened Samples
  import opened TimerMetrics
  import opened Packets

  datatype Config = Config(
    syntax: Syntax,
    deleteCounters: bool,
    deleteTimers: bool,
    deleteSets: bool,
    deleteGauges: bool,
    maxTTL: int,
    summary: Settings)

  /** The module-level maps. `halted` records that a fault has ended the run. */
  datatype Stores = Stores(
    counters: map<string, real>,
    timers: map<string, seq<real>>,
    timerCounters: map<string, real>,
    gauges: map<string, real>,
    gaugesTTL: map<string, int>,
    sets: map<string, set<string>>,
    badLines: nat,
    oldTimestamp: int,
    halted: bool)

  function Get(m: map<string, real>, k: string): real
  {
    if k in m then m[k] else 0.0
  }

  function SamplesOf(m: map<string, seq<real>>, k: string): seq<real>
  {
    if k in m then m[k] else []
  }

  function MembersOf(m: map<string, set<string>>, k: string): set<string>
  {
    if k in m then m[k] else {}
  }

  /** At start-up the three internal counters are set to zero. */
  function Initial(cfg: Config): Stores
  {
    var n := cfg.syntax.names;
    Stores(map[n.badLines := 0.0, n.packets := 0.0, n.metrics := 0.0],
           map[], map[], map[], map[], map[], 0, 0, false)
  }

  // ----- packets

  /** An update ends the run when it is a fault, or when it would increment an internal
      counter that was deleted: `counters[key]++` then stores NaN. */
  predicate Halts(cfg: Config, counters: map<string, real>, u: Update)
  {
    || u.Fault?
    || (u.Bump? && u.key !in counters)
    || (u.BadLine? && cfg.syntax.names.badLines !in counters)
  }

  function NewCounters(cfg: Config, counters: map<string, real>, u: Update): map<string, real>
  {
    if u.Bump? then counters[u.key := Get(counters, u.key) + 1.0]
    else if u.BadLine? then
      counters[cfg.syntax.names.badLines := Get(counters, cfg.syntax.names.badLines) + 1.0]
    else if u.Count? then counters[u.key := Get(counters, u.key) + u.amount]
    else counters
  }

  function NewTimers(timers: map<string, seq<real>>, u: Update): map<string, seq<real>>
  {
    if u.Time? then timers[u.key := SamplesOf(timers, u.key) + [u.value]] else timers
  }

  function NewTimerCounters(timers: map<string, seq<real>>, timerCounters: map<string, real>, u: Update)
    : map<string, real>
  {
    if u.Time? then
      timerCounters[u.key := (if u.key in timers then Get(timerCounters, u.key) else 0.0) + Weight(u.rate)]
    else timerCounters
  }

  /** A signed value changes a gauge that is stored and not zero; any other value replaces it. */
  function NewGauges(gauges: map<string, real>, u: Update): map<string, real>
  {
    if u.Gauge? then
      gauges[u.key := if Get(gauges, u.key) != 0.0 && u.signed then gauges[u.key] + u.value else u.value]
    else gauges
  }

  function NewTTL(cfg: Config, gaugesTTL: map<string, int>, u: Update): map<string, int>
  {
    if u.Gauge? && cfg.deleteGauges then gaugesTTL[u.key := cfg.maxTTL] else gaugesTTL
  }

  function NewSets(sets: map<string, set<string>>, u: Update): map<string, set<string>>
  {
    if u.Member? then sets[u.key := MembersOf(sets, u.key) + {u.element}] else sets
  }

  function Apply(cfg: Config, st: Stores, u: Update): Stores
  {
    if st.halted then st
    else if Halts(cfg, st.counters, u) then st.(halted := true)
    else
      Stores(NewCounters(cfg, st.counters, u),
             NewTimers(st.timers, u),
             NewTimerCounters(st.timers, st.timerCounters, u),
             NewGauges(st.gauges, u),
             NewTTL(cfg, st.gaugesTTL, u),
             NewSets(st.sets, u),
             if u.BadLine? then st.badLines + 1 else st.badLines,
             st.oldTimestamp, false)
  }

  lemma ApplyFromHalted(cfg: Config, st: Stores, u: Update)
    ensures st.halted ==> Apply(cfg, st, u).halted
  {
  }

  function ApplyAll(cfg: Config, st: Stores, us: seq<Update>): Stores
  {
    if us == [] then st
    else Apply(cfg, ApplyAll(cfg, st, us[..|us| - 1]), us[|us| - 1])
  }

  lemma {:induction false} ApplyAllConcat(cfg: Config, st: Stores, a: seq<Update>, b: seq<Update>)
    ensures ApplyAll(cfg, st, a + b) == ApplyAll(cfg, ApplyAll(cfg, st, a), b)
    decreases |b|
  {
    if b == [] {
      assert a + b == a;
    } else {
      ApplyAllConcat(cfg, st, a, b[..|b| - 1]);
      assert (a + b)[..|a + b| - 1] == a + b[..|b| - 1];
    }
  }

  lemma {:induction false} HaltedIsFinal(cfg: Config, st: Stores, us: seq<Update>)
    requires st.halted
    ensures ApplyAll(cfg, st, us) == st
  {
    if us != [] {
      HaltedIsFinal(cfg, st, us[..|us| - 1]);
    }
  }

  // ----- flush

  datatype Snapshot = Snapshot(
    counters: map<string, real>,
    counterRates: map<string, real>,
    timers: map<string, seq<real>>,
    timerCounters: map<string, real>,
    timerData: map<string, TimerData>,
    gauges: map<string, real>,
    sets: map<string, set<string>>)

  function WithLag(cfg: Config, st: Stores, now: int): map<string, real>
  {
    if st.oldTimestamp > 0 then
      st.gauges[cfg.syntax.names.lag :=
        (now - st.oldTimestamp) as real - cfg.summary.interval / 1000.0]
    else st.gauges
  }

  function Rates(counters: map<string, real>, interval: PositiveReal): map<string, real>
  {
    map k | k in counters :: counters[k] / (interval / 1000.0)
  }

  function SortAll(timers: map<string, seq<real>>): map<string, seq<real>>
  {
    map k | k in timers :: Sort(timers[k])
  }

  function Summaries(timers: map<string, seq<real>>, timerCounters: map<string, real>, cfg: Settings)
    : map<string, TimerData>
  {
    map k | k in timers :: Summary(k, Sort(timers[k]), Get(timerCounters, k), cfg)
  }

  /** What the backends see. */
  function Publish(cfg: Config, st: Stores, now: int): Snapshot
  {
    Snapshot(st.counters, Rates(st.counters, cfg.summary.interval),
             SortAll(st.timers), st.timerCounters,
             Summaries(st.timers, st.timerCounters, cfg.summary),
             WithLag(cfg, st, now), st.sets)
  }

  predicate IsInternal(key: string)
  {
    Contains(key, "packets_received") || Contains(key, "metrics_received")
    || Contains(key, "bad_lines_seen")
  }

  function ClearCounters(cfg: Config, counters: map<string, real>): map<string, real>
  {
    map k | k in counters && (cfg.deleteCounters ==> IsInternal(k)) :: 0.0
  }

  function ClearTimers(cfg: Config, timers: map<string, seq<real>>): map<string, seq<real>>
  {
    if cfg.deleteTimers then map[] else map k | k in timers :: []
  }

  function ClearTimerCounters(cfg: Config, timers: map<string, seq<real>>, timerCounters: map<string, real>)
    : map<string, real>
  {
    if cfg.deleteTimers then timerCounters - timers.Keys
    else timerCounters + map k | k in timers :: 0.0
  }

  function ClearSets(cfg: Config, sets: map<string, set<string>>): map<string, set<string>>
  {
    if cfg.deleteSets then map[] else map k | k in sets :: {}
  }

  /** The gauges whose last idle cycle this flush ends. */
  function Expired(cfg: Config, gaugesTTL: map<string, int>): set<string>
  {
    if cfg.deleteGauges then set k | k in gaugesTTL && gaugesTTL[k] - 1 < 1 else {}
  }

  function AgeGauges(cfg: Config, gaugesTTL: map<string, int>): map<string, int>
  {
    if cfg.deleteGauges then map k | k in gaugesTTL && gaugesTTL[k] - 1 >= 1 :: gaugesTTL[k] - 1
    else gaugesTTL
  }

  /** The stores after the clear listener has run. */
  function Cleared(cfg: Config, st: Stores, now: int): Stores
  {
    Stores(ClearCounters(cfg, st.counters),
           ClearTimers(cfg, st.timers),
           ClearTimerCounters(cfg, st.timers, st.timerCounters),
           WithLag(cfg, st, now) - Expired(cfg, st.gaugesTTL),
           AgeGauges(cfg, st.gaugesTTL),
           ClearSets(cfg, st.sets),
           st.badLines, now, st.halted)
  }

  // ----- deletion commands

  /** A command-line bucket names a key itself, or with `.*` a folder of keys. */
  predicate Matches(bucket: string, key: string)
  {
    bucket == key || (EndsWith(bucket, ".*") && StartsWith(key, bucket[..|bucket| - 1]))
  }

  predicate MatchesAny(cmdline: seq<string>, key: string)
  {
    exists bucket <- cmdline :: Matches(bucket, key)
  }

  function Without<V>(stats: map<string, V>, cmdline: seq<string>): map<string, V>
  {
    map k | k in stats && !MatchesAny(cmdline, k) :: stats[k]
  }

  // ----- runs

  datatype Event =
    | Packet(msg: string)
    | Flush(now: int)
    | DelCounters(cmdline: seq<string>)
    | DelTimers(cmdline: seq<string>)
    | DelGauges(cmdline: seq<string>)

  function Step(cfg: Config, st: Stores, e: Event): Stores
  {
    if st.halted then st
    else
      match e
      case Packet(msg) => ApplyAll(cfg, st, PacketUpdates(cfg.syntax, msg))
      case Flush(now) => Cleared(cfg, st, now)
      case DelCounters(cmdline) => st.(counters := Without(st.counters, cmdline))
      case DelTimers(cmdline) => st.(timers := Without(st.timers, cmdline))
      case DelGauges(cmdline) => st.(gauges := Without(st.gauges, cmdline))
  }

  lemma StepFromHalted(cfg: Config, st: Stores, e: Event)
    ensures st.halted ==> Step(cfg, st, e).halted
  {
  }

  function Published(cfg: Config, st: Stores, e: Event): seq<Snapshot>
  {
    if e.Flush? && !st.halted then [Publish(cfg, st, e.now)] else []
  }

  /** The stores and all snapshots after a sequence of events. */
  datatype World = World(st: Stores, snapshots: seq<Snapshot>)

  function Advance(cfg: Config, w: World, e: Event): World
  {
    World(Step(cfg, w.st, e), w.snapshots + Published(cfg, w.st, e))
  }

  lemma AdvanceFromHalted(cfg: Config, w: World, e: Event)
    ensures w.st.halted ==> Advance(cfg, w, e) == w
  {
    assert w.snapshots + [] == w.snapshots;
  }

  function Run(cfg: Config, w: World, events: seq<Event>): World
  {
    if events == [] then w
    else Advance(cfg, Run(cfg, w, events[..|events| - 1]), events[|events| - 1])
  }

  function Start(cfg: Config): World
  {
    World(Initial(cfg), [])
  }

  lemma {:induction false} RunConcat(cfg: Config, w: World, a: seq<Event>, b: seq<Event>)
    ensures Run(cfg, w, a + b) == Run(cfg, Run(cfg, w, a), b)
    decreases |b|
  {
    if b == [] {
      assert a + b == a;
    } else {
      RunConcat(cfg, w, a, b[..|b| - 1]);
      assert (a + b)[..|a + b| - 1] == a + b[..|b| - 1];
    }
  }

  lemma {:induction false} RunKeepsHalt(cfg: Config, w: World, events: seq<Event>)
    requires !Run(cfg, w, events).st.halted
    ensures !w.st.halted
  {
    if events != [] {
      var m := |events| - 1;
      StepFromHalted(cfg, Run(cfg, w, events[..m]).st, events[m]);
      RunKeepsHalt(cfg, w, events[..m]);
    }
  }

  // ----- start-up normalisation

  datatype RawConfig = RawConfig(
    gaugesMaxTTL: Option<real>,
    deleteIdleStats: Option<bool>,
    deleteCounters: Option<bool>,
    deleteTimers: Option<bool>,
    deleteSets: Option<bool>,
    deleteGauges: Option<bool>)

  /** An idle flag: its own setting, else the common one, else off. */
  function Flag(own: Option<bool>, common: Option<bool>): bool
  {
    match own
    case Some(b) => b
    case None => common.Some? && common.value
  }

  function NormalTTL(ttl: Option<real>): (t: int)
    ensures t >= 1
  {
    if ttl.Some? && ttl.value.Floor as real == ttl.value && ttl.value > 1.0 then ttl.value.Floor else 1
  }

  function Normalise(raw: RawConfig, syn: Syntax, summary: Settings): Config
  {
    Config(syn, Flag(raw.deleteCounters, raw.deleteIdleStats), Flag(raw.deleteTimers, raw.deleteIdleStats),
           Flag(raw.deleteSets, raw.deleteIdleStats), Flag(raw.deleteGauges, raw.deleteIdleStats),
           NormalTTL(raw.gaugesMaxTTL), summary)
  }
}
