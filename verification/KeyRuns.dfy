/** With key sanitising on, every key the daemon ever stores or publishes is a sanitised one. */
module KeyRuns {
  import opened JsStrings
  import opened Samples
  import opened TimerMetrics
  import opened Packets
  import opened Aggregator

  ghost predicate AllKeys(names: set<string>)
  {
    forall k <- names :: IsKey(k)
  }

  ghost predicate HasKeys(st: Stores)
  {
    && AllKeys(st.counters.Keys) && AllKeys(st.timers.Keys) && AllKeys(st.timerCounters.Keys)
    && AllKeys(st.gauges.Keys) && AllKeys(st.gaugesTTL.Keys) && AllKeys(st.sets.Keys)
  }

  ghost predicate PublishesKeys(s: Snapshot)
  {
    && AllKeys(s.counters.Keys) && AllKeys(s.timers.Keys) && AllKeys(s.timerCounters.Keys)
    && AllKeys(s.gauges.Keys) && AllKeys(s.sets.Keys)
    && s.counterRates.Keys == s.counters.Keys && s.timerData.Keys == s.timers.Keys
  }

  /** The daemon's own names are keys. */
  ghost predicate OwnNamesAreKeys(syn: Syntax)
  {
    IsKey(syn.names.badLines) && IsKey(syn.names.packets) && IsKey(syn.names.metrics) && IsKey(syn.names.lag)
  }

  lemma PrefixGivesKeys(prefix: string)
    requires IsKey(prefix)
    ensures var n := NamesFor(prefix); IsKey(n.badLines) && IsKey(n.packets) && IsKey(n.metrics) && IsKey(n.lag)
  {
    TwoSuffixes();
    TwoMoreSuffixes();
    hide IsKey;
    KeyConcat(prefix, ".bad_lines_seen");
    KeyConcat(prefix, ".packets_received");
    KeyConcat(prefix, ".metrics_received");
    KeyConcat(prefix, ".timestamp_lag");
  }

  lemma KeyConcat(a: string, b: string)
    requires IsKey(a) && IsKey(b)
    ensures IsKey(a + b)
  {
    hide IsKeyChar;
  }

  lemma TwoSuffixes()
    ensures IsKey(".bad_lines_seen") && IsKey(".packets_received")
  {
  }

  lemma TwoMoreSuffixes()
    ensures IsKey(".metrics_received") && IsKey(".timestamp_lag")
  {
  }

  /** What an update writes to is a key. */
  ghost predicate WritesKey(u: Update)
  {
    u.BadLine? || u.Fault? || IsKey(u.key)
  }

  lemma BitWritesKey(syn: Syntax, key: string, bit: string)
    requires IsKey(key)
    ensures WritesKey(BitUpdate(syn, key, bit))
  {
    hide Split, Trim, IsValidPacket, IsKey;
  }

  lemma {:induction false} BitsWriteKeys(syn: Syntax, key: string, bits: seq<string>)
    requires IsKey(key)
    ensures forall u <- BitUpdates(syn, key, bits) :: WritesKey(u)
  {
    if bits != [] {
      hide BitUpdate, WritesKey, IsKey;
      BitsWriteKeys(syn, key, bits[..|bits| - 1]);
      BitWritesKey(syn, key, bits[|bits| - 1]);
    }
  }

  lemma KeyOfIsKey(syn: Syntax, line: string)
    requires syn.sanitizeKeys
    ensures IsKey(KeyOf(syn, line))
  {
    hide Sanitize, IsKey, Tags, Pieces;
    SanitizeFixes(Pieces(line)[0] + if Tags(line) == [] then "" else ";" + Join(CleanTags(Tags(line)), ";"));
  }

  lemma LineWritesKeys(syn: Syntax, line: string)
    requires syn.sanitizeKeys && OwnNamesAreKeys(syn)
    ensures forall u <- LineUpdates(syn, line) :: WritesKey(u)
  {
    hide KeyOf, Bits, BitUpdate, IsKey;
    KeyOfIsKey(syn, line);
    BitsWriteKeys(syn, KeyOf(syn, line), Bits(line));
  }

  lemma {:induction false} LinesWriteKeys(syn: Syntax, lines: seq<string>)
    requires syn.sanitizeKeys && OwnNamesAreKeys(syn)
    ensures forall u <- LinesUpdates(syn, lines) :: WritesKey(u)
  {
    if lines != [] {
      hide LineUpdates, WritesKey, OwnNamesAreKeys;
      LinesWriteKeys(syn, lines[..|lines| - 1]);
      LineWritesKeys(syn, lines[|lines| - 1]);
    }
  }

  /** The one name an update can add to a store. */
  function WrittenName(syn: Syntax, u: Update): string
  {
    if u.BadLine? || u.Fault? then syn.names.badLines else u.key
  }

  lemma ApplyAddsName(cfg: Config, st: Stores, u: Update)
    ensures var st', name := Apply(cfg, st, u), {WrittenName(cfg.syntax, u)};
      && st'.counters.Keys <= st.counters.Keys + name && st'.timers.Keys <= st.timers.Keys + name
      && st'.timerCounters.Keys <= st.timerCounters.Keys + name
      && st'.gauges.Keys <= st.gauges.Keys + name && st'.gaugesTTL.Keys <= st.gaugesTTL.Keys + name
      && st'.sets.Keys <= st.sets.Keys + name
  {
    hide Halts, Get, SamplesOf, MembersOf, Weight;
  }

  lemma OneMoreKey(names: set<string>, more: set<string>, k: string)
    requires AllKeys(names) && IsKey(k) && more <= names + {k}
    ensures AllKeys(more)
  {
    hide IsKey;
  }

  lemma ApplyKeepsKeys(cfg: Config, st: Stores, u: Update)
    requires OwnNamesAreKeys(cfg.syntax) && HasKeys(st) && WritesKey(u)
    ensures HasKeys(Apply(cfg, st, u))
  {
    hide IsKey, AllKeys, Apply;
    var st', k := Apply(cfg, st, u), WrittenName(cfg.syntax, u);
    ApplyAddsName(cfg, st, u);
    OneMoreKey(st.counters.Keys, st'.counters.Keys, k);
    OneMoreKey(st.timers.Keys, st'.timers.Keys, k);
    OneMoreKey(st.timerCounters.Keys, st'.timerCounters.Keys, k);
    OneMoreKey(st.gauges.Keys, st'.gauges.Keys, k);
    OneMoreKey(st.gaugesTTL.Keys, st'.gaugesTTL.Keys, k);
    OneMoreKey(st.sets.Keys, st'.sets.Keys, k);
  }

  lemma {:induction false} ApplyAllKeepsKeys(cfg: Config, st: Stores, us: seq<Update>)
    requires OwnNamesAreKeys(cfg.syntax) && HasKeys(st)
    requires forall i :: 0 <= i < |us| ==> WritesKey(us[i])
    ensures HasKeys(ApplyAll(cfg, st, us))
  {
    if us != [] {
      hide Apply, HasKeys, WritesKey, OwnNamesAreKeys;
      var m := |us| - 1;
      assert forall i :: 0 <= i < m ==> us[..m][i] == us[i];
      ApplyAllKeepsKeys(cfg, st, us[..m]);
      ApplyKeepsKeys(cfg, ApplyAll(cfg, st, us[..m]), us[m]);
    }
  }

  lemma PacketKeepsKeys(cfg: Config, st: Stores, msg: string)
    requires cfg.syntax.sanitizeKeys && OwnNamesAreKeys(cfg.syntax) && HasKeys(st)
    ensures HasKeys(ApplyAll(cfg, st, PacketUpdates(cfg.syntax, msg)))
  {
    hide Lines, LinesUpdates, HasKeys, IsKey, ApplyAll;
    LinesWriteKeys(cfg.syntax, Lines(msg));
    ApplyAllKeepsKeys(cfg, st, PacketUpdates(cfg.syntax, msg));
  }

  lemma FlushKeepsKeys(cfg: Config, st: Stores, now: int)
    requires OwnNamesAreKeys(cfg.syntax) && HasKeys(st)
    ensures HasKeys(Cleared(cfg, st, now)) && PublishesKeys(Publish(cfg, st, now))
  {
    hide IsKey, Sort, Summary, IsInternal;
  }

  lemma StepKeepsKeys(cfg: Config, st: Stores, e: Event)
    requires cfg.syntax.sanitizeKeys && OwnNamesAreKeys(cfg.syntax) && HasKeys(st)
    ensures HasKeys(Step(cfg, st, e))
    ensures forall s <- Published(cfg, st, e) :: PublishesKeys(s)
  {
    hide IsKey, PacketUpdates, ApplyAll, Cleared, Publish, PublishesKeys, OwnNamesAreKeys, MatchesAny;
    match e
    case Packet(msg) => PacketKeepsKeys(cfg, st, msg);
    case Flush(now) => FlushKeepsKeys(cfg, st, now);
    case _ =>
  }

  /** In every reachable state every key of every store has been sanitised, and so has every key
      that any flush of the run has published. */
  lemma {:induction false} EveryKeyIsSanitized(cfg: Config, prefix: string, events: seq<Event>)
    requires cfg.syntax.sanitizeKeys && cfg.syntax.names == NamesFor(prefix) && IsKey(prefix)
    ensures var w := Run(cfg, Start(cfg), events);
      HasKeys(w.st) && forall i :: 0 <= i < |w.snapshots| ==> PublishesKeys(w.snapshots[i])
  {
    PrefixGivesKeys(prefix);
    if events != [] {
      hide IsKey, Step, Published, HasKeys, PublishesKeys;
      var m := |events| - 1;
      EveryKeyIsSanitized(cfg, prefix, events[..m]);
      StepKeepsKeys(cfg, Run(cfg, Start(cfg), events[..m]).st, events[m]);
    }
  }
}
