/** Inside one flush interval the order of arrival does not matter to counters, rates, sets
    and timer summaries. */
module OrderTheorems {
  import opened JsStrings
  import opened Samples
  import opened TimerMetrics
  import opened Packets
  import opened Aggregator
  import opened CounterTheorems

  type Timers = map<string, seq<real>>

  /** The same timers with the same samples, in any order. */
  ghost predicate SameSamples(a: Timers, b: Timers)
  {
    && a.Keys == b.Keys
    && forall k <- a :: multiset(a[k]) == multiset(b[k])
  }

  /** Two stores that agree on everything but gauges and the order inside timer lists. */
  ghost predicate SameAggregate(a: Stores, b: Stores)
  {
    && a.counters == b.counters
    && SameSamples(a.timers, b.timers)
    && a.timerCounters == b.timerCounters
    && a.sets == b.sets
    && a.badLines == b.badLines
    && a.oldTimestamp == b.oldTimestamp
    && a.halted == b.halted
  }

  /** Updates that cannot end a run whose internal counters exist. */
  ghost predicate Calm(cfg: Config, us: seq<Update>)
  {
    forall i :: 0 <= i < |us| ==> us[i] != Fault && IsOwnBump(cfg.syntax, us[i])
  }

  // ----- each store under one more update

  lemma TimersCongruence(a: Timers, b: Timers, u: Update)
    requires SameSamples(a, b)
    ensures SameSamples(NewTimers(a, u), NewTimers(b, u))
  {
  }

  lemma TimerCountersCongruence(a: Timers, b: Timers, counts: map<string, real>, u: Update)
    requires SameSamples(a, b)
    ensures NewTimerCounters(a, counts, u) == NewTimerCounters(b, counts, u)
  {
  }

  lemma Congruence(cfg: Config, a: Stores, b: Stores, u: Update)
    requires SameAggregate(a, b)
    ensures SameAggregate(Apply(cfg, a, u), Apply(cfg, b, u))
  {
    hide SameSamples, NewTimers, NewTimerCounters, NewCounters, NewSets, NewGauges, NewTTL, Halts;
    if !a.halted && !Halts(cfg, a.counters, u) {
      TimersCongruence(a.timers, b.timers, u);
      TimerCountersCongruence(a.timers, b.timers, a.timerCounters, u);
    }
  }

  // ----- each store under two updates in either order

  lemma CountersCommute(cfg: Config, counters: map<string, real>, x: Update, y: Update)
    ensures NewCounters(cfg, NewCounters(cfg, counters, x), y)
         == NewCounters(cfg, NewCounters(cfg, counters, y), x)
  {
    AddsToOne(cfg, counters, x);
    AddsToOne(cfg, counters, y);
    AddsToOne(cfg, NewCounters(cfg, counters, x), y);
    AddsToOne(cfg, NewCounters(cfg, counters, y), x);
    hide NewCounters, AddTo;
    if IsCount(x) && IsCount(y) {
      AddsCommute(counters, Counted(cfg, x), Amount(x), Counted(cfg, y), Amount(y));
    }
  }

  predicate IsCount(u: Update) { u.Bump? || u.BadLine? || u.Count? }

  function Counted(cfg: Config, u: Update): string
  {
    if u.BadLine? || u.Fault? then cfg.syntax.names.badLines else u.key
  }

  function Amount(u: Update): real
  {
    if u.Count? then u.amount else 1.0
  }

  function AddTo(counters: map<string, real>, k: string, amount: real): map<string, real>
  {
    counters[k := Get(counters, k) + amount]
  }

  lemma AddsToOne(cfg: Config, counters: map<string, real>, u: Update)
    ensures NewCounters(cfg, counters, u)
         == if IsCount(u) then AddTo(counters, Counted(cfg, u), Amount(u)) else counters
  {
  }

  lemma AddsCommute(counters: map<string, real>, k: string, a: real, l: string, b: real)
    ensures AddTo(AddTo(counters, k, a), l, b) == AddTo(AddTo(counters, l, b), k, a)
  {
  }

  lemma TimersCommute(timers: Timers, x: Update, y: Update)
    ensures SameSamples(NewTimers(NewTimers(timers, x), y), NewTimers(NewTimers(timers, y), x))
  {
    if x.Time? && y.Time? {
      TimesCommute(timers, x, y);
    }
  }

  lemma TimesCommute(timers: Timers, x: Update, y: Update)
    requires x.Time? && y.Time?
    ensures SameSamples(NewTimers(NewTimers(timers, x), y), NewTimers(NewTimers(timers, y), x))
  {
    hide NewTimers, SamplesOf;
    TwoTimes(timers, x, y);
    TwoTimes(timers, y, x);
    if x.key == y.key {
      SwapLast(SamplesOf(timers, x.key), x.value, y.value);
    }
  }

  lemma SwapLast(s: seq<real>, a: real, b: real)
    ensures multiset(s + [a] + [b]) == multiset(s + [b] + [a])
  {
  }

  /** Both samples are appended, in arrival order when they belong to one timer. */
  lemma TwoTimes(timers: Timers, x: Update, y: Update)
    requires x.Time? && y.Time?
    ensures NewTimers(NewTimers(timers, x), y)
         == if x.key == y.key then timers[x.key := SamplesOf(timers, x.key) + [x.value] + [y.value]]
            else timers[x.key := SamplesOf(timers, x.key) + [x.value]]
                       [y.key := SamplesOf(timers, y.key) + [y.value]]
  {
  }

  lemma TimerCountersCommute(timers: Timers, counts: map<string, real>, x: Update, y: Update)
    ensures NewTimerCounters(NewTimers(timers, x), NewTimerCounters(timers, counts, x), y)
         == NewTimerCounters(NewTimers(timers, y), NewTimerCounters(timers, counts, y), x)
  {
  }

  lemma SetsCommute(sets: map<string, set<string>>, x: Update, y: Update)
    ensures NewSets(NewSets(sets, x), y) == NewSets(NewSets(sets, y), x)
  {
    if x.Member? && y.Member? && x.key == y.key {
      var s := MembersOf(sets, x.key);
      assert s + {x.element} + {y.element} == s + {y.element} + {x.element};
    }
  }

  lemma Commute(cfg: Config, st: Stores, x: Update, y: Update)
    requires HasInternal(cfg, st) && !st.halted && Calm(cfg, [x]) && Calm(cfg, [y])
    ensures SameAggregate(Apply(cfg, Apply(cfg, st, x), y), Apply(cfg, Apply(cfg, st, y), x))
  {
    hide SameSamples, NewTimers, NewTimerCounters, NewSets, NewGauges, NewTTL;
    assert [x][0] == x && [y][0] == y;
    CountersCommute(cfg, st.counters, x, y);
    TimersCommute(st.timers, x, y);
    TimerCountersCommute(st.timers, st.timerCounters, x, y);
    SetsCommute(st.sets, x, y);
  }

  // ----- whole update lists

  lemma SameAggregateTransitive(a: Stores, b: Stores, c: Stores)
    requires SameAggregate(a, b) && SameAggregate(b, c)
    ensures SameAggregate(a, c)
  {
  }

  lemma SameAggregateReflexive(a: Stores)
    ensures SameAggregate(a, a)
  {
  }

  lemma CalmStays(cfg: Config, st: Stores, us: seq<Update>)
    requires HasInternal(cfg, st) && !st.halted && Calm(cfg, us)
    ensures HasInternal(cfg, ApplyAll(cfg, st, us)) && !ApplyAll(cfg, st, us).halted
  {
    forall u <- us
      ensures u != Fault && IsOwnBump(cfg.syntax, u)
    {
      var i :| 0 <= i < |us| && us[i] == u;
    }
    ApplyAllCounts(cfg, st, us, "");
  }

  /** An update can be postponed past any others. */
  lemma {:induction false} Postpone(cfg: Config, st: Stores, x: Update, us: seq<Update>)
    requires HasInternal(cfg, st) && !st.halted && Calm(cfg, [x]) && Calm(cfg, us)
    ensures SameAggregate(ApplyAll(cfg, Apply(cfg, st, x), us), Apply(cfg, ApplyAll(cfg, st, us), x))
  {
    if us == [] {
      SameAggregateReflexive(Apply(cfg, st, x));
    } else {
      var m := |us| - 1;
      var init, y := us[..m], us[m];
      CalmParts(cfg, us, m);
      Postpone(cfg, st, x, init);
      var mid := ApplyAll(cfg, st, init);
      CalmStays(cfg, st, init);
      PostponeOnce(cfg, ApplyAll(cfg, Apply(cfg, st, x), init), mid, x, y);
    }
  }

  lemma PostponeOnce(cfg: Config, early: Stores, mid: Stores, x: Update, y: Update)
    requires HasInternal(cfg, mid) && !mid.halted && Calm(cfg, [x]) && Calm(cfg, [y])
    requires SameAggregate(early, Apply(cfg, mid, x))
    ensures SameAggregate(Apply(cfg, early, y), Apply(cfg, Apply(cfg, mid, y), x))
  {
    hide SameAggregate, Apply;
    Congruence(cfg, early, Apply(cfg, mid, x), y);
    Commute(cfg, mid, x, y);
    SameAggregateTransitive(Apply(cfg, early, y), Apply(cfg, Apply(cfg, mid, x), y),
                            Apply(cfg, Apply(cfg, mid, y), x));
  }

  lemma CalmParts(cfg: Config, us: seq<Update>, i: nat)
    requires Calm(cfg, us) && i < |us|
    ensures Calm(cfg, us[..i]) && Calm(cfg, [us[i]]) && Calm(cfg, us[i + 1..])
    ensures Calm(cfg, us[..i] + us[i + 1..])
  {
  }

  lemma RemoveOne(us: seq<Update>, i: nat)
    requires i < |us|
    ensures multiset(us[..i] + us[i + 1..]) == multiset(us) - multiset{us[i]}
  {
    assert us == us[..i] + [us[i]] + us[i + 1..];
  }

  /** Moving the update at i to the end changes nothing but gauges and list order. */
  lemma MoveToEnd(cfg: Config, st: Stores, us: seq<Update>, i: nat)
    requires HasInternal(cfg, st) && !st.halted && Calm(cfg, us) && i < |us|
    ensures SameAggregate(ApplyAll(cfg, st, us),
                          Apply(cfg, ApplyAll(cfg, st, us[..i] + us[i + 1..]), us[i]))
  {
    var p, x, q := us[..i], us[i], us[i + 1..];
    assert us == p + [x] + q;
    CalmParts(cfg, us, i);
    hide SameAggregate, Apply, ApplyAll, Calm, HasInternal;
    CalmStays(cfg, st, p);
    Postpone(cfg, ApplyAll(cfg, st, p), x, q);
    ApplyAllConcat(cfg, st, p, q);
    ApplyAllConcat(cfg, st, p + [x], q);
    ApplyAllSnoc(cfg, st, p, x);
  }

  lemma ApplyAllSnoc(cfg: Config, st: Stores, us: seq<Update>, u: Update)
    ensures ApplyAll(cfg, st, us + [u]) == Apply(cfg, ApplyAll(cfg, st, us), u)
  {
    hide Apply;
    assert (us + [u])[..|us|] == us;
  }

  /** Any two orders of the same updates give the same counters, timer samples, timer
      counters and sets. */
  lemma {:induction false} OrderDoesNotMatter(cfg: Config, st: Stores, us: seq<Update>, vs: seq<Update>)
    requires HasInternal(cfg, st) && !st.halted && Calm(cfg, us)
    requires multiset(us) == multiset(vs)
    ensures SameAggregate(ApplyAll(cfg, st, us), ApplyAll(cfg, st, vs))
    decreases |us|
  {
    hide SameAggregate, Apply;
    assert |multiset(us)| == |us| && |multiset(vs)| == |vs|;
    SameAggregateReflexive(st);
    if us != [] {
      var m := |us| - 1;
      var x := us[m];
      assert x in multiset(vs);
      var i :| 0 <= i < |vs| && vs[i] == x;
      CalmPermuted(cfg, us, vs);
      CalmParts(cfg, us, m);
      RemoveOne(us, m);
      assert us[..m] + us[m + 1..] == us[..m];
      RemoveOne(vs, i);
      var rest := vs[..i] + vs[i + 1..];
      OrderDoesNotMatter(cfg, st, us[..m], rest);
      Congruence(cfg, ApplyAll(cfg, st, us[..m]), ApplyAll(cfg, st, rest), x);
      MoveToEnd(cfg, st, vs, i);
      SameAggregateSymmetric(ApplyAll(cfg, st, vs), Apply(cfg, ApplyAll(cfg, st, rest), x));
      SameAggregateTransitive(ApplyAll(cfg, st, us), Apply(cfg, ApplyAll(cfg, st, rest), x),
                              ApplyAll(cfg, st, vs));
    }
  }

  lemma CalmPermuted(cfg: Config, us: seq<Update>, vs: seq<Update>)
    requires Calm(cfg, us) && multiset(us) == multiset(vs)
    ensures Calm(cfg, vs)
  {
    forall j | 0 <= j < |vs|
      ensures vs[j] != Fault && IsOwnBump(cfg.syntax, vs[j])
    {
      assert vs[j] in multiset(us);
      var i :| 0 <= i < |us| && us[i] == vs[j];
    }
  }

  lemma SameAggregateSymmetric(a: Stores, b: Stores)
    requires SameAggregate(a, b)
    ensures SameAggregate(b, a)
  {
  }

  // ----- packets

  /** The updates of the packets received in one interval. */
  function IntervalUpdates(syn: Syntax, packets: seq<string>): seq<Update>
  {
    if packets == [] then []
    else IntervalUpdates(syn, packets[..|packets| - 1]) + PacketUpdates(syn, packets[|packets| - 1])
  }

  function IntervalLines(packets: seq<string>): seq<string>
  {
    if packets == [] then []
    else IntervalLines(packets[..|packets| - 1]) + Lines(packets[|packets| - 1])
  }

  /** The updates of a list of lines are those of one line and those of the others. */
  lemma TakeLine(syn: Syntax, lines: seq<string>, x: string) returns (rest: seq<string>)
    requires x in multiset(lines)
    ensures |rest| < |lines| && multiset(rest) == multiset(lines) - multiset{x}
    ensures multiset(LinesUpdates(syn, lines))
         == multiset(LinesUpdates(syn, rest)) + multiset(LineUpdates(syn, x))
  {
    hide LineUpdates;
    var i :| 0 <= i < |lines| && lines[i] == x;
    var p, q := lines[..i], lines[i + 1..];
    rest := p + q;
    assert lines == p + [x] + q;
    LinesUpdatesConcat(syn, p, q);
    LinesUpdatesConcat(syn, p + [x], q);
    assert (p + [x])[..i] == p;
  }

  lemma {:induction false} LinesPermuted(syn: Syntax, a: seq<string>, b: seq<string>)
    requires multiset(a) == multiset(b)
    ensures multiset(LinesUpdates(syn, a)) == multiset(LinesUpdates(syn, b))
    decreases |a|
  {
    assert |multiset(a)| == |a| && |multiset(b)| == |b|;
    if a != [] {
      hide LineUpdates, LinesUpdates;
      assert a[0] in multiset(a);
      var a' := TakeLine(syn, a, a[0]);
      var b' := TakeLine(syn, b, a[0]);
      LinesPermuted(syn, a', b');
    }
  }

  lemma SortedAlike(a: Timers, b: Timers)
    requires SameSamples(a, b)
    ensures SortAll(a) == SortAll(b)
  {
    hide Sort;
    forall k | k in a
      ensures Sort(a[k]) == Sort(b[k])
    {
      SortIsCanonical(a[k], b[k]);
    }
  }

  lemma SummarisedAlike(a: Timers, b: Timers, counts: map<string, real>, cfg: Settings)
    requires SameSamples(a, b)
    ensures Summaries(a, counts, cfg) == Summaries(b, counts, cfg)
  {
    hide Sort, Summary;
    forall k | k in a
      ensures Sort(a[k]) == Sort(b[k])
    {
      SortIsCanonical(a[k], b[k]);
    }
  }
}
