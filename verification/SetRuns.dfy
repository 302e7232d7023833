/** Sets over whole runs. */
module SetRuns {
  import opened Packets
  import opened Aggregator

  /** The elements the updates insert into set k. */
  function Inserted(us: seq<Update>, k: string): set<string>
  {
    if us == [] then {}
    else
      var u := us[|us| - 1];
      Inserted(us[..|us| - 1], k) + if u.Member? && u.key == k then {u.element} else {}
  }

  /** One event adds the elements it inserts; a flush starts afresh. */
  function DistinctAfter(cfg: Config, before: set<string>, e: Event, k: string): set<string>
  {
    match e
    case Packet(msg) => before + Inserted(PacketUpdates(cfg.syntax, msg), k)
    case Flush(_) => {}
    case _ => before
  }

  /** The distinct elements received for set k since the last flush. */
  function Distinct(cfg: Config, events: seq<Event>, k: string): set<string>
  {
    if events == [] then {}
    else
      var m := |events| - 1;
      DistinctAfter(cfg, Distinct(cfg, events[..m], k), events[m], k)
  }

  lemma {:induction false} ApplyAllInserts(cfg: Config, st: Stores, us: seq<Update>, k: string)
    requires !ApplyAll(cfg, st, us).halted
    ensures MembersOf(ApplyAll(cfg, st, us).sets, k) == MembersOf(st.sets, k) + Inserted(us, k)
    ensures k in ApplyAll(cfg, st, us).sets <==> k in st.sets || Inserted(us, k) != {}
  {
    if us != [] {
      hide Halts, NewCounters, NewTimers, NewTimerCounters, NewGauges, NewTTL;
      ApplyAllInserts(cfg, st, us[..|us| - 1], k);
    }
  }

  /** Set k holds exactly these elements; with `deleteSets` it exists exactly when there are any. */
  ghost predicate Holds(cfg: Config, st: Stores, elements: set<string>, k: string)
  {
    && MembersOf(st.sets, k) == elements
    && (cfg.deleteSets ==> (k in st.sets <==> elements != {}))
  }

  lemma StepHolds(cfg: Config, st: Stores, e: Event, before: set<string>, k: string)
    requires Holds(cfg, st, before, k) && !Step(cfg, st, e).halted
    ensures !st.halted && Holds(cfg, Step(cfg, st, e), DistinctAfter(cfg, before, e, k), k)
  {
    hide PacketUpdates, Matches, MatchesAny, ClearCounters, ClearTimers, ClearTimerCounters, WithLag;
    if e.Packet? && !st.halted {
      ApplyAllInserts(cfg, st, PacketUpdates(cfg.syntax, e.msg), k);
    }
  }

  /** Between any two steps of any run a set holds exactly the distinct elements received since
      the last flush; with `deleteSets` it exists exactly when there are any. */
  lemma {:induction false} SetsAreDistinctElements(cfg: Config, events: seq<Event>, k: string)
    requires !Run(cfg, Start(cfg), events).st.halted
    ensures var st := Run(cfg, Start(cfg), events).st;
      && MembersOf(st.sets, k) == Distinct(cfg, events, k)
      && (cfg.deleteSets ==> (k in st.sets <==> Distinct(cfg, events, k) != {}))
  {
    if events != [] {
      hide Step, DistinctAfter;
      var m := |events| - 1;
      var st := Run(cfg, Start(cfg), events[..m]).st;
      StepFromHalted(cfg, st, events[m]);
      SetsAreDistinctElements(cfg, events[..m], k);
      StepHolds(cfg, st, events[m], Distinct(cfg, events[..m], k), k);
    }
  }

  // ----- no element is lost

  /** All elements of set k that some snapshots show. */
  function PublishedElements(snapshots: seq<Snapshot>, k: string): set<string>
  {
    if snapshots == [] then {}
    else
      var m := |snapshots| - 1;
      PublishedElements(snapshots[..m], k) + MembersOf(snapshots[m].sets, k)
  }

  function AcceptedElements(syn: Syntax, events: seq<Event>, k: string): set<string>
  {
    if events == [] then {}
    else
      var m := |events| - 1;
      AcceptedElements(syn, events[..m], k)
      + if events[m].Packet? then Inserted(PacketUpdates(syn, events[m].msg), k) else {}
  }

  lemma StepKeepsElements(cfg: Config, w: World, e: Event, k: string)
    requires !w.st.halted && !Advance(cfg, w, e).st.halted
    ensures var w' := Advance(cfg, w, e);
      PublishedElements(w'.snapshots, k) + MembersOf(w'.st.sets, k)
        == PublishedElements(w.snapshots, k) + MembersOf(w.st.sets, k)
           + if e.Packet? then Inserted(PacketUpdates(cfg.syntax, e.msg), k) else {}
  {
    hide PacketUpdates, ApplyAll, Inserted, MatchesAny, ClearCounters, ClearTimers, ClearTimerCounters, WithLag,
         Rates, SortAll, Summaries, AgeGauges, Expired;
    assert w.snapshots + [] == w.snapshots;
    if e.Packet? {
      ApplyAllInserts(cfg, w.st, PacketUpdates(cfg.syntax, e.msg), k);
    } else if e.Flush? {
      assert (w.snapshots + [Publish(cfg, w.st, e.now)])[..|w.snapshots|] == w.snapshots;
    }
  }

  /** Over every run that has not ended early, the elements of set k in all snapshots and the
      stored ones are together exactly the accepted ones. */
  lemma {:induction false} ElementsAreConserved(cfg: Config, events: seq<Event>, k: string)
    requires !Run(cfg, Start(cfg), events).st.halted
    ensures var w := Run(cfg, Start(cfg), events);
      PublishedElements(w.snapshots, k) + MembersOf(w.st.sets, k) == AcceptedElements(cfg.syntax, events, k)
  {
    if events != [] {
      hide Step, Published, MembersOf, PublishedElements;
      var m := |events| - 1;
      var w := Run(cfg, Start(cfg), events[..m]);
      StepFromHalted(cfg, w.st, events[m]);
      ElementsAreConserved(cfg, events[..m], k);
      StepKeepsElements(cfg, w, events[m], k);
    }
  }
}
