/** The health broadcast between the proxy's master and its workers as message passing over
    FIFO channels, for a fixed number of online workers. */
module ClusterHealth {

  datatype Health = Up | Down

  /** Worker w holds `status[w]`; `toMaster[w]` and `toWorker[w]` are its two channels, oldest
      message first. `last` is the message the master relayed last, or the initial status. */
  datatype Cluster = Cluster(
    status: seq<Health>,
    toMaster: seq<seq<Health>>,
    toWorker: seq<seq<Health>>,
    last: Health)

  ghost predicate WellFormed(c: Cluster)
  {
    |c.status| == |c.toMaster| == |c.toWorker|
  }

  function Initial(n: nat, health: Health): Cluster
  {
    Cluster(seq(n, _ => health), seq(n, _ => []), seq(n, _ => []), health)
  }

  /** One step: a `health up/down` command at a worker, the master relaying that worker's next
      message to all workers, or a worker taking its next message. A step whose channel is
      empty does nothing. */
  datatype Action = Command(worker: nat, health: Health) | Relay(worker: nat) | Deliver(worker: nat)

  function Broadcast(channels: seq<seq<Health>>, msg: Health): seq<seq<Health>>
  {
    seq(|channels|, i requires 0 <= i < |channels| => channels[i] + [msg])
  }

  function Step(c: Cluster, a: Action): Cluster
    requires WellFormed(c)
  {
    var w := a.worker;
    if w >= |c.status| then c
    else
      match a
      case Command(_, health) =>
        c.(status := c.status[w := health], toMaster := c.toMaster[w := c.toMaster[w] + [health]])
      case Relay(_) =>
        if c.toMaster[w] == [] then c
        else
          c.(toMaster := c.toMaster[w := c.toMaster[w][1..]],
             toWorker := Broadcast(c.toWorker, c.toMaster[w][0]),
             last := c.toMaster[w][0])
      case Deliver(_) =>
        if c.toWorker[w] == [] then c
        else
          c.(status := c.status[w := c.toWorker[w][0]], toWorker := c.toWorker[w := c.toWorker[w][1..]])
  }

  lemma StepWellFormed(c: Cluster, a: Action)
    requires WellFormed(c)
    ensures WellFormed(Step(c, a)) && |Step(c, a).status| == |c.status|
  {
  }

  function Run(n: nat, health: Health, actions: seq<Action>): (c: Cluster)
    ensures WellFormed(c) && |c.status| == n
  {
    if actions == [] then Initial(n, health)
    else
      var before := Run(n, health, actions[..|actions| - 1]);
      StepWellFormed(before, actions[|actions| - 1]);
      Step(before, actions[|actions| - 1])
  }

  /** The last message relayed in a run, or the initial status: what the run's own history
      says, independent of the `last` field. */
  function LastRelayed(n: nat, health: Health, actions: seq<Action>): Health
  {
    if actions == [] then health
    else
      var before := Run(n, health, actions[..|actions| - 1]);
      var a := actions[|actions| - 1];
      if a.Relay? && a.worker < n && before.toMaster[a.worker] != [] then before.toMaster[a.worker][0]
      else LastRelayed(n, health, actions[..|actions| - 1])
  }

  /** The status worker w will have once its incoming channel is empty. */
  function Settled(c: Cluster, w: nat): Health
    requires WellFormed(c) && w < |c.status|
  {
    var queue := c.toWorker[w];
    if queue == [] then c.status[w] else queue[|queue| - 1]
  }

  /** A worker with no unrelayed command of its own is on its way to the last relayed status. */
  ghost predicate Converging(c: Cluster)
  {
    && WellFormed(c)
    && forall w :: 0 <= w < |c.status| ==> c.toMaster[w] == [] ==> Settled(c, w) == c.last
  }

  lemma StepConverges(c: Cluster, a: Action)
    requires Converging(c)
    ensures Converging(Step(c, a))
  {
    var c' := Step(c, a);
    forall w | 0 <= w < |c'.status| && c'.toMaster[w] == []
      ensures Settled(c', w) == c'.last
    {
      if a.Relay? && a.worker < |c.status| && c.toMaster[a.worker] != [] {
        assert c'.toWorker[w] == c.toWorker[w] + [c'.last];
      } else {
        assert Settled(c, w) == c.last;
      }
    }
  }

  lemma {:induction false} AlwaysConverging(n: nat, health: Health, actions: seq<Action>)
    ensures Converging(Run(n, health, actions))
    ensures Run(n, health, actions).last == LastRelayed(n, health, actions)
  {
    if actions != [] {
      var m := |actions| - 1;
      AlwaysConverging(n, health, actions[..m]);
      StepConverges(Run(n, health, actions[..m]), actions[m]);
    }
  }

  ghost predicate Quiet(c: Cluster)
  {
    && WellFormed(c)
    && forall w :: 0 <= w < |c.status| ==> c.toMaster[w] == [] && c.toWorker[w] == []
  }

  /** Under any interleaving, whenever no message is in flight all workers hold the same
      status: the last one relayed, or the initial one. */
  lemma HealthConverges(n: nat, health: Health, actions: seq<Action>)
    requires Quiet(Run(n, health, actions))
    ensures forall w :: 0 <= w < n ==>
              Run(n, health, actions).status[w] == LastRelayed(n, health, actions)
  {
    var c := Run(n, health, actions);
    AlwaysConverging(n, health, actions);
    forall w | 0 <= w < n
      ensures c.status[w] == c.last
    {
      assert c.toMaster[w] == [] && c.toWorker[w] == [];
      assert Settled(c, w) == c.last;
    }
  }

  // ----- what a run's history says of channels and statuses

  /** The commands given at worker w, in order. */
  function Issued(n: nat, actions: seq<Action>, w: nat): seq<Health>
  {
    if actions == [] then []
    else
      var a := actions[|actions| - 1];
      Issued(n, actions[..|actions| - 1], w)
      + if a.Command? && a.worker == w && w < n then [a.health] else []
  }

  /** The message an action moves out of a channel: the oldest one. */
  function Moved(c: Cluster, a: Action): seq<Health>
    requires WellFormed(c)
  {
    var channels := if a.Relay? then c.toMaster else if a.Deliver? then c.toWorker else [];
    if a.worker < |channels| && channels[a.worker] != [] then [channels[a.worker][0]] else []
  }

  /** The messages relayed in a run, those of worker w or all of them. */
  function Relayed(n: nat, health: Health, actions: seq<Action>, from: int): seq<Health>
  {
    if actions == [] then []
    else
      var m := |actions| - 1;
      Relayed(n, health, actions[..m], from)
      + if actions[m].Relay? && (from == actions[m].worker || from < 0)
        then Moved(Run(n, health, actions[..m]), actions[m]) else []
  }

  function Delivered(n: nat, health: Health, actions: seq<Action>, w: nat): seq<Health>
  {
    if actions == [] then []
    else
      var m := |actions| - 1;
      Delivered(n, health, actions[..m], w)
      + if actions[m].Deliver? && actions[m].worker == w
        then Moved(Run(n, health, actions[..m]), actions[m]) else []
  }

  /** The latest command at worker w or message delivered to it, or the initial status. */
  function Latest(n: nat, health: Health, actions: seq<Action>, w: nat): Health
  {
    if actions == [] then health
    else
      var m := |actions| - 1;
      var a := actions[m];
      var moved := Moved(Run(n, health, actions[..m]), a);
      if a.worker == w && a.Command? then a.health
      else if a.worker == w && a.Deliver? && moved != [] then moved[0]
      else Latest(n, health, actions[..m], w)
  }

  /** One action: a command sets the worker's own status and queues a message; a relay and a delivery
      take the oldest message of their channel; a relayed message goes to every worker. */
  lemma StepMoves(c: Cluster, a: Action, w: nat)
    requires WellFormed(c) && w < |c.status|
    ensures var c', own := Step(c, a), a.worker == w;
      && |c'.status| == |c.status| && WellFormed(c')
      && c'.status[w] == (if own && a.Command? then a.health
                          else if own && a.Deliver? && Moved(c, a) != [] then Moved(c, a)[0] else c.status[w])
      && c.toMaster[w] + (if own && a.Command? then [a.health] else [])
           == (if own && a.Relay? then Moved(c, a) else []) + c'.toMaster[w]
      && c.toWorker[w] + (if a.Relay? then Moved(c, a) else [])
           == (if own && a.Deliver? then Moved(c, a) else []) + c'.toWorker[w]
  {
  }

  lemma Shift(done: seq<Health>, queue: seq<Health>, more: seq<Health>, moved: seq<Health>, queue': seq<Health>)
    requires queue + more == moved + queue'
    ensures (done + queue) + more == (done + moved) + queue'
  {
    assert (done + queue) + more == done + (queue + more);
    assert (done + moved) + queue' == done + (moved + queue');
  }

  /** Over every run: the commands of a worker are those relayed for it and those still queued, in
      order; all relayed messages are those delivered to a worker and those still on the way to it, in
      order; and a worker's status is its latest command or delivery. */
  lemma {:induction false} ChannelsAreFifo(n: nat, health: Health, actions: seq<Action>, w: nat)
    requires w < n
    ensures var c := Run(n, health, actions);
      && Issued(n, actions, w) == Relayed(n, health, actions, w) + c.toMaster[w]
      && Relayed(n, health, actions, -1) == Delivered(n, health, actions, w) + c.toWorker[w]
      && c.status[w] == Latest(n, health, actions, w)
  {
    if actions != [] {
      hide Moved, Step;
      var m := |actions| - 1;
      var c, a := Run(n, health, actions[..m]), actions[m];
      ChannelsAreFifo(n, health, actions[..m], w);
      StepWellFormed(c, a);
      StepMoves(c, a, w);
      var c', own := Step(c, a), a.worker == w;
      Shift(Relayed(n, health, actions[..m], w), c.toMaster[w], if own && a.Command? then [a.health] else [],
            if own && a.Relay? then Moved(c, a) else [], c'.toMaster[w]);
      Shift(Delivered(n, health, actions[..m], w), c.toWorker[w], if a.Relay? then Moved(c, a) else [],
            if own && a.Deliver? then Moved(c, a) else [], c'.toWorker[w]);
    }
  }

  // ----- the channels drain

  function Pending(channels: seq<seq<Health>>): nat
  {
    if channels == [] then 0
    else Pending(channels[..|channels| - 1]) + |channels[|channels| - 1]|
  }

  /** The relays and deliveries still to come: a message to the master costs its relay and one
      delivery at each worker. */
  function Work(c: Cluster): nat
    requires WellFormed(c)
  {
    Pending(c.toMaster) * (|c.status| + 1) + Pending(c.toWorker)
  }

  lemma {:induction false} PendingUpdate(channels: seq<seq<Health>>, w: nat, queue: seq<Health>)
    requires w < |channels|
    ensures Pending(channels[w := queue]) == Pending(channels) - |channels[w]| + |queue|
  {
    var m := |channels| - 1;
    if w == m {
      assert channels[w := queue][..m] == channels[..m];
    } else {
      PendingUpdate(channels[..m], w, queue);
      assert channels[w := queue][..m] == channels[..m][w := queue];
    }
  }

  lemma {:induction false} PendingBroadcast(channels: seq<seq<Health>>, msg: Health)
    ensures Pending(Broadcast(channels, msg)) == Pending(channels) + |channels|
  {
    if channels != [] {
      var m := |channels| - 1;
      PendingBroadcast(channels[..m], msg);
      assert Broadcast(channels, msg)[..m] == Broadcast(channels[..m], msg);
    }
  }

  /** Every relay or delivery that has a message to work on reduces the work by exactly one. */
  lemma WorkDecreases(c: Cluster, a: Action)
    requires WellFormed(c) && !a.Command? && a.worker < |c.status|
    requires if a.Relay? then c.toMaster[a.worker] != [] else c.toWorker[a.worker] != []
    ensures Work(Step(c, a)) == Work(c) - 1
  {
    if a.Relay? {
      RelayWork(c, a.worker);
    } else {
      DeliverWork(c, a.worker);
    }
  }

  lemma RelayWork(c: Cluster, w: nat)
    requires WellFormed(c) && w < |c.status| && c.toMaster[w] != []
    ensures Work(Step(c, Relay(w))) == Work(c) - 1
  {
    hide Pending, Broadcast;
    PendingUpdate(c.toMaster, w, c.toMaster[w][1..]);
    PendingBroadcast(c.toWorker, c.toMaster[w][0]);
    OneLess(Pending(c.toMaster), |c.status| + 1);
  }

  lemma DeliverWork(c: Cluster, w: nat)
    requires WellFormed(c) && w < |c.status| && c.toWorker[w] != []
    ensures Work(Step(c, Deliver(w))) == Work(c) - 1
  {
    PendingUpdate(c.toWorker, w, c.toWorker[w][1..]);
  }

  lemma OneLess(p: int, n: int)
    ensures (p - 1) * n == p * n - n
  {
  }

  lemma {:induction false} NothingPending(channels: seq<seq<Health>>)
    ensures Pending(channels) == 0 <==> forall w :: 0 <= w < |channels| ==> channels[w] == []
  {
    if channels != [] {
      NothingPending(channels[..|channels| - 1]);
    }
  }

  /** No work is left exactly when no message is in flight. */
  lemma QuietIffNoWork(c: Cluster)
    requires WellFormed(c)
    ensures Work(c) == 0 <==> Quiet(c)
  {
    NothingPending(c.toMaster);
    NothingPending(c.toWorker);
    var p, n := Pending(c.toMaster), |c.status| + 1;
    if p > 0 {
      assert p * n >= n;
    }
  }
}
