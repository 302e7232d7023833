/** Ring membership of the proxy's nodes under arbitrary sequences of health verdicts. */
module NodeRing {

  /** A verdict of a health check about one node. */
  datatype Verdict = Verdict(node: string, healthy: bool)

  datatype RingChange = Added(node: string) | Removed(node: string)

  datatype State = State(status: map<string, nat>, ring: set<string>, changes: seq<RingChange>)

  function Initial(nodes: set<string>): State
  {
    State(map[], nodes, [])
  }

  function MarkHealthy(s: State, node: string): State
  {
    var comeback := node in s.status && s.status[node] > 0;
    State(s.status[node := 0],
          if comeback then s.ring + {node} else s.ring,
          if comeback then s.changes + [Added(node)] else s.changes)
  }

  function MarkUnhealthy(s: State, node: string): State
  {
    var failures := if node in s.status then s.status[node] + 1 else 1;
    State(s.status[node := failures],
          if failures < 2 then s.ring - {node} else s.ring,
          if failures < 2 then s.changes + [Removed(node)] else s.changes)
  }

  function Step(s: State, v: Verdict): State
  {
    if v.healthy then MarkHealthy(s, v.node) else MarkUnhealthy(s, v.node)
  }

  function Run(nodes: set<string>, verdicts: seq<Verdict>): State
  {
    if verdicts == [] then Initial(nodes)
    else Step(Run(nodes, verdicts[..|verdicts| - 1]), verdicts[|verdicts| - 1])
  }

  class Proxy {
    var nodeStatus: map<string, nat>
    var ring: set<string>
    ghost var changes: seq<RingChange>

    ghost function View(): State
      reads this
    {
      State(nodeStatus, ring, changes)
    }

    constructor (nodes: set<string>)
      ensures View() == Initial(nodes)
    {
      nodeStatus, ring, changes := map[], nodes, [];
    }

    method MarkNodeAsHealthy(node: string)
      modifies this
      ensures View() == MarkHealthy(old(View()), node)
    {
      if node in nodeStatus {
        if nodeStatus[node] > 0 {
          ring := ring + {node};
          changes := changes + [Added(node)];
        }
      }
      nodeStatus := nodeStatus[node := 0];
    }

    method MarkNodeAsUnhealthy(node: string)
      modifies this
      ensures View() == MarkUnhealthy(old(View()), node)
    {
      if node !in nodeStatus {
        nodeStatus := nodeStatus[node := 1];
      } else {
        nodeStatus := nodeStatus[node := nodeStatus[node] + 1];
      }
      if nodeStatus[node] < 2 {
        ring := ring - {node};
        changes := changes + [Removed(node)];
      }
    }
  }

  // ----- what the verdicts about one node say

  /** The number of unhealthy verdicts about a node since its last healthy one. */
  function FailuresInARow(verdicts: seq<Verdict>, node: string): nat
  {
    if verdicts == [] then 0
    else
      var last := verdicts[|verdicts| - 1];
      var before := FailuresInARow(verdicts[..|verdicts| - 1], node);
      if last.node != node then before else if last.healthy then 0 else before + 1
  }

  predicate Judged(verdicts: seq<Verdict>, node: string)
  {
    exists i :: 0 <= i < |verdicts| && verdicts[i].node == node
  }

  /** The ring changes that concern one node. */
  function ChangesOf(changes: seq<RingChange>, node: string): seq<RingChange>
  {
    if changes == [] then []
    else
      var last := changes[|changes| - 1];
      ChangesOf(changes[..|changes| - 1], node) + if last.node == node then [last] else []
  }

  /** Removals and additions take turns, starting with a removal. */
  ghost predicate Alternate(changes: seq<RingChange>)
  {
    forall i :: 0 <= i < |changes| ==> (changes[i].Removed? <==> i % 2 == 0)
  }

  /** A node's status and membership after some verdicts. */
  ghost predicate Agrees(s: State, node: string, judged: bool, failures: nat)
  {
    && (node in s.status <==> judged)
    && (judged ==> s.status[node] == failures)
    && (node in s.ring <==> failures == 0)
    && Alternate(ChangesOf(s.changes, node))
    && (|ChangesOf(s.changes, node)| % 2 == 0 <==> failures == 0)
  }

  lemma JudgedStep(verdicts: seq<Verdict>, node: string)
    requires verdicts != []
    ensures Judged(verdicts, node) <==>
              Judged(verdicts[..|verdicts| - 1], node) || verdicts[|verdicts| - 1].node == node
  {
    var init := verdicts[..|verdicts| - 1];
    if Judged(init, node) {
      var i :| 0 <= i < |init| && init[i].node == node;
      assert verdicts[i].node == node;
    }
    if Judged(verdicts, node) && verdicts[|verdicts| - 1].node != node {
      var i :| 0 <= i < |verdicts| && verdicts[i].node == node;
      assert init[i].node == node;
    }
  }

  lemma ChangesStep(changes: seq<RingChange>, c: RingChange, node: string)
    ensures ChangesOf(changes + [c], node) == ChangesOf(changes, node) + if c.node == node then [c] else []
  {
    assert (changes + [c])[..|changes|] == changes;
  }

  lemma StepAgrees(s: State, v: Verdict, node: string, judged: bool, failures: nat)
    requires Agrees(s, node, judged, failures) && (!judged ==> failures == 0)
    ensures Agrees(Step(s, v), node, judged || v.node == node,
                   if v.node != node then failures else if v.healthy then 0 else failures + 1)
  {
    hide ChangesOf;
    ChangesStep(s.changes, Added(v.node), node);
    ChangesStep(s.changes, Removed(v.node), node);
  }

  /** For every sequence of verdicts a configured node is in the ring exactly when its status
      is undefined or 0; the status counts its failures since it was last healthy; and its
      removals and additions strictly alternate, starting with a removal. */
  lemma {:induction false} RingMatchesStatus(nodes: set<string>, verdicts: seq<Verdict>, node: string)
    requires node in nodes
    ensures var s := Run(nodes, verdicts);
      && Agrees(s, node, Judged(verdicts, node), FailuresInARow(verdicts, node))
      && (node in s.ring <==> (node !in s.status || s.status[node] == 0))
    ensures !Judged(verdicts, node) ==> FailuresInARow(verdicts, node) == 0
  {
    if verdicts != [] {
      var m := |verdicts| - 1;
      RingMatchesStatus(nodes, verdicts[..m], node);
      JudgedStep(verdicts, node);
      StepAgrees(Run(nodes, verdicts[..m]), verdicts[m], node,
                 Judged(verdicts[..m], node), FailuresInARow(verdicts[..m], node));
    }
  }

  /** The ring never holds a node that was not configured, as long as only configured nodes
      are checked. */
  lemma {:induction false} RingStaysConfigured(nodes: set<string>, verdicts: seq<Verdict>)
    requires forall i :: 0 <= i < |verdicts| ==> verdicts[i].node in nodes
    ensures Run(nodes, verdicts).ring <= nodes
  {
    if verdicts != [] {
      RingStaysConfigured(nodes, verdicts[..|verdicts| - 1]);
    }
  }
}
