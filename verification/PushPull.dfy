/** Push-pull: two replicas that send each other what they hold. */
module PushPull {
  import opened VectorClocks
  import opened NodeStates
  import opened Clusters

  // ---- Exchanges within a run ----

  /** What a held of n after `start` steps is delivered to b by step `end`. */
  ghost predicate Reaches(run: Run, a: NodeId, start: nat, b: NodeId, end: nat, n: NodeId)
    requires IsRun(run) && start <= end < |run.states| && a in run.states[start].replicas
  {
    n in run.states[start].replicas[a].nodes ==>
      exists k :: start <= k < end && run.actions[k] == Deliver(b, run.states[start].replicas[a].nodes[n])
  }

  lemma ReachedIsHeld(run: Run, a: NodeId, start: nat, b: NodeId, end: nat, n: NodeId)
    requires IsSteadyRun(run) && start <= end < |run.states| && a in run.states[start].replicas
    requires b in run.states[0].replicas && Reaches(run, a, start, b, end, n)
    ensures HeldVersion(run.states[start], a, n) <= HeldVersion(run.states[end], b, n)
  {
    SteadyRunsKeepInv(run, start);
    SteadyRunsKeepInv(run, end);
    VersionsNeverGoBack(run, 0, end, b, n);
    assert GenuineNodes(run.states[start].published, run.states[start].replicas[a].nodes);
    assert GenuineNodes(run.states[end].published, run.states[end].replicas[b].nodes);
    if n in run.states[start].replicas[a].nodes {
      var k :| start <= k < end && run.actions[k] == Deliver(b, run.states[start].replicas[a].nodes[n]);
      HopCarriesTheVersion(run, n, Hop(a, start, b, k), HeldVersion(run.states[start], a, n));
      VersionsNeverGoBack(run, k + 1, end, b, n);
    }
  }

  /** From step `start` on, b learns nothing of n above the given version. */
  ghost predicate NoNews(run: Run, b: NodeId, start: nat, end: nat, n: NodeId, version: int)
    requires IsRun(run) && end < |run.states|
  {
    forall k :: start <= k < end && run.actions[k].at == b ==>
      && (run.actions[k].Publish? ==> b != n)
      && (run.actions[k].Deliver? && run.actions[k].state.nodeId == n ==> OwnVersion(run.actions[k].state) <= version)
  }

  lemma {:induction false} WithoutNewsNothingRises(run: Run, b: NodeId, start: nat, end: nat, n: NodeId, version: int)
    requires IsSteadyRun(run) && start <= end < |run.states| && b in run.states[start].replicas
    requires HeldVersion(run.states[start], b, n) <= version && NoNews(run, b, start, end, n, version)
    ensures HeldVersion(run.states[end], b, n) <= version
    decreases end
  {
    if start < end {
      WithoutNewsNothingRises(run, b, start, end - 1, n, version);
      VersionsNeverGoBack(run, start, end - 1, b, n);
      SteadyRunsKeepInv(run, end - 1);
      StepWithoutNews(run.states[end - 1], run.actions[end - 1], b, n, version);
    }
  }

  lemma StepWithoutNews(c: Cluster, a: Action, b: NodeId, n: NodeId, version: int)
    requires Enabled(c, a) && Inv(c) && !a.Restart? && b in c.replicas && HeldVersion(c, b, n) <= version
    requires a.at == b && a.Publish? ==> b != n
    requires a.at == b && a.Deliver? && a.state.nodeId == n ==> OwnVersion(a.state) <= version
    ensures HeldVersion(Step(c, a), b, n) <= version
  {
    assert GenuineNodes(c.published, c.replicas[b].nodes);
    if a.at == b && a.Deliver? && a.state.nodeId == n && n in c.replicas[b].nodes {
      assert GoodHistory(n, c.published[n]);
      GenuineConflict(c.published, a.state, c.replicas[b].nodes[n]);
    }
  }

  /** A push-pull exchange inside a run, with anything else going on: a sends what it holds of n after sa steps,
      b what it holds after sb steps, and both arrive by step `end`. Then both hold at least the newer of the
      two, and unless one of them has learnt something newer still, they agree on all but the status. */
  lemma PushPullConverges(run: Run, a: NodeId, sa: nat, b: NodeId, sb: nat, end: nat, n: NodeId)
    requires IsSteadyRun(run) && sa <= end && sb <= end && end < |run.states|
    requires a in run.states[0].replicas && b in run.states[0].replicas
    requires a in run.states[sa].replicas && b in run.states[sb].replicas
    requires Reaches(run, a, sa, b, end, n) && Reaches(run, b, sb, a, end, n)
    ensures var x, y := HeldVersion(run.states[sa], a, n), HeldVersion(run.states[sb], b, n);
            var newest := if x < y then y else x; var c := run.states[end];
            && newest <= HeldVersion(c, a, n) && newest <= HeldVersion(c, b, n)
            && (newest > 0 && NoNews(run, a, sa, end, n, newest) && NoNews(run, b, sb, end, n, newest) ==>
                  && a in c.replicas && n in c.replicas[a].nodes && b in c.replicas && n in c.replicas[b].nodes
                  && c.replicas[a].nodes[n].clock == c.replicas[b].nodes[n].clock
                  && SameButStatus(c.replicas[a].nodes[n], c.replicas[b].nodes[n]))
  {
    var x, y := HeldVersion(run.states[sa], a, n), HeldVersion(run.states[sb], b, n);
    var newest, c := if x < y then y else x, run.states[end];
    ReachedIsHeld(run, a, sa, b, end, n);
    ReachedIsHeld(run, b, sb, a, end, n);
    VersionsNeverGoBack(run, sa, end, a, n);
    VersionsNeverGoBack(run, sb, end, b, n);
    if newest > 0 && NoNews(run, a, sa, end, n, newest) && NoNews(run, b, sb, end, n, newest) {
      WithoutNewsNothingRises(run, a, sa, end, n, newest);
      WithoutNewsNothingRises(run, b, sb, end, n, newest);
      SteadyRunsKeepInv(run, end);
      EqualVersionsAgree(c, a, b, n);
    }
  }

  lemma EqualVersionsAgree(c: Cluster, a: NodeId, b: NodeId, n: NodeId)
    requires Inv(c) && HeldVersion(c, a, n) == HeldVersion(c, b, n) > 0
    ensures a in c.replicas && n in c.replicas[a].nodes && b in c.replicas && n in c.replicas[b].nodes
    ensures c.replicas[a].nodes[n].clock == c.replicas[b].nodes[n].clock
    ensures SameButStatus(c.replicas[a].nodes[n], c.replicas[b].nodes[n])
  {
    var x, y := c.replicas[a].nodes[n], c.replicas[b].nodes[n];
    assert GenuineNodes(c.published, c.replicas[a].nodes) && GenuineNodes(c.published, c.replicas[b].nodes);
    assert GoodHistory(n, c.published[n]);
    GenuineConflict(c.published, x, y);
    GenuineIsSolo(c.published, x);
    GenuineIsSolo(c.published, y);
  }

  // ---- One exchange at one moment ----

  /** The states of a snapshot, in whatever order the map was walked. */
  ghost predicate Lists(states: seq<NodeState>, nodes: Nodes) {
    Members(states) == nodes.Values
  }

  /** b holds at least what a holds. */
  ghost predicate Covers(b: Nodes, a: Nodes) {
    forall id :: id in a ==> id in b && OwnVersion(a[id]) <= OwnVersion(b[id])
  }

  lemma MergeRaises(published: map<NodeId, seq<NodeState>>, nodes: Nodes, r: NodeState)
    requires GenuineNodes(published, nodes) && Genuine(published, r)
    requires GoodHistory(r.nodeId, published[r.nodeId])
    ensures var after := Merge(nodes, r);
            && GenuineNodes(published, after) && Covers(after, nodes)
            && r.nodeId in after && OwnVersion(r) <= OwnVersion(after[r.nodeId])
            && (forall id :: id in after ==> (id in nodes && after[id] == nodes[id]) || after[id] == r)
  {
    MergeKeepsGenuine(published, nodes, r);
    if r.nodeId in nodes {
      GenuineConflict(published, r, nodes[r.nodeId]);
    }
  }

  /** Nothing is lost, nothing is made up, and every state given is reached. */
  ghost predicate MergedFrom(nodes: Nodes, states: seq<NodeState>, after: Nodes) {
    && Covers(after, nodes)
    && (forall id :: id in after ==> (id in nodes && after[id] == nodes[id]) || after[id] in states)
    && (forall ns :: ns in states ==> ns.nodeId in after && OwnVersion(ns) <= OwnVersion(after[ns.nodeId]))
  }

  lemma MergingOneMore(
    published: map<NodeId, seq<NodeState>>, nodes: Nodes, states: seq<NodeState>, merged: Nodes, r: NodeState)
    requires GenuineNodes(published, merged) && MergedFrom(nodes, states, merged)
    requires Genuine(published, r) && GoodHistory(r.nodeId, published[r.nodeId])
    ensures GenuineNodes(published, Merge(merged, r)) && MergedFrom(nodes, states + [r], Merge(merged, r))
  {
    MergeRaises(published, merged, r);
  }

  lemma {:induction false} MergingGenuineStates(published: map<NodeId, seq<NodeState>>, nodes: Nodes, states: seq<NodeState>)
    requires GenuineNodes(published, nodes)
    requires forall ns :: ns in states ==> Genuine(published, ns) && GoodHistory(ns.nodeId, published[ns.nodeId])
    ensures GenuineNodes(published, MergeAll(nodes, states)) && MergedFrom(nodes, states, MergeAll(nodes, states))
  {
    if states != [] {
      var init, r := states[..|states| - 1], states[|states| - 1];
      assert states == init + [r];
      MergingGenuineStates(published, nodes, init);
      MergingOneMore(published, nodes, init, MergeAll(nodes, init), r);
    }
  }

  /** If each of two replicas merges the other's snapshot of one moment, in any order, the two hold the
      same versions of every node and agree on all but the statuses. */
  lemma PushPullAgrees(run: Run, i: nat, a: NodeId, b: NodeId, fromA: seq<NodeState>, fromB: seq<NodeState>)
    requires IsSteadyRun(run) && i < |run.states|
    requires a in run.states[i].replicas && b in run.states[i].replicas
    requires Lists(fromA, run.states[i].replicas[a].nodes) && Lists(fromB, run.states[i].replicas[b].nodes)
    ensures var x := MergeAll(run.states[i].replicas[a].nodes, fromB);
            var y := MergeAll(run.states[i].replicas[b].nodes, fromA);
            && x.Keys == y.Keys
            && forall id :: id in x ==> x[id].clock == y[id].clock && SameButStatus(x[id], y[id])
  {
    var c := run.states[i];
    var p, q := c.replicas[a].nodes, c.replicas[b].nodes;
    SteadyRunsKeepInv(run, i);
    SnapshotIsGenuine(c, a, fromA);
    SnapshotIsGenuine(c, b, fromB);
    MergingGenuineStates(c.published, p, fromB);
    MergingGenuineStates(c.published, q, fromA);
    var x, y := MergeAll(p, fromB), MergeAll(q, fromA);
    forall id | id in x ensures id in y && OwnVersion(x[id]) <= OwnVersion(y[id]) {
      assert x[id] in fromA || x[id] in fromB;
    }
    forall id | id in y ensures id in x && OwnVersion(y[id]) <= OwnVersion(x[id]) {
      assert y[id] in fromA || y[id] in fromB;
    }
    assert x.Keys == y.Keys;
    forall id | id in x ensures x[id].clock == y[id].clock && SameButStatus(x[id], y[id]) {
      assert GoodHistory(id, c.published[id]);
      GenuineConflict(c.published, x[id], y[id]);
      GenuineIsSolo(c.published, x[id]);
      GenuineIsSolo(c.published, y[id]);
    }
  }

  lemma SnapshotIsGenuine(c: Cluster, a: NodeId, states: seq<NodeState>)
    requires Inv(c) && a in c.replicas && Lists(states, c.replicas[a].nodes)
    ensures GenuineNodes(c.published, c.replicas[a].nodes)
    ensures forall ns :: ns in states ==> Genuine(c.published, ns) && GoodHistory(ns.nodeId, c.published[ns.nodeId])
    ensures forall id :: id in c.replicas[a].nodes ==> c.replicas[a].nodes[id] in states
    ensures forall ns :: ns in states ==> ns.nodeId in c.replicas[a].nodes && c.replicas[a].nodes[ns.nodeId] == ns
  {
    var nodes := c.replicas[a].nodes;
    assert GenuineNodes(c.published, nodes);
    forall ns | ns in states
      ensures Genuine(c.published, ns) && GoodHistory(ns.nodeId, c.published[ns.nodeId])
      ensures ns.nodeId in nodes && nodes[ns.nodeId] == ns
    {
      assert ns in Members(states);
      assert ns in nodes.Values;
      assert GoodHistory(ns.nodeId, c.published[ns.nodeId]);
    }
    forall id | id in nodes ensures nodes[id] in states {
      assert nodes[id] in Members(states);
    }
  }
}
