/** Convergence in runs with restarts: a publication that beats every copy of its node spreads along
    any chain of holders that stand until they have passed it on. */
module Recovery {
  import opened VectorClocks
  import opened NodeStates
  import opened Clusters
  import opened Restarts

  /** x is no rival of ns: a copy of another node, ns itself up to the status, or outranked by it. */
  ghost predicate Yields(x: NodeState, ns: NodeState) {
    x.nodeId == ns.nodeId ==> Solo(x) && Solo(ns) && (SameButStatus(x, ns) || Outranks(ns, x))
  }

  ghost predicate AllYield(nodes: Nodes, ns: NodeState) {
    forall id :: id in nodes ==> Yields(nodes[id], ns)
  }

  ghost predicate Supreme(c: Cluster, ns: NodeState) {
    && (forall x :: x in c.net ==> Yields(x, ns))
    && (forall b {:trigger AllYield(c.replicas[b].nodes, ns)} :: b in c.replicas ==> AllYield(c.replicas[b].nodes, ns))
  }

  ghost predicate HoldsIt(c: Cluster, b: NodeId, ns: NodeState) {
    b in c.replicas && ns.nodeId in c.replicas[b].nodes && SameButStatus(c.replicas[b].nodes[ns.nodeId], ns)
  }

  /** n publishes. */
  predicate Republication(a: Action, n: NodeId) {
    a.Publish? && a.at == n
  }

  lemma MergeYields(nodes: Nodes, r: NodeState, ns: NodeState)
    requires OwnedNodes(nodes) && Solo(r) && Solo(ns) && AllYield(nodes, ns) && Yields(r, ns)
    ensures AllYield(Merge(nodes, r), ns)
    ensures ns.nodeId in nodes && SameButStatus(nodes[ns.nodeId], ns) ==>
              SameButStatus(Merge(nodes, r)[ns.nodeId], ns)
    ensures r.nodeId == ns.nodeId && SameButStatus(r, ns) ==> SameButStatus(Merge(nodes, r)[ns.nodeId], ns)
  {
    if r.nodeId in nodes {
      assert Yields(nodes[r.nodeId], ns);
      SoloConflictIsRank(r, nodes[r.nodeId]);
    }
  }

  lemma StepKeepsSupreme(c: Cluster, a: Action, ns: NodeState)
    requires Enabled(c, a) && AllOwned(c) && Solo(ns) && Supreme(c, ns) && !Republication(a, ns.nodeId)
    ensures Supreme(Step(c, a), ns)
  {
    var d := Step(c, a);
    assert OwnedReplica(c.replicas[a.at], a.at) && AllYield(c.replicas[a.at].nodes, ns);
    if a.Deliver? {
      MergeYields(c.replicas[a.at].nodes, a.state, ns);
    }
    forall b | b in d.replicas ensures AllYield(d.replicas[b].nodes, ns) {
      assert b != a.at ==> AllYield(c.replicas[b].nodes, ns);
    }
  }

  lemma StepKeepsHolder(c: Cluster, a: Action, ns: NodeState, b: NodeId)
    requires Enabled(c, a) && AllOwned(c) && Solo(ns) && Supreme(c, ns) && HoldsIt(c, b, ns)
    requires !Republication(a, ns.nodeId) && a != Restart(b)
    ensures HoldsIt(Step(c, a), b, ns)
  {
    assert OwnedReplica(c.replicas[b], b) && AllYield(c.replicas[b].nodes, ns);
    if a.Deliver? && a.at == b {
      MergeYields(c.replicas[b].nodes, a.state, ns);
    }
  }

  ghost predicate IsLast(run: Run, publish: nat)
    requires IsRun(run) && publish < |run.actions| && run.actions[publish].Publish?
  {
    forall k :: publish < k < |run.actions| ==> !Republication(run.actions[k], run.actions[publish].at)
  }

  /** When it is published, the state beats every copy of its node, held or on its way. */
  ghost predicate BeatsAllCopies(run: Run, publish: nat)
    requires IsRun(run) && publish < |run.actions| && run.actions[publish].Publish?
  {
    forall x :: Holds(run.states[publish], x) && x.nodeId == run.actions[publish].at ==> Beats(Published(run, publish), x)
  }

  lemma BeatenCopiesYield(run: Run, publish: nat, x: NodeState)
    requires IsRun(run) && publish < |run.actions| && run.actions[publish].Publish? && BeatsAllCopies(run, publish)
    requires Holds(run.states[publish], x) && Solo(x)
    ensures Yields(x, Published(run, publish))
  {
    PublishedIsSolo(run, publish);
    if x.nodeId == run.actions[publish].at {
      SoloConflictIsRank(Published(run, publish), x);
    }
  }

  lemma PublicationIsSupreme(run: Run, publish: nat)
    requires IsRun(run) && publish < |run.actions| && run.actions[publish].Publish? && BeatsAllCopies(run, publish)
    ensures Supreme(run.states[publish + 1], Published(run, publish))
    ensures HoldsIt(run.states[publish + 1], run.actions[publish].at, Published(run, publish))
  {
    var c, d, ns := run.states[publish], run.states[publish + 1], Published(run, publish);
    assert d == Step(c, run.actions[publish]);
    ReachableClocksHaveOneEntry(run, publish);
    PublishedIsSolo(run, publish);
    forall x | x in d.net ensures Yields(x, ns) {
      if x in c.net {
        BeatenCopiesYield(run, publish, x);
      }
    }
    forall b | b in d.replicas ensures AllYield(d.replicas[b].nodes, ns) {
      assert OwnedReplica(c.replicas[b], b);
      forall id | id in d.replicas[b].nodes ensures Yields(d.replicas[b].nodes[id], ns) {
        if id in c.replicas[b].nodes && d.replicas[b].nodes[id] == c.replicas[b].nodes[id] {
          assert c.replicas[b].nodes[id] in c.replicas[b].nodes.Values;
          BeatenCopiesYield(run, publish, c.replicas[b].nodes[id]);
        }
      }
    }
  }

  lemma {:induction false} StaysSupreme(run: Run, publish: nat, i: nat)
    requires IsRun(run) && publish < i < |run.states| && run.actions[publish].Publish?
    requires BeatsAllCopies(run, publish) && IsLast(run, publish)
    ensures Solo(Published(run, publish)) && Supreme(run.states[i], Published(run, publish))
    decreases i
  {
    PublishedIsSolo(run, publish);
    if i == publish + 1 {
      PublicationIsSupreme(run, publish);
    } else {
      StaysSupreme(run, publish, i - 1);
      ReachableClocksHaveOneEntry(run, i - 1);
      StepKeepsSupreme(run.states[i - 1], run.actions[i - 1], Published(run, publish));
    }
  }

  /** b does not restart from state i until state j. */
  ghost predicate Stands(run: Run, b: NodeId, i: nat, j: nat)
    requires IsRun(run) && j <= |run.actions|
  {
    forall k :: i <= k < j ==> run.actions[k] != Restart(b)
  }

  lemma {:induction false} HolderKeepsIt(run: Run, publish: nat, i: nat, j: nat, b: NodeId)
    requires IsRun(run) && publish < i <= j < |run.states| && run.actions[publish].Publish?
    requires BeatsAllCopies(run, publish) && IsLast(run, publish)
    requires HoldsIt(run.states[i], b, Published(run, publish)) && Stands(run, b, i, j)
    ensures HoldsIt(run.states[j], b, Published(run, publish))
    decreases j
  {
    if i < j {
      HolderKeepsIt(run, publish, i, j - 1, b);
      StaysSupreme(run, publish, j - 1);
      ReachableClocksHaveOneEntry(run, j - 1);
      StepKeepsHolder(run.states[j - 1], run.actions[j - 1], Published(run, publish), b);
    }
  }

  /** Each holder on the chain stands from the arrival of its copy until it has passed it on, the last one to the end. */
  ghost predicate HoldersStand(run: Run, holder: NodeId, from: nat, hops: seq<Hop>)
    requires IsRun(run)
    decreases |hops|
  {
    if hops == [] then Stands(run, holder, from, |run.actions|)
    else
      && hops[0].sentAt <= |run.actions| && Stands(run, holder, from, hops[0].sentAt)
      && HoldersStand(run, hops[0].receiver, hops[0].gotAt + 1, hops[1..])
  }

  lemma HopCarriesIt(run: Run, publish: nat, h: Hop)
    requires IsRun(run) && publish < |run.actions| && run.actions[publish].Publish?
    requires BeatsAllCopies(run, publish) && IsLast(run, publish)
    requires IsHop(run, run.actions[publish].at, h) && publish < h.sentAt
    requires HoldsIt(run.states[h.sentAt], h.sender, Published(run, publish))
    ensures HoldsIt(run.states[h.gotAt + 1], h.receiver, Published(run, publish))
  {
    var c, a, ns := run.states[h.gotAt], run.actions[h.gotAt], Published(run, publish);
    StaysSupreme(run, publish, h.gotAt);
    ReachableClocksHaveOneEntry(run, h.gotAt);
    assert OwnedReplica(c.replicas[a.at], a.at) && AllYield(c.replicas[a.at].nodes, ns);
    assert run.states[h.gotAt + 1] == Step(c, a);
    MergeYields(c.replicas[a.at].nodes, a.state, ns);
  }

  lemma {:induction false} PathCarriesIt(
    run: Run, publish: nat, holder: NodeId, from: nat, hops: seq<Hop>, m: NodeId)
    requires IsRun(run) && publish < from < |run.states| && run.actions[publish].Publish?
    requires BeatsAllCopies(run, publish) && IsLast(run, publish)
    requires IsPath(run, run.actions[publish].at, holder, from, hops, m) && HoldersStand(run, holder, from, hops)
    requires HoldsIt(run.states[from], holder, Published(run, publish))
    ensures HoldsIt(run.states[|run.actions|], m, Published(run, publish))
    decreases |hops|
  {
    if hops == [] {
      HolderKeepsIt(run, publish, from, |run.actions|, m);
    } else {
      HolderKeepsIt(run, publish, from, hops[0].sentAt, holder);
      HopCarriesIt(run, publish, hops[0]);
      PathCarriesIt(run, publish, hops[0].receiver, hops[0].gotAt + 1, hops[1..], m);
    }
  }

  /** Convergence in any run, with any restarts: if a node's last publication beats every copy of the node there is
      when it is made, then whoever it reaches over a chain of holders that do not restart before passing it on ends
      with exactly that publication, up to the status. Nodes outside the chain, the publisher included once it has
      sent, may restart as they like. */
  lemma SupremePublicationsSpread(run: Run, publish: nat, hops: seq<Hop>, m: NodeId)
    requires IsRun(run) && publish < |run.actions| && run.actions[publish].Publish?
    requires BeatsAllCopies(run, publish) && IsLast(run, publish)
    requires var n := run.actions[publish].at;
             IsPath(run, n, n, publish + 1, hops, m) && HoldersStand(run, n, publish + 1, hops)
    ensures var n, final := run.actions[publish].at, run.states[|run.actions|];
            && m in final.replicas && n in final.replicas[m].nodes
            && SameButStatus(final.replicas[m].nodes[n], Published(run, publish))
  {
    PublicationIsSupreme(run, publish);
    PathCarriesIt(run, publish, run.actions[publish].at, publish + 1, hops, m);
  }

  /** Recovery of the whole cluster: if, before a restarted node reads its clock, a copy at least as new as every copy
      that exists when it publishes has come back to it, then that publication spreads. */
  lemma RecoveredNodeSpreads(run: Run, restart: nat, read: nat, publish: nat, k: nat, hops: seq<Hop>, m: NodeId)
    requires IsShortRun(run) && Republishes(run, restart, read, publish) && IsLast(run, publish)
    requires restart < k < read && run.actions[k].Deliver? && run.actions[k].at == run.actions[publish].at
    requires run.actions[k].state.nodeId == run.actions[publish].at
    requires forall x :: Holds(run.states[publish], x) && x.nodeId == run.actions[publish].at ==>
               OwnVersion(x) <= OwnVersion(run.actions[k].state)
    requires var n := run.actions[publish].at;
             IsPath(run, n, n, publish + 1, hops, m) && HoldersStand(run, n, publish + 1, hops)
    ensures var n, final := run.actions[publish].at, run.states[|run.actions|];
            && m in final.replicas && n in final.replicas[m].nodes
            && SameButStatus(final.replicas[m].nodes[n], Published(run, publish))
  {
    var n, v := run.actions[publish].at, OwnVersion(run.actions[k].state);
    VersionsCountSteps(run, k);
    VersionsCountSteps(run, publish);
    assert ReplicaWithin(run.states[publish].replicas[n], n, publish);
    assert ComesBack(run.actions[k], n, v - 1);
    RestartedNodeRecovers(run, restart, read, publish, v - 1);
    ReachableClocksHaveOneEntry(run, publish);
    forall x | Holds(run.states[publish], x) && x.nodeId == n ensures Beats(Published(run, publish), x) {
      HeldIsSolo(run.states[publish], x);
      PublishedIsSolo(run, publish);
      SoloConflictIsRank(Published(run, publish), x);
    }
    SupremePublicationsSpread(run, publish, hops, m);
  }

  lemma HeldIsSolo(c: Cluster, x: NodeState)
    requires AllOwned(c) && Holds(c, x)
    ensures Solo(x)
  {
    if x !in c.net {
      var b :| b in c.replicas && x in c.replicas[b].nodes.Values;
      assert OwnedReplica(c.replicas[b], b);
    }
  }
}
