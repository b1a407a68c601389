/** Restarts. A restarted node starts with an empty map and no clock; it gets back to its
    old versions only through its peers. The runs here may contain any number of restarts. */
module Restarts {
  import opened VectorClocks
  import opened NodeStates
  import opened Clusters

  /** Only its own publications and restarts can lower what a replica holds. */
  predicate Overwrites(a: Action, b: NodeId) {
    a.at == b && (a.Publish? || a.Restart?)
  }

  lemma {:induction false} ReadingIsKept(run: Run, i: nat, j: nat, n: NodeId)
    requires IsRun(run) && i <= j < |run.states|
    requires n in run.states[i].replicas && run.states[i].replicas[n].reading.Some?
    requires forall k :: i <= k < j ==> !Overwrites(run.actions[k], n)
    ensures n in run.states[j].replicas && run.states[j].replicas[n].reading == run.states[i].replicas[n].reading
    decreases j
  {
    if i < j {
      ReadingIsKept(run, i, j - 1, n);
      assert run.states[j] == Step(run.states[j - 1], run.actions[j - 1]);
    }
  }

  /** The state that the publish action at index i sends out. */
  function Published(run: Run, i: nat): NodeState
    requires IsRun(run) && i < |run.actions| && run.actions[i].Publish?
  {
    var a := run.actions[i];
    Publication(a.at, run.states[i].replicas[a.at].reading.value, a.metrics, a.seenAt, a.updatedAt)
  }

  /** The version a publication in progress started from; 0 when it read an empty clock. */
  function VersionRead(run: Run, i: nat): int
    requires IsRun(run) && i < |run.actions| && run.actions[i].Publish?
  {
    var a := run.actions[i];
    var reading := run.states[i].replicas[a.at].reading.value;
    if a.at in reading then reading[a.at] else 0
  }

  lemma PublishedIsSolo(run: Run, i: nat)
    requires IsRun(run) && i < |run.actions| && run.actions[i].Publish?
    ensures Solo(Published(run, i))
    ensures VersionRead(run, i) < MAX_INT64 ==> OwnVersion(Published(run, i)) == VersionRead(run, i) + 1
  {
    ReachableClocksHaveOneEntry(run, i);
    assert OwnedReplica(run.states[i].replicas[run.actions[i].at], run.actions[i].at);
  }

  // ---- What comes back to a node ----

  /** The node holds a copy of itself above the given version. */
  ghost predicate AheadOf(c: Cluster, n: NodeId, version: int) {
    n in c.replicas && n in c.replicas[n].nodes && OwnVersion(c.replicas[n].nodes[n]) > version
  }

  /** A copy of n above the given version comes back to n. */
  predicate ComesBack(a: Action, n: NodeId, version: int) {
    a.Deliver? && a.at == n && a.state.nodeId == n && OwnVersion(a.state) > version
  }

  lemma OnlyADeliveryGetsAhead(c: Cluster, a: Action, n: NodeId, version: int)
    requires Enabled(c, a) && AllOwned(c) && n in c.replicas && !Overwrites(a, n)
    ensures AheadOf(Step(c, a), n, version) <==> AheadOf(c, n, version) || ComesBack(a, n, version)
  {
    assert OwnedReplica(c.replicas[n], n);
    if a.at == n && a.Deliver? && a.state.nodeId == n && n in c.replicas[n].nodes {
      SoloConflictIsRank(a.state, c.replicas[n].nodes[n]);
    }
  }

  lemma {:induction false} AheadIffHeldOrCameBack(run: Run, i: nat, j: nat, n: NodeId, version: int)
    requires IsRun(run) && i <= j < |run.states| && n in run.states[i].replicas
    requires forall k :: i <= k < j ==> !Overwrites(run.actions[k], n)
    ensures n in run.states[j].replicas
    ensures AheadOf(run.states[j], n, version) <==>
            AheadOf(run.states[i], n, version) || exists k :: i <= k < j && ComesBack(run.actions[k], n, version)
    decreases j
  {
    if i < j {
      AheadIffHeldOrCameBack(run, i, j - 1, n, version);
      ReachableClocksHaveOneEntry(run, j - 1);
      OnlyADeliveryGetsAhead(run.states[j - 1], run.actions[j - 1], n, version);
      assert run.states[j] == Step(run.states[j - 1], run.actions[j - 1]);
    }
  }

  lemma ReadTakesTheOwnVersion(run: Run, read: nat, publish: nat)
    requires IsRun(run) && read < publish < |run.actions|
    requires run.actions[publish].Publish? && run.actions[read] == ReadClock(run.actions[publish].at)
    requires forall k :: read < k < publish ==> !Overwrites(run.actions[k], run.actions[publish].at)
    ensures var n, c := run.actions[publish].at, run.states[read];
            && n in c.replicas && n in run.states[read + 1].replicas
            && VersionRead(run, publish) == (if n in c.replicas[n].nodes then OwnVersion(c.replicas[n].nodes[n]) else 0)
            && run.states[read + 1].replicas[n].nodes == c.replicas[n].nodes
  {
    var n, c := run.actions[publish].at, run.states[read];
    assert run.states[read + 1] == Step(c, ReadClock(n));
    ReachableClocksHaveOneEntry(run, read);
    assert OwnedReplica(c.replicas[n], n);
    if n in c.replicas[n].nodes {
      assert ClockRead(c.replicas[n].nodes, n) == c.replicas[n].nodes[n].clock;
    }
    ReadingIsKept(run, read + 1, publish, n);
  }

  // ---- What a restarted node recovers ----

  /** A restart of the publisher, the read of its clock and the publication, with no other publication or restart
      of the node in between. */
  ghost predicate Republishes(run: Run, restart: nat, read: nat, publish: nat) {
    && IsRun(run) && restart < read < publish < |run.actions|
    && run.actions[publish].Publish?
    && run.actions[restart] == Restart(run.actions[publish].at)
    && run.actions[read] == ReadClock(run.actions[publish].at)
    && forall k :: restart < k < publish ==> !Overwrites(run.actions[k], run.actions[publish].at)
  }

  /** Restart recovery is through peers or not at all: the version a restarted node publishes on is above v if and
      only if, between the restart and the read, a copy of the node above v was delivered to it. */
  lemma RestartedNodeRecovers(run: Run, restart: nat, read: nat, publish: nat, v: nat)
    requires Republishes(run, restart, read, publish)
    ensures var n := run.actions[publish].at;
            VersionRead(run, publish) > v <==> exists k :: restart < k < read && ComesBack(run.actions[k], n, v)
  {
    var n := run.actions[publish].at;
    assert run.states[restart + 1] == Step(run.states[restart], Restart(n));
    AheadIffHeldOrCameBack(run, restart + 1, read, n, v);
    ReadTakesTheOwnVersion(run, read, publish);
  }

  /** Which replicas take a publication over: those without a copy, those whose copy is no newer than the version
      it was built on, and, at its own version, those with an earlier update. */
  lemma PublicationIsAcceptedIff(run: Run, publish: nat, j: nat, b: NodeId)
    requires IsRun(run) && publish < |run.actions| && run.actions[publish].Publish?
    requires VersionRead(run, publish) < MAX_INT64
    requires j < |run.states| && b in run.states[j].replicas
    ensures var n, v, ns := run.actions[publish].at, VersionRead(run, publish), Published(run, publish);
            var nodes := run.states[j].replicas[b].nodes;
            Accepts(nodes, ns) <==>
              || n !in nodes
              || OwnVersion(nodes[n]) <= v
              || (OwnVersion(nodes[n]) == v + 1 && nodes[n].lastUpdated < ns.lastUpdated)
  {
    var n, ns, nodes := run.actions[publish].at, Published(run, publish), run.states[j].replicas[b].nodes;
    PublishedIsSolo(run, publish);
    ReachableClocksHaveOneEntry(run, j);
    assert OwnedReplica(run.states[j].replicas[b], b);
    if n in nodes {
      SoloConflictIsRank(ns, nodes[n]);
    }
  }

  /** A run too short for a version to wrap. */
  ghost predicate IsShortRun(run: Run) {
    IsRun(run) && |run.actions| <= MAX_INT64
  }

  /** Every copy held is a version between 1 and limit, and a clock read is at most limit. */
  ghost predicate ReplicaWithin(r: Replica, b: NodeId, limit: int) {
    && (forall n :: n in r.nodes ==> 1 <= OwnVersion(r.nodes[n]) <= limit)
    && (r.reading.Some? && b in r.reading.value ==> 1 <= r.reading.value[b] <= limit)
  }

  ghost predicate VersionsWithin(c: Cluster, limit: int) {
    && (forall ns :: ns in c.net ==> 1 <= OwnVersion(ns) <= limit)
    && (forall b {:trigger ReplicaWithin(c.replicas[b], b, limit)} ::
          b in c.replicas ==> ReplicaWithin(c.replicas[b], b, limit))
  }

  lemma MergeStaysWithin(nodes: Nodes, ns: NodeState, limit: int)
    requires OwnedNodes(nodes) && Solo(ns) && 1 <= OwnVersion(ns) <= limit
    requires forall n :: n in nodes ==> 1 <= OwnVersion(nodes[n]) <= limit
    ensures forall n :: n in Merge(nodes, ns) ==> 1 <= OwnVersion(Merge(nodes, ns)[n]) <= limit
  {
    if ns.nodeId in nodes {
      SoloConflictIsRank(ns, nodes[ns.nodeId]);
    }
  }

  lemma ReplicaRaisesVersionsByOne(c: Cluster, a: Action, limit: int)
    requires Enabled(c, a) && AllOwned(c) && VersionsWithin(c, limit) && 0 <= limit < MAX_INT64
    ensures ReplicaWithin(Step(c, a).replicas[a.at], a.at, limit + 1)
  {
    var r := c.replicas[a.at];
    assert OwnedReplica(r, a.at) && ReplicaWithin(r, a.at, limit);
    match a
    case Deliver(_, ns) => MergeStaysWithin(r.nodes, ns, limit);
    case _ =>
  }

  lemma StepRaisesVersionsByOne(c: Cluster, a: Action, limit: int)
    requires Enabled(c, a) && AllOwned(c) && VersionsWithin(c, limit) && 0 <= limit < MAX_INT64
    ensures VersionsWithin(Step(c, a), limit + 1)
  {
    var d := Step(c, a);
    ReplicaRaisesVersionsByOne(c, a, limit);
    assert ReplicaWithin(c.replicas[a.at], a.at, limit);
    forall b | b in d.replicas ensures ReplicaWithin(d.replicas[b], b, limit + 1) {
      assert b != a.at ==> ReplicaWithin(c.replicas[b], b, limit);
    }
    forall ns | ns in d.net ensures 1 <= OwnVersion(ns) <= limit + 1 {
      assert a.Publish? && ns !in c.net ==> ns == d.replicas[a.at].nodes[a.at];
    }
  }

  lemma {:induction false} VersionsCountSteps(run: Run, i: nat)
    requires IsShortRun(run) && i < |run.states|
    ensures VersionsWithin(run.states[i], i)
    decreases i
  {
    if i > 0 {
      VersionsCountSteps(run, i - 1);
      ReachableClocksHaveOneEntry(run, i - 1);
      StepRaisesVersionsByOne(run.states[i - 1], run.actions[i - 1], i - 1);
    }
  }

  /** Whether the cluster hears a restarted node: a replica that holds a copy takes the node's first publication
      over if and only if, before the node read its clock, a copy at least as new had come back to it, or the
      publication happens to reach the same version with a later update. */
  lemma RestartedNodeIsHeardIffACopyCameBack(
    run: Run, restart: nat, read: nat, publish: nat, j: nat, b: NodeId)
    requires IsShortRun(run) && Republishes(run, restart, read, publish)
    requires j < |run.states| && b in run.states[j].replicas
    requires run.actions[publish].at in run.states[j].replicas[b].nodes
    ensures var n, ns := run.actions[publish].at, Published(run, publish);
            var nodes := run.states[j].replicas[b].nodes;
            Accepts(nodes, ns) <==>
              || (exists k :: restart < k < read && ComesBack(run.actions[k], n, OwnVersion(nodes[n]) - 1))
              || (OwnVersion(nodes[n]) == OwnVersion(ns) && nodes[n].lastUpdated < ns.lastUpdated)
  {
    var n, nodes := run.actions[publish].at, run.states[j].replicas[b].nodes;
    VersionsCountSteps(run, publish);
    VersionsCountSteps(run, j);
    assert ReplicaWithin(run.states[publish].replicas[n], n, publish);
    assert ReplicaWithin(run.states[j].replicas[b], b, j);
    RestartedNodeRecovers(run, restart, read, publish, OwnVersion(nodes[n]) - 1);
    PublishedIsSolo(run, publish);
    PublicationIsAcceptedIff(run, publish, j, b);
  }

  // ---- When a publication overwrites what came back ----

  /** Exactly when the unlocked read and write of a publication go wrong, in any run: the publication overwrites
      a copy of its node at least as new as itself if and only if, between the read and the write, a copy above
      the version read was delivered to the node. Clusters.PublicationLosesNoUpdate rules that out without restarts. */
  lemma PublicationOverwritesIffACopyCameBack(run: Run, read: nat, publish: nat)
    requires IsRun(run) && read < publish < |run.actions|
    requires run.actions[publish].Publish? && run.actions[read] == ReadClock(run.actions[publish].at)
    requires forall k :: read < k < publish ==> !Overwrites(run.actions[k], run.actions[publish].at)
    ensures var n, v := run.actions[publish].at, VersionRead(run, publish);
            AheadOf(run.states[publish], n, v) <==> exists k :: read < k < publish && ComesBack(run.actions[k], n, v)
    ensures var n, v, nodes := run.actions[publish].at, VersionRead(run, publish), OwnNodes(run, publish);
            v < MAX_INT64 ==>
              ((n in nodes && OwnVersion(nodes[n]) >= OwnVersion(Published(run, publish))) <==>
               exists k :: read < k < publish && ComesBack(run.actions[k], n, v))
  {
    var n, v := run.actions[publish].at, VersionRead(run, publish);
    ReadTakesTheOwnVersion(run, read, publish);
    AheadIffHeldOrCameBack(run, read + 1, publish, n, v);
    PublishedIsSolo(run, publish);
  }

  /** What the publisher's manager holds just before the publish action at index i. */
  function OwnNodes(run: Run, i: nat): Nodes
    requires IsRun(run) && i < |run.actions| && run.actions[i].Publish?
  {
    run.states[i].replicas[run.actions[i].at].nodes
  }

  function Extend(run: Run, a: Action): Run
    requires run.states != [] && Enabled(run.states[|run.states| - 1], a)
  {
    Run(run.states + [Step(run.states[|run.states| - 1], a)], run.actions + [a])
  }

  lemma ExtendedRunIsRun(run: Run, a: Action)
    requires IsRun(run) && Enabled(run.states[|run.states| - 1], a)
    ensures IsRun(Extend(run, a))
  {
  }

  ghost function Last(run: Run): Cluster
    requires run.states != []
  {
    run.states[|run.states| - 1]
  }

  /** The loss does happen: a node at version 2 restarts, reads its (empty) clock, is handed its own
      version 2 by the network, and then overwrites it with version 1. */
  lemma StaleReadLosesRecovery(n: NodeId, m: Metrics) returns (run: Run, x: NodeState)
    ensures IsRun(run) && n in Last(run).replicas && n in Last(run).replicas[n].nodes
    ensures |run.actions| > 2 && run.actions[|run.actions| - 2] == Deliver(n, x) && x.nodeId == n
    ensures OwnVersion(x) == 2 && OwnVersion(Last(run).replicas[n].nodes[n]) == 1
    ensures Beats(x, Last(run).replicas[n].nodes[n])
  {
    var start := Cluster(map[n := Replica(map[], None, [])], {}, map[n := []]);
    run := Run([start], []);
    run := PublishOnce(run, n, m);
    run := PublishOnce(run, n, m);
    x := Last(run).replicas[n].nodes[n];
    run := RestartThenPublishStale(run, n, m, x);
  }

  /** Without a copy handed back, a restarted node is not heard: b holds version 2, the node restarts and publishes
      version 1, however late, and b rejects it. */
  lemma UnheardAfterRestart(n: NodeId, b: NodeId, m: Metrics, updatedAt: int) returns (run: Run, ns: NodeState)
    requires n != b
    ensures IsRun(run) && |run.actions| > 3 && run.actions[|run.actions| - 4] == Restart(n)
    ensures run.actions[|run.actions| - 1] == Deliver(b, ns) && ns.nodeId == n && ns.lastUpdated == updatedAt
    ensures OwnVersion(ns) == 1 && HeldVersion(Last(run), n, n) == 1 && HeldVersion(Last(run), b, n) == 2
  {
    var start := Cluster(map[n := Replica(map[], None, []), b := Replica(map[], None, [])], {}, map[n := [], b := []]);
    run := Run([start], []);
    run := PublishOnce(run, n, m);
    run := PublishOnce(run, n, m);
    var x := Last(run).replicas[n].nodes[n];
    run, ns := RestartThenPublishUnheard(run, n, b, m, x, updatedAt);
  }

  lemma RestartThenPublishUnheard(run: Run, n: NodeId, b: NodeId, m: Metrics, x: NodeState, updatedAt: int)
    returns (longer: Run, ns: NodeState)
    requires n != b && IsRun(run) && Enabled(Last(run), Restart(n)) && Enabled(Last(run), Deliver(b, x))
    requires n !in Last(run).replicas[b].nodes && x.nodeId == n && x.clock.Keys == {n} && x.clock[n] == 2
    ensures IsRun(longer) && |longer.actions| > 3 && longer.actions[|longer.actions| - 4] == Restart(n)
    ensures longer.actions[|longer.actions| - 1] == Deliver(b, ns) && ns.nodeId == n && ns.lastUpdated == updatedAt
    ensures OwnVersion(ns) == 1 && HeldVersion(Last(longer), n, n) == 1 && HeldVersion(Last(longer), b, n) == 2
  {
    ExtendedRunIsRun(run, Deliver(b, x));
    longer := Extend(run, Deliver(b, x));
    longer, ns := RestartThenPublish(longer, n, b, m, updatedAt);
    SoloConflictIsRank(ns, x);
    ExtendedRunIsRun(longer, Deliver(b, ns));
    longer := Extend(longer, Deliver(b, ns));
  }

  /** A node that restarts and reads its clock at once publishes version 1; nobody else is touched. */
  lemma RestartThenPublish(run: Run, n: NodeId, b: NodeId, m: Metrics, updatedAt: int)
    returns (longer: Run, ns: NodeState)
    requires n != b && IsRun(run) && Enabled(Last(run), Restart(n)) && b in Last(run).replicas && b in Last(run).published
    ensures IsRun(longer) && longer.actions == run.actions + [Restart(n), ReadClock(n), Publish(n, m, 0, updatedAt)]
    ensures Enabled(Last(longer), Deliver(b, ns)) && Last(longer).replicas[b] == Last(run).replicas[b]
    ensures n in Last(longer).replicas && Last(longer).replicas[n].nodes == map[n := ns]
    ensures ns.nodeId == n && ns.lastUpdated == updatedAt && ns.clock == map[n := 1]
  {
    ExtendedRunIsRun(run, Restart(n));
    longer := Extend(run, Restart(n));
    ExtendedRunIsRun(longer, ReadClock(n));
    longer := Extend(longer, ReadClock(n));
    ExtendedRunIsRun(longer, Publish(n, m, 0, updatedAt));
    longer := Extend(longer, Publish(n, m, 0, updatedAt));
    ns := Last(longer).replicas[n].nodes[n];
  }

  lemma RestartThenPublishStale(run: Run, n: NodeId, m: Metrics, x: NodeState) returns (longer: Run)
    requires IsRun(run) && Enabled(Last(run), Restart(n))
    requires x in Last(run).net && x.nodeId == n && x.clock.Keys == {n} && x.clock[n] == 2
    ensures IsRun(longer) && n in Last(longer).replicas && n in Last(longer).replicas[n].nodes
    ensures |longer.actions| > 2 && longer.actions[|longer.actions| - 2] == Deliver(n, x)
    ensures OwnVersion(Last(longer).replicas[n].nodes[n]) == 1 && Beats(x, Last(longer).replicas[n].nodes[n])
  {
    var a, b, c, d := Restart(n), ReadClock(n), Deliver(n, x), Publish(n, m, 0, 0);
    ExtendedRunIsRun(run, a);
    var run1 := Extend(run, a);
    ExtendedRunIsRun(run1, b);
    var run2 := Extend(run1, b);
    ExtendedRunIsRun(run2, c);
    var run3 := Extend(run2, c);
    ExtendedRunIsRun(run3, d);
    longer := Extend(run3, d);
    var i := |run3.actions|;
    assert VersionRead(longer, i) == 0;
    assert Published(longer, i) == Last(longer).replicas[n].nodes[n];
    PublishedIsSolo(longer, i);
    SoloConflictIsRank(x, Published(longer, i));
  }

  lemma PublishOnce(run: Run, n: NodeId, m: Metrics) returns (longer: Run)
    requires IsRun(run) && Enabled(Last(run), ReadClock(n))
    requires var r := Last(run).replicas[n];
             n in r.nodes ==> r.nodes[n].clock.Keys == {n} && 0 <= r.nodes[n].clock[n] < MAX_INT64
    ensures IsRun(longer) && Enabled(Last(longer), ReadClock(n))
    ensures var r, s := Last(run).replicas[n], Last(longer).replicas[n];
            && n in s.nodes && s.nodes[n].nodeId == n && s.nodes[n].clock.Keys == {n}
            && s.nodes[n].clock[n] == 1 + (if n in r.nodes then r.nodes[n].clock[n] as int else 0)
            && s.nodes[n] in Last(longer).net
    ensures forall b :: b != n && b in Last(run).replicas && b in Last(run).published ==>
              b in Last(longer).published && b in Last(longer).replicas && Last(longer).replicas[b] == Last(run).replicas[b]
  {
    ExtendedRunIsRun(run, ReadClock(n));
    var mid := Extend(run, ReadClock(n));
    ExtendedRunIsRun(mid, Publish(n, m, 0, 0));
    longer := Extend(mid, Publish(n, m, 0, 0));
  }
}
