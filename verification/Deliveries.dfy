/** What gets onto the network and what comes out of it, in any run, restarts included: what was sent can
    arrive, nothing else does, and the events of a manager tell all that happened to it. */
module Deliveries {
  import opened VectorClocks
  import opened NodeStates
  import opened Clusters
  import opened Restarts

  // ---- What was sent can arrive ----

  lemma {:induction false} NetOnlyGrows(run: Run, i: nat, j: nat)
    requires IsRun(run) && i <= j < |run.states|
    ensures run.states[i].net <= run.states[j].net
    ensures run.states[j].replicas.Keys == run.states[j].published.Keys == run.states[0].replicas.Keys
    decreases j
  {
    if i < j {
      NetOnlyGrows(run, i, j - 1);
      assert run.states[j] == Step(run.states[j - 1], run.actions[j - 1]);
    } else if i > 0 {
      NetOnlyGrows(run, i - 1, i - 1);
      assert run.states[i] == Step(run.states[i - 1], run.actions[i - 1]);
    }
  }

  /** Every copy a node holds when it syncs can arrive anywhere at any later time. */
  lemma SyncedCopiesCanArrive(run: Run, i: nat, j: nat, n: NodeId, m: NodeId)
    requires IsRun(run) && i < j < |run.states| && run.actions[i].SendSync? && m in run.states[0].replicas
    requires n in run.states[i].replicas[run.actions[i].at].nodes
    ensures Enabled(run.states[j], Deliver(m, run.states[i].replicas[run.actions[i].at].nodes[n]))
  {
    NetOnlyGrows(run, i + 1, j);
    var nodes := run.states[i].replicas[run.actions[i].at].nodes;
    assert nodes[n] in nodes.Values;
    assert run.states[i + 1] == Step(run.states[i], run.actions[i]);
  }

  /** So can every publication. */
  lemma PublicationsCanArrive(run: Run, i: nat, j: nat, m: NodeId)
    requires IsRun(run) && i < j < |run.states| && run.actions[i].Publish? && m in run.states[0].replicas
    ensures Enabled(run.states[j], Deliver(m, Published(run, i)))
  {
    NetOnlyGrows(run, i + 1, j);
    assert run.states[i + 1] == Step(run.states[i], run.actions[i]);
  }

  /** What is delivered is held afterwards, or a copy at least as recent is. */
  lemma DeliveryIsHeld(run: Run, i: nat)
    requires IsRun(run) && i < |run.actions| && run.actions[i].Deliver?
    ensures var a := run.actions[i];
            && a.at in run.states[i + 1].replicas && a.state.nodeId in run.states[i + 1].replicas[a.at].nodes
            && OwnVersion(a.state) <= OwnVersion(run.states[i + 1].replicas[a.at].nodes[a.state.nodeId])
  {
    var c, a := run.states[i], run.actions[i];
    ReachableClocksHaveOneEntry(run, i);
    assert OwnedReplica(c.replicas[a.at], a.at);
    if a.state.nodeId in c.replicas[a.at].nodes {
      SoloConflictIsRank(a.state, c.replicas[a.at].nodes[a.state.nodeId]);
    }
  }

  /** Together: whatever has happened since a sync, delivering what it sent leaves the receiver with at
      least the version that was synced. */
  lemma SyncReaches(run: Run, i: nat, n: NodeId, m: NodeId)
    requires IsRun(run) && i < |run.actions| && run.actions[i].SendSync? && m in run.states[0].replicas
    requires n in run.states[i].replicas[run.actions[i].at].nodes
    ensures var x := run.states[i].replicas[run.actions[i].at].nodes[n];
            && Enabled(Last(run), Deliver(m, x))
            && var longer := Extend(run, Deliver(m, x));
               && IsRun(longer) && m in Last(longer).replicas && n in Last(longer).replicas[m].nodes
               && OwnVersion(x) <= OwnVersion(Last(longer).replicas[m].nodes[n])
  {
    var a := run.actions[i].at;
    var x := run.states[i].replicas[a].nodes[n];
    SyncedCopiesCanArrive(run, i, |run.actions|, n, m);
    ExtendedRunIsRun(run, Deliver(m, x));
    ReachableClocksHaveOneEntry(run, i);
    assert OwnedReplica(run.states[i].replicas[a], a);
    DeliveryIsHeld(Extend(run, Deliver(m, x)), |run.actions|);
  }

  /** Convergence is always within reach: from any state of a run without restarts, one sync of a node and its delivery
      to m leave m with the node's own version, agreeing with it on all but the status. */
  lemma OneSyncIsEnough(run: Run, n: NodeId, m: NodeId) returns (longer: Run)
    requires IsSteadyRun(run) && |run.actions| + 2 <= MAX_INT64
    requires n in Last(run).replicas && n in Last(run).replicas[n].nodes && m in run.states[0].replicas
    ensures IsSteadyRun(longer) && run.actions <= longer.actions && |longer.actions| == |run.actions| + 2
    ensures var nodes := Last(longer).replicas;
            && n in nodes && n in nodes[n].nodes && m in nodes && n in nodes[m].nodes
            && nodes[m].nodes[n].clock == nodes[n].nodes[n].clock && SameButStatus(nodes[m].nodes[n], nodes[n].nodes[n])
  {
    var sent := |run.actions|;
    NetOnlyGrows(run, sent, sent);
    ExtendedRunIsRun(run, SendSync(n));
    var synced := Extend(run, SendSync(n));
    var x := Last(run).replicas[n].nodes[n];
    SyncedCopiesCanArrive(synced, sent, sent + 1, n, m);
    ExtendedRunIsRun(synced, Deliver(m, x));
    longer := Extend(synced, Deliver(m, x));
    var hops := [Hop(n, sent, m, sent + 1)];
    assert IsPath(longer, n, m, sent + 2, hops[1..], m);
    DeliveryChainsConverge(longer, n, sent, hops, m);
  }

  /** Every node can sync, restart and notice a departure at any time, and either read its clock or publish. */
  lemma NobodyIsStuck(run: Run, i: nat, b: NodeId, gone: NodeId, metrics: Metrics, seenAt: int, updatedAt: int)
    requires IsRun(run) && i < |run.states| && b in run.states[0].replicas
    ensures var c := run.states[i];
            && Enabled(c, SendSync(b)) && Enabled(c, Restart(b)) && Enabled(c, NotifyLeave(b, gone))
            && (Enabled(c, ReadClock(b)) <==> !Enabled(c, Publish(b, metrics, seenAt, updatedAt)))
  {
    NetOnlyGrows(run, i, i);
  }

  // ---- Nothing else arrives ----

  /** Action k published x, up to the status. */
  ghost predicate PublishedBy(run: Run, k: nat, x: NodeState)
    requires IsRun(run)
  {
    && k < |run.actions| && run.actions[k].Publish?
    && x.nodeId == run.actions[k].at && x.metrics == run.actions[k].metrics
    && x.lastSeen == run.actions[k].seenAt && x.lastUpdated == run.actions[k].updatedAt
    && x.clock == Published(run, k).clock
  }

  /** Somebody noticed the departure of n within the first i actions. */
  ghost predicate Noticed(run: Run, i: nat, n: NodeId)
    requires IsRun(run) && i <= |run.actions|
  {
    exists k :: 0 <= k < i && run.actions[k].NotifyLeave? && run.actions[k].gone == n
  }

  lemma NewCopies(c: Cluster, a: Action, x: NodeState)
    requires Enabled(c, a) && AllOwned(c) && Holds(Step(c, a), x)
    ensures || Holds(c, x)
            || (a.Publish? && x == Publication(a.at, c.replicas[a.at].reading.value, a.metrics, a.seenAt, a.updatedAt))
            || (a.NotifyLeave? && x.nodeId == a.gone && x.status == "inactive"
                && exists y :: Holds(c, y) && x == y.(status := "inactive"))
  {
    var d := Step(c, a);
    assert OwnedReplica(c.replicas[a.at], a.at);
    if x in d.net {
      assert x in c.net || a.Publish? || x in c.replicas[a.at].nodes.Values;
    } else {
      var b :| b in d.replicas && x in d.replicas[b].nodes.Values;
      var id :| id in d.replicas[b].nodes && d.replicas[b].nodes[id] == x;
      if b == a.at && !(id in c.replicas[b].nodes && c.replicas[b].nodes[id] == x) {
        NewEntry(c, a, id);
      } else {
        assert c.replicas[b].nodes[id] == x && x in c.replicas[b].nodes.Values;
      }
    }
  }

  lemma NewEntry(c: Cluster, a: Action, id: NodeId)
    requires Enabled(c, a) && AllOwned(c) && OwnedNodes(c.replicas[a.at].nodes)
    requires id in Step(c, a).replicas[a.at].nodes
    requires var nodes := c.replicas[a.at].nodes; id in nodes ==> nodes[id] != Step(c, a).replicas[a.at].nodes[id]
    ensures var x := Step(c, a).replicas[a.at].nodes[id];
            || Holds(c, x)
            || (a.Publish? && x == Publication(a.at, c.replicas[a.at].reading.value, a.metrics, a.seenAt, a.updatedAt))
            || (a.NotifyLeave? && x.nodeId == a.gone && x.status == "inactive"
                && exists y :: Holds(c, y) && x == y.(status := "inactive"))
  {
    var nodes := c.replicas[a.at].nodes;
    match a
    case Deliver(_, ns) =>
      if ns.nodeId in nodes {
        SoloConflictIsRank(ns, nodes[ns.nodeId]);
      }
      assert Step(c, a).replicas[a.at].nodes[id] == ns;
    case NotifyLeave(_, gone) =>
      assert nodes[gone] in nodes.Values;
      assert Holds(c, nodes[gone]);
    case _ =>
  }

  /** Out of nothing comes nothing: every copy in any manager or message is one that its own node published, with the
      metrics and times of that publication, active unless somebody had noticed the node's departure. */
  lemma {:induction false} CopiesComeFromPublications(run: Run, i: nat, x: NodeState)
    requires IsRun(run) && i < |run.states| && Holds(run.states[i], x)
    ensures exists k :: 0 <= k < i && PublishedBy(run, k, x)
    ensures x.status == "active" || (x.status == "inactive" && Noticed(run, i, x.nodeId))
    decreases i
  {
    if i > 0 {
      var c, a := run.states[i - 1], run.actions[i - 1];
      ReachableClocksHaveOneEntry(run, i - 1);
      NewCopies(c, a, x);
      if Holds(c, x) {
        CopiesComeFromPublications(run, i - 1, x);
      } else if a.Publish? {
        assert PublishedBy(run, i - 1, x);
      } else {
        var y :| Holds(c, y) && x == y.(status := "inactive");
        CopiesComeFromPublications(run, i - 1, y);
        var k :| 0 <= k < i - 1 && PublishedBy(run, k, y);
        assert PublishedBy(run, k, x);
      }
    }
  }

  /** Whoever publishes has read its clock for it, with no other publication and no restart in between: a restart
      abandons the publication it interrupts. */
  lemma PublicationsReadTheirClock(run: Run, publish: nat)
    requires IsRun(run) && publish < |run.actions| && run.actions[publish].Publish?
    ensures exists read :: 0 <= read < publish && ReadFor(run, read, publish, run.actions[publish].at)
  {
    ReadingsComeFromReads(run, publish, run.actions[publish].at);
  }

  ghost predicate ReadFor(run: Run, read: nat, i: nat, n: NodeId)
    requires IsRun(run) && i <= |run.actions|
  {
    read < i && run.actions[read] == ReadClock(n) && forall k :: read < k < i ==> !Overwrites(run.actions[k], n)
  }

  lemma {:induction false} ReadingsComeFromReads(run: Run, i: nat, n: NodeId)
    requires IsRun(run) && i < |run.states| && n in run.states[i].replicas && run.states[i].replicas[n].reading.Some?
    ensures exists read :: 0 <= read < i && ReadFor(run, read, i, n)
    decreases i
  {
    if i > 0 {
      var a := run.actions[i - 1];
      assert run.states[i] == Step(run.states[i - 1], a);
      if a == ReadClock(n) {
        assert ReadFor(run, i - 1, i, n);
      } else {
        ReadingsComeFromReads(run, i - 1, n);
        var read :| 0 <= read < i - 1 && ReadFor(run, read, i - 1, n);
        assert ReadFor(run, read, i, n);
      }
    }
  }

  // ---- What a manager's events tell ----

  /** In any run, a subscriber that replays all events of a manager since its start holds the manager's map. */
  lemma {:induction false} EventsRebuildEveryReplica(run: Run, i: nat, b: NodeId)
    requires IsRun(run) && i < |run.states| && b in run.states[i].replicas
    ensures Replay(map[], run.states[i].replicas[b].events) == run.states[i].replicas[b].nodes
    decreases i
  {
    if i > 0 {
      var c, a := run.states[i - 1], run.actions[i - 1];
      assert run.states[i] == Step(c, a);
      EventsRebuildEveryReplica(run, i - 1, b);
      if a.at == b {
        match a
        case Publish(n, metrics, seenAt, updatedAt) =>
          OpIsReplayed(c.replicas[b], UpdateLocal(Publication(n, c.replicas[b].reading.value, metrics, seenAt, updatedAt)));
        case Deliver(_, ns) => OpIsReplayed(c.replicas[b], MergeRemote(ns));
        case NotifyLeave(_, gone) => OpIsReplayed(c.replicas[b], MarkInactive(gone));
        case _ =>
      }
    }
  }

  lemma OpIsReplayed(r: Replica, op: Op)
    requires Replay(map[], r.events) == r.nodes
    ensures Replay(map[], r.events + Emitted(r.nodes, op)) == Apply(r.nodes, op)
  {
    ReplayInTurn(map[], r.events, Emitted(r.nodes, op));
    ReplayOfOne(r.nodes, op);
  }

  /** The action leaves b's entry for n alone: no restart, no publication of it, no delivery that beats it. */
  ghost predicate Quiet(a: Action, b: NodeId, n: NodeId, entry: NodeState) {
    a.at == b ==>
      && !a.Restart? && !(a.Publish? && b == n)
      && (a.Deliver? && a.state.nodeId == n ==> !Beats(a.state, entry))
  }

  /** A departure, once noticed, stays noticed until there is news of the node. */
  lemma {:induction false} DepartureStaysNoticed(run: Run, i: nat, j: nat, b: NodeId, n: NodeId)
    requires IsRun(run) && i < j < |run.states| && run.actions[i] == NotifyLeave(b, n)
    requires n in run.states[i].replicas[b].nodes
    requires forall k :: i < k < j ==> Quiet(run.actions[k], b, n, run.states[i].replicas[b].nodes[n])
    ensures b in run.states[j].replicas && n in run.states[j].replicas[b].nodes
    ensures run.states[j].replicas[b].nodes[n] == run.states[i].replicas[b].nodes[n].(status := "inactive")
    decreases j
  {
    assert run.states[j] == Step(run.states[j - 1], run.actions[j - 1]);
    if i < j - 1 {
      DepartureStaysNoticed(run, i, j - 1, b, n);
    }
  }
}
