/** Publishing the local state, and the broadcast queue in which a newer state of a node
    pushes out the older ones. */
module Publisher {
  import opened VectorClocks
  import opened NodeStates
  import opened Storage
  import opened StateManagers
  import opened Clusters

  /** A queued broadcast invalidates another one of the same node. */
  predicate Invalidates(b: NodeState, other: NodeState) {
    b.nodeId == other.nodeId
  }

  function Surviving(queue: seq<NodeState>, b: NodeState): seq<NodeState> {
    if queue == [] then []
    else
      var last := queue[|queue| - 1];
      Surviving(queue[..|queue| - 1], b) + if Invalidates(b, last) then [] else [last]
  }

  function Enqueue(queue: seq<NodeState>, b: NodeState): seq<NodeState> {
    Surviving(queue, b) + [b]
  }

  function EnqueueAll(broadcasts: seq<NodeState>): seq<NodeState> {
    if broadcasts == [] then []
    else Enqueue(EnqueueAll(broadcasts[..|broadcasts| - 1]), broadcasts[|broadcasts| - 1])
  }

  class BroadcastQueue {
    var queue: seq<NodeState>

    constructor ()
      ensures queue == []
    {
      queue := [];
    }

    method QueueBroadcast(b: NodeState)
      modifies this
      ensures queue == Enqueue(old(queue), b)
    {
      var kept: seq<NodeState> := [];
      var i := 0;
      while i < |queue|
        invariant 0 <= i <= |queue|
        invariant queue == old(queue)
        invariant kept == Surviving(queue[..i], b)
      {
        assert queue[..i + 1][..i] == queue[..i];
        if !Invalidates(b, queue[i]) {
          kept := kept + [queue[i]];
        }
        i := i + 1;
      }
      assert queue[..i] == queue;
      queue := kept + [b];
    }
  }

  /** The clock to publish on: that of the manager's own entry. A persisted state has none to give. */
  method RecoverClock(nodeId: NodeId, sm: StateManager, store: Store, readOk: bool) returns (clock: VectorClock)
    ensures fresh(clock) && clock.entries == ClockRead(sm.nodes, nodeId)
  {
    clock := new VectorClock(map[]);
    var existing := sm.GetNode(nodeId);
    if existing.Some? {
      clock.Merge(existing.value.clock);
    } else {
      var persisted := store.GetNodeState(nodeId, readOk);
      if persisted.Some? {
        clock.Merge(persisted.value.clock);
        assert Join(map[], map[]) == map[];
      }
    }
  }

  /** One round of the monitor loop, when nothing else runs in between; it does nothing when no metrics
      could be collected. The manager and the loop share one database. */
  method CollectAndPublish(
    nodeId: NodeId, collected: Option<Metrics>, sm: StateManager, queue: BroadcastQueue, store: Store,
    updatedAt: int, seenAt: int, storedAt: int, takenAt: int, readOk: bool, saveOk: bool, dbOk: bool)
    returns (published: Option<NodeState>)
    requires sm.Valid() && sm.store == store
    modifies sm`nodes, sm`updatedAt, sm`emitted, sm.subscribers, queue, store
    ensures sm.Valid()
    ensures published.None? <==> collected.None?
    ensures collected.None? ==>
              sm.nodes == old(sm.nodes) && sm.emitted == old(sm.emitted)
              && queue.queue == old(queue.queue) && store.table == old(store.table)
              && store.nodeStates == old(store.nodeStates)
              && (forall ch :: ch in sm.subscribers ==> ch.buf == old(ch.buf))
    ensures collected.Some? ==>
              var ns := published.value;
              && ns == NodeState(nodeId, "active", collected.value, seenAt, updatedAt, ns.clock)
              && ns.clock == Bump(ClockRead(old(sm.nodes), nodeId), nodeId)
              && ns == Publication(nodeId, ClockRead(old(sm.nodes), nodeId), collected.value, seenAt, updatedAt)
              && sm.nodes == Apply(old(sm.nodes), UpdateLocal(ns))
              && sm.emitted == old(sm.emitted) + Emitted(old(sm.nodes), UpdateLocal(ns))
              && (forall ch :: ch in sm.subscribers ==>
                    ch.buf == OfferAll(old(ch.buf), SUBSCRIBER_BUFFER, Emitted(old(sm.nodes), UpdateLocal(ns))))
              && queue.queue == Enqueue(old(queue.queue), ns)
              && store.nodeStates ==
                   (if saveOk then old(store.nodeStates)[nodeId := WithoutClock(ns)] else old(store.nodeStates))
              && (var row := HistoryRecord(0, nodeId, takenAt, "metric_update", "", "local", collected.value);
                  store.table == if dbOk then Insert(old(store.table), row) else old(store.table))
  {
    if collected.None? {
      return None;
    }
    var clock := RecoverClock(nodeId, sm, store, readOk);
    clock.Increment(nodeId);
    var ns := NodeState(nodeId, "active", collected.value, seenAt, updatedAt, clock.entries);
    sm.UpdateLocalNode(ns, storedAt);
    queue.QueueBroadcast(ns);
    var _ := store.SaveNodeState(ns, saveOk);
    // The measurement is stored without a status.
    var record := HistoryRecord(0, nodeId, takenAt, "metric_update", "", "local", ns.metrics);
    var _ := store.SaveHistoryRecord(record, dbOk);
    return Some(ns);
  }

  // ---- Invalidation loses nothing ----

  ghost predicate RisingRanks(broadcasts: seq<NodeState>) {
    && (forall i :: 0 <= i < |broadcasts| ==> Solo(broadcasts[i]))
    && (forall i, j :: 0 <= i < j < |broadcasts| && broadcasts[i].nodeId == broadcasts[j].nodeId ==>
          Outranks(broadcasts[j], broadcasts[i]))
  }

  lemma {:induction false} SurvivingMembers(queue: seq<NodeState>, b: NodeState)
    ensures forall x :: x in Surviving(queue, b) <==> x in queue && !Invalidates(b, x)
  {
    if queue != [] {
      var init, last := queue[..|queue| - 1], queue[|queue| - 1];
      assert queue == init + [last];
      SurvivingMembers(init, b);
    }
  }

  /** Broadcasts of other nodes keep their places: invalidation works on each stretch of the queue by itself. */
  lemma {:induction false} SurvivingKeepsTheOrder(a: seq<NodeState>, c: seq<NodeState>, b: NodeState)
    ensures Surviving(a + c, b) == Surviving(a, b) + Surviving(c, b)
    ensures |a| == 1 ==> Surviving(a, b) == if a[0].nodeId == b.nodeId then [] else a
    decreases |c|
  {
    if |a| == 1 {
      assert a[..0] == [];
    }
    if c == [] {
      assert a + c == a;
    } else {
      var init, last := c[..|c| - 1], c[|c| - 1];
      assert (a + c)[..|a + c| - 1] == a + init;
      SurvivingKeepsTheOrder(a, init, b);
    }
  }

  lemma {:induction false} EnqueueAllMembers(broadcasts: seq<NodeState>)
    ensures forall x :: x in EnqueueAll(broadcasts) ==> x in broadcasts
  {
    if broadcasts != [] {
      var init, last := broadcasts[..|broadcasts| - 1], broadcasts[|broadcasts| - 1];
      assert broadcasts == init + [last];
      EnqueueAllMembers(init);
      SurvivingMembers(EnqueueAll(init), last);
    }
  }

  /** What the entry of b's node can be after some states that b outranks were merged over it. */
  ghost predicate OldOrOutranked(start: Nodes, now: Nodes, b: NodeState)
    requires Solo(b)
  {
    var n := b.nodeId;
    || (n !in start && n !in now)
    || (n in start && n in now && now[n] == start[n])
    || (n in now && Solo(now[n]) && now[n].nodeId == n && Outranks(b, now[n])
        && (n in start ==> Solo(start[n]) && Outranks(now[n], start[n])))
  }

  ghost predicate SameElsewhere(a: Nodes, b: Nodes, n: NodeId) {
    forall id :: id != n ==> (id in a <==> id in b) && (id in a ==> a[id] == b[id])
  }

  /** with and without are what start becomes when states that b outranks are merged or not. */
  ghost predicate ApartBelow(start: Nodes, with: Nodes, without: Nodes, b: NodeState)
    requires Solo(b)
  {
    && OwnedNodes(with)
    && OldOrOutranked(start, with, b)
    && SameElsewhere(with, without, b.nodeId)
    && (b.nodeId in start <==> b.nodeId in without)
    && (b.nodeId in start ==> without[b.nodeId] == start[b.nodeId])
  }

  lemma OutrankedMergeStaysApart(start: Nodes, with: Nodes, without: Nodes, b: NodeState, r: NodeState)
    requires Solo(b) && Solo(r) && r.nodeId == b.nodeId && Outranks(b, r)
    requires OwnedNodes(start) && ApartBelow(start, with, without, b)
    ensures ApartBelow(start, Merge(with, r), without, b)
  {
    if r.nodeId in with {
      SoloConflictIsRank(r, with[r.nodeId]);
    }
  }

  lemma OtherMergeStaysApart(start: Nodes, with: Nodes, without: Nodes, b: NodeState, r: NodeState)
    requires Solo(b) && Solo(r) && r.nodeId != b.nodeId
    requires ApartBelow(start, with, without, b)
    ensures ApartBelow(start, Merge(with, r), Merge(without, r), b)
  {
    MergeKeepsOwned(with, r);
  }

  lemma ApartMeetAgain(start: Nodes, with: Nodes, without: Nodes, b: NodeState)
    requires Solo(b) && OwnedNodes(start) && ApartBelow(start, with, without, b)
    ensures Merge(with, b) == Merge(without, b)
  {
    var n := b.nodeId;
    if n in with {
      SoloConflictIsRank(b, with[n]);
    }
    if n in without {
      SoloConflictIsRank(b, without[n]);
    }
    var x, y := Merge(with, b), Merge(without, b);
    assert n in x && n in y && x[n] == y[n];
    assert x.Keys == y.Keys;
  }

  /** Merging a queue with or without the states that b invalidates differs at b's node only. */
  lemma {:induction false} InvalidatedMatterOnlyLocally(nodes: Nodes, queue: seq<NodeState>, b: NodeState)
    requires OwnedNodes(nodes) && Solo(b)
    requires forall x :: x in queue ==> Solo(x) && (x.nodeId == b.nodeId ==> Outranks(b, x))
    ensures ApartBelow(nodes, MergeAll(nodes, queue), MergeAll(nodes, Surviving(queue, b)), b)
  {
    if queue != [] {
      var init, last := queue[..|queue| - 1], queue[|queue| - 1];
      assert queue == init + [last];
      InvalidatedMatterOnlyLocally(nodes, init, b);
      var kept := Surviving(init, b);
      if Invalidates(b, last) {
        assert Surviving(queue, b) == kept;
        OutrankedMergeStaysApart(nodes, MergeAll(nodes, init), MergeAll(nodes, kept), b, last);
      } else {
        assert Surviving(queue, b) == kept + [last];
        assert (kept + [last])[..|kept|] == kept;
        OtherMergeStaysApart(nodes, MergeAll(nodes, init), MergeAll(nodes, kept), b, last);
      }
    }
  }

  lemma OneInvalidationIsLossless(nodes: Nodes, queue: seq<NodeState>, b: NodeState)
    requires OwnedNodes(nodes) && Solo(b)
    requires forall x :: x in queue ==> Solo(x) && (x.nodeId == b.nodeId ==> Outranks(b, x))
    ensures Merge(MergeAll(nodes, queue), b) == MergeAll(nodes, Enqueue(queue, b))
  {
    InvalidatedMatterOnlyLocally(nodes, queue, b);
    ApartMeetAgain(nodes, MergeAll(nodes, queue), MergeAll(nodes, Surviving(queue, b)), b);
    assert Enqueue(queue, b)[..|Surviving(queue, b)|] == Surviving(queue, b);
  }

  /** Broadcasts whose ranks rise per node can be queued with invalidation: any receiver ends in the
      same state from what survives in the queue as from all of them delivered in order. */
  lemma {:induction false} InvalidationIsLossless(nodes: Nodes, broadcasts: seq<NodeState>)
    requires OwnedNodes(nodes) && RisingRanks(broadcasts)
    ensures MergeAll(nodes, EnqueueAll(broadcasts)) == MergeAll(nodes, broadcasts)
  {
    if broadcasts != [] {
      var init, b := broadcasts[..|broadcasts| - 1], broadcasts[|broadcasts| - 1];
      InvalidationIsLossless(nodes, init);
      EnqueueAllMembers(init);
      forall x | x in EnqueueAll(init) ensures Solo(x) && (x.nodeId == b.nodeId ==> Outranks(b, x)) {
        var i :| 0 <= i < |init| && init[i] == x;
        assert broadcasts[i] == x;
      }
      OneInvalidationIsLossless(nodes, EnqueueAll(init), b);
    }
  }

  /** In a run without restarts, whatever stretch of a node's publications is queued up, only the
      last survives, and any replica ends as if it had received them all in order. */
  lemma QueuedPublicationsAreLossless(run: Run, i: nat, n: NodeId, from: nat, to: nat, b: NodeId)
    requires IsSteadyRun(run) && i < |run.states|
    requires n in run.states[i].published && from < to <= |run.states[i].published[n]|
    requires b in run.states[i].replicas
    ensures var stretch := run.states[i].published[n][from..to];
            && EnqueueAll(stretch) == [stretch[|stretch| - 1]]
            && MergeAll(run.states[i].replicas[b].nodes, [stretch[|stretch| - 1]])
               == MergeAll(run.states[i].replicas[b].nodes, stretch)
  {
    var c := run.states[i];
    var stretch := c.published[n][from..to];
    SteadyRunsKeepInv(run, i);
    ReachableClocksHaveOneEntry(run, i);
    assert GoodHistory(n, c.published[n]);
    assert OwnedReplica(c.replicas[b], b);
    assert forall k :: 0 <= k < |stretch| ==> stretch[k] == c.published[n][from + k];
    InvalidationIsLossless(c.replicas[b].nodes, stretch);
    OneNodeQueuesOnlyItsLast(stretch, n);
  }

  lemma {:induction false} OneNodeQueuesOnlyItsLast(broadcasts: seq<NodeState>, n: NodeId)
    requires broadcasts != [] && forall x :: x in broadcasts ==> x.nodeId == n
    ensures EnqueueAll(broadcasts) == [broadcasts[|broadcasts| - 1]]
  {
    var init, last := broadcasts[..|broadcasts| - 1], broadcasts[|broadcasts| - 1];
    if init != [] {
      OneNodeQueuesOnlyItsLast(init, n);
      assert init[|init| - 1] in broadcasts && last in broadcasts;
      var x := init[|init| - 1];
      assert Surviving([x], last) == Surviving([x][..0], last) == [];
    } else {
      assert EnqueueAll(init) == [];
    }
  }
}
