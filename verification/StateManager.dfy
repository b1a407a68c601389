/** The state manager: the replicated map, its subscribers and the history it records.
    Each method runs under the manager's lock; times and database outcomes are parameters. */
module StateManagers {
  import opened VectorClocks
  import opened NodeStates
  import opened Channels
  import opened Storage

  const SUBSCRIBER_BUFFER: nat := 64

  /** What a subscriber's buffer becomes after a burst of events, dropping those that do not fit. */
  function OfferAll<T>(buf: seq<T>, capacity: nat, xs: seq<T>): seq<T>
    decreases |xs|
  {
    if xs == [] then buf else OfferAll(Offer(buf, capacity, xs[0]), capacity, xs[1..])
  }

  lemma {:induction false} OfferAllInTurn<T>(buf: seq<T>, capacity: nat, xs: seq<T>, ys: seq<T>)
    ensures OfferAll(buf, capacity, xs + ys) == OfferAll(OfferAll(buf, capacity, xs), capacity, ys)
    decreases |xs|
  {
    if xs == [] {
      assert xs + ys == ys;
    } else {
      assert (xs + ys)[1..] == xs[1..] + ys;
      OfferAllInTurn(Offer(buf, capacity, xs[0]), capacity, xs[1..], ys);
    }
  }

  /** What a burst leaves in a queue: everything that fits, in order, and nothing of the rest. */
  lemma {:induction false} OfferAllKeepsWhatFits<T>(buf: seq<T>, capacity: nat, xs: seq<T>)
    ensures var room := if |buf| < capacity then capacity - |buf| else 0;
            OfferAll(buf, capacity, xs) == buf + xs[..if |xs| < room then |xs| else room]
    decreases |xs|
  {
    if xs != [] {
      OfferAllKeepsWhatFits(Offer(buf, capacity, xs[0]), capacity, xs[1..]);
    }
  }

  function HistoryOf(ns: NodeState, eventType: string): HistoryRecord {
    HistoryRecord(0, ns.nodeId, ns.lastUpdated, eventType, ns.status, "gossip", ns.metrics)
  }

  /** The rows a merge or a mark adds to the history, before conflicts are skipped. */
  function Recorded(nodes: Nodes, op: Op): seq<HistoryRecord> {
    match op
    case UpdateLocal(_) => []
    case MergeRemote(ns) =>
      if !Accepts(nodes, ns) then []
      else [HistoryOf(ns, if ns.nodeId in nodes then "metric_update" else "node_join")]
    case MarkInactive(id) =>
      if id in nodes then [HistoryOf(nodes[id].(status := "inactive"), "node_leave")] else []
  }

  /** One row per join, takeover and leave, copied from the entry the map then holds. */
  lemma RecordedCopiesTheEntry(nodes: Nodes, op: Op)
    ensures op.UpdateLocal? ==> Recorded(nodes, op) == []
    ensures !op.UpdateLocal? ==> |Recorded(nodes, op)| == |Emitted(nodes, op)| <= 1
    ensures Recorded(nodes, op) != [] ==>
              var id, row := if op.MarkInactive? then op.nodeId else op.state.nodeId, Recorded(nodes, op)[0];
              && id in Apply(nodes, op)
              && var e := Apply(nodes, op)[id];
                 && row.nodeId == e.nodeId && row.timestamp == e.lastUpdated && row.status == e.status
                 && row.metrics == e.metrics && row.source == "gossip" && row.id == 0
                 && (op.MergeRemote? ==> e.nodeId == id && e.lastUpdated == op.state.lastUpdated && e.status == op.state.status
                                         && e.metrics == op.state.metrics)
                 && row.eventType == (if op.MarkInactive? then "node_leave"
                                      else if id in nodes then "metric_update" else "node_join")
  {
    if op.MergeRemote? && Accepts(nodes, op.state) {
      assert Recorded(nodes, op)[0].nodeId == op.state.nodeId;
    }
  }

  /** The history table after merging a schedule of states; the k-th write succeeds when dbOk(k). */
  function RecordAll(t: Table, nodes: Nodes, states: seq<NodeState>, dbOk: nat -> bool): Table {
    if states == [] then t
    else
      var n := |states| - 1;
      var earlier := RecordAll(t, nodes, states[..n], dbOk);
      if dbOk(n) then ImportAll(earlier, Recorded(MergeAll(nodes, states[..n]), MergeRemote(states[n]))) else earlier
  }

  /** Every takeover of a schedule whose write works leaves its row in the history, under the time of the state. */
  lemma {:induction false} TakeoversAreRecorded(
    t: Table, nodes: Nodes, states: seq<NodeState>, dbOk: nat -> bool, i: nat)
    requires i < |states| && Accepts(MergeAll(nodes, states[..i]), states[i]) && dbOk(i)
    ensures var known := states[i].nodeId in MergeAll(nodes, states[..i]);
            HasKey(RecordAll(t, nodes, states, dbOk),
                   (states[i].nodeId, states[i].lastUpdated, if known then "metric_update" else "node_join"))
    decreases |states|
  {
    var n := |states| - 1;
    var earlier, rows := RecordAll(t, nodes, states[..n], dbOk), Recorded(MergeAll(nodes, states[..n]), MergeRemote(states[n]));
    var after := RecordAll(t, nodes, states, dbOk);
    assert Grows(earlier, after) by { ImportConserves(earlier, rows); }
    if i == n {
      RecordedCopiesTheEntry(MergeAll(nodes, states[..n]), MergeRemote(states[n]));
      assert rows == [rows[0]] && rows[..0] == [];
      assert dbOk(n);
      assert after == ImportAll(earlier, rows);
      assert rows[..|rows| - 1] == [];
      assert ImportAll(earlier, rows) == Insert(ImportAll(earlier, []), rows[0]);
      InsertConserves(earlier, rows[0]);
    } else {
      assert states[..n][..i] == states[..i];
      TakeoversAreRecorded(t, nodes, states[..n], dbOk, i);
      var known := states[i].nodeId in MergeAll(nodes, states[..i]);
      GrowthKeeps(earlier, after,
                  (states[i].nodeId, states[i].lastUpdated, if known then "metric_update" else "node_join"), 0);
    }
  }

  datatype ClusterState = ClusterState(clusterName: string, nodes: Nodes, localNodeId: NodeId, updatedAt: int)

  class StateManager {
    const clusterName: string
    const localNodeId: NodeId
    const store: Store?
    var nodes: Nodes
    var updatedAt: int
    var subscribers: set<Chan<Event>>
    var historySyncTime: Option<int>
    ghost var emitted: seq<Event>

    ghost predicate Valid()
      reads this, subscribers
    {
      forall ch :: ch in subscribers ==> !ch.closed && ch.capacity == SUBSCRIBER_BUFFER
    }

    ghost function Database(): set<Store> {
      if store == null then {} else {store}
    }

    constructor (clusterName: string, localNodeId: NodeId, store: Store?, now: int)
      ensures Valid() && this.store == store && this.localNodeId == localNodeId && this.clusterName == clusterName
      ensures nodes == map[] && subscribers == {} && historySyncTime == None && emitted == [] && updatedAt == now
    {
      this.clusterName := clusterName;
      this.localNodeId := localNodeId;
      this.store := store;
      nodes := map[];
      updatedAt := now;
      subscribers := {};
      historySyncTime := None;
      emitted := [];
    }

    /** Copies the map entry by entry, so that the caller's copy shares nothing with it. */
    method GetClusterState() returns (cs: ClusterState)
      ensures cs == ClusterState(clusterName, nodes, localNodeId, updatedAt)
    {
      var copy: Nodes := map[];
      var rest := nodes.Keys;
      while rest != {}
        invariant rest <= nodes.Keys
        invariant copy.Keys == nodes.Keys - rest
        invariant forall id :: id in copy ==> copy[id] == nodes[id]
      {
        var id :| id in rest;
        rest := rest - {id};
        copy := copy[id := nodes[id]];
      }
      cs := ClusterState(clusterName, copy, localNodeId, updatedAt);
    }

    method GetNode(nodeId: NodeId) returns (ns: Option<NodeState>)
      ensures ns == if nodeId in nodes then Some(nodes[nodeId]) else None
    {
      ns := if nodeId in nodes then Some(nodes[nodeId]) else None;
    }

    method SetHistorySyncTime(t: int)
      modifies this`historySyncTime
      ensures historySyncTime == Some(t)
    {
      historySyncTime := Some(t);
    }

    method UpdateLocalNode(ns: NodeState, now: int)
      requires Valid()
      modifies this`nodes, this`updatedAt, this`emitted, subscribers
      ensures Valid()
      ensures nodes == Apply(old(nodes), UpdateLocal(ns)) && updatedAt == now
      ensures emitted == old(emitted) + Emitted(old(nodes), UpdateLocal(ns))
      ensures forall ch :: ch in subscribers ==>
                ch.buf == OfferAll(old(ch.buf), SUBSCRIBER_BUFFER, Emitted(old(nodes), UpdateLocal(ns)))
    {
      nodes := nodes[ns.nodeId := ns];
      updatedAt := now;
      Broadcast(Event(ns.nodeId, "update", ns));
    }

    /** Decides whether the remote state replaces the local one. */
    method ResolveConflict(local: NodeState, remote: NodeState) returns (remoteWins: bool)
      ensures remoteWins == Beats(remote, local)
    {
      var remoteClock := new VectorClock(remote.clock);
      var localClock := new VectorClock(local.clock);
      var order := remoteClock.Compare(localClock);
      if order == 1 {
        return true;
      }
      if order == -1 {
        return false;
      }
      return remote.lastUpdated > local.lastUpdated;
    }

    /** Returns true exactly when the state was taken over, which is when one event was emitted. */
    method MergeNodeState(remote: NodeState, now: int, dbOk: bool) returns (changed: bool)
      requires Valid()
      modifies this`nodes, this`updatedAt, this`emitted, subscribers, Database()`table
      ensures Valid()
      ensures changed == Accepts(old(nodes), remote) && changed == (|emitted| == |old(emitted)| + 1)
      ensures nodes == Apply(old(nodes), MergeRemote(remote))
      ensures updatedAt == if changed then now else old(updatedAt)
      ensures emitted == old(emitted) + Emitted(old(nodes), MergeRemote(remote))
      ensures forall ch :: ch in subscribers ==>
                ch.buf == OfferAll(old(ch.buf), SUBSCRIBER_BUFFER, Emitted(old(nodes), MergeRemote(remote)))
      ensures store != null ==>
                store.table == (if dbOk then ImportAll(old(store.table), Recorded(old(nodes), MergeRemote(remote)))
                                else old(store.table))
    {
      if remote.nodeId !in nodes {
        nodes := nodes[remote.nodeId := remote];
        updatedAt := now;
        Broadcast(Event(remote.nodeId, "join", remote));
        RecordEvent(remote, "node_join", dbOk);
        assert [HistoryOf(remote, "node_join")][..0] == [];
        return true;
      }
      var local := nodes[remote.nodeId];
      var remoteWins := ResolveConflict(local, remote);
      if !remoteWins {
        return false;
      }
      var clock := new VectorClock(remote.clock);
      clock.Merge(local.clock);
      var winner := remote.(clock := clock.entries);
      nodes := nodes[remote.nodeId := winner];
      updatedAt := now;
      Broadcast(Event(remote.nodeId, "update", winner));
      RecordEvent(winner, "metric_update", dbOk);
      assert [HistoryOf(winner, "metric_update")][..0] == [];
      return true;
    }

    method MarkNodeInactive(nodeId: NodeId, now: int, dbOk: bool)
      requires Valid()
      modifies this`nodes, this`updatedAt, this`emitted, subscribers, Database()`table
      ensures Valid()
      ensures nodes == Apply(old(nodes), MarkInactive(nodeId))
      ensures updatedAt == if nodeId in old(nodes) then now else old(updatedAt)
      ensures emitted == old(emitted) + Emitted(old(nodes), MarkInactive(nodeId))
      ensures forall ch :: ch in subscribers ==>
                ch.buf == OfferAll(old(ch.buf), SUBSCRIBER_BUFFER, Emitted(old(nodes), MarkInactive(nodeId)))
      ensures store != null ==>
                store.table == (if dbOk then ImportAll(old(store.table), Recorded(old(nodes), MarkInactive(nodeId)))
                                else old(store.table))
    {
      if nodeId !in nodes {
        return;
      }
      var inactive := nodes[nodeId].(status := "inactive");
      nodes := nodes[nodeId := inactive];
      updatedAt := now;
      Broadcast(Event(nodeId, "leave", inactive));
      RecordEvent(inactive, "node_leave", dbOk);
      assert [HistoryOf(inactive, "node_leave")][..0] == [];
    }

    method Subscribe() returns (ch: Chan<Event>)
      requires Valid()
      modifies this`subscribers
      ensures Valid() && fresh(ch) && subscribers == old(subscribers) + {ch}
      ensures ch.buf == [] && ch.capacity == 64
    {
      ch := new Chan<Event>(SUBSCRIBER_BUFFER);
      subscribers := subscribers + {ch};
    }

    method Unsubscribe(ch: Chan<Event>)
      requires Valid() && !ch.closed
      modifies this`subscribers, ch`closed
      ensures Valid() && subscribers == old(subscribers) - {ch} && ch.closed
    {
      subscribers := subscribers - {ch};
      ch.Close();
    }

    /** Offers the event to every subscriber, in any order; no subscriber is ever closed here. */
    method Broadcast(event: Event)
      requires Valid()
      modifies this`emitted, subscribers
      ensures Valid() && emitted == old(emitted) + [event]
      ensures forall ch :: ch in subscribers ==>
                ch.buf == if |old(ch.buf)| < 64 then old(ch.buf) + [event] else old(ch.buf)
    {
      emitted := emitted + [event];
      var rest := subscribers;
      while rest != {}
        invariant rest <= subscribers
        invariant Valid() && emitted == old(emitted) + [event]
        invariant forall ch :: ch in subscribers ==>
                    ch.buf == if ch in rest then old(ch.buf) else Offer(old(ch.buf), SUBSCRIBER_BUFFER, event)
      {
        var ch :| ch in rest;
        rest := rest - {ch};
        var _ := ch.TrySend(event);
      }
    }

    method RecordEvent(ns: NodeState, eventType: string, dbOk: bool)
      modifies Database()`table
      ensures store != null ==>
                var row := HistoryRecord(0, ns.nodeId, ns.lastUpdated, eventType, ns.status, "gossip", ns.metrics);
                store.table == (if dbOk then Insert(old(store.table), row) else old(store.table))
    {
      if store == null {
        return;
      }
      var record := HistoryOf(ns, eventType);
      var _ := store.SaveHistoryRecord(record, dbOk);
    }
  }
}
