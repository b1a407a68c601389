/** The gossip manager's message handlers, run one at a time. Sending is left to the caller:
    a handler returns what it would send. */
module Gossip {
  import opened VectorClocks
  import opened NodeStates
  import opened Channels
  import opened Storage
  import opened StateManagers
  import opened HistoryPull

  datatype SyncError = Cancelled | SendFailed | ImportFailed | MaxPagesExceeded

  class PendingSync {
    const reqId: string
    const limit: int
    const done: Chan<Option<SyncError>>
    var offset: int
    var total: int

    constructor (reqId: string, done: Chan<Option<SyncError>>)
      ensures this.reqId == reqId && limit == PAGE && this.done == done && offset == 0 && total == 0
    {
      this.reqId := reqId;
      limit := PAGE;
      this.done := done;
      offset := 0;
      total := 0;
    }
  }

  class GossipManager {
    const localNode: NodeId
    const stateMgr: StateManager
    const store: Store
    var pendingSyncs: map<string, PendingSync>

    /** Every registered sync is still waiting for its one signal, on a channel of its own. */
    ghost predicate Valid()
      reads this, stateMgr, stateMgr.subscribers, pendingSyncs.Values, (set id | id in pendingSyncs :: pendingSyncs[id].done)
    {
      && stateMgr.Valid()
      && (forall id :: id in pendingSyncs ==>
            var ps := pendingSyncs[id];
            ps.reqId == id && ps.limit == PAGE && ps.done.capacity == 1 && ps.done.buf == [] && !ps.done.closed)
      && (forall i, j :: i in pendingSyncs && j in pendingSyncs && i != j ==> pendingSyncs[i].done != pendingSyncs[j].done)
    }

    constructor (localNode: NodeId, stateMgr: StateManager, store: Store)
      requires stateMgr.Valid()
      ensures Valid() && this.localNode == localNode && this.stateMgr == stateMgr && this.store == store
      ensures pendingSyncs == map[]
    {
      this.localNode := localNode;
      this.stateMgr := stateMgr;
      this.store := store;
      pendingSyncs := map[];
    }

    /** A cluster sync merges its states one after the other: the events it emits rebuild the result, every
        subscriber is offered them in order, and each acceptance is recorded. The k-th merge happens at now(k). */
    method HandleClusterSync(states: seq<NodeState>, now: nat -> int, dbOk: nat -> bool)
      requires Valid()
      modifies stateMgr`nodes, stateMgr`updatedAt, stateMgr`emitted, stateMgr.subscribers, stateMgr.Database()`table
      ensures Valid()
      ensures stateMgr.nodes == MergeAll(old(stateMgr.nodes), states)
      ensures old(stateMgr.emitted) <= stateMgr.emitted
      ensures Replay(old(stateMgr.nodes), stateMgr.emitted[|old(stateMgr.emitted)|..]) == stateMgr.nodes
      ensures forall ch :: ch in stateMgr.subscribers ==>
                ch.buf == OfferAll(old(ch.buf), SUBSCRIBER_BUFFER, stateMgr.emitted[|old(stateMgr.emitted)|..])
      ensures stateMgr.store != null ==>
                stateMgr.store.table == RecordAll(old(stateMgr.store.table), old(stateMgr.nodes), states, dbOk)
    {
      ghost var start, known := stateMgr.nodes, |stateMgr.emitted|;
      var i := 0;
      while i < |states|
        invariant 0 <= i <= |states|
        invariant stateMgr.Valid() && stateMgr.subscribers == old(stateMgr.subscribers)
        invariant stateMgr.nodes == MergeAll(start, states[..i])
        invariant old(stateMgr.emitted) <= stateMgr.emitted
        invariant Replay(start, stateMgr.emitted[known..]) == stateMgr.nodes
        invariant forall ch :: ch in stateMgr.subscribers ==>
                    ch.buf == OfferAll(old(ch.buf), SUBSCRIBER_BUFFER, stateMgr.emitted[known..])
        invariant stateMgr.store != null ==>
                    stateMgr.store.table == RecordAll(old(stateMgr.store.table), start, states[..i], dbOk)
      {
        assert states[..i + 1][..i] == states[..i];
        ghost var nodes, events := stateMgr.nodes, stateMgr.emitted[known..];
        var _ := stateMgr.MergeNodeState(states[i], now(i), dbOk(i));
        ghost var op := MergeRemote(states[i]);
        assert stateMgr.emitted[known..] == events + Emitted(nodes, op);
        ReplayInTurn(start, events, Emitted(nodes, op));
        ReplayOfOne(nodes, op);
        forall ch | ch in stateMgr.subscribers
          ensures ch.buf == OfferAll(old(ch.buf), SUBSCRIBER_BUFFER, stateMgr.emitted[known..])
        {
          OfferAllInTurn(old(ch.buf), SUBSCRIBER_BUFFER, events, Emitted(nodes, op));
        }
        i := i + 1;
      }
      assert states[..i] == states;
    }

    /** Answers a page request, if the query works and the requester is among the current members. */
    method HandleHistoryPullRequest(q: Request, fromNode: NodeId, members: seq<NodeId>, dbOk: bool)
      returns (sent: Option<Response>)
      ensures sent == if dbOk && fromNode in members then Some(Answer(store.table, q)) else None
    {
      var since := if q.sinceUnixNano > 0 then Some(q.sinceUnixNano) else None;
      var limit := q.limit;
      if limit <= 0 || limit > MAX_LIMIT {
        limit := MAX_LIMIT;
      }
      var records, ok := store.GetAllHistorySince(since, q.offset, limit, dbOk);
      if !ok {
        return None;
      }
      var hasMore := |records| == limit;
      var response := Response(q.requestId, records, hasMore, q.offset + |records|);
      assert response == Answer(store.table, q);
      var i := 0;
      while i < |members|
        invariant 0 <= i <= |members| && fromNode !in members[..i]
      {
        if members[i] == fromNode {
          return Some(response);
        }
        i := i + 1;
      }
      return None;
    }

    /** Registers a new sync and returns it with its first request. */
    method BeginSync(reqId: string) returns (ps: PendingSync, first: Request)
      requires Valid()
      modifies this`pendingSyncs
      ensures Valid() && fresh(ps) && fresh(ps.done)
      ensures pendingSyncs == old(pendingSyncs)[reqId := ps]
      ensures ps.offset == 0 && ps.total == 0
      ensures first == Ask(reqId, NanosOf(stateMgr.historySyncTime), 0)
    {
      var done := new Chan<Option<SyncError>>(1);
      ps := new PendingSync(reqId, done);
      pendingSyncs := pendingSyncs[reqId := ps];
      first := NextRequest(ps);
    }

    method NextRequest(ps: PendingSync) returns (q: Request)
      ensures q == Ask(ps.reqId, NanosOf(stateMgr.historySyncTime), ps.offset)
    {
      var sinceNano := 0;
      if stateMgr.historySyncTime.Some? {
        sinceNano := stateMgr.historySyncTime.value;
      }
      q := Request(ps.reqId, sinceNano, ps.offset, PAGE);
    }

    /** Removes the sync and signals its outcome; does nothing if it was removed before. */
    method FailPendingSync(ps: PendingSync, outcome: Option<SyncError>)
      requires Valid()
      requires ps.reqId in pendingSyncs ==> pendingSyncs[ps.reqId] == ps
      modifies this`pendingSyncs, ps.done
      ensures Valid()
      ensures pendingSyncs == old(pendingSyncs) - {ps.reqId}
      ensures if ps.reqId in old(pendingSyncs) then ps.done.buf == [outcome] && ps.done.closed
              else ps.done.buf == old(ps.done.buf) && ps.done.closed == old(ps.done.closed)
    {
      if ps.reqId in pendingSyncs {
        pendingSyncs := pendingSyncs - {ps.reqId};
        var sent := ps.done.TrySend(outcome);
        assert sent;
        ps.done.Close();
      } else {
        assert pendingSyncs - {ps.reqId} == pendingSyncs;
      }
    }

    /** Imports the records of a page and, unless a write failed, counts them and moves the offset. */
    method ImportPage(ps: PendingSync, r: Response, faultAt: nat) returns (ok: bool)
      modifies store`table, ps`total, ps`offset
      ensures ok <==> |r.records| <= faultAt
      ensures store.table == ImportAll(old(store.table), if ok then r.records else r.records[..faultAt])
      ensures ps.total == old(ps.total) + (if ok then |store.table.rows| - |old(store.table).rows| else 0)
      ensures ps.offset == if ok && r.hasMore then r.nextOffset else old(ps.offset)
    {
      var inserted;
      inserted, ok := store.ImportHistoryRecords(r.records, faultAt);
      if ok {
        ps.total := ps.total + inserted;
        if r.hasMore {
          ps.offset := r.nextOffset;
        }
      }
    }

    /** Imports a page and returns the request for the next one, if there is to be one: the decisions are
        those of the protocol, and a write that fails ends the sync. */
    method HandleHistoryPullResponse(r: Response, faultAt: nat, timeOk: bool) returns (next: Option<Request>)
      requires Valid()
      modifies this`pendingSyncs, store`table, stateMgr`historySyncTime
      modifies if r.requestId in pendingSyncs then {pendingSyncs[r.requestId], pendingSyncs[r.requestId].done} else {}
      ensures Valid()
      ensures r.requestId !in old(pendingSyncs) ==>
                next == None && pendingSyncs == old(pendingSyncs)
                && store.table == old(store.table) && stateMgr.historySyncTime == old(stateMgr.historySyncTime)
      ensures r.requestId in old(pendingSyncs) ==>
                var ps := old(pendingSyncs[r.requestId]); var ok := |r.records| <= faultAt; var verdict := Judge(r, PAGE);
                && store.table == ImportAll(old(store.table), if ok then r.records else r.records[..faultAt])
                && ps.total == old(ps.total) + (if ok then |store.table.rows| - |old(store.table).rows| else 0)
                && ps.offset == (if ok && r.hasMore then r.nextOffset else old(ps.offset))
                && next == (if ok && verdict.AskFrom?
                            then Some(Ask(r.requestId, NanosOf(stateMgr.historySyncTime), verdict.offset)) else None)
                && pendingSyncs == (if next.Some? then old(pendingSyncs) else old(pendingSyncs) - {r.requestId})
                && ps.done.buf == (if next.Some? then []
                                   else [if !ok then Some(ImportFailed)
                                         else if verdict.TooManyPages? then Some(MaxPagesExceeded) else None])
                && ps.done.closed == next.None?
                && stateMgr.historySyncTime ==
                     (if ok && verdict.Complete? && timeOk && Latest(store.table.rows).Some?
                      then Latest(store.table.rows) else old(stateMgr.historySyncTime))
    {
      if r.requestId !in pendingSyncs {
        return None;
      }
      var ps := pendingSyncs[r.requestId];
      var ok := ImportPage(ps, r, faultAt);
      if !ok {
        FailPendingSync(ps, Some(ImportFailed));
        return None;
      }
      if r.hasMore {
        if ps.offset / ps.limit >= MAX_PAGES {
          FailPendingSync(ps, Some(MaxPagesExceeded));
          return None;
        }
        if ps.reqId !in pendingSyncs {
          return None;
        }
        var q := NextRequest(ps);
        return Some(q);
      } else {
        var latest, found := store.GetLatestHistoryTime(timeOk);
        if found && latest.Some? {
          stateMgr.SetHistorySyncTime(latest.value);
        }
        FailPendingSync(ps, None);
        return None;
      }
    }
  }
}
