/** The replicated map of node states: the conflict rule, the merge, the events
    it emits, and what they guarantee for arbitrary schedules of deliveries. */
module NodeStates {
  import opened VectorClocks

  datatype Option<+T> = None | Some(value: T)

  datatype Metrics = Metrics(
    ipAddress: string,
    systemType: string,
    cpuUsage: real,
    memoryUsage: real,
    diskUsage: real)

  /** A node's state as published, stored and sent. Times are integers (nanoseconds). */
  datatype NodeState = NodeState(
    nodeId: NodeId,
    status: string,
    metrics: Metrics,
    lastSeen: int,
    lastUpdated: int,
    clock: Clock)

  type Nodes = map<NodeId, NodeState>

  datatype Event = Event(nodeId: NodeId, eventType: string, state: NodeState)

  /** The conflict rule: causality first, then the later write. */
  predicate Beats(remote: NodeState, local: NodeState) {
    var order := CompareClocks(remote.clock, local.clock);
    order == 1 || (order == 0 && remote.lastUpdated > local.lastUpdated)
  }

  function Adopt(remote: NodeState, local: NodeState): NodeState {
    remote.(clock := Join(remote.clock, local.clock))
  }

  predicate Accepts(nodes: Nodes, remote: NodeState) {
    remote.nodeId in nodes ==> Beats(remote, nodes[remote.nodeId])
  }

  function Merge(nodes: Nodes, remote: NodeState): Nodes {
    if !Accepts(nodes, remote) then nodes
    else if remote.nodeId !in nodes then nodes[remote.nodeId := remote]
    else nodes[remote.nodeId := Adopt(remote, nodes[remote.nodeId])]
  }

  /** Merges the states of a schedule one by one, in order. */
  function MergeAll(nodes: Nodes, states: seq<NodeState>): Nodes {
    if states == [] then nodes
    else Merge(MergeAll(nodes, states[..|states| - 1]), states[|states| - 1])
  }

  /** What a state manager is asked to do. */
  datatype Op = UpdateLocal(state: NodeState) | MergeRemote(state: NodeState) | MarkInactive(nodeId: NodeId)

  function Apply(nodes: Nodes, op: Op): Nodes {
    match op
    case UpdateLocal(ns) => nodes[ns.nodeId := ns]
    case MergeRemote(ns) => Merge(nodes, ns)
    case MarkInactive(id) => if id in nodes then nodes[id := nodes[id].(status := "inactive")] else nodes
  }

  /** The event broadcast while applying op, if any. */
  function Emitted(nodes: Nodes, op: Op): seq<Event> {
    match op
    case UpdateLocal(ns) => [Event(ns.nodeId, "update", ns)]
    case MergeRemote(ns) =>
      if !Accepts(nodes, ns) then []
      else if ns.nodeId !in nodes then [Event(ns.nodeId, "join", ns)]
      else [Event(ns.nodeId, "update", Adopt(ns, nodes[ns.nodeId]))]
    case MarkInactive(id) =>
      if id in nodes then [Event(id, "leave", nodes[id].(status := "inactive"))] else []
  }

  function ApplyAll(nodes: Nodes, ops: seq<Op>): Nodes
    decreases |ops|
  {
    if ops == [] then nodes else ApplyAll(Apply(nodes, ops[0]), ops[1..])
  }

  function EmittedBy(nodes: Nodes, ops: seq<Op>): seq<Event>
    decreases |ops|
  {
    if ops == [] then [] else Emitted(nodes, ops[0]) + EmittedBy(Apply(nodes, ops[0]), ops[1..])
  }

  // ---- Events rebuild the map ----

  function Replay(nodes: Nodes, events: seq<Event>): Nodes
    decreases |events|
  {
    if events == [] then nodes else Replay(nodes[events[0].nodeId := events[0].state], events[1..])
  }

  /** A subscriber that starts from a snapshot and applies every event as an
      assignment holds the manager's map, whatever the operations were. */
  lemma {:induction false} ReplayRebuildsTheMap(nodes: Nodes, ops: seq<Op>)
    ensures Replay(nodes, EmittedBy(nodes, ops)) == ApplyAll(nodes, ops)
    decreases |ops|
  {
    if ops != [] {
      var emitted, rest := Emitted(nodes, ops[0]), EmittedBy(Apply(nodes, ops[0]), ops[1..]);
      ReplayRebuildsTheMap(Apply(nodes, ops[0]), ops[1..]);
      ReplayInTurn(nodes, emitted, rest);
      ReplayOfOne(nodes, ops[0]);
    }
  }

  lemma ReplayOfOne(nodes: Nodes, op: Op)
    ensures Replay(nodes, Emitted(nodes, op)) == Apply(nodes, op)
  {
    var emitted := Emitted(nodes, op);
    if emitted != [] {
      assert nodes[emitted[0].nodeId := emitted[0].state] == Apply(nodes, op);
      assert emitted[1..] == [];
    }
  }

  lemma {:induction false} ReplayInTurn(nodes: Nodes, a: seq<Event>, b: seq<Event>)
    ensures Replay(nodes, a + b) == Replay(Replay(nodes, a), b)
    decreases |a|
  {
    if a == [] {
      assert a + b == b;
    } else {
      assert (a + b)[1..] == a[1..] + b;
      ReplayInTurn(nodes[a[0].nodeId := a[0].state], a[1..], b);
    }
  }

  // ---- What the events say ----

  /** An event carries the entry the map then holds, and its type says how the entry came about. */
  lemma EventsTellWhatHappened(nodes: Nodes, op: Op)
    ensures |Emitted(nodes, op)| <= 1
    ensures Emitted(nodes, op) == [] <==>
              || (op.MergeRemote? && op.state.nodeId in nodes && !Beats(op.state, nodes[op.state.nodeId]))
              || (op.MarkInactive? && op.nodeId !in nodes)
    ensures Emitted(nodes, op) != [] ==>
              var e := Emitted(nodes, op)[0];
              && e.nodeId == (if op.MarkInactive? then op.nodeId else op.state.nodeId)
              && e.nodeId in Apply(nodes, op) && e.state == Apply(nodes, op)[e.nodeId]
              && (e.eventType == "join" <==> op.MergeRemote? && e.nodeId !in nodes)
              && (e.eventType == "leave" <==> op.MarkInactive?)
              && e.eventType in {"join", "update", "leave"}
  {
    var e := Emitted(nodes, op);
    assert e != [] ==> e[0].eventType == "join" || e[0].eventType == "update" || e[0].eventType == "leave";
  }

  lemma {:induction false} EventsComeFromOps(nodes: Nodes, ops: seq<Op>, k: nat)
    requires k < |EmittedBy(nodes, ops)|
    ensures EmittedBy(nodes, ops)[k].nodeId in ApplyAll(nodes, ops)
    decreases |ops|
  {
    var now := Emitted(nodes, ops[0]);
    EventsTellWhatHappened(nodes, ops[0]);
    if k < |now| {
      NodesStayKnown(Apply(nodes, ops[0]), ops[1..], now[k].nodeId);
    } else {
      EventsComeFromOps(Apply(nodes, ops[0]), ops[1..], k - |now|);
    }
  }

  lemma {:induction false} NodesStayKnown(nodes: Nodes, ops: seq<Op>, id: NodeId)
    requires id in nodes
    ensures id in ApplyAll(nodes, ops)
    decreases |ops|
  {
    if ops != [] {
      NodesStayKnown(Apply(nodes, ops[0]), ops[1..], id);
    }
  }

  /** A node joins at most once: a "join" is the first event of a node that was not known before. */
  lemma {:induction false} JoinComesFirst(nodes: Nodes, ops: seq<Op>, k: nat)
    requires k < |EmittedBy(nodes, ops)| && EmittedBy(nodes, ops)[k].eventType == "join"
    ensures var events := EmittedBy(nodes, ops);
            events[k].nodeId !in nodes && forall j :: 0 <= j < k ==> events[j].nodeId != events[k].nodeId
    decreases |ops|
  {
    var now, rest := Emitted(nodes, ops[0]), EmittedBy(Apply(nodes, ops[0]), ops[1..]);
    EventsTellWhatHappened(nodes, ops[0]);
    if k >= |now| {
      JoinComesFirst(Apply(nodes, ops[0]), ops[1..], k - |now|);
      var id := rest[k - |now|].nodeId;
      if id in nodes {
        NodesStayKnown(nodes, [ops[0]], id);
      }
    }
  }

  /** No operation brings the node back: none publishes for it, and no delivery of it beats the entry. */
  ghost predicate BringsNoNews(op: Op, id: NodeId, entry: NodeState) {
    match op
    case UpdateLocal(ns) => ns.nodeId != id
    case MergeRemote(ns) => ns.nodeId == id ==> !Beats(ns, entry)
    case MarkInactive(_) => true
  }

  /** A node that has left stays inactive, and otherwise as it was, until a state arrives that beats its entry. */
  lemma {:induction false} LeftNodeStaysInactive(nodes: Nodes, id: NodeId, ops: seq<Op>)
    requires id in nodes && forall op :: op in ops ==> BringsNoNews(op, id, nodes[id])
    ensures var after := ApplyAll(Apply(nodes, MarkInactive(id)), ops);
            id in after && after[id] == nodes[id].(status := "inactive")
    decreases |ops|
  {
    if ops != [] {
      var marked, op := Apply(nodes, MarkInactive(id)), ops[0];
      assert BringsNoNews(op, id, nodes[id]);
      var next := Apply(marked, op);
      assert id in next && next[id] == marked[id];
      assert Apply(next, MarkInactive(id)) == next;
      forall op | op in ops[1..] ensures BringsNoNews(op, id, next[id]) {
        assert BringsNoNews(op, id, nodes[id]);
      }
      LeftNodeStaysInactive(next, id, ops[1..]);
    }
  }

  // ---- Every accepted merge climbs ----

  /** Later in the (clock, last update) order. */
  ghost predicate Above(a: NodeState, b: NodeState) {
    Less(b.clock, a.clock) || (a.clock == b.clock && a.lastUpdated > b.lastUpdated)
  }

  lemma AboveIsAStrictOrder(a: NodeState, b: NodeState, c: NodeState)
    ensures !Above(a, a)
    ensures Above(a, b) ==> !Above(b, a)
    ensures Above(a, b) && Above(b, c) ==> Above(a, c)
  {
    LeqIsAPartialOrder(c.clock, b.clock, a.clock);
    LeqIsAPartialOrder(a.clock, b.clock, a.clock);
  }

  /** What is stored after an accepted merge lies strictly above what it replaces, for any
      two clocks, and keeps the incoming fields; the clock is joined in only when the two were concurrent. */
  lemma AcceptedMergeClimbs(remote: NodeState, local: NodeState)
    requires Beats(remote, local)
    ensures Above(Adopt(remote, local), local)
    ensures Adopt(remote, local) == remote <==> !Concurrent(remote.clock, local.clock)
  {
    CompareDecidesTheOrder(remote.clock, local.clock);
    JoinIsLeastUpperBound(remote.clock, local.clock, local.clock);
    JoinAbsorbs(remote.clock, local.clock);
    LeqIsAPartialOrder(local.clock, remote.clock, remote.clock);
    if Concurrent(remote.clock, local.clock) {
      assert Join(remote.clock, local.clock) != local.clock;
    }
  }

  lemma AboveBeats(remote: NodeState, local: NodeState)
    ensures Above(remote, local) ==> Beats(remote, local) && Adopt(remote, local) == remote
    ensures Above(local, remote) ==> !Beats(remote, local)
  {
    CompareDecidesTheOrder(remote.clock, local.clock);
    JoinAbsorbs(remote.clock, local.clock);
    LeqIsAPartialOrder(local.clock, remote.clock, remote.clock);
  }

  // ---- Redelivery ----

  /** State s has already taken r into account. */
  ghost predicate Settled(r: NodeState, s: NodeState) {
    Leq(r.clock, s.clock) && (r.clock == s.clock ==> r.lastUpdated <= s.lastUpdated)
  }

  ghost predicate SettledIn(r: NodeState, nodes: Nodes) {
    r.nodeId in nodes && Settled(r, nodes[r.nodeId])
  }

  /** A local update of one of the given nodes writes a state above the entry it replaces, as the
      publisher does; updates of other nodes are free. */
  ghost predicate UpdateRises(nodes: Nodes, op: Op, ids: set<NodeId>) {
    op.UpdateLocal? && op.state.nodeId in ids && op.state.nodeId in nodes ==> Above(op.state, nodes[op.state.nodeId])
  }

  ghost predicate UpdatesRise(nodes: Nodes, ops: seq<Op>, ids: set<NodeId>)
    decreases |ops|
  {
    ops == [] || (UpdateRises(nodes, ops[0], ids) && UpdatesRise(Apply(nodes, ops[0]), ops[1..], ids))
  }

  lemma SettledStays(r: NodeState, nodes: Nodes, op: Op, ids: set<NodeId>)
    requires SettledIn(r, nodes) && r.nodeId in ids && UpdateRises(nodes, op, ids)
    ensures SettledIn(r, Apply(nodes, op))
  {
    if !op.MarkInactive? && op.state.nodeId == r.nodeId {
      var entry := nodes[r.nodeId];
      if op.UpdateLocal? {
        LeqIsAPartialOrder(r.clock, entry.clock, op.state.clock);
      } else if Accepts(nodes, op.state) {
        AcceptedMergeClimbs(op.state, entry);
        LeqIsAPartialOrder(r.clock, entry.clock, Adopt(op.state, entry).clock);
      }
    }
  }

  lemma AcceptanceSettles(r: NodeState, nodes: Nodes)
    requires Accepts(nodes, r)
    ensures SettledIn(r, Merge(nodes, r))
  {
    LeqIsAPartialOrder(r.clock, r.clock, r.clock);
    if r.nodeId in nodes {
      JoinIsLeastUpperBound(r.clock, nodes[r.nodeId].clock, r.clock);
    }
  }

  lemma SettledIsRejected(r: NodeState, nodes: Nodes)
    requires SettledIn(r, nodes)
    ensures !Accepts(nodes, r)
  {
    CompareDecidesTheOrder(r.clock, nodes[r.nodeId].clock);
    LeqIsAPartialOrder(r.clock, nodes[r.nodeId].clock, r.clock);
  }

  lemma {:induction false} SettledThroughout(r: NodeState, nodes: Nodes, ops: seq<Op>)
    requires SettledIn(r, nodes) && UpdatesRise(nodes, ops, {r.nodeId})
    ensures SettledIn(r, ApplyAll(nodes, ops))
    decreases |ops|
  {
    if ops != [] {
      SettledStays(r, nodes, ops[0], {r.nodeId});
      SettledThroughout(r, Apply(nodes, ops[0]), ops[1..]);
    }
  }

  /** A state once accepted is rejected whenever it is delivered again, for all clocks and whatever was
      merged, marked inactive or updated in between, as long as local updates of its own node rise. */
  lemma RedeliveryIsRejected(nodes: Nodes, r: NodeState, between: seq<Op>)
    requires Accepts(nodes, r) && UpdatesRise(Merge(nodes, r), between, {r.nodeId})
    ensures !Accepts(ApplyAll(Merge(nodes, r), between), r)
  {
    AcceptanceSettles(r, nodes);
    SettledThroughout(r, Merge(nodes, r), between);
    SettledIsRejected(r, ApplyAll(Merge(nodes, r), between));
  }

  function Acceptances(nodes: Nodes, ops: seq<Op>): nat
    decreases |ops|
  {
    if ops == [] then 0
    else (if ops[0].MergeRemote? && Accepts(nodes, ops[0].state) then 1 else 0)
         + Acceptances(Apply(nodes, ops[0]), ops[1..])
  }

  function Delivered(ops: seq<Op>): set<NodeState> {
    set op | op in ops && op.MergeRemote? :: op.state
  }

  ghost function NodesOf(states: set<NodeState>): set<NodeId> {
    set r | r in states :: r.nodeId
  }

  /** Over any schedule, with any duplication, a manager accepts at most as many deliveries as there are
      distinct states among them, as long as local updates of the nodes delivered rise. */
  lemma AcceptancesAreBounded(nodes: Nodes, ops: seq<Op>)
    requires UpdatesRise(nodes, ops, NodesOf(Delivered(ops)))
    ensures Acceptances(nodes, ops) <= |Delivered(ops)|
  {
    AcceptancesAvoidSettled(nodes, ops, {}, NodesOf(Delivered(ops)));
    assert Delivered(ops) - {} == Delivered(ops);
  }

  lemma DeliveredSplits(ops: seq<Op>)
    requires ops != []
    ensures Delivered(ops) == (if ops[0].MergeRemote? then {ops[0].state} else {}) + Delivered(ops[1..])
  {
    assert ops == [ops[0]] + ops[1..];
    forall r | r in Delivered(ops[1..]) ensures r in Delivered(ops) {
      var op :| op in ops[1..] && op.MergeRemote? && op.state == r;
      assert op in ops;
    }
  }

  lemma {:induction false} AcceptancesAvoidSettled(nodes: Nodes, ops: seq<Op>, settled: set<NodeState>, ids: set<NodeId>)
    requires UpdatesRise(nodes, ops, ids) && NodesOf(Delivered(ops)) <= ids && NodesOf(settled) <= ids
    requires AllSettled(settled, nodes)
    ensures Acceptances(nodes, ops) <= |Delivered(ops) - settled|
    decreases |ops|
  {
    if ops != [] {
      var op, rest := ops[0], ops[1..];
      DeliveredSplits(ops);
      AllSettledStay(settled, nodes, op, ids);
      assert NodesOf(Delivered(rest)) <= NodesOf(Delivered(ops));
      if op.MergeRemote? && Accepts(nodes, op.state) {
        assert op.state in Delivered(ops);
        AcceptanceIsNew(op.state, nodes, settled, ids);
        AcceptancesAvoidSettled(Apply(nodes, op), rest, settled + {op.state}, ids);
        OneMoreElement(Delivered(ops), Delivered(rest), settled, op.state);
      } else {
        AcceptancesAvoidSettled(Apply(nodes, op), rest, settled, ids);
        SubsetIsNoLarger(Delivered(rest) - settled, Delivered(ops) - settled);
      }
    }
  }

  ghost predicate AllSettled(settled: set<NodeState>, nodes: Nodes) {
    forall r :: r in settled ==> SettledIn(r, nodes)
  }

  lemma OneMoreElement<T>(all: set<T>, rest: set<T>, without: set<T>, x: T)
    requires all == {x} + rest && x !in without
    ensures |all - without| == 1 + |rest - (without + {x})|
  {
    assert all - without == {x} + (rest - (without + {x}));
  }

  lemma AllSettledStay(settled: set<NodeState>, nodes: Nodes, op: Op, ids: set<NodeId>)
    requires UpdateRises(nodes, op, ids) && NodesOf(settled) <= ids && AllSettled(settled, nodes)
    ensures AllSettled(settled, Apply(nodes, op))
  {
    forall r | r in settled ensures SettledIn(r, Apply(nodes, op)) {
      assert r.nodeId in NodesOf(settled);
      SettledStays(r, nodes, op, ids);
    }
  }

  lemma AcceptanceIsNew(r: NodeState, nodes: Nodes, settled: set<NodeState>, ids: set<NodeId>)
    requires Accepts(nodes, r) && NodesOf(settled) <= ids && r.nodeId in ids && AllSettled(settled, nodes)
    ensures r !in settled && NodesOf(settled + {r}) <= ids
    ensures AllSettled(settled + {r}, Merge(nodes, r))
  {
    if r in settled {
      SettledIsRejected(r, nodes);
    }
    AcceptanceSettles(r, nodes);
    AllSettledStay(settled, nodes, MergeRemote(r), ids);
  }

  lemma {:induction false} SubsetIsNoLarger<T>(a: set<T>, b: set<T>)
    requires a <= b
    ensures |a| <= |b|
  {
    if a != {} {
      var x :| x in a;
      SubsetIsNoLarger(a - {x}, b - {x});
    }
  }

  // ---- When the order of arrival does not matter ----

  /** The conflict rule can tell x from y without depending on which came first. */
  predicate Reconcilable(x: NodeState, y: NodeState) {
    || x == y
    || x.nodeId != y.nodeId
    || CompareClocks(x.clock, y.clock) != 0
    || (x.clock == y.clock && x.lastUpdated != y.lastUpdated)
  }

  ghost predicate AllReconcilable(pool: set<NodeState>) {
    forall x, y :: x in pool && y in pool ==> Reconcilable(x, y)
  }

  function Members(states: seq<NodeState>): set<NodeState> {
    set x | x in states
  }

  /** Any two schedules that deliver the same states from the pool, losing the same ones,
      in any order and with any duplication, leave the same map. */
  ghost predicate OrderIndependent(pool: set<NodeState>) {
    forall p: seq<NodeState>, q: seq<NodeState> ::
      Members(p) == Members(q) <= pool ==> MergeAll(map[], p) == MergeAll(map[], q)
  }

  /** For each id the map holds one of the delivered states, and it is above all the others. */
  ghost predicate HoldsTheTop(nodes: Nodes, states: set<NodeState>) {
    && (forall id :: id in nodes ==> nodes[id] in states && nodes[id].nodeId == id)
    && (forall m :: m in states ==> m.nodeId in nodes && (m == nodes[m.nodeId] || Above(nodes[m.nodeId], m)))
  }

  lemma ReconcilableIsComparable(x: NodeState, y: NodeState)
    requires x.nodeId == y.nodeId
    ensures Reconcilable(x, y) <==> x == y || Above(x, y) || Above(y, x)
  {
    CompareDecidesTheOrder(x.clock, y.clock);
  }

  lemma {:induction false} MergeAllHoldsTheTop(p: seq<NodeState>)
    requires AllReconcilable(Members(p))
    ensures HoldsTheTop(MergeAll(map[], p), Members(p))
  {
    if p != [] {
      var init, r := p[..|p| - 1], p[|p| - 1];
      assert p == init + [r];
      assert Members(p) == Members(init) + {r};
      MergeAllHoldsTheTop(init);
      var before, after := MergeAll(map[], init), MergeAll(map[], p);
      if r.nodeId in before {
        var l := before[r.nodeId];
        ReconcilableIsComparable(r, l);
        AboveBeats(r, l);
        CompareDecidesTheOrder(r.clock, l.clock);
        forall m | m in Members(p) ensures m.nodeId in after && (m == after[m.nodeId] || Above(after[m.nodeId], m)) {
          if m.nodeId == r.nodeId {
            AboveIsAStrictOrder(r, l, m);
          }
        }
      }
    }
  }

  lemma TopIsUnique(a: Nodes, b: Nodes, states: set<NodeState>)
    requires HoldsTheTop(a, states) && HoldsTheTop(b, states)
    ensures a == b
  {
    forall id | id in a ensures id in b && a[id] == b[id] {
      AboveIsAStrictOrder(a[id], b[id], a[id]);
    }
    forall id | id in b ensures id in a {
      assert b[id] in states;
    }
    assert a.Keys == b.Keys;
  }

  /** Convergence regardless of order, loss and duplication holds for a pool of states
      exactly when no two of them are in an unordered tie: for all clocks and all pools. */
  lemma OrderIndependentIffReconcilable(pool: set<NodeState>)
    ensures OrderIndependent(pool) <==> AllReconcilable(pool)
  {
    if AllReconcilable(pool) {
      forall p: seq<NodeState>, q: seq<NodeState> | Members(p) == Members(q) <= pool
        ensures MergeAll(map[], p) == MergeAll(map[], q)
      {
        MergeAllHoldsTheTop(p);
        MergeAllHoldsTheTop(q);
        TopIsUnique(MergeAll(map[], p), MergeAll(map[], q), Members(p));
      }
    }
    if OrderIndependent(pool) {
      forall x, y | x in pool && y in pool ensures Reconcilable(x, y) {
        assert Members([x, y]) == {x, y} == Members([y, x]);
        CommutingPairIsReconcilable(x, y);
      }
    }
  }

  lemma CommutingPairIsReconcilable(x: NodeState, y: NodeState)
    requires MergeAll(map[], [x, y]) == MergeAll(map[], [y, x])
    ensures Reconcilable(x, y)
  {
    if x.nodeId == y.nodeId {
      PairOutcome(x, y);
      PairOutcome(y, x);
      var n := x.nodeId;
      assert MergeAll(map[], [x, y])[n] == MergeAll(map[], [y, x])[n];
      CompareDecidesTheOrder(x.clock, y.clock);
      if Beats(x, y) {
        AcceptedMergeClimbs(x, y);
      } else if Beats(y, x) {
        AcceptedMergeClimbs(y, x);
      }
    }
  }

  lemma PairOutcome(x: NodeState, y: NodeState)
    requires x.nodeId == y.nodeId
    ensures MergeAll(map[], [x, y]) == map[x.nodeId := if Beats(y, x) then Adopt(y, x) else x]
  {
    assert [x, y][..1] == [x];
    assert MergeAll(map[], [x]) == Merge(MergeAll(map[], []), x) by { assert [x][..0] == []; }
  }

  /** With multi-entry clocks the conflict rule can run in a circle: y beats x, x beats z,
      z beats y, and the order of arrival then decides whose metrics survive. */
  lemma ConflictRuleCanCycle(m: Metrics)
    ensures var x := NodeState("n", "x", m, 0, 10, map["a" := 1]);
            var y := NodeState("n", "y", m, 0, 1, map["a" := 2]);
            var z := NodeState("n", "z", m, 0, 5, map["b" := 1]);
            && Beats(y, x) && Beats(x, z) && Beats(z, y)
            && Merge(Merge(map["n" := x], y), z)["n"].status == "z"
            && Merge(Merge(map["n" := x], z), y)["n"].status == "y"
  {
    var a1: Clock, a2: Clock, b1: Clock := map["a" := 1], map["a" := 2], map["b" := 1];
    assert AheadAt(a2, a1, "a") && AheadAt(a1, b1, "a") && AheadAt(b1, a1, "b") && AheadAt(b1, a2, "b") && AheadAt(a2, b1, "a");
    assert Exceeds(a2, a1) && !Exceeds(a1, a2);
    assert Exceeds(a1, b1) && Exceeds(b1, a1) && Exceeds(a2, b1) && Exceeds(b1, a2);
  }

  // ---- Single-entry clocks ----

  /** The clock has exactly one entry, the node's own: all that the program ever publishes. */
  predicate Solo(m: NodeState) {
    m.clock.Keys == {m.nodeId}
  }

  function Version(m: NodeState): Int64
    requires Solo(m)
  {
    m.clock[m.nodeId]
  }

  predicate Outranks(a: NodeState, b: NodeState)
    requires Solo(a) && Solo(b)
  {
    Version(a) > Version(b) || (Version(a) == Version(b) && a.lastUpdated > b.lastUpdated)
  }

  /** On single-entry clocks of one node concurrency never arises: the conflict rule is
      the comparison of (version, last update) and adopting a winner changes nothing in it. */
  lemma SoloConflictIsRank(r: NodeState, l: NodeState)
    requires Solo(r) && Solo(l) && r.nodeId == l.nodeId
    ensures Beats(r, l) <==> Outranks(r, l)
    ensures Beats(r, l) ==> Adopt(r, l) == r
    ensures !Concurrent(r.clock, l.clock)
    ensures Above(r, l) <==> Outranks(r, l)
  {
    var n := r.nodeId;
    assert n in r.clock && n in l.clock;
    assert forall id :: id in r.clock <==> id == n;
    assert forall id :: id in l.clock <==> id == n;
    if Version(r) == Version(l) {
      assert r.clock == l.clock;
    }
    assert Leq(r.clock, l.clock) <==> Version(r) <= Version(l);
    assert Leq(l.clock, r.clock) <==> Version(l) <= Version(r);
    CompareDecidesTheOrder(r.clock, l.clock);
    if Beats(r, l) {
      AcceptedMergeClimbs(r, l);
    }
  }

  ghost predicate HoldsMaximum(nodes: Nodes, states: set<NodeState>)
    requires forall m :: m in states ==> Solo(m)
  {
    && (forall id :: id in nodes ==> nodes[id] in states && nodes[id].nodeId == id)
    && (forall m :: m in states ==> m.nodeId in nodes && !Outranks(m, nodes[m.nodeId]))
  }

  /** On single-entry clocks the store is a maximum register: whatever the schedule, each id
      ends on a state exactly as it was sent, that no delivered state outranks. */
  lemma {:induction false} SoloMergeKeepsTheMaximum(p: seq<NodeState>)
    requires forall m :: m in p ==> Solo(m)
    ensures HoldsMaximum(MergeAll(map[], p), Members(p))
  {
    if p != [] {
      var init, r := p[..|p| - 1], p[|p| - 1];
      assert p == init + [r];
      assert Members(p) == Members(init) + {r};
      SoloMergeKeepsTheMaximum(init);
      var before := MergeAll(map[], init);
      if r.nodeId in before {
        SoloConflictIsRank(r, before[r.nodeId]);
      }
    }
  }

  lemma MaximumRankIsUnique(a: Nodes, b: Nodes, states: set<NodeState>, id: NodeId)
    requires forall m :: m in states ==> Solo(m)
    requires HoldsMaximum(a, states) && HoldsMaximum(b, states) && id in a
    ensures id in b && a[id].clock == b[id].clock && a[id].lastUpdated == b[id].lastUpdated
  {
    assert a[id] in states;
    assert b[id] in states;
    assert a[id].clock == map[id := Version(a[id])];
    assert b[id].clock == map[id := Version(b[id])];
  }

  /** So two replicas that received the same states, in any order and multiplicity, end on
      equal versions and equal update times for every node, even when ties remain. */
  lemma SoloReplicasAgreeOnRank(p: seq<NodeState>, q: seq<NodeState>)
    requires forall m :: m in p ==> Solo(m)
    requires Members(p) == Members(q)
    ensures var a, b := MergeAll(map[], p), MergeAll(map[], q);
            && a.Keys == b.Keys
            && forall id :: id in a ==> a[id].clock == b[id].clock && a[id].lastUpdated == b[id].lastUpdated
  {
    forall m | m in q ensures Solo(m) { assert m in Members(q); }
    SoloMergeKeepsTheMaximum(p);
    SoloMergeKeepsTheMaximum(q);
    var a, b := MergeAll(map[], p), MergeAll(map[], q);
    forall id | id in a
      ensures id in b && a[id].clock == b[id].clock && a[id].lastUpdated == b[id].lastUpdated
    {
      MaximumRankIsUnique(a, b, Members(p), id);
    }
    forall id | id in b ensures id in a {
      MaximumRankIsUnique(b, a, Members(p), id);
    }
  }
}
