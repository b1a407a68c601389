/** A cluster of state managers over a network that loses, duplicates and reorders.
    Steps are as fine as the code's critical sections: the publisher reads its clock and
    writes its state in two separate steps, and a cluster sync merges one state at a time. */
module Clusters {
  import opened VectorClocks
  import opened NodeStates

  /** reading is the clock that a publication in progress has read and merged. */
  datatype Replica = Replica(nodes: Nodes, reading: Option<Clock>, events: seq<Event>)

  /** net holds every state ever sent: any of them can arrive anywhere, at any time, any number
      of times, or never. published is the history of what each node has published. */
  datatype Cluster = Cluster(
    replicas: map<NodeId, Replica>,
    net: set<NodeState>,
    published: map<NodeId, seq<NodeState>>)

  datatype Action =
    | ReadClock(at: NodeId)
    | Publish(at: NodeId, metrics: Metrics, seenAt: int, updatedAt: int)
    | SendSync(at: NodeId)
    | Deliver(at: NodeId, state: NodeState)
    | NotifyLeave(at: NodeId, gone: NodeId)
    | Restart(at: NodeId)

  /** The clock a publication starts from: empty, joined with the manager's own entry if there
      is one. The database holds no clock to fall back on. */
  function ClockRead(nodes: Nodes, id: NodeId): Clock {
    if id in nodes then Join(map[], nodes[id].clock) else map[]
  }

  function Publication(id: NodeId, reading: Clock, metrics: Metrics, seenAt: int, updatedAt: int): NodeState {
    NodeState(id, "active", metrics, seenAt, updatedAt, Bump(reading, id))
  }

  predicate Enabled(c: Cluster, a: Action) {
    && a.at in c.replicas && a.at in c.published
    && (a.ReadClock? ==> c.replicas[a.at].reading.None?)
    && (a.Publish? ==> c.replicas[a.at].reading.Some?)
    && (a.Deliver? ==> a.state in c.net)
  }

  function Perform(r: Replica, op: Op): Replica {
    r.(nodes := Apply(r.nodes, op), events := r.events + Emitted(r.nodes, op))
  }

  function Step(c: Cluster, a: Action): Cluster
    requires Enabled(c, a)
  {
    var r := c.replicas[a.at];
    match a
    case ReadClock(id) =>
      c.(replicas := c.replicas[id := r.(reading := Some(ClockRead(r.nodes, id)))])
    case Publish(id, metrics, seenAt, updatedAt) =>
      var ns := Publication(id, r.reading.value, metrics, seenAt, updatedAt);
      Cluster(c.replicas[id := Perform(r, UpdateLocal(ns)).(reading := None)],
              c.net + {ns},
              c.published[id := c.published[id] + [ns]])
    case SendSync(id) =>
      c.(net := c.net + r.nodes.Values)
    case Deliver(id, ns) =>
      c.(replicas := c.replicas[id := Perform(r, MergeRemote(ns))])
    case NotifyLeave(id, gone) =>
      c.(replicas := c.replicas[id := Perform(r, MarkInactive(gone))])
    case Restart(id) =>
      c.(replicas := c.replicas[id := Replica(map[], None, [])])
  }

  ghost predicate Initial(c: Cluster) {
    && c.net == {}
    && c.published.Keys == c.replicas.Keys
    && (forall id :: id in c.replicas ==> c.replicas[id] == Replica(map[], None, []) && c.published[id] == [])
  }

  /** A run: states[i + 1] is what actions[i] makes of states[i]. */
  datatype Run = Run(states: seq<Cluster>, actions: seq<Action>)

  ghost predicate IsRun(run: Run) {
    && |run.states| == |run.actions| + 1
    && Initial(run.states[0])
    && forall i :: 0 <= i < |run.actions| ==>
         Enabled(run.states[i], run.actions[i]) && run.states[i + 1] == Step(run.states[i], run.actions[i])
  }

  /** A run in which no node restarts. No node can publish more often than the run is long. */
  ghost predicate IsSteadyRun(run: Run) {
    && IsRun(run)
    && |run.actions| <= MAX_INT64
    && forall i :: 0 <= i < |run.actions| ==> !run.actions[i].Restart?
  }

  // ---- Any run, restarts included: one clock entry, under one's own id ----

  ghost predicate OwnedNodes(nodes: Nodes) {
    forall id :: id in nodes ==> nodes[id].nodeId == id && Solo(nodes[id])
  }

  ghost predicate OwnedReplica(r: Replica, b: NodeId) {
    OwnedNodes(r.nodes) && (r.reading.Some? ==> r.reading.value.Keys <= {b})
  }

  ghost predicate AllOwned(c: Cluster) {
    && (forall b {:trigger OwnedReplica(c.replicas[b], b)} :: b in c.replicas ==> OwnedReplica(c.replicas[b], b))
    && (forall ns :: ns in c.net ==> Solo(ns))
  }

  lemma StepKeepsOwned(c: Cluster, a: Action)
    requires Enabled(c, a) && AllOwned(c)
    ensures AllOwned(Step(c, a))
  {
    var d := Step(c, a);
    assert OwnedReplica(c.replicas[a.at], a.at);
    if a.Deliver? {
      MergeKeepsOwned(c.replicas[a.at].nodes, a.state);
    }
    forall b | b in d.replicas ensures OwnedReplica(d.replicas[b], b) {
      assert b != a.at ==> OwnedReplica(c.replicas[b], b);
    }
  }

  lemma MergeKeepsOwned(nodes: Nodes, ns: NodeState)
    requires OwnedNodes(nodes) && Solo(ns)
    ensures OwnedNodes(Merge(nodes, ns))
  {
  }

  /** In every run, restarts included, every copy anywhere carries exactly its own node's
      clock entry and is stored under its own id. */
  lemma {:induction false} ReachableClocksHaveOneEntry(run: Run, i: nat)
    requires IsRun(run) && i < |run.states|
    ensures AllOwned(run.states[i])
    decreases i
  {
    if i > 0 {
      ReachableClocksHaveOneEntry(run, i - 1);
      StepKeepsOwned(run.states[i - 1], run.actions[i - 1]);
    }
  }

  // ---- Runs without restarts: the owner is never outrun ----

  ghost predicate SameButStatus(a: NodeState, b: NodeState) {
    a == b.(status := a.status)
  }

  /** The history of node n: its k-th publication carries version k and nothing else. */
  ghost predicate GoodHistory(n: NodeId, history: seq<NodeState>) {
    && |history| <= MAX_INT64
    && forall k :: 0 <= k < |history| ==> history[k].nodeId == n && history[k].clock == map[n := k + 1]
  }

  /** ns is, but for its status, one of the publications of its node: the one with its version. */
  ghost predicate Genuine(published: map<NodeId, seq<NodeState>>, ns: NodeState) {
    && ns.nodeId in published
    && ns.nodeId in ns.clock
    && 1 <= ns.clock[ns.nodeId] <= |published[ns.nodeId]|
    && SameButStatus(ns, published[ns.nodeId][ns.clock[ns.nodeId] - 1])
  }

  ghost predicate GenuineNodes(published: map<NodeId, seq<NodeState>>, nodes: Nodes) {
    forall id :: id in nodes ==> nodes[id].nodeId == id && Genuine(published, nodes[id])
  }

  /** The owner's own copy is its latest publication, and a clock read in progress is still current. */
  ghost predicate OwnerCurrent(c: Cluster, n: NodeId)
    requires n in c.replicas && n in c.published
  {
    var r, version := c.replicas[n], |c.published[n]|;
    && (n in r.nodes <==> version > 0)
    && (n in r.nodes ==> n in r.nodes[n].clock && r.nodes[n].clock[n] == version)
    && (r.reading.Some? ==> r.reading.value == if version == 0 then map[] else map[n := version])
  }

  ghost predicate Inv(c: Cluster) {
    && c.published.Keys == c.replicas.Keys
    && (forall n {:trigger GoodHistory(n, c.published[n])} :: n in c.published ==> GoodHistory(n, c.published[n]))
    && (forall b {:trigger GenuineNodes(c.published, c.replicas[b].nodes)} ::
          b in c.replicas ==> GenuineNodes(c.published, c.replicas[b].nodes))
    && (forall ns :: ns in c.net ==> Genuine(c.published, ns))
    && (forall n {:trigger OwnerCurrent(c, n)} :: n in c.replicas ==> OwnerCurrent(c, n))
  }

  lemma GenuineIsSolo(published: map<NodeId, seq<NodeState>>, ns: NodeState)
    requires Genuine(published, ns) && GoodHistory(ns.nodeId, published[ns.nodeId])
    ensures Solo(ns) && ns.clock == map[ns.nodeId := Version(ns)] && 1 <= Version(ns)
  {
  }

  /** On genuine copies the conflict rule is a comparison of versions, and the winner is taken over as it is. */
  lemma GenuineConflict(published: map<NodeId, seq<NodeState>>, r: NodeState, l: NodeState)
    requires Genuine(published, r) && Genuine(published, l) && r.nodeId == l.nodeId
    requires GoodHistory(r.nodeId, published[r.nodeId])
    ensures Solo(r) && Solo(l)
    ensures Beats(r, l) <==> Version(r) > Version(l)
    ensures Beats(r, l) ==> Adopt(r, l) == r
    ensures Version(r) == Version(l) ==> SameButStatus(r, l)
  {
    GenuineIsSolo(published, r);
    GenuineIsSolo(published, l);
    SoloConflictIsRank(r, l);
  }

  lemma MergeKeepsGenuine(published: map<NodeId, seq<NodeState>>, nodes: Nodes, ns: NodeState)
    requires GenuineNodes(published, nodes) && Genuine(published, ns)
    requires GoodHistory(ns.nodeId, published[ns.nodeId])
    ensures GenuineNodes(published, Merge(nodes, ns))
  {
    if ns.nodeId in nodes {
      GenuineConflict(published, ns, nodes[ns.nodeId]);
    }
  }

  lemma PublishExtends(c: Cluster, a: Action)
    requires Enabled(c, a) && Inv(c) && a.Publish? && |c.published[a.at]| < MAX_INT64
    ensures var ns := Publication(a.at, c.replicas[a.at].reading.value, a.metrics, a.seenAt, a.updatedAt);
            && ns.clock == map[a.at := |c.published[a.at]| + 1]
            && GoodHistory(a.at, Step(c, a).published[a.at])
            && Genuine(Step(c, a).published, ns)
  {
    assert OwnerCurrent(c, a.at);
    assert GoodHistory(a.at, c.published[a.at]);
  }

  lemma GenuineSurvives(p: map<NodeId, seq<NodeState>>, q: map<NodeId, seq<NodeState>>, ns: NodeState)
    requires Genuine(p, ns)
    requires ns.nodeId in q && p[ns.nodeId] <= q[ns.nodeId]
    ensures Genuine(q, ns)
  {
  }

  lemma GenuineNodesSurvive(p: map<NodeId, seq<NodeState>>, q: map<NodeId, seq<NodeState>>, nodes: Nodes)
    requires GenuineNodes(p, nodes)
    requires forall n :: n in p ==> n in q && p[n] <= q[n]
    ensures GenuineNodes(q, nodes)
  {
    forall id | id in nodes ensures Genuine(q, nodes[id]) {
      GenuineSurvives(p, q, nodes[id]);
    }
  }

  lemma PublishKeepsInv(c: Cluster, a: Action)
    requires Enabled(c, a) && Inv(c) && a.Publish? && |c.published[a.at]| < MAX_INT64
    ensures Inv(Step(c, a))
  {
    var d := Step(c, a);
    PublishExtends(c, a);
    forall b | b in d.replicas ensures GenuineNodes(d.published, d.replicas[b].nodes) {
      GenuineNodesSurvive(c.published, d.published, c.replicas[b].nodes);
    }
    forall ns | ns in d.net ensures Genuine(d.published, ns) {
      if ns in c.net {
        GenuineSurvives(c.published, d.published, ns);
      }
    }
    forall n | n in d.published ensures GoodHistory(n, d.published[n]) {
      assert n != a.at ==> GoodHistory(n, c.published[n]);
    }
    forall n | n in d.replicas ensures OwnerCurrent(d, n) {
      assert OwnerCurrent(c, n);
    }
  }

  /** Steps that publish nothing need only keep the one replica they change in order. */
  lemma QuietChangeKeepsInv(c: Cluster, d: Cluster, at: NodeId)
    requires Inv(c) && at in c.replicas
    requires d.published == c.published && at in d.replicas && d.replicas == c.replicas[at := d.replicas[at]]
    requires GenuineNodes(c.published, d.replicas[at].nodes) && OwnerCurrent(d, at)
    requires forall ns :: ns in d.net ==> Genuine(c.published, ns)
    ensures Inv(d)
  {
    forall b | b in d.replicas ensures GenuineNodes(d.published, d.replicas[b].nodes) {
      assert b != at ==> GenuineNodes(c.published, c.replicas[b].nodes);
    }
    forall n | n in d.published ensures GoodHistory(n, d.published[n]) {
      assert GoodHistory(n, c.published[n]);
    }
    forall n | n in d.replicas ensures OwnerCurrent(d, n) {
      assert n != at ==> OwnerCurrent(c, n);
    }
  }

  lemma DeliverKeepsInv(c: Cluster, a: Action)
    requires Enabled(c, a) && Inv(c) && a.Deliver?
    ensures Inv(Step(c, a))
  {
    var before := c.replicas[a.at].nodes;
    assert GenuineNodes(c.published, before);
    assert GoodHistory(a.state.nodeId, c.published[a.state.nodeId]);
    MergeKeepsGenuine(c.published, before, a.state);
    assert OwnerCurrent(c, a.at);
    if a.state.nodeId == a.at && a.at in before {
      GenuineConflict(c.published, a.state, before[a.at]);
    }
    QuietChangeKeepsInv(c, Step(c, a), a.at);
  }

  lemma LocalStepKeepsInv(c: Cluster, a: Action)
    requires Enabled(c, a) && Inv(c) && (a.ReadClock? || a.NotifyLeave? || a.SendSync?)
    ensures Inv(Step(c, a))
  {
    var nodes := c.replicas[a.at].nodes;
    assert OwnerCurrent(c, a.at);
    assert GenuineNodes(c.published, nodes);
    assert GoodHistory(a.at, c.published[a.at]);
    if a.ReadClock? && a.at in nodes {
      GenuineIsSolo(c.published, nodes[a.at]);
    }
    QuietChangeKeepsInv(c, Step(c, a), a.at);
  }

  lemma StepKeepsInv(c: Cluster, a: Action)
    requires Enabled(c, a) && Inv(c) && !a.Restart?
    requires a.Publish? ==> |c.published[a.at]| < MAX_INT64
    ensures Inv(Step(c, a))
  {
    if a.Publish? {
      PublishKeepsInv(c, a);
    } else if a.Deliver? {
      DeliverKeepsInv(c, a);
    } else {
      LocalStepKeepsInv(c, a);
    }
  }

  lemma {:induction false} HistoriesAreShort(run: Run, i: nat, n: NodeId)
    requires IsRun(run) && i < |run.states|
    ensures run.states[i].published.Keys == run.states[0].published.Keys
    ensures run.states[i].replicas.Keys == run.states[0].replicas.Keys
    ensures n in run.states[i].published ==> |run.states[i].published[n]| <= i
    decreases i
  {
    if i > 0 {
      HistoriesAreShort(run, i - 1, n);
      assert run.states[i] == Step(run.states[i - 1], run.actions[i - 1]);
    }
  }

  lemma {:induction false} SteadyRunsKeepInv(run: Run, i: nat)
    requires IsSteadyRun(run) && i < |run.states|
    ensures Inv(run.states[i])
    decreases i
  {
    if i == 0 {
      assert Initial(run.states[0]);
    } else {
      SteadyRunsKeepInv(run, i - 1);
      HistoriesAreShort(run, i - 1, run.actions[i - 1].at);
      StepKeepsInv(run.states[i - 1], run.actions[i - 1]);
    }
  }

  ghost predicate Holds(c: Cluster, ns: NodeState) {
    ns in c.net || exists b :: b in c.replicas && ns in c.replicas[b].nodes.Values
  }

  lemma HeldIsGenuine(c: Cluster, x: NodeState)
    requires Inv(c) && Holds(c, x)
    ensures Genuine(c.published, x) && GoodHistory(x.nodeId, c.published[x.nodeId])
    ensures Solo(x)
  {
    if x !in c.net {
      var b :| b in c.replicas && x in c.replicas[b].nodes.Values;
      assert GenuineNodes(c.published, c.replicas[b].nodes);
    }
    GenuineIsSolo(c.published, x);
  }

  /** Without restarts, no replica and no message in flight is ever ahead of the owner, and
      copies of a node with equal clocks agree on everything but the status. */
  lemma OwnerDominates(run: Run, i: nat, x: NodeState, y: NodeState)
    requires IsSteadyRun(run) && i < |run.states|
    requires Holds(run.states[i], x) && Holds(run.states[i], y) && x.nodeId == y.nodeId
    ensures var n := x.nodeId; var c := run.states[i];
            && n in c.replicas && n in c.replicas[n].nodes
            && Leq(x.clock, c.replicas[n].nodes[n].clock)
            && (x.clock == y.clock ==> SameButStatus(x, y))
            && !Concurrent(x.clock, y.clock)
  {
    var c := run.states[i];
    SteadyRunsKeepInv(run, i);
    HeldIsGenuine(c, x);
    HeldIsGenuine(c, y);
    var n := x.nodeId;
    assert OwnerCurrent(c, n);
    var own := c.replicas[n].nodes[n];
    HeldIsGenuine(c, own);
    SoloConflictIsRank(x, y);
    SoloConflictIsRank(own, x);
  }

  /** The read and the write of a publication are not atomic, and still no update is lost: whatever
      was merged in between, the publication is one version above the owner's copy and beats every copy. */
  lemma PublicationLosesNoUpdate(run: Run, i: nat)
    requires IsSteadyRun(run) && i < |run.actions| && run.actions[i].Publish?
    ensures var n := run.actions[i].at; var after := run.states[i + 1].replicas[n].nodes;
            && HeldVersion(run.states[i + 1], n, n) == HeldVersion(run.states[i], n, n) + 1
            && n in after
            && forall x :: Holds(run.states[i], x) && x.nodeId == n ==> Beats(after[n], x)
  {
    var c, d, a := run.states[i], run.states[i + 1], run.actions[i];
    var n := a.at;
    SteadyRunsKeepInv(run, i);
    HistoriesAreShort(run, i, n);
    PublishExtends(c, a);
    assert OwnerCurrent(c, n);
    var ns := d.replicas[n].nodes[n];
    forall x | Holds(c, x) && x.nodeId == n ensures Beats(ns, x) {
      HeldIsGenuine(c, x);
      GenuineSurvives(c.published, d.published, x);
      GenuineConflict(d.published, ns, x);
    }
  }

  // ---- Convergence ----

  /** The version a state carries of its own node. */
  function OwnVersion(ns: NodeState): int {
    if ns.nodeId in ns.clock then ns.clock[ns.nodeId] else 0
  }

  /** Version of n that replica b holds; 0 when it holds none. */
  ghost function HeldVersion(c: Cluster, b: NodeId, n: NodeId): int {
    if b in c.replicas && n in c.replicas[b].nodes && n in c.replicas[b].nodes[n].clock
    then c.replicas[b].nodes[n].clock[n] else 0
  }

  lemma StepNeverLowersAVersion(c: Cluster, a: Action, b: NodeId, n: NodeId)
    requires Enabled(c, a) && Inv(c) && !a.Restart? && b in c.replicas
    requires a.Publish? ==> |c.published[a.at]| < MAX_INT64
    ensures HeldVersion(c, b, n) <= HeldVersion(Step(c, a), b, n)
  {
    var d := Step(c, a);
    var before := c.replicas[b].nodes;
    assert GenuineNodes(c.published, before);
    if b == a.at {
      if a.Publish? {
        PublishExtends(c, a);
        assert OwnerCurrent(c, b);
      } else if a.Deliver? && n == a.state.nodeId && n in before {
        GenuineConflict(c.published, a.state, before[n]);
      }
    } else {
      assert d.replicas[b] == c.replicas[b];
    }
  }

  lemma RunStepNeverLowersAVersion(run: Run, i: nat, b: NodeId, n: NodeId)
    requires IsSteadyRun(run) && i < |run.actions| && b in run.states[i].replicas
    ensures HeldVersion(run.states[i], b, n) <= HeldVersion(run.states[i + 1], b, n)
    ensures b in run.states[i + 1].replicas
  {
    SteadyRunsKeepInv(run, i);
    HistoriesAreShort(run, i, run.actions[i].at);
    StepNeverLowersAVersion(run.states[i], run.actions[i], b, n);
  }

  lemma {:induction false} VersionsNeverGoBack(run: Run, i: nat, j: nat, b: NodeId, n: NodeId)
    requires IsSteadyRun(run) && i <= j < |run.states| && b in run.states[i].replicas
    ensures HeldVersion(run.states[i], b, n) <= HeldVersion(run.states[j], b, n)
    ensures b in run.states[j].replicas
    decreases j
  {
    if i < j {
      VersionsNeverGoBack(run, i, j - 1, b, n);
      RunStepNeverLowersAVersion(run, j - 1, b, n);
    }
  }

  /** How many states of n replica b has taken over in the first i steps. */
  ghost function TakenOver(run: Run, b: NodeId, n: NodeId, i: nat): nat
    requires IsRun(run) && i <= |run.actions|
  {
    if i == 0 then 0
    else
      var c, a := run.states[i - 1], run.actions[i - 1];
      TakenOver(run, b, n, i - 1)
      + if a.Deliver? && a.at == b && a.state.nodeId == n && Accepts(c.replicas[b].nodes, a.state) then 1 else 0
  }

  lemma AcceptanceRaisesTheVersion(c: Cluster, a: Action)
    requires Enabled(c, a) && Inv(c) && a.Deliver? && Accepts(c.replicas[a.at].nodes, a.state)
    ensures HeldVersion(c, a.at, a.state.nodeId) < HeldVersion(Step(c, a), a.at, a.state.nodeId)
  {
    var nodes := c.replicas[a.at].nodes;
    assert GenuineNodes(c.published, nodes);
    assert GoodHistory(a.state.nodeId, c.published[a.state.nodeId]);
    GenuineIsSolo(c.published, a.state);
    if a.state.nodeId in nodes {
      GenuineConflict(c.published, a.state, nodes[a.state.nodeId]);
    }
  }

  /** Whatever is delivered how often, no replica takes over more states of a node than it has versions of
      it, hence no more than the node has published: the publications of the replica itself included. */
  lemma {:induction false} TakeoversAreBounded(run: Run, b: NodeId, n: NodeId, i: nat)
    requires IsSteadyRun(run) && i < |run.states| && b in run.states[0].replicas
    ensures b in run.states[i].replicas && TakenOver(run, b, n, i) <= HeldVersion(run.states[i], b, n)
    ensures n in run.states[i].published ==> HeldVersion(run.states[i], b, n) <= |run.states[i].published[n]|
    decreases i
  {
    SteadyRunsKeepInv(run, i);
    assert b in run.states[i].replicas by { HistoriesAreShort(run, i, n); }
    assert GenuineNodes(run.states[i].published, run.states[i].replicas[b].nodes);
    if i > 0 {
      TakeoversAreBounded(run, b, n, i - 1);
      RunStepNeverLowersAVersion(run, i - 1, b, n);
      SteadyRunsKeepInv(run, i - 1);
      var c, a := run.states[i - 1], run.actions[i - 1];
      if a.Deliver? && a.at == b && a.state.nodeId == n && Accepts(c.replicas[b].nodes, a.state) {
        AcceptanceRaisesTheVersion(c, a);
      }
    }
  }

  /** One delivery that mattered: what sender held of n after sentAt actions reached receiver in action gotAt.
      Broadcasts, anti-entropy syncs and push-pull syncs are all of this form. */
  datatype Hop = Hop(sender: NodeId, sentAt: nat, receiver: NodeId, gotAt: nat)

  ghost predicate IsHop(run: Run, n: NodeId, h: Hop)
    requires IsRun(run)
  {
    && h.sentAt <= h.gotAt < |run.actions|
    && h.sender in run.states[h.sentAt].replicas
    && n in run.states[h.sentAt].replicas[h.sender].nodes
    && run.actions[h.gotAt] == Deliver(h.receiver, run.states[h.sentAt].replicas[h.sender].nodes[n])
  }

  /** The hops lead from holder to m, each leaving after the one before it arrived. */
  ghost predicate IsPath(run: Run, n: NodeId, holder: NodeId, from: nat, hops: seq<Hop>, m: NodeId)
    requires IsRun(run)
    decreases |hops|
  {
    if hops == [] then holder == m
    else
      && IsHop(run, n, hops[0]) && hops[0].sender == holder && from <= hops[0].sentAt
      && IsPath(run, n, hops[0].receiver, hops[0].gotAt + 1, hops[1..], m)
  }

  lemma HopCarriesTheVersion(run: Run, n: NodeId, h: Hop, version: int)
    requires IsSteadyRun(run) && IsHop(run, n, h)
    requires 1 <= version <= HeldVersion(run.states[h.sentAt], h.sender, n)
    ensures h.receiver in run.states[h.gotAt + 1].replicas
    ensures version <= HeldVersion(run.states[h.gotAt + 1], h.receiver, n)
  {
    var c, ns := run.states[h.gotAt], run.states[h.sentAt].replicas[h.sender].nodes[n];
    SteadyRunsKeepInv(run, h.gotAt);
    SteadyRunsKeepInv(run, h.sentAt);
    assert GenuineNodes(run.states[h.sentAt].published, run.states[h.sentAt].replicas[h.sender].nodes);
    assert run.states[h.gotAt + 1] == Step(c, run.actions[h.gotAt]);
    assert GenuineNodes(c.published, c.replicas[h.receiver].nodes);
    if n in c.replicas[h.receiver].nodes {
      GenuineConflict(c.published, ns, c.replicas[h.receiver].nodes[n]);
    }
  }

  lemma {:induction false} PathCarriesTheVersion(
    run: Run, n: NodeId, holder: NodeId, from: nat, hops: seq<Hop>, m: NodeId, version: int)
    requires IsSteadyRun(run) && IsPath(run, n, holder, from, hops, m)
    requires from < |run.states| && holder in run.states[from].replicas
    requires 1 <= version <= HeldVersion(run.states[from], holder, n)
    ensures version <= HeldVersion(run.states[|run.states| - 1], m, n)
    decreases |hops|
  {
    if hops == [] {
      VersionsNeverGoBack(run, from, |run.states| - 1, m, n);
    } else {
      var h := hops[0];
      VersionsNeverGoBack(run, from, h.sentAt, holder, n);
      HopCarriesTheVersion(run, n, h, version);
      PathCarriesTheVersion(run, n, h.receiver, h.gotAt + 1, hops[1..], m, version);
    }
  }

  /** Convergence along any schedule: if the node's last publication happened within the first
      `from` actions, and a chain of deliveries leads from the node to m after that, then at the
      end of the run m holds exactly the node's own version and agrees with it on everything but
      the status: whatever else is lost, duplicated, reordered or published meanwhile. */
  lemma DeliveryChainsConverge(run: Run, n: NodeId, from: nat, hops: seq<Hop>, m: NodeId)
    requires IsSteadyRun(run) && from < |run.states| && n in run.states[from].replicas
    requires n in run.states[from].replicas[n].nodes
    requires forall i :: from <= i < |run.actions| && run.actions[i].Publish? ==> run.actions[i].at != n
    requires IsPath(run, n, n, from, hops, m)
    ensures var final := run.states[|run.states| - 1];
            && n in final.replicas && n in final.replicas[n].nodes
            && m in final.replicas && n in final.replicas[m].nodes
            && final.replicas[m].nodes[n].clock == final.replicas[n].nodes[n].clock
            && SameButStatus(final.replicas[m].nodes[n], final.replicas[n].nodes[n])
  {
    var last := |run.states| - 1;
    var final := run.states[last];
    SteadyRunsKeepInv(run, from);
    SteadyRunsKeepInv(run, last);
    HistoriesAreShort(run, from, n);
    HistoriesAreShort(run, last, n);
    assert OwnerCurrent(run.states[from], n);
    assert OwnerCurrent(final, n);
    HistoryStandsStill(run, n, from, last);
    PathCarriesTheVersion(run, n, n, from, hops, m, |final.published[n]|);
    assert GenuineNodes(final.published, final.replicas[m].nodes);
    assert GenuineNodes(final.published, final.replicas[n].nodes);
    GenuineConflict(final.published, final.replicas[m].nodes[n], final.replicas[n].nodes[n]);
    GenuineIsSolo(final.published, final.replicas[m].nodes[n]);
    GenuineIsSolo(final.published, final.replicas[n].nodes[n]);
  }

  lemma {:induction false} HistoryStandsStill(run: Run, n: NodeId, i: nat, j: nat)
    requires IsRun(run) && i <= j < |run.states| && n in run.states[i].published
    requires forall k :: i <= k < j && run.actions[k].Publish? ==> run.actions[k].at != n
    ensures n in run.states[j].published && run.states[j].published[n] == run.states[i].published[n]
    decreases j
  {
    if i < j {
      HistoryStandsStill(run, n, i, j - 1);
      assert run.states[j] == Step(run.states[j - 1], run.actions[j - 1]);
    }
  }

  // ---- Events ----

  /** Per node, the clocks in a manager's event stream never go back, and none is ahead of the map. */
  ghost predicate EventsClimb(events: seq<Event>, nodes: Nodes) {
    && (forall k :: 0 <= k < |events| ==>
          && events[k].nodeId in nodes && events[k].state.nodeId == events[k].nodeId
          && Leq(events[k].state.clock, nodes[events[k].nodeId].clock))
    && (forall j, k :: 0 <= j < k < |events| && events[j].nodeId == events[k].nodeId ==>
          Leq(events[j].state.clock, events[k].state.clock))
  }

  lemma ClimbingOpKeepsEvents(r: Replica, op: Op)
    requires EventsClimb(r.events, r.nodes)
    requires op.UpdateLocal? && op.state.nodeId in r.nodes ==> Leq(r.nodes[op.state.nodeId].clock, op.state.clock)
    requires forall id :: id in r.nodes ==> r.nodes[id].nodeId == id
    ensures EventsClimb(Perform(r, op).events, Perform(r, op).nodes)
  {
    var emitted, after := Emitted(r.nodes, op), Apply(r.nodes, op);
    if emitted != [] {
      var e := emitted[0];
      assert after[e.nodeId] == e.state;
      LeqIsAPartialOrder(e.state.clock, e.state.clock, e.state.clock);
      if e.nodeId in r.nodes {
        var l := r.nodes[e.nodeId];
        if op.MergeRemote? {
          JoinIsLeastUpperBound(op.state.clock, l.clock, l.clock);
        }
        assert Leq(l.clock, e.state.clock) by { LeqIsAPartialOrder(l.clock, l.clock, l.clock); }
        forall k | 0 <= k < |r.events| && r.events[k].nodeId == e.nodeId
          ensures Leq(r.events[k].state.clock, e.state.clock)
        {
          LeqIsAPartialOrder(r.events[k].state.clock, l.clock, e.state.clock);
        }
      }
    }
  }

  lemma StepKeepsEvents(c: Cluster, a: Action)
    requires Enabled(c, a) && Inv(c) && !a.Restart?
    requires a.Publish? ==> |c.published[a.at]| < MAX_INT64
    requires forall b :: b in c.replicas ==> EventsClimb(c.replicas[b].events, c.replicas[b].nodes)
    ensures forall b :: b in c.replicas ==> EventsClimb(Step(c, a).replicas[b].events, Step(c, a).replicas[b].nodes)
  {
    var r := c.replicas[a.at];
    assert GenuineNodes(c.published, r.nodes);
    match a
    case Publish(n, metrics, seenAt, updatedAt) =>
      PublishExtends(c, a);
      assert OwnerCurrent(c, n);
      if n in r.nodes {
        assert GoodHistory(n, c.published[n]);
        GenuineIsSolo(c.published, r.nodes[n]);
      }
      ClimbingOpKeepsEvents(r, UpdateLocal(Publication(n, r.reading.value, metrics, seenAt, updatedAt)));
    case Deliver(_, ns) => ClimbingOpKeepsEvents(r, MergeRemote(ns));
    case NotifyLeave(_, gone) => ClimbingOpKeepsEvents(r, MarkInactive(gone));
    case _ =>
  }

  /** Without restarts, the clocks of a node never go back in any manager's event stream. */
  lemma {:induction false} EventsNeverGoBack(run: Run, i: nat)
    requires IsSteadyRun(run) && i < |run.states|
    ensures forall b :: b in run.states[i].replicas ==>
              EventsClimb(run.states[i].replicas[b].events, run.states[i].replicas[b].nodes)
    decreases i
  {
    if i > 0 {
      EventsNeverGoBack(run, i - 1);
      SteadyRunsKeepInv(run, i - 1);
      HistoriesAreShort(run, i - 1, run.actions[i - 1].at);
      StepKeepsEvents(run.states[i - 1], run.actions[i - 1]);
    }
  }
}
