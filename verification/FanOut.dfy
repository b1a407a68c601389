/** Events on their way to WebSocket clients: a subscriber queue that drops events, a forwarder,
    the hub's inbox, and per-client queues that drop the client instead. */
module FanOut {
  import opened VectorClocks
  import opened NodeStates
  import opened Channels
  import opened StateManagers
  import opened Clusters

  const CLIENT_BUFFER: nat := 256
  const HUB_INBOX: nat := 256

  class WsClient {
    const send: Chan<Event>

    constructor ()
      ensures fresh(send) && send.capacity == CLIENT_BUFFER && send.buf == [] && !send.closed
    {
      send := new Chan<Event>(CLIENT_BUFFER);
    }
  }

  /** The hub's event loop, one case per method. */
  class WsHub {
    var clients: set<WsClient>

    /** Every client the hub knows is open, and has a channel of its own. */
    ghost predicate Valid()
      reads this, (set c | c in clients :: c.send)
    {
      && (forall c :: c in clients ==> !c.send.closed && c.send.capacity == CLIENT_BUFFER)
      && (forall c, d :: c in clients && d in clients && c != d ==> c.send != d.send)
    }

    constructor ()
      ensures Valid() && clients == {}
    {
      clients := {};
    }

    method Register(client: WsClient)
      requires Valid() && !client.send.closed && client.send.capacity == CLIENT_BUFFER
      requires forall c :: c in clients && c != client ==> c.send != client.send
      modifies this
      ensures Valid() && clients == old(clients) + {client}
    {
      clients := clients + {client};
    }

    method Unregister(client: WsClient)
      requires Valid()
      modifies this, if client in clients then {client.send} else {}
      ensures Valid() && clients == old(clients) - {client}
      ensures client.send.closed == (old(client.send.closed) || client in old(clients))
      ensures client.send.buf == old(client.send.buf)
    {
      if client in clients {
        clients := clients - {client};
        client.send.Close();
      }
    }

    /** Offers the message to each client in any order; one whose queue is full is closed and forgotten. */
    method Broadcast(message: Event)
      requires Valid()
      modifies this, set c | c in clients :: c.send
      ensures Valid()
      ensures clients == set c | c in old(clients) && HasRoom(old(c.send.buf), CLIENT_BUFFER)
      ensures forall c :: c in old(clients) ==>
                c.send.buf == Offer(old(c.send.buf), CLIENT_BUFFER, message) && c.send.closed == (c !in clients)
    {
      var stale := OfferToAll(message);
      ghost var dropped := stale;
      while stale != {}
        invariant stale <= dropped
        invariant clients == old(clients) - (dropped - stale)
        modifies this
      {
        var client :| client in stale;
        stale := stale - {client};
        clients := clients - {client};
      }
    }

    /** Offers the message to each client, closes those that cannot take it, and returns them. */
    method OfferToAll(message: Event) returns (stale: set<WsClient>)
      requires Valid()
      modifies set c | c in clients :: c.send
      ensures stale == set c | c in clients && !HasRoom(old(c.send.buf), CLIENT_BUFFER)
      ensures forall c :: c in clients ==>
                c.send.capacity == CLIENT_BUFFER && c.send.closed == (c in stale)
                && c.send.buf == Offer(old(c.send.buf), CLIENT_BUFFER, message)
    {
      stale := {};
      var rest := clients;
      while rest != {}
        invariant rest <= clients
        invariant stale == set c | c in clients - rest && !HasRoom(old(c.send.buf), CLIENT_BUFFER)
        invariant forall c :: c in clients ==> c.send.closed == (c in stale)
        invariant forall c :: c in clients ==>
                    c.send.buf == if c in rest then old(c.send.buf) else Offer(old(c.send.buf), CLIENT_BUFFER, message)
      {
        var client :| client in rest;
        rest := rest - {client};
        var sent := client.send.TrySend(message);
        if !sent {
          client.send.Close();
          stale := stale + {client};
        }
      }
    }
  }

  // ---- The whole pipeline ----

  /** An event with its position in the manager's stream. The position is history, not sent. */
  datatype Stamped = Stamped(index: nat, event: Event)

  /** start: length of the hub's log at registration; taken: what the connection has read. */
  datatype Client = Client(start: nat, taken: seq<Stamped>, buf: seq<Stamped>, open: bool, closes: nat)

  /** emitted and hubLog are history; panicked records an operation on a closed client channel. */
  datatype Pipeline = Pipeline(
    emitted: seq<Event>,
    queue: seq<Stamped>,
    hand: Option<Stamped>,
    inbox: seq<Stamped>,
    hubLog: seq<Stamped>,
    registered: map<nat, Client>,
    clients: set<nat>,
    panicked: bool)

  const EMPTY_PIPELINE := Pipeline([], [], None, [], [], map[], {}, false)

  datatype PipeStep =
    | Emit(event: Event)
    | Take
    | Discard
    | Push
    | RegisterClient(id: nat)
    | UnregisterClient(id: nat)
    | HubBroadcast
    | ClientRead(id: nat)

  predicate PipeEnabled(p: Pipeline, s: PipeStep) {
    match s
    case Emit(_) => true
    case Take => p.hand.None? && p.queue != []
    case Discard => p.hand.Some?
    case Push => p.hand.Some? && HasRoom(p.inbox, HUB_INBOX)
    case RegisterClient(id) => id !in p.registered
    case UnregisterClient(id) => id in p.registered
    case HubBroadcast => p.inbox != []
    case ClientRead(id) => id in p.registered && p.registered[id].buf != []
  }

  function Closed(c: Client): Client {
    c.(open := false, closes := c.closes + 1)
  }

  /** What one client sees of a hub broadcast, as WsHub.Broadcast states it. */
  function Offered(c: Client, known: bool, m: Stamped): Client {
    if !known then c
    else
      var d := c.(buf := Offer(c.buf, CLIENT_BUFFER, m));
      if HasRoom(c.buf, CLIENT_BUFFER) then d else Closed(d)
  }

  function PipeNext(p: Pipeline, s: PipeStep): Pipeline
    requires PipeEnabled(p, s)
  {
    match s
    case Emit(e) =>
      p.(queue := Offer(p.queue, SUBSCRIBER_BUFFER, Stamped(|p.emitted|, e)), emitted := p.emitted + [e])
    case Take => p.(hand := Some(p.queue[0]), queue := p.queue[1..])
    case Discard => p.(hand := None)
    case Push => p.(inbox := p.inbox + [p.hand.value], hand := None)
    case RegisterClient(id) =>
      p.(registered := p.registered[id := Client(|p.hubLog|, [], [], true, 0)], clients := p.clients + {id})
    case UnregisterClient(id) =>
      if id !in p.clients then p
      else p.(registered := p.registered[id := Closed(p.registered[id])],
              clients := p.clients - {id},
              panicked := p.panicked || !p.registered[id].open)
    case HubBroadcast =>
      var m := p.inbox[0];
      p.(inbox := p.inbox[1..],
         hubLog := p.hubLog + [m],
         registered := map id | id in p.registered :: Offered(p.registered[id], id in p.clients, m),
         clients := (set id | id in p.clients && id in p.registered && HasRoom(p.registered[id].buf, CLIENT_BUFFER)),
         panicked := p.panicked || (exists id :: id in p.clients && id in p.registered && !p.registered[id].open))
    case ClientRead(id) =>
      var c := p.registered[id];
      p.(registered := p.registered[id := c.(taken := c.taken + [c.buf[0]], buf := c.buf[1..])])
  }

  datatype PipeRun = PipeRun(states: seq<Pipeline>, steps: seq<PipeStep>)

  ghost predicate IsPipeRun(run: PipeRun) {
    && |run.states| == |run.steps| + 1
    && run.states[0] == EMPTY_PIPELINE
    && forall i :: 0 <= i < |run.steps| ==>
         PipeEnabled(run.states[i], run.steps[i]) && run.states[i + 1] == PipeNext(run.states[i], run.steps[i])
  }

  /** Everything a client has been handed since it registered, read or not. */
  function Stream(c: Client): seq<Stamped> {
    c.taken + c.buf
  }

  function Line(p: Pipeline): seq<Stamped> {
    p.hubLog + p.inbox + (if p.hand.Some? then [p.hand.value] else []) + p.queue
  }

  /** The elements are events of the stream, at strictly increasing positions. */
  ghost predicate Subsequence(s: seq<Stamped>, emitted: seq<Event>) {
    && (forall i :: 0 <= i < |s| ==> s[i].index < |emitted| && emitted[s[i].index] == s[i].event)
    && (forall i, j :: 0 <= i < j < |s| ==> s[i].index < s[j].index)
  }

  lemma SubsequenceParts(s: seq<Stamped>, t: seq<Stamped>, u: seq<Stamped>, emitted: seq<Event>)
    requires Subsequence(s + t + u, emitted)
    ensures Subsequence(s + u, emitted) && Subsequence(s, emitted)
  {
    var all, some := s + t + u, s + u;
    assert forall i :: 0 <= i < |some| ==> some[i] == all[if i < |s| then i else i + |t|];
    assert forall i :: 0 <= i < |s| ==> s[i] == all[i];
  }

  /** Moving an element on, or anything the clients do, leaves the line as it is. */
  lemma MovesKeepLine(p: Pipeline, s: PipeStep)
    requires PipeEnabled(p, s) && !s.Emit? && !s.Discard?
    ensures Line(PipeNext(p, s)) == Line(p) && PipeNext(p, s).emitted == p.emitted
  {
    var q := PipeNext(p, s);
    if s.Take? {
      assert p.queue == [p.queue[0]] + p.queue[1..];
      assert Line(q) == p.hubLog + p.inbox + [p.queue[0]] + p.queue[1..];
    } else if s.HubBroadcast? {
      assert p.inbox == [p.inbox[0]] + p.inbox[1..];
      assert q.hubLog + q.inbox == p.hubLog + p.inbox;
    } else if s.Push? {
      assert q.hubLog + q.inbox == p.hubLog + p.inbox + [p.hand.value];
    }
  }

  lemma EmitKeepsLine(p: Pipeline, e: Event)
    requires Subsequence(Line(p), p.emitted)
    ensures Subsequence(Line(PipeNext(p, Emit(e))), PipeNext(p, Emit(e)).emitted)
  {
    var q := PipeNext(p, Emit(e));
    if |p.queue| < SUBSCRIBER_BUFFER {
      assert Line(q) == Line(p) + [Stamped(|p.emitted|, e)];
    } else {
      assert Line(q) == Line(p);
    }
  }

  lemma StepKeepsLine(p: Pipeline, s: PipeStep)
    requires PipeEnabled(p, s) && Subsequence(Line(p), p.emitted)
    ensures Subsequence(Line(PipeNext(p, s)), PipeNext(p, s).emitted)
  {
    if s.Emit? {
      EmitKeepsLine(p, s.event);
    } else if s.Discard? {
      SubsequenceParts(p.hubLog + p.inbox, [p.hand.value], p.queue, p.emitted);
      assert Line(PipeNext(p, s)) == p.hubLog + p.inbox + p.queue;
    } else {
      MovesKeepLine(p, s);
    }
  }

  /** The client has been handed a contiguous segment of the hub's log, from its registration on,
      and up to the present while it is open. */
  ghost predicate Segment(c: Client, hubLog: seq<Stamped>) {
    && c.start + |Stream(c)| <= |hubLog|
    && Stream(c) == hubLog[c.start..c.start + |Stream(c)|]
    && (c.open ==> c.start + |Stream(c)| == |hubLog|)
    && c.closes == if c.open then 0 else 1
  }

  /** The hub knows exactly the registered clients that are open. */
  ghost predicate HubInv(p: Pipeline) {
    && !p.panicked
    && p.clients <= p.registered.Keys
    && (forall id :: id in p.registered ==> (id in p.clients <==> p.registered[id].open))
    && (forall id :: id in p.registered ==> Segment(p.registered[id], p.hubLog))
  }

  lemma OfferKeepsSegment(c: Client, m: Stamped, hubLog: seq<Stamped>)
    requires Segment(c, hubLog)
    ensures Segment(Offered(c, c.open, m), hubLog + [m])
  {
    var d := Offered(c, c.open, m);
    if c.open && HasRoom(c.buf, CLIENT_BUFFER) {
      assert Stream(d) == Stream(c) + [m];
    } else {
      assert Stream(d) == Stream(c);
    }
  }

  lemma BroadcastKeepsHubInv(p: Pipeline)
    requires HubInv(p) && p.inbox != []
    ensures HubInv(PipeNext(p, HubBroadcast))
  {
    var q := PipeNext(p, HubBroadcast);
    forall id | id in q.registered
      ensures Segment(q.registered[id], q.hubLog) && (id in q.clients <==> q.registered[id].open)
    {
      OfferKeepsSegment(p.registered[id], p.inbox[0], p.hubLog);
    }
  }

  /** A step that changes at most one client, and keeps that one in order. */
  lemma OneClientKeepsHubInv(p: Pipeline, q: Pipeline, id: nat)
    requires HubInv(p) && id in q.registered && q.hubLog == p.hubLog && !q.panicked
    requires q.registered == p.registered[id := q.registered[id]]
    requires q.clients == p.clients - {id} + (if q.registered[id].open then {id} else {})
    requires Segment(q.registered[id], q.hubLog)
    ensures HubInv(q)
  {
  }

  lemma StepKeepsHubInv(p: Pipeline, s: PipeStep)
    requires PipeEnabled(p, s) && HubInv(p)
    ensures HubInv(PipeNext(p, s))
  {
    var q := PipeNext(p, s);
    match s
    case HubBroadcast => BroadcastKeepsHubInv(p);
    case RegisterClient(id) => OneClientKeepsHubInv(p, q, id);
    case ClientRead(id) =>
      var c := p.registered[id];
      assert c.buf == [c.buf[0]] + c.buf[1..];
      assert Stream(q.registered[id]) == Stream(c);
      OneClientKeepsHubInv(p, q, id);
    case UnregisterClient(id) =>
      if id in p.clients {
        assert Stream(q.registered[id]) == Stream(p.registered[id]);
        OneClientKeepsHubInv(p, q, id);
      }
    case _ =>
  }

  lemma {:induction false} PipeRunsKeepInv(run: PipeRun, i: nat)
    requires IsPipeRun(run) && i < |run.states|
    ensures HubInv(run.states[i]) && Subsequence(Line(run.states[i]), run.states[i].emitted)
    decreases i
  {
    if i > 0 {
      PipeRunsKeepInv(run, i - 1);
      StepKeepsHubInv(run.states[i - 1], run.steps[i - 1]);
      StepKeepsLine(run.states[i - 1], run.steps[i - 1]);
    }
  }

  /** In every run each client receives a gap-free segment of the hub's log from its registration until it
      is dropped; its channel is closed at most once and never touched after that. */
  lemma ClientsReceiveSegments(run: PipeRun, i: nat, id: nat)
    requires IsPipeRun(run) && i < |run.states| && id in run.states[i].registered
    ensures var p, c := run.states[i], run.states[i].registered[id];
            && c.start + |Stream(c)| <= |p.hubLog| && Stream(c) == p.hubLog[c.start..c.start + |Stream(c)|]
            && (c.open ==> c.start + |Stream(c)| == |p.hubLog|)
            && c.closes <= 1 && (c.open <==> id in p.clients) && !p.panicked
  {
    PipeRunsKeepInv(run, i);
  }

  /** Once closed, a client stays closed, and nothing is added to what it was handed. */
  lemma {:induction false} ClosedClientsGetNothing(run: PipeRun, i: nat, j: nat, id: nat)
    requires IsPipeRun(run) && i <= j < |run.states|
    requires id in run.states[i].registered && !run.states[i].registered[id].open
    ensures id in run.states[j].registered && !run.states[j].registered[id].open
    ensures Stream(run.states[j].registered[id]) == Stream(run.states[i].registered[id])
    decreases j
  {
    if i < j {
      ClosedClientsGetNothing(run, i, j - 1, id);
      PipeRunsKeepInv(run, j - 1);
      ClosedStays(run.states[j - 1], run.steps[j - 1], id);
    }
  }

  lemma ClosedStays(p: Pipeline, s: PipeStep, id: nat)
    requires PipeEnabled(p, s) && HubInv(p) && id in p.registered && !p.registered[id].open
    ensures id in PipeNext(p, s).registered && !PipeNext(p, s).registered[id].open
    ensures Stream(PipeNext(p, s).registered[id]) == Stream(p.registered[id])
  {
    if s == ClientRead(id) {
      var c := p.registered[id];
      assert c.buf == [c.buf[0]] + c.buf[1..];
    }
  }

  /** Through the dropping queue, the forwarder and the hub, a client's stream is an order-preserving,
      duplicate-free subsequence of the events its manager emitted. */
  lemma ClientStreamIsASubsequence(run: PipeRun, i: nat, id: nat)
    requires IsPipeRun(run) && i < |run.states| && id in run.states[i].registered
    ensures Subsequence(Stream(run.states[i].registered[id]), run.states[i].emitted)
  {
    var p := run.states[i];
    PipeRunsKeepInv(run, i);
    var c := p.registered[id];
    var end := c.start + |Stream(c)|;
    var line := Line(p);
    forall k | 0 <= k < |Stream(c)| ensures Stream(c)[k] == line[c.start + k] {
      assert p.hubLog[c.start..end][k] == p.hubLog[c.start + k];
    }
  }

  /** Without restarts, the clocks a WebSocket client sees for a node never go back: whatever the cluster
      does, whatever the queues on the way drop, and whenever (after d events) the hub subscribed. */
  lemma ClientClocksNeverGoBack(
    run: Run, t: nat, b: NodeId, pipe: PipeRun, i: nat, d: nat, id: nat, j: nat, k: nat)
    requires IsSteadyRun(run) && t < |run.states| && b in run.states[t].replicas
    requires IsPipeRun(pipe) && i < |pipe.states| && id in pipe.states[i].registered
    requires d <= |run.states[t].replicas[b].events| && pipe.states[i].emitted == run.states[t].replicas[b].events[d..]
    requires j < k < |Stream(pipe.states[i].registered[id])|
    requires var s := Stream(pipe.states[i].registered[id]); s[j].event.nodeId == s[k].event.nodeId
    ensures var s := Stream(pipe.states[i].registered[id]);
            Leq(s[j].event.state.clock, s[k].event.state.clock)
  {
    EventsNeverGoBack(run, t);
    ClientStreamIsASubsequence(pipe, i, id);
    var s, events := Stream(pipe.states[i].registered[id]), run.states[t].replicas[b].events;
    assert events[d + s[j].index] == s[j].event && events[d + s[k].index] == s[k].event;
  }
}
