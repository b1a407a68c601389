/** Accounts of the event pipeline: where every event is or was lost, and exactly when a client is dropped. */
module FanOutAccounts {
  import opened NodeStates
  import opened FanOut

  // ---- Where the events are ----

  datatype Kind = Emits | Takes | Discards | Pushes | Broadcasts | Reads(id: nat)

  predicate Is(s: PipeStep, kind: Kind) {
    match kind
    case Emits => s.Emit?
    case Takes => s.Take?
    case Discards => s.Discard?
    case Pushes => s.Push?
    case Broadcasts => s.HubBroadcast?
    case Reads(id) => s == ClientRead(id)
  }

  /** How many of the first i steps are of a kind. */
  ghost function Count(run: PipeRun, i: nat, kind: Kind): nat
    requires i <= |run.steps|
  {
    if i == 0 then 0 else Count(run, i - 1, kind) + if Is(run.steps[i - 1], kind) then 1 else 0
  }

  /** How many events found the subscriber's queue full in the first i steps. */
  ghost function Dropped(run: PipeRun, i: nat): nat
    requires IsPipeRun(run) && i <= |run.steps|
  {
    if i == 0 then 0
    else Dropped(run, i - 1) + if run.steps[i - 1].Emit? && |run.states[i - 1].queue| >= 64 then 1 else 0
  }

  function InHand(p: Pipeline): nat {
    if p.hand.Some? then 1 else 0
  }

  /** Every event emitted is in the hub's log, in its inbox, in the forwarder's hand or in the subscriber's queue, or was
      dropped at a full queue or discarded by the forwarder; and each place has received what the steps before it passed on. */
  lemma {:induction false} EveryEventIsAccountedFor(run: PipeRun, i: nat)
    requires IsPipeRun(run) && i < |run.states|
    ensures var p := run.states[i];
            && |p.hubLog| == Count(run, i, Broadcasts)
            && |p.hubLog| + |p.inbox| == Count(run, i, Pushes)
            && |p.hubLog| + |p.inbox| + InHand(p) + Count(run, i, Discards) == Count(run, i, Takes)
            && Count(run, i, Takes) + |p.queue| + Dropped(run, i) == |p.emitted| == Count(run, i, Emits)
    decreases i
  {
    if i > 0 {
      EveryEventIsAccountedFor(run, i - 1);
      assert run.states[i] == PipeNext(run.states[i - 1], run.steps[i - 1]);
    }
  }

  lemma {:induction false} GapFreeIndexes(s: seq<Stamped>, emitted: seq<Event>, k: nat)
    requires Subsequence(s, emitted) && |s| == |emitted| && k < |s|
    ensures k <= s[k].index
    decreases k
  {
    if k > 0 {
      GapFreeIndexes(s, emitted, k - 1);
    }
  }

  lemma {:induction false} IndexesLeaveRoom(s: seq<Stamped>, emitted: seq<Event>, k: nat)
    requires Subsequence(s, emitted) && |s| == |emitted| && k < |s|
    ensures s[k].index <= k
    decreases |s| - k
  {
    if k < |s| - 1 {
      IndexesLeaveRoom(s, emitted, k + 1);
    }
  }

  /** While no queue was full and nothing was discarded, the line holds all events, in their order. */
  lemma NothingIsLostWithoutOverflow(run: PipeRun, i: nat, k: nat)
    requires IsPipeRun(run) && i < |run.states| && Dropped(run, i) == 0 && Count(run, i, Discards) == 0
    requires k < |run.states[i].emitted|
    ensures |Line(run.states[i])| == |run.states[i].emitted|
    ensures Line(run.states[i])[k] == Stamped(k, run.states[i].emitted[k])
  {
    var line, emitted := Line(run.states[i]), run.states[i].emitted;
    EveryEventIsAccountedFor(run, i);
    PipeRunsKeepInv(run, i);
    GapFreeIndexes(line, emitted, k);
    IndexesLeaveRoom(line, emitted, k);
  }

  lemma {:induction false} BuffersAreBounded(run: PipeRun, i: nat)
    requires IsPipeRun(run) && i < |run.states|
    ensures |run.states[i].queue| <= 64 && |run.states[i].inbox| <= 256
    ensures forall id :: id in run.states[i].registered ==> |run.states[i].registered[id].buf| <= 256
    decreases i
  {
    if i > 0 {
      BuffersAreBounded(run, i - 1);
      assert run.states[i] == PipeNext(run.states[i - 1], run.steps[i - 1]);
    }
  }

  /** An event on its way is never stuck: the forwarder holds at most one and passes it on or discards it, waiting only for
      the hub's inbox, and the hub waits for nothing. */
  lemma PipelineIsNeverStuck(p: Pipeline, e: Event, id: nat)
    ensures PipeEnabled(p, Emit(e))
    ensures p.queue != [] || p.hand.Some? || p.inbox != [] ==>
              PipeEnabled(p, Take) || PipeEnabled(p, Push) || PipeEnabled(p, HubBroadcast)
    ensures p.hand.Some? ==> PipeEnabled(p, Discard) && (PipeEnabled(p, Push) <==> |p.inbox| < 256)
    ensures p.inbox != [] ==> PipeEnabled(p, HubBroadcast)
    ensures if id in p.registered
            then PipeEnabled(p, UnregisterClient(id)) && (p.registered[id].buf != [] ==> PipeEnabled(p, ClientRead(id)))
            else PipeEnabled(p, RegisterClient(id))
  {
  }

  // ---- What becomes of a client ----

  /** A known client with room gets the hub's next message and stays; one without room is closed and forgotten, and what it
      has been handed stays as it was. */
  lemma BroadcastReachesThoseWithRoom(run: PipeRun, i: nat, id: nat)
    requires IsPipeRun(run) && i < |run.steps| && run.steps[i].HubBroadcast? && id in run.states[i].clients
    ensures id in run.states[i].registered && id in run.states[i + 1].registered
    ensures var p, q := run.states[i], run.states[i + 1]; var c, d := p.registered[id], q.registered[id];
            && (|c.buf| < 256 ==> d.open && id in q.clients && d.buf == c.buf + [p.inbox[0]] && d.taken == c.taken)
            && (|c.buf| >= 256 ==> !d.open && id !in q.clients && Stream(d) == Stream(c))
  {
    PipeRunsKeepInv(run, i);
    PipeRunsKeepInv(run, i + 1);
    assert run.states[i + 1] == PipeNext(run.states[i], run.steps[i]);
  }

  /** The step drops the client: it unregisters, or a broadcast finds its queue full. */
  ghost predicate Drops(p: Pipeline, s: PipeStep, id: nat) {
    || s == UnregisterClient(id)
    || (s.HubBroadcast? && id in p.registered && |p.registered[id].buf| >= 256)
  }

  lemma DroppedIffOpenBefore(p: Pipeline, s: PipeStep, id: nat)
    requires PipeEnabled(p, s) && HubInv(p) && id in p.registered
    ensures id in PipeNext(p, s).registered
    ensures PipeNext(p, s).registered[id].open <==> p.registered[id].open && !Drops(p, s, id)
    ensures PipeNext(p, s).registered[id].start == p.registered[id].start
  {
  }

  lemma RegisteredClientIsOpen(p: Pipeline, id: nat)
    requires PipeEnabled(p, RegisterClient(id))
    ensures var q := PipeNext(p, RegisterClient(id));
            id in q.registered && q.registered[id].open && q.registered[id].start == |p.hubLog|
  {
  }

  /** From its registration on, a client is open exactly until it unregisters or a broadcast finds its queue full. */
  lemma {:induction false} OpenUntilDropped(run: PipeRun, r: nat, i: nat, id: nat)
    requires IsPipeRun(run) && r < i < |run.states| && run.steps[r] == RegisterClient(id)
    ensures id in run.states[i].registered && run.states[i].registered[id].start == |run.states[r].hubLog|
    ensures run.states[i].registered[id].open <==> forall k :: r < k < i ==> !Drops(run.states[k], run.steps[k], id)
    decreases i
  {
    if r == i - 1 {
      RegisteredClientIsOpen(run.states[r], id);
    } else {
      OpenUntilDropped(run, r, i - 1, id);
      PipeRunsKeepInv(run, i - 1);
      DroppedIffOpenBefore(run.states[i - 1], run.steps[i - 1], id);
    }
  }

  /** A connection has read as many messages as it made reads. */
  lemma {:induction false} ReadsTakeTheMessages(run: PipeRun, i: nat, id: nat)
    requires IsPipeRun(run) && i < |run.states|
    ensures if id in run.states[i].registered
            then |run.states[i].registered[id].taken| == Count(run, i, Reads(id))
            else Count(run, i, Reads(id)) == 0
    decreases i
  {
    if i > 0 {
      ReadsTakeTheMessages(run, i - 1, id);
      assert run.states[i] == PipeNext(run.states[i - 1], run.steps[i - 1]);
    }
  }

  // ---- An event on its way to a client ----

  function Extended(run: PipeRun, s: PipeStep): PipeRun
    requires run.states != [] && PipeEnabled(run.states[|run.states| - 1], s)
  {
    PipeRun(run.states + [PipeNext(run.states[|run.states| - 1], s)], run.steps + [s])
  }

  lemma ExtendedIsRun(run: PipeRun, s: PipeStep)
    requires IsPipeRun(run) && PipeEnabled(run.states[|run.states| - 1], s)
    ensures IsPipeRun(Extended(run, s))
  {
  }

  lemma EventReachesTheHub(e: Event, id: nat) returns (run: PipeRun)
    ensures IsPipeRun(run) && run.steps == [RegisterClient(id), Emit(e), Take, Push]
    ensures run.states[4] == EMPTY_PIPELINE.(emitted := [e], inbox := [Stamped(0, e)], clients := {id},
                                             registered := map[id := Client(0, [], [], true, 0)])
  {
    run := PipeRun([EMPTY_PIPELINE], []);
    ExtendedIsRun(run, RegisterClient(id));
    run := Extended(run, RegisterClient(id));
    ExtendedIsRun(run, Emit(e));
    run := Extended(run, Emit(e));
    ExtendedIsRun(run, Take);
    run := Extended(run, Take);
    ExtendedIsRun(run, Push);
    run := Extended(run, Push);
  }

  /** An event that is emitted can reach a client and be read. */
  lemma EventReachesAClient(e: Event, id: nat) returns (run: PipeRun)
    ensures IsPipeRun(run) && run.steps == [RegisterClient(id), Emit(e), Take, Push, HubBroadcast, ClientRead(id)]
    ensures var end := run.states[6];
            id in end.clients && id in end.registered && end.registered[id] == Client(0, [Stamped(0, e)], [], true, 0)
  {
    run := EventReachesTheHub(e, id);
    ExtendedIsRun(run, HubBroadcast);
    run := Extended(run, HubBroadcast);
    ExtendedIsRun(run, ClientRead(id));
    run := Extended(run, ClientRead(id));
  }
}
