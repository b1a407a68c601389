/** How one history sync completes when its response handlers, its senders, its waiting caller and
    its context all race. Every critical section and every channel operation is one step, and any
    number of responses, duplicate or late, can arrive. */
module Completion {
  import opened NodeStates
  import opened Channels
  import opened Gossip

  /** What a sync ends with: an error, or none. */
  type Outcome = Option<SyncError>

  /** Where a goroutine stands. Failing is the entry of failPendingSync. */
  datatype PC =
    | Starting
    | Sending
    | Responding(hasMore: bool)
    | Importing(hasMore: bool)
    | Counting(hasMore: bool)
    | Rechecking
    | Failing(outcome: Outcome)
    | Claimed(outcome: Outcome)
    | Signalled
    | Ended

  datatype Waiter = Waiting | Received(outcome: Outcome) | Withdrawn

  datatype Remover = ByThread(id: nat) | ByWaiter

  /** pending: the sync is registered. buf and closed describe its done channel. removals, sends,
      closes, importers (threads that began an import) and finishers (threads that imported a last page
      without fault) are history; panicked records a send on, or a close of, a closed channel. */
  datatype Sync = Sync(
    pending: bool,
    threads: map<nat, PC>,
    buf: seq<Outcome>,
    closed: bool,
    waiter: Waiter,
    removals: seq<Remover>,
    sends: nat,
    closes: nat,
    importers: set<nat>,
    finishers: set<nat>,
    panicked: bool)

  /** go: what the environment decides for the step: the import works, the send works, the context
      is live, the page limit is not reached. */
  datatype Move = Arrive(id: nat, hasMore: bool) | Advance(id: nat, go: bool) | Receive | Withdraw

  const FIRST_THREAD: nat := 0
  const DONE_BUFFER: nat := 1

  const START := Sync(true, map[FIRST_THREAD := Starting], [], false, Waiting, [], 0, 0, {}, {}, false)

  predicate Possible(s: Sync, m: Move) {
    match m
    case Arrive(id, _) => id !in s.threads
    case Advance(id, _) => id in s.threads && s.threads[id] != Ended
    case Receive => s.waiter.Waiting? && (s.buf != [] || s.closed)
    case Withdraw => s.waiter.Waiting?
  }

  function At(s: Sync, id: nat, pc: PC): Sync {
    s.(threads := s.threads[id := pc])
  }

  function Perform(s: Sync, m: Move): Sync
    requires Possible(s, m)
  {
    match m
    case Arrive(id, hasMore) => At(s, id, Responding(hasMore))
    case Receive =>
      if s.buf != [] then s.(waiter := Received(s.buf[0]), buf := s.buf[1..])
      else s.(waiter := Received(None)) // a closed channel yields the zero value
    case Withdraw =>
      s.(waiter := Withdrawn, pending := false,
         removals := if s.pending then s.removals + [ByWaiter] else s.removals)
    case Advance(id, go) =>
      match s.threads[id]
      case Starting => At(s, id, if go then Sending else Failing(Some(Cancelled)))
      case Sending => At(s, id, if go then Ended else Failing(Some(SendFailed)))
      case Responding(hasMore) => At(s, id, if s.pending then Importing(hasMore) else Ended)
      case Importing(hasMore) =>
        At(s, id, if go then Counting(hasMore) else Failing(Some(ImportFailed)))
        .(importers := s.importers + {id}, finishers := if go && !hasMore then s.finishers + {id} else s.finishers)
      case Counting(hasMore) =>
        At(s, id, if !hasMore then Failing(None) else if go then Rechecking else Failing(Some(MaxPagesExceeded)))
      case Rechecking => At(s, id, if s.pending then Sending else Ended)
      case Failing(outcome) =>
        if s.pending then At(s, id, Claimed(outcome)).(pending := false, removals := s.removals + [ByThread(id)])
        else At(s, id, Ended)
      case Claimed(outcome) =>
        if s.closed then At(s, id, Ended).(panicked := true)
        else if !HasRoom(s.buf, DONE_BUFFER) then s
        else At(s, id, Signalled).(buf := Offer(s.buf, DONE_BUFFER, outcome), sends := s.sends + 1)
      case Signalled =>
        if s.closed then At(s, id, Ended).(panicked := true)
        else At(s, id, Ended).(closed := true, closes := s.closes + 1)
      case Ended => s
  }

  datatype SyncRun = SyncRun(states: seq<Sync>, moves: seq<Move>)

  ghost predicate IsSyncRun(run: SyncRun) {
    && |run.states| == |run.moves| + 1
    && run.states[0] == START
    && forall i :: 0 <= i < |run.moves| ==>
         Possible(run.states[i], run.moves[i]) && run.states[i + 1] == Perform(run.states[i], run.moves[i])
  }

  ghost predicate Busy(s: Sync, id: nat) {
    id in s.threads && (s.threads[id].Claimed? || s.threads[id].Signalled?)
  }

  predicate AboutToSignal(pc: PC) {
    pc.Failing? || pc.Claimed? || pc.Signalled?
  }

  /** How far the signal has come: exactly one party removes the sync, and only a thread that did signals. */
  ghost predicate SignalState(s: Sync) {
    if s.removals == [] then
      s.pending && s.sends == s.closes == 0 && !s.closed
    else if s.removals == [ByWaiter] then
      !s.pending && s.sends == s.closes == 0 && !s.closed
    else
      && |s.removals| == 1 && !s.pending
      && var id := s.removals[0].id;
         && id in s.threads
         && (match s.threads[id]
             case Claimed(_) => s.sends == s.closes == 0 && !s.closed
             case Signalled => s.sends == 1 && s.closes == 0 && !s.closed
             case Ended => s.sends == s.closes == 1 && s.closed
             case _ => false)
  }

  ghost predicate SyncInv(s: Sync) {
    && !s.panicked
    && SignalState(s)
    && (forall id :: Busy(s, id) ==> s.removals == [ByThread(id)])
    && |s.buf| == s.sends - (if s.waiter.Received? then 1 else 0)
  }

  lemma QuietChangeKeepsSyncInv(s: Sync, id: nat, pc: PC, importers: set<nat>, finishers: set<nat>)
    requires SyncInv(s) && id in s.threads && !Busy(s, id) && s.threads[id] != Ended
    requires !pc.Claimed? && !pc.Signalled?
    ensures SyncInv(At(s, id, pc).(importers := importers, finishers := finishers))
  {
    var t := At(s, id, pc).(importers := importers, finishers := finishers);
    forall other | Busy(t, other) ensures t.removals == [ByThread(other)] {
      assert Busy(s, other);
    }
  }

  /** A thread that is neither failing nor signalling leaves the signal alone. */
  lemma QuietAdvanceKeepsSyncInv(s: Sync, id: nat, go: bool)
    requires Possible(s, Advance(id, go)) && SyncInv(s)
    requires !AboutToSignal(s.threads[id])
    ensures SyncInv(Perform(s, Advance(id, go)))
  {
    var t := Perform(s, Advance(id, go));
    assert t == At(s, id, t.threads[id]).(importers := t.importers, finishers := t.finishers);
    QuietChangeKeepsSyncInv(s, id, t.threads[id], t.importers, t.finishers);
  }

  /** Only the first thread to fail removes the sync, and only that thread signals. */
  lemma SignalAdvanceKeepsSyncInv(s: Sync, id: nat, go: bool)
    requires Possible(s, Advance(id, go)) && SyncInv(s)
    requires AboutToSignal(s.threads[id])
    ensures SyncInv(Perform(s, Advance(id, go)))
  {
    var t := Perform(s, Advance(id, go));
    assert Busy(s, id) ==> s.removals == [ByThread(id)];
    forall other | Busy(t, other) ensures t.removals == [ByThread(other)] {
      assert other != id ==> Busy(s, other);
    }
  }

  lemma MoveKeepsSyncInv(s: Sync, m: Move)
    requires Possible(s, m) && SyncInv(s)
    ensures SyncInv(Perform(s, m))
  {
    if m.Advance? {
      if AboutToSignal(s.threads[m.id]) {
        SignalAdvanceKeepsSyncInv(s, m.id, m.go);
      } else {
        QuietAdvanceKeepsSyncInv(s, m.id, m.go);
      }
    } else {
      var t := Perform(s, m);
      forall other | Busy(t, other) ensures t.removals == [ByThread(other)] {
        assert Busy(s, other);
      }
    }
  }

  lemma {:induction false} SyncRunsKeepInv(run: SyncRun, i: nat)
    requires IsSyncRun(run) && i < |run.states|
    ensures SyncInv(run.states[i])
    decreases i
  {
    if i > 0 {
      SyncRunsKeepInv(run, i - 1);
      MoveKeepsSyncInv(run.states[i - 1], run.moves[i - 1]);
    }
  }

  /** Over every interleaving the outcome is sent at most once and the channel closed at most once, after
      the send; nothing is sent once the caller has withdrawn a sync that was still registered; a
      thread about to signal finds the channel open and empty, so it neither panics nor blocks. */
  lemma CompletionIsSignalledOnce(run: SyncRun, i: nat)
    requires IsSyncRun(run) && i < |run.states|
    ensures var s := run.states[i];
            && !s.panicked && s.closes <= s.sends <= 1 && |s.removals| <= 1
            && (s.removals == [ByWaiter] ==> s.sends == 0)
            && (s.waiter.Received? ==> s.sends == 1)
            && (s.waiter.Waiting? && s.closed ==> |s.buf| == DONE_BUFFER)
            && (forall id :: id in s.threads && s.threads[id].Claimed? ==> !s.closed && s.buf == [])
            && (forall id :: id in s.threads && s.threads[id].Signalled? ==> !s.closed)
  {
    SyncRunsKeepInv(run, i);
    var s := run.states[i];
    forall id | id in s.threads && (s.threads[id].Claimed? || s.threads[id].Signalled?)
      ensures !s.closed && (s.threads[id].Claimed? ==> s.buf == [])
    {
      assert Busy(s, id);
    }
  }

  /** A sync taken over by a thread does not leave its caller waiting in vain: once that thread has
      ended, the outcome lies in the channel, or the caller has received it or gone. */
  lemma CallerIsNotForgotten(run: SyncRun, i: nat, id: nat)
    requires IsSyncRun(run) && i < |run.states|
    requires id in run.states[i].threads && run.states[i].threads[id] == Ended
    requires run.states[i].removals == [ByThread(id)]
    ensures run.states[i].waiter.Waiting? ==> |run.states[i].buf| == DONE_BUFFER && run.states[i].closed
  {
    SyncRunsKeepInv(run, i);
  }

  // ---- What the outcome says ----

  /** A thread carries no error exactly when it has imported a last page. */
  ghost predicate Honest(pc: PC, finished: bool) {
    match pc
    case Counting(hasMore) => finished == !hasMore
    case Failing(outcome) => finished == outcome.None?
    case Claimed(outcome) => finished == outcome.None?
    case Signalled => true
    case Ended => true
    case _ => !finished
  }

  /** The sync was taken over by a thread, which carried this outcome. */
  ghost predicate OutcomeOf(s: Sync, outcome: Outcome) {
    && |s.removals| == 1 && s.removals[0].ByThread?
    && (outcome.None? <==> s.removals[0].id in s.finishers)
  }

  ghost predicate OutcomeInv(s: Sync) {
    && (forall id :: id in s.threads ==> Honest(s.threads[id], id in s.finishers))
    && s.finishers <= s.threads.Keys
    && (forall outcome :: outcome in s.buf ==> OutcomeOf(s, outcome))
    && (s.waiter.Received? ==> OutcomeOf(s, s.waiter.outcome))
  }

  lemma AdvanceKeepsHonesty(s: Sync, id: nat, go: bool)
    requires Possible(s, Advance(id, go)) && SyncInv(s) && OutcomeInv(s)
    ensures var t := Perform(s, Advance(id, go));
            && t.finishers <= t.threads.Keys
            && forall other :: other in t.threads ==> Honest(t.threads[other], other in t.finishers)
  {
    var t := Perform(s, Advance(id, go));
    assert t.threads == s.threads || t.threads == s.threads[id := t.threads[id]];
    assert t.finishers == s.finishers || t.finishers == s.finishers + {id};
    assert Honest(s.threads[id], id in s.finishers) && Honest(t.threads[id], id in t.finishers);
  }

  /** The outcome put into the channel is that of the thread that took the sync over. */
  lemma AdvanceKeepsOutcomes(s: Sync, id: nat, go: bool)
    requires Possible(s, Advance(id, go)) && SyncInv(s) && OutcomeInv(s)
    ensures OutcomeInv(Perform(s, Advance(id, go)))
  {
    AdvanceKeepsHonesty(s, id, go);
    var t := Perform(s, Advance(id, go));
    assert s.removals == [ByThread(id)] <==> Busy(s, id);
    forall outcome | outcome in t.buf || t.waiter == Received(outcome) ensures OutcomeOf(t, outcome) {
      assert outcome in s.buf || s.waiter == Received(outcome) ==> OutcomeOf(s, outcome);
    }
  }

  lemma MoveKeepsOutcomes(s: Sync, m: Move)
    requires Possible(s, m) && SyncInv(s) && OutcomeInv(s)
    ensures OutcomeInv(Perform(s, m))
  {
    match m
    case Advance(id, go) => AdvanceKeepsOutcomes(s, id, go);
    case _ =>
      var t := Perform(s, m);
      forall outcome | outcome in t.buf || t.waiter == Received(outcome) ensures OutcomeOf(t, outcome) {
        assert OutcomeOf(s, outcome);
      }
  }

  lemma {:induction false} SyncRunsKeepOutcomes(run: SyncRun, i: nat)
    requires IsSyncRun(run) && i < |run.states|
    ensures OutcomeInv(run.states[i])
    decreases i
  {
    if i > 0 {
      SyncRunsKeepOutcomes(run, i - 1);
      SyncRunsKeepInv(run, i - 1);
      MoveKeepsOutcomes(run.states[i - 1], run.moves[i - 1]);
    }
  }

  /** What the caller receives comes from the one thread that took the sync over, and it is no error
      exactly when that thread imported a last page without fault; an empty closed channel, which
      would read as success, is never what it receives. */
  lemma SuccessMeansACompletedImport(run: SyncRun, i: nat)
    requires IsSyncRun(run) && i < |run.states| && run.states[i].waiter.Received?
    ensures var s := run.states[i];
            && |s.removals| == 1 && s.removals[0].ByThread?
            && (s.waiter.outcome == None <==> s.removals[0].id in s.finishers)
  {
    SyncRunsKeepOutcomes(run, i);
  }

  // ---- Late responses ----

  /** The sync is gone and thread id has not got past its lookup. */
  ghost predicate ShutOut(s: Sync, id: nat) {
    && !s.pending && id !in s.importers
    && (id in s.threads ==> s.threads[id].Responding? || s.threads[id] == Ended)
  }

  lemma MoveKeepsShutOut(s: Sync, m: Move, id: nat)
    requires Possible(s, m) && ShutOut(s, id)
    ensures ShutOut(Perform(s, m), id)
  {
  }

  lemma {:induction false} RemovalIsFinal(run: SyncRun, i: nat, j: nat, id: nat)
    requires IsSyncRun(run) && i <= j < |run.states| && ShutOut(run.states[i], id)
    ensures ShutOut(run.states[j], id)
    decreases j
  {
    if i < j {
      RemovalIsFinal(run, i, j - 1, id);
      MoveKeepsShutOut(run.states[j - 1], run.moves[j - 1], id);
      assert ShutOut(Perform(run.states[j - 1], run.moves[j - 1]), id);
    }
  }

  lemma MoveKeepsImporters(s: Sync, m: Move)
    requires Possible(s, m) && s.importers <= s.threads.Keys
    ensures Perform(s, m).importers <= Perform(s, m).threads.Keys
  {
    var t := Perform(s, m);
    if m.Advance? {
      assert t.importers == if s.threads[m.id].Importing? then s.importers + {m.id} else s.importers;
      assert s.threads.Keys <= t.threads.Keys;
    }
  }

  lemma {:induction false} ImportersAreThreads(run: SyncRun, i: nat)
    requires IsSyncRun(run) && i < |run.states|
    ensures run.states[i].importers <= run.states[i].threads.Keys
    decreases i
  {
    if i > 0 {
      ImportersAreThreads(run, i - 1);
      MoveKeepsImporters(run.states[i - 1], run.moves[i - 1]);
    }
  }

  /** A response whose handling starts after the sync was removed, by whomever, never imports anything. */
  lemma LateResponsesImportNothing(run: SyncRun, i: nat, j: nat, id: nat)
    requires IsSyncRun(run) && i <= j < |run.states|
    requires !run.states[i].pending && id !in run.states[i].threads
    ensures id !in run.states[j].importers
  {
    ImportersAreThreads(run, i);
    RemovalIsFinal(run, i, j, id);
  }
}
