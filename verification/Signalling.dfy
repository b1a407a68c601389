/** What must happen in a history sync, whatever races with it: a thread that fails or finishes takes the sync over, a
    response that finds the sync is imported, and no caller waits for a sync that nobody will signal. */
module Signalling {
  import opened NodeStates
  import opened Gossip
  import opened Completion

  /** What a thread has to report when its next step goes well or not; nothing if it goes on. */
  function ToReport(pc: PC, go: bool): Option<Outcome> {
    match pc
    case Starting => if go then None else Some(Some(Cancelled))
    case Sending => if go then None else Some(Some(SendFailed))
    case Importing(_) => if go then None else Some(Some(ImportFailed))
    case Counting(hasMore) => if !hasMore then Some(None) else if go then None else Some(Some(MaxPagesExceeded))
    case _ => None
  }

  /** Move j leaves its thread with this to report. */
  ghost predicate Reports(run: SyncRun, j: nat, id: nat, outcome: Outcome)
    requires IsSyncRun(run)
  {
    && j < |run.moves| && run.moves[j].Advance? && run.moves[j].id == id
    && ToReport(run.states[j].threads[id], run.moves[j].go) == Some(outcome)
  }

  lemma MoveTouchesOneThread(s: Sync, m: Move, id: nat)
    requires Possible(s, m) && id in s.threads && !(m.Advance? && m.id == id)
    ensures id in Perform(s, m).threads && Perform(s, m).threads[id] == s.threads[id]
  {
    match m
    case Advance(other, go) => AdvanceTouchesItsThread(s, other, go);
    case _ =>
  }

  lemma AdvanceTouchesItsThread(s: Sync, id: nat, go: bool)
    requires Possible(s, Advance(id, go))
    ensures var t := Perform(s, Advance(id, go)); id in t.threads && t.threads == s.threads[id := t.threads[id]]
  {
  }

  lemma ReportedOutcomeIsInHand(s: Sync, id: nat, go: bool, outcome: Outcome)
    requires Possible(s, Advance(id, go)) && ToReport(s.threads[id], go) == Some(outcome)
    ensures id in Perform(s, Advance(id, go)).threads && Perform(s, Advance(id, go)).threads[id] == Failing(outcome)
  {
  }

  lemma FailingThreadTakesOver(s: Sync, id: nat, go: bool)
    requires Possible(s, Advance(id, go)) && s.threads[id].Failing?
    ensures id in Perform(s, Advance(id, go)).threads && !Perform(s, Advance(id, go)).pending
  {
  }

  lemma RemovedStaysRemoved(s: Sync, m: Move)
    requires Possible(s, m) && !s.pending
    ensures !Perform(s, m).pending && s.threads.Keys <= Perform(s, m).threads.Keys
  {
  }

  /** The thread has the outcome in hand, or the sync is gone. */
  ghost predicate InHand(s: Sync, id: nat, outcome: Outcome) {
    id in s.threads && (s.threads[id] == Failing(outcome) || !s.pending)
  }

  lemma MoveKeepsInHand(s: Sync, m: Move, id: nat, outcome: Outcome)
    requires Possible(s, m) && InHand(s, id, outcome)
    ensures InHand(Perform(s, m), id, outcome)
  {
    if !s.pending {
      RemovedStaysRemoved(s, m);
    } else if m.Advance? && m.id == id {
      FailingThreadTakesOver(s, id, m.go);
    } else {
      MoveTouchesOneThread(s, m, id);
    }
  }

  /** A thread whose context, send, import or page limit failed, or that finished the last page, has its outcome in hand
      until the sync is gone: it cannot end and leave the sync registered. */
  lemma {:induction false} OutcomeIsNotDropped(run: SyncRun, j: nat, i: nat, id: nat, outcome: Outcome)
    requires IsSyncRun(run) && Reports(run, j, id, outcome) && j < i < |run.states|
    ensures id in run.states[i].threads
    ensures run.states[i].threads[id] == Failing(outcome) || !run.states[i].pending
    decreases i
  {
    if j == i - 1 {
      ReportedOutcomeIsInHand(run.states[j], id, run.moves[j].go, outcome);
    } else {
      OutcomeIsNotDropped(run, j, i - 1, id, outcome);
      MoveKeepsInHand(run.states[i - 1], run.moves[i - 1], id, outcome);
    }
  }

  /** Its next step removes the sync, unless somebody else has. */
  lemma {:induction false} ReportingRemovesTheSync(run: SyncRun, j: nat, k: nat, i: nat, id: nat, outcome: Outcome)
    requires IsSyncRun(run) && Reports(run, j, id, outcome) && j < k < i < |run.states|
    requires run.moves[k].Advance? && run.moves[k].id == id
    ensures !run.states[i].pending
    decreases i
  {
    if k < i - 1 {
      ReportingRemovesTheSync(run, j, k, i - 1, id, outcome);
      RemovedStaysRemoved(run.states[i - 1], run.moves[i - 1]);
    } else {
      OutcomeIsNotDropped(run, j, k, id, outcome);
      if run.states[k].pending {
        FailingThreadTakesOver(run.states[k], id, run.moves[k].go);
      } else {
        RemovedStaysRemoved(run.states[k], run.moves[k]);
      }
    }
  }

  lemma MoveKeepsWithdrawal(s: Sync, m: Move)
    requires Possible(s, m)
    requires (s.waiter.Withdrawn? ==> !s.pending) && (ByWaiter in s.removals ==> s.waiter.Withdrawn?)
    ensures Perform(s, m).waiter.Withdrawn? ==> !Perform(s, m).pending
    ensures ByWaiter in Perform(s, m).removals ==> Perform(s, m).waiter.Withdrawn?
  {
  }

  /** A caller that withdrew is gone for good and takes the sync with it; only then was the sync removed by it. */
  lemma {:induction false} WithdrawalRemovesTheSync(run: SyncRun, i: nat)
    requires IsSyncRun(run) && i < |run.states|
    ensures run.states[i].waiter.Withdrawn? ==> !run.states[i].pending
    ensures ByWaiter in run.states[i].removals ==> run.states[i].waiter.Withdrawn?
    decreases i
  {
    if i > 0 {
      WithdrawalRemovesTheSync(run, i - 1);
      MoveKeepsWithdrawal(run.states[i - 1], run.moves[i - 1]);
    }
  }

  /** Nobody waits in vain: once any thread has had something to report and all have ended, a caller still waiting
      finds the outcome in the closed channel. */
  lemma NobodyWaitsInVain(run: SyncRun, j: nat, i: nat, id: nat, outcome: Outcome)
    requires IsSyncRun(run) && Reports(run, j, id, outcome) && j < i < |run.states|
    requires forall t :: t in run.states[i].threads ==> run.states[i].threads[t] == Ended
    ensures run.states[i].waiter.Waiting? ==> |run.states[i].buf| == 1 && run.states[i].closed
  {
    var s := run.states[i];
    OutcomeIsNotDropped(run, j, i, id, outcome);
    SyncRunsKeepInv(run, i);
    WithdrawalRemovesTheSync(run, i);
    if s.waiter.Waiting? {
      assert s.removals[0].ByThread?;
      CallerIsNotForgotten(run, i, s.removals[0].id);
    }
  }

  /** A waiting caller can withdraw at any time, and receives exactly when the outcome has been sent; a thread that has not
      ended can go on, and a new response can always arrive. */
  lemma NobodyIsHeldUp(run: SyncRun, i: nat, id: nat, go: bool, hasMore: bool)
    requires IsSyncRun(run) && i < |run.states|
    ensures var s := run.states[i];
            && (s.waiter.Waiting? ==> Possible(s, Withdraw) && (Possible(s, Receive) <==> s.sends == 1))
            && (id !in s.threads ==> Possible(s, Arrive(id, hasMore)))
            && (id in s.threads && s.threads[id] != Ended ==>
                  Possible(s, Advance(id, go)) && Perform(s, Advance(id, go)) != s)
  {
    SyncRunsKeepInv(run, i);
    var s := run.states[i];
    if id in s.threads && s.threads[id] != Ended {
      CompletionIsSignalledOnce(run, i);
      StepsAreSteps(s, id, go);
    }
  }

  lemma StepsAreSteps(s: Sync, id: nat, go: bool)
    requires Possible(s, Advance(id, go))
    requires s.threads[id].Claimed? ==> !s.closed && s.buf == []
    ensures Perform(s, Advance(id, go)).threads[id] != s.threads[id]
  {
  }

  lemma {:induction false} ThreadStaysPut(run: SyncRun, i: nat, j: nat, id: nat)
    requires IsSyncRun(run) && i <= j < |run.states| && id in run.states[i].threads
    requires forall k :: i <= k < j && run.moves[k].Advance? ==> run.moves[k].id != id
    ensures id in run.states[j].threads && run.states[j].threads[id] == run.states[i].threads[id]
    decreases j
  {
    if i < j {
      ThreadStaysPut(run, i, j - 1, id);
      MoveTouchesOneThread(run.states[j - 1], run.moves[j - 1], id);
    }
  }

  /** A response that arrives is handled: if the sync is registered when its thread looks it up, the thread imports the
      page with its next step, even if the sync is removed in the meantime; if not, the thread ends. */
  lemma ResponsesAreImportedIffPending(run: SyncRun, arrival: nat, lookup: nat, after: nat, id: nat, hasMore: bool)
    requires IsSyncRun(run) && arrival < lookup < after < |run.moves|
    requires run.moves[arrival] == Arrive(id, hasMore)
    requires run.moves[lookup].Advance? && run.moves[lookup].id == id
    requires forall k :: arrival < k < after && run.moves[k].Advance? ==> k == lookup || run.moves[k].id != id
    ensures id in run.states[after].threads
    ensures run.states[after].threads[id] == if run.states[lookup].pending then Importing(hasMore) else Ended
    ensures run.moves[after].Advance? && run.moves[after].id == id ==>
              run.states[lookup].pending && id in run.states[after + 1].importers
  {
    assert run.states[arrival + 1] == Perform(run.states[arrival], run.moves[arrival]);
    ThreadStaysPut(run, arrival + 1, lookup, id);
    assert run.states[lookup + 1] == Perform(run.states[lookup], run.moves[lookup]);
    ThreadStaysPut(run, lookup + 1, after, id);
    assert run.states[after + 1] == Perform(run.states[after], run.moves[after]);
  }

  /** A page imported with more to come makes its thread ask for the next one, if the page limit is not reached and the
      sync is still registered when it looks again. */
  lemma NextPageIsAskedForIffPending(run: SyncRun, count: nat, recheck: nat, id: nat)
    requires IsSyncRun(run) && count < recheck < |run.moves|
    requires run.moves[count] == Advance(id, true) && run.states[count].threads[id] == Counting(true)
    requires run.moves[recheck].Advance? && run.moves[recheck].id == id
    requires forall k :: count < k < recheck && run.moves[k].Advance? ==> run.moves[k].id != id
    ensures run.states[recheck + 1].threads[id] == if run.states[recheck].pending then Sending else Ended
  {
    assert run.states[count + 1] == Perform(run.states[count], run.moves[count]);
    ThreadStaysPut(run, count + 1, recheck, id);
    assert run.states[recheck + 1] == Perform(run.states[recheck], run.moves[recheck]);
  }

  // ---- A sync of two pages ----

  function Extended(run: SyncRun, m: Move): SyncRun
    requires run.states != [] && Possible(run.states[|run.states| - 1], m)
  {
    SyncRun(run.states + [Perform(run.states[|run.states| - 1], m)], run.moves + [m])
  }

  lemma ExtendedIsRun(run: SyncRun, m: Move)
    requires IsSyncRun(run) && Possible(run.states[|run.states| - 1], m)
    ensures IsSyncRun(Extended(run, m))
  {
  }

  /** Two steps of one thread: the response is looked up and imported. */
  lemma LookUpAndImport(run: SyncRun, id: nat) returns (longer: SyncRun)
    requires IsSyncRun(run)
    requires var s := run.states[|run.states| - 1]; s.pending && id in s.threads && s.threads[id].Responding?
    ensures IsSyncRun(longer)
    ensures var s, t := run.states[|run.states| - 1], longer.states[|longer.states| - 1];
            var hasMore := s.threads[id].hasMore;
            t == At(s, id, Counting(hasMore)).(importers := s.importers + {id},
                                               finishers := s.finishers + if hasMore then {} else {id})
  {
    longer := run;
    ExtendedIsRun(longer, Advance(id, true));
    longer := Extended(longer, Advance(id, true));
    ExtendedIsRun(longer, Advance(id, true));
    longer := Extended(longer, Advance(id, true));
    var s, t := run.states[|run.states| - 1], longer.states[|longer.states| - 1];
    assert t.threads == s.threads[id := Counting(s.threads[id].hasMore)];
  }

  /** Two more: the page is counted, and the thread asks for the next one or takes the sync over. */
  lemma CountAndGoOn(run: SyncRun, id: nat) returns (longer: SyncRun)
    requires IsSyncRun(run)
    requires var s := run.states[|run.states| - 1]; s.pending && id in s.threads && s.threads[id].Counting?
    ensures IsSyncRun(longer)
    ensures var s, t := run.states[|run.states| - 1], longer.states[|longer.states| - 1];
            if s.threads[id].hasMore then t == At(s, id, Sending)
            else t == At(s, id, Claimed(None)).(pending := false, removals := s.removals + [ByThread(id)])
  {
    longer := run;
    ExtendedIsRun(longer, Advance(id, true));
    longer := Extended(longer, Advance(id, true));
    ExtendedIsRun(longer, Advance(id, true));
    longer := Extended(longer, Advance(id, true));
    var s, t := run.states[|run.states| - 1], longer.states[|longer.states| - 1];
    assert t.threads == s.threads[id := t.threads[id]];
  }

  /** It can all go well: the request is sent, two pages arrive and are imported, and the caller receives no error. */
  lemma TwoPagesSucceed() returns (run: SyncRun)
    ensures IsSyncRun(run)
    ensures var end := run.states[|run.states| - 1];
            && end.waiter == Received(None) && end.closed && end.importers == {1, 2} && end.finishers == {2}
            && forall id :: id in end.threads ==> end.threads[id] == Ended
  {
    run := SyncRun([START], []);
    run := FirstPage(run);
    run := SecondPage(run);
    ExtendedIsRun(run, Receive);
    run := Extended(run, Receive);
  }

  lemma SecondPage(run: SyncRun) returns (longer: SyncRun)
    requires IsSyncRun(run)
    requires var s := run.states[|run.states| - 1];
             && s.threads == map[0 := Ended, 1 := Ended] && s.importers == {1} && s.finishers == {}
             && s.pending && s.removals == [] && s.buf == [] && !s.closed && s.waiter == Waiting
    ensures IsSyncRun(longer)
    ensures var s := longer.states[|longer.states| - 1];
            && s.threads == map[0 := Ended, 1 := Ended, 2 := Ended] && s.importers == {1, 2} && s.finishers == {2}
            && s.buf == [None] && s.closed && s.waiter == Waiting
  {
    ExtendedIsRun(run, Arrive(2, false));
    longer := Extended(run, Arrive(2, false));
    longer := LookUpAndImport(longer, 2);
    longer := CountAndGoOn(longer, 2);
    ExtendedIsRun(longer, Advance(2, true));
    longer := Extended(longer, Advance(2, true));
    ExtendedIsRun(longer, Advance(2, true));
    longer := Extended(longer, Advance(2, true));
  }

  lemma FirstPage(run: SyncRun) returns (longer: SyncRun)
    requires run == SyncRun([START], [])
    ensures IsSyncRun(longer)
    ensures var s := longer.states[|longer.states| - 1];
            && s.threads == map[0 := Ended, 1 := Ended] && s.importers == {1} && s.finishers == {}
            && s.pending && s.removals == [] && s.buf == [] && !s.closed && s.waiter == Waiting
  {
    longer := run;
    ExtendedIsRun(longer, Advance(0, true));
    longer := Extended(longer, Advance(0, true));
    ExtendedIsRun(longer, Advance(0, true));
    longer := Extended(longer, Advance(0, true));
    ExtendedIsRun(longer, Arrive(1, true));
    longer := Extended(longer, Arrive(1, true));
    longer := LookUpAndImport(longer, 1);
    longer := CountAndGoOn(longer, 1);
    ExtendedIsRun(longer, Advance(1, true));
    longer := Extended(longer, Advance(1, true));
  }
}
