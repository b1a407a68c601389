/** How a history pull goes on and ends: it is never stuck, rows written ahead of it are delivered too, a caller who
    gave up is not answered with success, and success moves the sync time. */
module PullOutcomes {
  import opened NodeStates
  import opened Storage
  import opened HistoryPull

  // ---- Progress ----

  /** While a sync is active, one of its four protocol steps is enabled, a write may fail exactly where one may succeed,
      and the caller may give up unless it has. Nothing keeps others from writing to the tables or cleaning them. */
  lemma ActiveSyncIsNeverStuck(run: PullRun, i: nat, timeOk: bool, record: HistoryRecord, cutoff: int)
    requires IsPullRun(run) && i < |run.states| && Active(run.states[i])
    ensures var p := run.states[i];
            && CanStep(p, ResponderWrites(record)) && CanStep(p, RequesterWrites(record))
            && CanStep(p, ResponderCleans(cutoff)) && CanStep(p, RequesterCleans(cutoff))
    ensures var p := run.states[i];
            && (CanStep(p, Serve) || CanStep(p, Accept) || CanStep(p, ImportRecord) || CanStep(p, Conclude(timeOk)))
            && !(CanStep(p, ImportRecord) && CanStep(p, Conclude(timeOk)))
            && (CanStep(p, ImportFault) <==> CanStep(p, ImportRecord))
            && (CanStep(p, Abort) <==> !p.abandoned)
  {
    PullRunsKeepInv(run, i);
  }

  // ---- Rows written while the sync goes on ----

  lemma {:induction false} CoveredUntilDelivered(run: PullRun, i: nat, j: nat, r: HistoryRecord)
    requires IsPullRun(run) && i <= j < |run.states| && Covered(run.states[i], Since(run.states[0]), r)
    requires forall k :: i <= k < j ==> !run.steps[k].ResponderCleans?
    ensures Covered(run.states[j], Since(run.states[0]), r)
    decreases j
  {
    if i < j {
      CoveredUntilDelivered(run, i, j - 1, r);
      PullRunsKeepInv(run, j - 1);
      StepKeepsCovered(run.states[j - 1], run.steps[j - 1], Since(run.states[0]), r);
    }
  }

  /** The rows in range up to a time. */
  ghost function UpTo(t: Table, since: Option<int>, time: int): set<HistoryRecord> {
    set x | x in RowSet(t.rows, since) && x.timestamp <= time
  }

  /** A new row comes after all rows of its time, since its id is the highest. */
  lemma NewRowIsPlacedLast(t: Table, since: Option<int>, r: HistoryRecord)
    requires Ok(t) && r.id == 0 && Insert(t, r) != t && InRange(r, since)
    ensures var row := Insert(t, r).rows[|t.rows|];
            row in Insert(t, r).rows && RowsBefore(Insert(t, r), since, row) >= |UpTo(t, since, r.timestamp)|
  {
    InsertStoresTheRow(t, r);
    var u, row := Insert(t, r), Insert(t, r).rows[|t.rows|];
    RowsBeforeIsRank(u, since, row);
    forall x | x in UpTo(t, since, r.timestamp) ensures x in RowSet(u.rows, since) && Precedes(x, row) {
      var k :| 0 <= k < |t.rows| && t.rows[k] == x;
      assert u.rows[k] == x;
    }
    SubsetIsNoLarger(UpTo(t, since, r.timestamp), set x | x in RowSet(u.rows, since) && Precedes(x, row));
  }

  lemma NewRowLiesAhead(t: Table, since: Option<int>, r: HistoryRecord, position: int)
    requires Ok(t) && r.id == 0 && Insert(t, r) != t && InRange(r, since)
    requires position <= |UpTo(t, since, r.timestamp)|
    ensures LiesFrom(Insert(t, r).rows[|t.rows|], Ordered(Insert(t, r).rows, since), position)
  {
    var u, row := Insert(t, r), Insert(t, r).rows[|t.rows|];
    NewRowIsPlacedLast(t, since, r);
    InsertConserves(t, r);
    RowsBeforeIsRank(u, since, row);
    OrderedIsSorted(u.rows, since);
    assert InRange(row, since) && row in RowSet(u.rows, since) && row in Ordered(u.rows, since);
    var k :| 0 <= k < |Ordered(u.rows, since)| && Ordered(u.rows, since)[k] == row;
    OrderedPositionIsRank(u, since, k);
  }

  /** Completeness beyond the snapshot: a row that the responder writes while pages are still to be asked for, at a
      place that has not been asked for yet, is delivered as well when the sync succeeds. */
  lemma RowsWrittenAheadAreDelivered(run: PullRun, i: nat, j: nat)
    requires IsPullRun(run) && i < j < |run.states| && run.states[j].phase.Succeeded?
    requires run.steps[i].ResponderWrites? && run.steps[i].record.id == 0
    requires Insert(run.states[i].responder, run.steps[i].record) != run.states[i].responder
    requires InRange(run.steps[i].record, Since(run.states[0])) && Frontier(run.states[i]).Some?
    requires Frontier(run.states[i]).value <=
             |UpTo(run.states[i].responder, Since(run.states[0]), run.steps[i].record.timestamp)|
    requires forall k :: i < k < j ==> !run.steps[k].ResponderCleans?
    ensures exists r :: r in run.states[j].delivered && KeyOf(r) == KeyOf(run.steps[i].record)
  {
    var p, record := run.states[i], run.steps[i].record;
    PullRunsKeepInv(run, i);
    InsertStoresTheRow(p.responder, record);
    var r := Insert(p.responder, record).rows[|p.responder.rows|];
    NewRowLiesAhead(p.responder, Since(run.states[0]), record, Frontier(p).value);
    assert run.states[i + 1] == PullNext(p, run.steps[i]);
    CoveredUntilDelivered(run, i + 1, j, r);
  }

  lemma CountGrows(t: Table, u: Table, since: Option<int>)
    requires Grows(t, u) && UniqueIds(t.rows) && UniqueIds(u.rows)
    ensures |Ordered(t.rows, since)| <= |Ordered(u.rows, since)|
  {
    CountIsTheRange(t, since);
    CountIsTheRange(u, since);
    forall r | r in RowSet(t.rows, since) ensures r in RowSet(u.rows, since) {
      var k :| 0 <= k < |t.rows| && t.rows[k] == r;
      assert u.rows[k] == r;
    }
    SubsetIsNoLarger(RowSet(t.rows, since), RowSet(u.rows, since));
  }

  lemma CountIsTheRange(t: Table, since: Option<int>)
    requires UniqueIds(t.rows)
    ensures |Ordered(t.rows, since)| == |RowSet(t.rows, since)|
  {
    OrderedIsSorted(t.rows, since);
    DistinctCount(Ordered(t.rows, since));
    assert RowSet(t.rows, since) == set x | x in Ordered(t.rows, since);
  }

  ghost predicate AskedWithin(p: Pull, since: Option<int>) {
    Frontier(p).Some? ==> Frontier(p).value <= |Ordered(p.responder.rows, since)|
  }

  lemma ServeStaysWithin(p: Pull, since: Option<int>)
    requires PullInv(p, since) && p.phase.Asked?
    ensures AskedWithin(PullNext(p, Serve), since)
  {
    var all := Ordered(p.responder.rows, since);
    var page := all[Clip(p.offset, 0, |all|)..Clip(Clip(p.offset, 0, |all|) + PAGE, 0, |all|)];
    assert PullNext(p, Serve).phase.response.records == page;
  }

  lemma StepStaysWithin(p: Pull, s: PullStep, since: Option<int>)
    requires CanStep(p, s) && PullInv(p, since) && AskedWithin(p, since) && !s.ResponderCleans?
    ensures AskedWithin(PullNext(p, s), since)
  {
    match s
    case Serve => ServeStaysWithin(p, since);
    case ResponderWrites(record) =>
      InsertConserves(p.responder, record);
      CountGrows(p.responder, Insert(p.responder, record), since);
    case Conclude(timeOk) => ConcludeKeepsPullInv(p, timeOk, since);
    case _ =>
  }

  /** As long as nothing is deleted, no more rows have been asked for than there are. */
  lemma {:induction false} FrontierIsWithin(run: PullRun, i: nat)
    requires IsPullRun(run) && i < |run.states|
    requires forall k :: 0 <= k < i ==> !run.steps[k].ResponderCleans?
    ensures AskedWithin(run.states[i], Since(run.states[0]))
    decreases i
  {
    if i > 0 {
      FrontierIsWithin(run, i - 1);
      PullRunsKeepInv(run, i - 1);
      StepStaysWithin(run.states[i - 1], run.steps[i - 1], Since(run.states[0]));
    }
  }

  /** In particular, when nothing is deleted, every new row at least as late as all others that is written while pages
      are still to be asked for. */
  lemma NewestRowsAreDelivered(run: PullRun, i: nat, j: nat)
    requires IsPullRun(run) && i < j < |run.states| && run.states[j].phase.Succeeded?
    requires run.steps[i].ResponderWrites? && run.steps[i].record.id == 0 && Frontier(run.states[i]).Some?
    requires Insert(run.states[i].responder, run.steps[i].record) != run.states[i].responder
    requires InRange(run.steps[i].record, Since(run.states[0]))
    requires forall r :: r in run.states[i].responder.rows ==> r.timestamp <= run.steps[i].record.timestamp
    requires forall k :: 0 <= k < j ==> !run.steps[k].ResponderCleans?
    ensures exists r :: r in run.states[j].delivered && KeyOf(r) == KeyOf(run.steps[i].record)
  {
    var t, since := run.states[i].responder, Since(run.states[0]);
    PullRunsKeepInv(run, i);
    FrontierIsWithin(run, i);
    CountIsTheRange(t, since);
    assert UpTo(t, since, run.steps[i].record.timestamp) == RowSet(t.rows, since);
    RowsWrittenAheadAreDelivered(run, i, j);
  }

  // ---- Giving up, failing and succeeding ----

  /** A caller who gives up is final: the sync does not succeed any more and sends no further request, though a page that
      is being imported is imported to its end. */
  lemma {:induction false} AbandonedSyncNeverSucceeds(run: PullRun, i: nat, j: nat)
    requires IsPullRun(run) && i < j < |run.states| && run.steps[i].Abort?
    ensures run.states[j].phase.Failed? || (run.states[j].phase.Importing? && run.states[j].abandoned)
    ensures run.states[j].requests == run.states[i].requests
    decreases j
  {
    assert run.states[j] == PullNext(run.states[j - 1], run.steps[j - 1]);
    if i < j - 1 {
      AbandonedSyncNeverSucceeds(run, i, j - 1);
    }
  }

  /** So is a write that fails: nothing more of the page is imported. */
  lemma {:induction false} FaultEndsTheSync(run: PullRun, i: nat, j: nat)
    requires IsPullRun(run) && i < j < |run.states| && run.steps[i].ImportFault?
    ensures run.states[j].phase.Failed? && run.states[j].delivered == run.states[i].delivered
    ensures run.states[j].total == run.states[i].total && run.states[j].syncTime == run.states[i].syncTime
    decreases j
  {
    assert run.states[j] == PullNext(run.states[j - 1], run.steps[j - 1]);
    if i < j - 1 {
      FaultEndsTheSync(run, i, j - 1);
    }
  }

  /** While a sync is active its sync time stands still, so that every page is asked for under the same time. */
  lemma {:induction false} SyncTimeStandsStill(run: PullRun, i: nat)
    requires IsPullRun(run) && i < |run.states| && Active(run.states[i])
    ensures run.states[i].syncTime == run.states[0].syncTime
    decreases i
  {
    if i > 0 {
      SyncTimeStandsStill(run, i - 1);
    }
  }

  /** The step that ends a sync with success moves the sync time to the latest time in the requester's table, if that can
      be queried and there is any; the next sync asks from there. */
  lemma SuccessMovesTheSyncTime(run: PullRun, i: nat)
    requires IsPullRun(run) && i < |run.steps| && Active(run.states[i]) && run.states[i + 1].phase.Succeeded?
    ensures var rows, time := run.states[i].requester.rows, run.states[i + 1].syncTime;
            && run.steps[i].Conclude?
            && (if run.steps[i].timeOk && rows != []
                then time.Some? && (exists r :: r in rows && r.timestamp == time.value)
                     && forall r :: r in rows ==> r.timestamp <= time.value
                else time == run.states[0].syncTime)
  {
    SyncTimeStandsStill(run, i);
    var rows, time := run.states[i].requester.rows, run.states[i + 1].syncTime;
    if run.steps[i].timeOk && rows != [] {
      assert time == Latest(rows);
      var k :| 0 <= k < |rows| && rows[k].timestamp == time.value;
      assert rows[k] in rows;
      forall r | r in rows ensures r.timestamp <= time.value {
        var x :| 0 <= x < |rows| && rows[x] == r;
      }
    }
  }
}
