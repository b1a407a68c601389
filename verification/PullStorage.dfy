/** What a history pull leaves in the requester's table, and what its total counts. */
module PullStorage {
  import opened NodeStates
  import opened Storage
  import opened HistoryPull

  // ---- The running total ----

  /** Rows the page being imported has added and the total does not count yet. */
  function Uncounted(p: Pull): int {
    if p.phase.Importing? then p.phase.inserted else 0
  }

  /** How many rows the sync itself has added in the first i steps. */
  ghost function RowsInserted(run: PullRun, i: nat): int
    requires IsPullRun(run) && i < |run.states|
  {
    if i == 0 then 0
    else
      RowsInserted(run, i - 1)
      + if run.steps[i - 1].ImportRecord? then |run.states[i].requester.rows| - |run.states[i - 1].requester.rows| else 0
  }

  /** A page that faulted had added nothing, in each of the first i steps. */
  ghost predicate NoRowLostToFaults(run: PullRun, i: nat)
    requires IsPullRun(run) && i < |run.states|
  {
    forall k :: 0 <= k < i && run.steps[k].ImportFault? ==> Uncounted(run.states[k]) == 0
  }

  lemma StepCountsRows(p: Pull, s: PullStep)
    requires CanStep(p, s) && Uncounted(p) >= 0
    ensures var q := PullNext(p, s);
            && Uncounted(q) >= 0
            && q.total + Uncounted(q) ==
               p.total + Uncounted(p)
               + (if s.ImportRecord? then |q.requester.rows| - |p.requester.rows| else 0)
               - (if s.ImportFault? then Uncounted(p) else 0)
  {
    if s.ImportRecord? {
      InsertConserves(p.requester, p.phase.response.records[p.phase.next]);
    }
  }

  lemma {:induction false} TotalNeverExceedsTheInserts(run: PullRun, i: nat)
    requires IsPullRun(run) && i < |run.states|
    ensures var p := run.states[i]; var lost := RowsInserted(run, i) - p.total - Uncounted(p);
            Uncounted(p) >= 0 && lost >= 0 && (lost == 0 <==> NoRowLostToFaults(run, i))
    decreases i
  {
    if i > 0 {
      TotalNeverExceedsTheInserts(run, i - 1);
      StepCountsRows(run.states[i - 1], run.steps[i - 1]);
      assert NoRowLostToFaults(run, i) <==>
             NoRowLostToFaults(run, i - 1) && (run.steps[i - 1].ImportFault? ==> Uncounted(run.states[i - 1]) == 0);
    }
  }

  /** Between pages, whoever else writes to the requester or cleans it, the total of a sync is what it inserted exactly
      when no write failed on a page that had already inserted a row. */
  lemma TotalIsTheInsertsIffNoFaultAfterRows(run: PullRun, i: nat)
    requires IsPullRun(run) && i < |run.states| && !run.states[i].phase.Importing?
    ensures run.states[i].total <= RowsInserted(run, i)
    ensures run.states[i].total == RowsInserted(run, i) <==> NoRowLostToFaults(run, i)
  {
    TotalNeverExceedsTheInserts(run, i);
  }

  /** Nobody but the sync touches the requester's table in the first i steps. */
  ghost predicate Alone(run: PullRun, i: nat)
    requires IsPullRun(run) && i < |run.states|
  {
    forall k :: 0 <= k < i ==> !run.steps[k].RequesterWrites? && !run.steps[k].RequesterCleans?
  }

  lemma OnlyWritesTouchTheRequester(p: Pull, s: PullStep)
    requires CanStep(p, s) && !s.ImportRecord? && !s.RequesterWrites? && !s.RequesterCleans?
    ensures PullNext(p, s).requester == p.requester && PullNext(p, s).delivered == p.delivered
  {
  }

  lemma {:induction false} AloneInsertsAreTheGrowth(run: PullRun, i: nat)
    requires IsPullRun(run) && i < |run.states| && Alone(run, i)
    ensures RowsInserted(run, i) == |run.states[i].requester.rows| - |run.states[0].requester.rows|
    decreases i
  {
    if i > 0 {
      AloneInsertsAreTheGrowth(run, i - 1);
      if !run.steps[i - 1].ImportRecord? {
        OnlyWritesTouchTheRequester(run.states[i - 1], run.steps[i - 1]);
      }
    }
  }

  /** So without other writers the total is the growth of the requester's table under the same condition. */
  lemma TotalIsTheGrowthIffNoFaultAfterRows(run: PullRun, i: nat)
    requires IsPullRun(run) && i < |run.states| && !run.states[i].phase.Importing? && Alone(run, i)
    ensures run.states[i].total <= |run.states[i].requester.rows| - |run.states[0].requester.rows|
    ensures run.states[i].total == |run.states[i].requester.rows| - |run.states[0].requester.rows|
            <==> NoRowLostToFaults(run, i)
  {
    TotalIsTheInsertsIffNoFaultAfterRows(run, i);
    AloneInsertsAreTheGrowth(run, i);
  }

  lemma {:induction false} FailureIsFinal(run: PullRun, i: nat, j: nat)
    requires IsPullRun(run) && i <= j < |run.states| && run.states[i].phase.Failed?
    ensures run.states[j].phase.Failed?
    decreases j
  {
    if i < j {
      FailureIsFinal(run, i, j - 1);
    }
  }

  /** A sync that succeeds has counted every row it added, whoever else writes to the table or cleans it; if nobody
      else does, its total is the growth of the table. */
  lemma SuccessfulTotalIsTheInserts(run: PullRun, i: nat)
    requires IsPullRun(run) && i < |run.states| && run.states[i].phase.Succeeded?
    ensures run.states[i].total == RowsInserted(run, i)
    ensures Alone(run, i) ==> run.states[i].total == |run.states[i].requester.rows| - |run.states[0].requester.rows|
  {
    forall k | 0 <= k < i ensures !run.steps[k].ImportFault? {
      if run.steps[k].ImportFault? {
        FailureIsFinal(run, k + 1, i);
      }
    }
    TotalIsTheInsertsIffNoFaultAfterRows(run, i);
    if Alone(run, i) {
      AloneInsertsAreTheGrowth(run, i);
    }
  }

  // ---- Which keys are stored, whoever writes ----

  /** The record's key is in the table already, or no row has the id it brings. */
  ghost predicate Storable(t: Table, r: HistoryRecord) {
    HasKey(t, KeyOf(r)) || r.id == 0 || !HasId(t, r.id)
  }

  /** The record that a step offers to the requester's table, if any. */
  function Offered(p: Pull, s: PullStep): Option<HistoryRecord>
    requires CanStep(p, s)
  {
    match s
    case ImportRecord => Some(p.phase.response.records[p.phase.next])
    case RequesterWrites(record) => Some(record)
    case _ => None
  }

  /** Step j offers a record with this key, and it is storable at that moment. */
  ghost predicate Stores(run: PullRun, j: int, k: Key)
    requires IsPullRun(run)
  {
    && 0 <= j < |run.steps|
    && var r := Offered(run.states[j], run.steps[j]);
       r.Some? && KeyOf(r.value) == k && Storable(run.states[j].requester, r.value)
  }

  /** No cleaning of the requester from state i until state j reaches the key. */
  ghost predicate Kept(run: PullRun, i: nat, j: nat, k: Key)
    requires IsPullRun(run) && j < |run.states|
  {
    forall x :: i <= x < j && run.steps[x].RequesterCleans? ==> run.steps[x].cutoff <= k.1
  }

  lemma InsertTouchesOneKey(t: Table, r: HistoryRecord, k: Key)
    ensures HasKey(Insert(t, r), k) <==> HasKey(t, k) || (KeyOf(r) == k && Storable(t, r))
  {
    var u := Insert(t, r);
    InsertConserves(t, r);
    GrowthKeeps(t, u, k, 0);
    if HasKey(u, k) && KeyOf(r) != k {
      var i :| 0 <= i < |u.rows| && KeyOf(u.rows[i]) == k;
      assert KeyOf(t.rows[i]) == k;
    }
  }

  /** Each insert of a pulled record, in any run, leaves its key in the table exactly when the key was
      there before or the id it brought was free at that moment. */
  lemma RecordIsStoredIffIdIsFree(run: PullRun, j: nat)
    requires IsPullRun(run) && j < |run.steps| && run.steps[j].ImportRecord?
    ensures var p := run.states[j]; var r := p.phase.response.records[p.phase.next];
            HasKey(run.states[j + 1].requester, KeyOf(r)) <==>
            HasKey(p.requester, KeyOf(r)) || !HasId(p.requester, r.id)
  {
    PullRunsKeepInv(run, j);
    var p := run.states[j];
    InsertConserves(p.requester, p.phase.response.records[p.phase.next]);
  }

  lemma StepOnKey(run: PullRun, j: nat, k: Key)
    requires IsPullRun(run) && j < |run.steps|
    ensures HasKey(run.states[j + 1].requester, k) <==>
            (HasKey(run.states[j].requester, k) && Kept(run, j, j + 1, k)) || Stores(run, j, k)
  {
    var p, s := run.states[j], run.steps[j];
    match s
    case ImportRecord => InsertTouchesOneKey(p.requester, p.phase.response.records[p.phase.next], k);
    case RequesterWrites(record) => InsertTouchesOneKey(p.requester, record, k);
    case RequesterCleans(cutoff) => CleanConserves(p.requester, cutoff);
    case _ =>
  }

  /** The requester's table in any run: a key is there if and only if it was at the start, or a step stored it, and no
      cleaning has reached it since. */
  lemma {:induction false} KeyIsHeldIffStoredAndKept(run: PullRun, i: nat, k: Key)
    requires IsPullRun(run) && i < |run.states|
    ensures HasKey(run.states[i].requester, k) <==>
            || (HasKey(run.states[0].requester, k) && Kept(run, 0, i, k))
            || exists j :: 0 <= j < i && Stores(run, j, k) && Kept(run, j + 1, i, k)
    decreases i
  {
    if i > 0 {
      KeyIsHeldIffStoredAndKept(run, i - 1, k);
      StepOnKey(run, i - 1, k);
      forall j | 0 <= j < i ensures Kept(run, j, i, k) <==> Kept(run, j, i - 1, k) && Kept(run, i - 1, i, k) {
      }
      assert Kept(run, i, i, k);
    }
  }

  /** Step j inserts r, or skips it. */
  ghost predicate Hands(run: PullRun, j: int, r: HistoryRecord)
    requires IsPullRun(run)
  {
    0 <= j < |run.steps| && run.steps[j].ImportRecord? && Offered(run.states[j], run.steps[j]) == Some(r)
  }

  lemma StepHandsOnlyRecords(p: Pull, s: PullStep)
    requires CanStep(p, s) && !s.ImportRecord?
    ensures PullNext(p, s).delivered == p.delivered
  {
  }

  lemma {:induction false} DeliveredMeansHandedOver(run: PullRun, i: nat, r: HistoryRecord)
    requires IsPullRun(run) && i < |run.states|
    ensures r in run.states[i].delivered <==> exists j :: 0 <= j < i && Hands(run, j, r)
    decreases i
  {
    if i > 0 {
      DeliveredMeansHandedOver(run, i - 1, r);
      if !run.steps[i - 1].ImportRecord? {
        StepHandsOnlyRecords(run.states[i - 1], run.steps[i - 1]);
      }
      assert r in run.states[i].delivered <==> r in run.states[i - 1].delivered || Hands(run, i - 1, r);
    }
  }

  // ---- The records of a sync are told apart ----

  lemma RowsAreToldApart(t: Table, a: HistoryRecord, b: HistoryRecord)
    requires Ok(t) && a in t.rows && b in t.rows && (a.id == b.id || KeyOf(a) == KeyOf(b))
    ensures a == b
  {
    var i :| 0 <= i < |t.rows| && t.rows[i] == a;
    var j :| 0 <= j < |t.rows| && t.rows[j] == b;
  }

  ghost predicate Handled(p: Pull, r: HistoryRecord) {
    r in p.delivered || r in InFlight(p)
  }

  /** No two handled records share an id or a key; while pages are still to be asked for, the responder has them all. */
  ghost predicate ApartInv(p: Pull, since: Option<int>) {
    && (forall a, b :: Handled(p, a) && Handled(p, b) && (a.id == b.id || KeyOf(a) == KeyOf(b)) ==> a == b)
    && (forall a :: Handled(p, a) ==> a.id != 0)
    && (Frontier(p).Some? ==> forall a :: Handled(p, a) ==> a in RowSet(p.responder.rows, since))
  }

  lemma ServeKeepsApart(p: Pull, since: Option<int>)
    requires PullInv(p, since) && ApartInv(p, since) && p.phase.Asked?
    ensures ApartInv(PullNext(p, Serve), since)
  {
    var q := PullNext(p, Serve);
    PageRowsAreDistinct(p.responder, p.phase.request);
    OrderedIsSorted(p.responder.rows, since);
    forall a | Handled(q, a) ensures a in RowSet(p.responder.rows, since) && a.id != 0 {
      assert a in p.delivered ==> Handled(p, a);
      assert a in InFlight(q) ==> a in Ordered(p.responder.rows, since);
    }
    forall a, b | Handled(q, a) && Handled(q, b) && (a.id == b.id || KeyOf(a) == KeyOf(b)) ensures a == b {
      RowsAreToldApart(p.responder, a, b);
    }
  }

  lemma StepKeepsApart(p: Pull, s: PullStep, since: Option<int>)
    requires CanStep(p, s) && PullInv(p, since) && ApartInv(p, since)
    requires s.ResponderCleans? && Frontier(p).Some? ==> Deleted(p.responder, since, s.cutoff) == {}
    ensures ApartInv(PullNext(p, s), since)
  {
    var q := PullNext(p, s);
    if s.Serve? {
      ServeKeepsApart(p, since);
    } else {
      if s.ResponderWrites? {
        InsertConserves(p.responder, s.record);
      }
      if s.ResponderCleans? {
        CleanConserves(p.responder, s.cutoff);
      }
      forall a | Handled(q, a) ensures Handled(p, a) && (Frontier(q).Some? ==> a in RowSet(q.responder.rows, since)) {
        assert Handled(p, a);
        assert a in RowSet(p.responder.rows, since) && a.timestamp < (if s.ResponderCleans? then s.cutoff else a.timestamp)
               ==> a in Deleted(p.responder, since, s.cutoff);
      }
    }
  }

  lemma {:induction false} PullRunsKeepApart(run: PullRun, i: nat)
    requires IsPullRun(run) && i < |run.states| && RowsDeleted(run, i) == 0
    ensures ApartInv(run.states[i], Since(run.states[0]))
    decreases i
  {
    if i > 0 {
      PullRunsKeepApart(run, i - 1);
      PullRunsKeepInv(run, i - 1);
      StepKeepsApart(run.states[i - 1], run.steps[i - 1], Since(run.states[0]));
    }
  }

  /** Step j stores r: the sync hands it over, or the requester writes a row of its own with its key. */
  ghost predicate StoresIt(run: PullRun, j: int, r: HistoryRecord)
    requires IsPullRun(run)
  {
    Stores(run, j, KeyOf(r)) && (run.steps[j].RequesterWrites? || Hands(run, j, r))
  }

  /** Whoever else writes to the requester or cleans it: a successful sync has handed every record in range to the table,
      and at its end the record's key is there if and only if, when the record was handed over or a row of the
      requester's own brought its key, the key was there or the id was free, and no cleaning has reached it since. */
  lemma SuccessfulPullStoresWhatItCan(run: PullRun, i: nat, r: HistoryRecord)
    requires IsPullRun(run) && i < |run.states| && run.states[i].phase.Succeeded? && RowsDeleted(run, i) == 0
    requires r in RowSet(run.states[0].responder.rows, Since(run.states[0]))
    ensures exists j :: 0 <= j < i && Hands(run, j, r)
    ensures HasKey(run.states[i].requester, KeyOf(r)) <==>
            exists j :: 0 <= j < i && StoresIt(run, j, r) && Kept(run, j + 1, i, KeyOf(r))
  {
    var k := KeyOf(r);
    SuccessfulPullIsComplete(run, i);
    DeliveredMeansHandedOver(run, i, r);
    KeyIsHeldIffStoredAndKept(run, i, k);
    if HasKey(run.states[0].requester, k) && Kept(run, 0, i, k) {
      var j :| 0 <= j < i && Hands(run, j, r);
      KeyIsHeldIffStoredAndKept(run, j, k);
      assert StoresIt(run, j, r);
    } else if j :| 0 <= j < i && Stores(run, j, k) && Kept(run, j + 1, i, k) {
      KeyIsStoredByTheRecord(run, i, j, r);
    }
  }

  lemma KeyIsStoredByTheRecord(run: PullRun, i: nat, j: nat, r: HistoryRecord)
    requires IsPullRun(run) && j < i < |run.states| && RowsDeleted(run, i) == 0
    requires r in run.states[i].delivered && Stores(run, j, KeyOf(r))
    ensures StoresIt(run, j, r)
  {
    if run.steps[j].ImportRecord? {
      var other := Offered(run.states[j], run.steps[j]).value;
      assert Hands(run, j, other);
      DeliveredMeansHandedOver(run, i, other);
      PullRunsKeepApart(run, i);
      assert Handled(run.states[i], other) && Handled(run.states[i], r);
    }
  }

  // ---- Without other writers: decided before the sync begins ----

  /** Every row of the requester was there at the start or has been delivered, and of the delivered
      records exactly those that were storable at the start are stored. */
  ghost predicate StoredInv(p: Pull, start: Table) {
    && Grows(start, p.requester)
    && (forall k :: 0 <= k < |p.requester.rows| ==> p.requester.rows[k] in start.rows || p.requester.rows[k] in p.delivered)
    && (forall r :: r in p.delivered ==> (HasKey(p.requester, KeyOf(r)) <==> Storable(start, r)))
  }

  /** A record not delivered before finds its key and its id taken only if they were at the start. */
  lemma NewRecordMeetsTheStart(p: Pull, start: Table, since: Option<int>, r: HistoryRecord)
    requires StoredInv(p, start) && ApartInv(p, since) && Handled(p, r) && r !in p.delivered
    ensures HasKey(p.requester, KeyOf(r)) <==> HasKey(start, KeyOf(r))
    ensures HasId(p.requester, r.id) <==> HasId(start, r.id)
  {
    GrowthKeeps(start, p.requester, KeyOf(r), r.id);
    forall k | 0 <= k < |p.requester.rows| && (KeyOf(p.requester.rows[k]) == KeyOf(r) || p.requester.rows[k].id == r.id)
      ensures p.requester.rows[k] in start.rows
    {
      assert p.requester.rows[k] in p.delivered ==> Handled(p, p.requester.rows[k]);
    }
  }

  lemma ImportRecordKeepsStored(p: Pull, start: Table, since: Option<int>)
    requires CanStep(p, ImportRecord) && ApartInv(p, since) && StoredInv(p, start)
    ensures StoredInv(PullNext(p, ImportRecord), start)
  {
    var q, r := PullNext(p, ImportRecord), p.phase.response.records[p.phase.next];
    InsertConserves(p.requester, r);
    assert Handled(p, r);
    if r in p.delivered {
      GrowthKeeps(start, p.requester, KeyOf(r), r.id);
      assert Skipped(p.requester, r);
    } else {
      NewRecordMeetsTheStart(p, start, since, r);
      forall x | x in p.delivered ensures HasKey(q.requester, KeyOf(x)) <==> HasKey(p.requester, KeyOf(x)) {
        assert Handled(p, x);
        InsertTouchesOneKey(p.requester, r, KeyOf(x));
      }
    }
  }

  lemma {:induction false} PullRunsKeepStored(run: PullRun, i: nat)
    requires IsPullRun(run) && i < |run.states| && Alone(run, i) && RowsDeleted(run, i) == 0
    ensures StoredInv(run.states[i], run.states[0].requester)
    decreases i
  {
    if i > 0 {
      var p, s := run.states[i - 1], run.steps[i - 1];
      PullRunsKeepStored(run, i - 1);
      PullRunsKeepApart(run, i - 1);
      if s.ImportRecord? {
        ImportRecordKeepsStored(p, run.states[0].requester, Since(run.states[0]));
      } else {
        OnlyWritesTouchTheRequester(p, s);
      }
    }
  }

  /** Which records a successful sync leaves in the requester's table, known before it begins: when nobody else
      touches that table, a record in range is stored afterwards if and only if its key was there at the start or no
      row had its id. Ids are local to each table, yet they travel with the records. */
  lemma SuccessfulPullStoresIffIdWasFree(run: PullRun, i: nat, r: HistoryRecord)
    requires IsPullRun(run) && i < |run.states| && run.states[i].phase.Succeeded?
    requires Alone(run, i) && RowsDeleted(run, i) == 0
    requires r in RowSet(run.states[0].responder.rows, Since(run.states[0]))
    ensures HasKey(run.states[i].requester, KeyOf(r)) <==>
            HasKey(run.states[0].requester, KeyOf(r)) || !HasId(run.states[0].requester, r.id)
  {
    SuccessfulPullIsComplete(run, i);
    PullRunsKeepStored(run, i);
    PullRunsKeepApart(run, i);
    assert Handled(run.states[i], r);
  }
}
