/** Runs of the history pull that show what its theorems say must be reckoned with. */
module PullWitnesses {
  import opened VectorClocks
  import opened NodeStates
  import opened Storage
  import opened HistoryPull

  /** Two tables that have each stored one row of their own clash at id 1: the sync succeeds and
      delivers the responder's row, which is then nowhere in the requester's table. */
  lemma IdClashLosesARecord(a: HistoryRecord, b: HistoryRecord) returns (run: PullRun)
    requires a.id == 0 && b.id == 0 && KeyOf(a) != KeyOf(b)
    ensures IsPullRun(run)
    ensures var end := run.states[|run.steps|];
            && end.phase.Succeeded? && a.(id := 1) in end.delivered
            && !HasKey(end.requester, KeyOf(a))
  {
    var t, u := Insert(EMPTY_TABLE, a), Insert(EMPTY_TABLE, b);
    assert t.rows == [a.(id := 1)] && u.rows == [b.(id := 1)];
    InsertConserves(EMPTY_TABLE, a);
    InsertConserves(EMPTY_TABLE, b);
    run := OneRowPull(t, u, a.(id := 1));
  }

  /** Pulling a table of one row whose id is taken at the other end. */
  lemma OneRowPull(t: Table, u: Table, r: HistoryRecord) returns (run: PullRun)
    requires Ok(t) && Ok(u) && t.rows == [r] && |u.rows| == 1 && u.rows[0].id == r.id
    ensures IsPullRun(run)
    ensures var end := run.states[|run.steps|]; end.phase.Succeeded? && r in end.delivered && end.requester == u
  {
    OneRowAnswer(t, r);
    assert HasId(u, r.id);
    var p0 := Begin("r", t, u, None);
    var p1 := PullNext(p0, Serve);
    var p2 := PullNext(p1, Accept);
    var p3 := PullNext(p2, ImportRecord);
    run := PullRun([p0, p1, p2, p3, PullNext(p3, Conclude(true))], [Serve, Accept, ImportRecord, Conclude(true)]);
  }

  lemma OneRowAnswer(t: Table, r: HistoryRecord)
    requires t.rows == [r]
    ensures Answer(t, Ask("r", 0, 0)) == Response("r", [r], false, 1)
  {
    assert t.rows[..0] == [];
    assert Ordered(t.rows, None) == [r];
  }

  lemma {:induction false} PlaceAddsOne(r: HistoryRecord, s: seq<HistoryRecord>)
    ensures |Place(r, s)| == |s| + 1
  {
    if s != [] {
      PlaceAddsOne(r, s[1..]);
    }
  }

  lemma {:induction false} OrderedKeepsAll(rows: seq<HistoryRecord>)
    ensures |Ordered(rows, None)| == |rows|
  {
    if rows != [] {
      OrderedKeepsAll(rows[..|rows| - 1]);
      PlaceAddsOne(rows[|rows| - 1], Ordered(rows[..|rows| - 1], None));
    }
  }

  /** A page of two records whose second write fails: the first row stays, and the total says nothing of it. */
  lemma FaultLeavesAnUncountedRow(t: Table) returns (run: PullRun)
    requires Ok(t) && |t.rows| == 2
    ensures IsPullRun(run)
    ensures var end := run.states[|run.steps|]; end.phase.Failed? && end.total == 0 && |end.requester.rows| == 1
  {
    OrderedKeepsAll(t.rows);
    PageRowsAreDistinct(t, Ask("r", 0, 0));
    var page := Answer(t, Ask("r", 0, 0)).records;
    assert |page| == 2 && page[0].id != 0;
    InsertConserves(EMPTY_TABLE, page[0]);
    var p0 := Begin("r", t, EMPTY_TABLE, None);
    var p1 := PullNext(p0, Serve);
    var p2 := PullNext(p1, Accept);
    var p3 := PullNext(p2, ImportRecord);
    run := PullRun([p0, p1, p2, p3, PullNext(p3, ImportFault)], [Serve, Accept, ImportRecord, ImportFault]);
  }

  // ---- A cleaning that makes a successful sync miss a record ----

  ghost function Last(run: PullRun): Pull
    requires run.states != []
  {
    run.states[|run.states| - 1]
  }

  function Extend(run: PullRun, s: PullStep): PullRun
    requires run.states != [] && CanStep(run.states[|run.states| - 1], s)
  {
    PullRun(run.states + [PullNext(run.states[|run.states| - 1], s)], run.steps + [s])
  }

  lemma ExtendedPullIsRun(run: PullRun, s: PullStep)
    requires IsPullRun(run) && CanStep(Last(run), s)
    ensures IsPullRun(Extend(run, s))
  {
    assert Extend(run, s).states[0] == run.states[0];
  }

  lemma {:induction false} ImportTheRest(run: PullRun) returns (longer: PullRun)
    requires IsPullRun(run) && Last(run).phase.Importing?
    requires Last(run).phase.next <= |Last(run).phase.response.records|
    ensures IsPullRun(longer) && longer.states[0] == run.states[0]
    ensures var p, q := Last(run), Last(longer); var records := p.phase.response.records;
            && q.phase.Importing? && q.phase == Importing(p.phase.response, |records|, q.phase.inserted)
            && q == p.(requester := q.requester, delivered := q.delivered, phase := q.phase)
            && q.delivered == p.delivered + set x | x in records[p.phase.next..]
    decreases |Last(run).phase.response.records| - Last(run).phase.next
  {
    var p := Last(run);
    var records, next := p.phase.response.records, p.phase.next;
    if next == |records| {
      longer := run;
    } else {
      ExtendedPullIsRun(run, ImportRecord);
      longer := ImportTheRest(Extend(run, ImportRecord));
      assert records[next..] == [records[next]] + records[next + 1..];
    }
  }

  /** One row more than a page holds, at times 0, 1, 2 and so on. */
  function Ladder(n: NodeId, m: Metrics): seq<HistoryRecord> {
    seq(PAGE + 1, i requires 0 <= i => HistoryRecord(i + 1, n, i, "metric_update", "", "local", m))
  }

  lemma LadderIsOrdered(n: NodeId, m: Metrics)
    ensures Ordered(Ladder(n, m), None) == Ladder(n, m)
    ensures Ordered(Clean(Table(Ladder(n, m), PAGE + 1), 1).rows, None) == Ladder(n, m)[1..]
  {
    var rows, t := Ladder(n, m), Table(Ladder(n, m), PAGE + 1);
    OrderedIsSorted(rows, None);
    SortedIsUnique(rows, Ordered(rows, None));
    CleaningDropsAPrefix(t, None, 1);
    forall r ensures r in Deleted(t, None, 1) <==> r == rows[0] {
      assert r in rows && r.timestamp < 1 ==> r == rows[0];
    }
    assert Deleted(t, None, 1) == {rows[0]};
  }

  /** A page is pulled, the responder deletes one row of it, and the row that thereby moves up to a position already
      asked for is passed over: the sync succeeds without a record that the responder still has. */
  lemma CleaningLosesARecord(n: NodeId, m: Metrics) returns (run: PullRun, missed: HistoryRecord)
    ensures IsPullRun(run) && |run.steps| > 4 && run.steps[|run.steps| - 4] == ResponderCleans(1)
    ensures Last(run).phase.Succeeded?
    ensures missed in RowSet(run.states[0].responder.rows, Since(run.states[0]))
    ensures missed in Last(run).responder.rows && missed !in Last(run).delivered
  {
    var rows, t := Ladder(n, m), Table(Ladder(n, m), PAGE + 1);
    LadderIsOrdered(n, m);
    missed := rows[PAGE];
    run := FirstPageIsFull(t, rows);
    run := SecondPageIsEmpty(run, t, rows);
    CleanConserves(t, 1);
  }

  lemma FirstPageIsFull(t: Table, rows: seq<HistoryRecord>) returns (run: PullRun)
    requires Ok(t) && |rows| == PAGE + 1 && Ordered(t.rows, None) == rows
    ensures IsPullRun(run) && run.states[0] == Begin("r", t, EMPTY_TABLE, None)
    ensures CanStep(Last(run), Conclude(true)) && !Last(run).abandoned
    ensures Last(run).responder == t && Last(run).syncTime == None && Last(run).requests == 1
    ensures Last(run).phase.response == Response("r", rows[..PAGE], true, PAGE)
    ensures Last(run).delivered == set x | x in rows[..PAGE]
  {
    run := PullRun([Begin("r", t, EMPTY_TABLE, None)], []);
    ExtendedPullIsRun(run, Serve);
    run := Extend(run, Serve);
    assert Last(run).phase.response == Response("r", rows[..PAGE], true, PAGE);
    ExtendedPullIsRun(run, Accept);
    run := Extend(run, Accept);
    run := ImportTheRest(run);
  }

  lemma SecondPageIsServed(run: PullRun, t: Table, rows: seq<HistoryRecord>) returns (longer: PullRun)
    requires IsPullRun(run) && CanStep(Last(run), Conclude(true)) && !Last(run).abandoned
    requires Last(run).responder == t && Last(run).syncTime == None && Last(run).requests == 1
    requires |rows| == PAGE + 1 && Last(run).phase.response == Response("r", rows[..PAGE], true, PAGE)
    requires Ordered(Clean(t, 1).rows, None) == rows[1..]
    ensures IsPullRun(longer) && longer.states[0] == run.states[0]
    ensures longer.steps == run.steps + [Conclude(true), ResponderCleans(1), Serve]
    ensures Last(longer).phase == Answered(Response("r", [], false, PAGE)) && !Last(longer).abandoned
    ensures Last(longer).delivered == Last(run).delivered && Last(longer).responder == Clean(t, 1)
  {
    ExtendedPullIsRun(run, Conclude(true));
    longer := Extend(run, Conclude(true));
    ExtendedPullIsRun(longer, ResponderCleans(1));
    longer := Extend(longer, ResponderCleans(1));
    ExtendedPullIsRun(longer, Serve);
    longer := Extend(longer, Serve);
  }

  lemma SecondPageIsEmpty(run: PullRun, t: Table, rows: seq<HistoryRecord>) returns (longer: PullRun)
    requires IsPullRun(run) && CanStep(Last(run), Conclude(true)) && !Last(run).abandoned
    requires Last(run).responder == t && Last(run).syncTime == None && Last(run).requests == 1
    requires |rows| == PAGE + 1 && Last(run).phase.response == Response("r", rows[..PAGE], true, PAGE)
    requires Ordered(Clean(t, 1).rows, None) == rows[1..]
    ensures IsPullRun(longer) && longer.states[0] == run.states[0]
    ensures |longer.steps| > 4 && longer.steps[|longer.steps| - 4] == ResponderCleans(1)
    ensures Last(longer).phase.Succeeded? && Last(longer).delivered == Last(run).delivered
    ensures Last(longer).responder == Clean(t, 1)
  {
    var run3 := SecondPageIsServed(run, t, rows);
    ExtendedPullIsRun(run3, Accept);
    var run4 := Extend(run3, Accept);
    assert Last(run4).phase.response == Response("r", [], false, PAGE);
    ExtendedPullIsRun(run4, Conclude(true));
    longer := Extend(run4, Conclude(true));
  }
}
