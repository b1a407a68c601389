/** The paginated history pull as a protocol: a state machine in which others write to both tables
    and clean them while pages travel and while they are imported record by record. */
module HistoryPull {
  import opened NodeStates
  import opened Storage

  const PAGE: int := 500
  const MAX_PAGES: int := 100

  datatype Request = Request(requestId: string, sinceUnixNano: int, offset: int, limit: int)

  datatype Response = Response(requestId: string, records: seq<HistoryRecord>, hasMore: bool, nextOffset: int)

  function SinceOf(sinceUnixNano: int): Option<int> {
    if sinceUnixNano > 0 then Some(sinceUnixNano) else None
  }

  /** What a responder answers from its table. */
  function Answer(t: Table, q: Request): Response {
    var limit := EffectiveLimit(q.limit);
    var records := Select(t, SinceOf(q.sinceUnixNano), q.offset, limit);
    Response(q.requestId, records, |records| == limit, q.offset + |records|)
  }

  /** A page holds rows of the table, each once. */
  lemma PageRowsAreDistinct(t: Table, q: Request)
    requires Ok(t)
    ensures IsPage(Answer(t, q).records)
    ensures forall r :: r in Answer(t, q).records ==> r in t.rows
  {
    var since := SinceOf(q.sinceUnixNano);
    var all, page := Ordered(t.rows, since), Answer(t, q).records;
    OrderedIsSorted(t.rows, since);
    var from := Clip(q.offset, 0, |all|);
    assert forall k :: 0 <= k < |page| ==> page[k] == all[from + k];
    forall k | 0 <= k < |page| ensures page[k] in t.rows {
      assert all[from + k] in all;
    }
    forall j, k | 0 <= j < k < |page| ensures page[j].id != page[k].id && KeyOf(page[j]) != KeyOf(page[k]) {
      assert Precedes(all[from + j], all[from + k]);
      assert page[j] != page[k];
      var x :| 0 <= x < |t.rows| && t.rows[x] == page[j];
      var y :| 0 <= y < |t.rows| && t.rows[y] == page[k];
    }
  }

  /** What a requester gets for the numbers it sends: exactly the rows at or after the time, if it is positive, of
      which at least offset and fewer than offset + limit others come first; whether the page is full; and where
      the next one starts. */
  lemma AnswerIsTheWindow(t: Table, q: Request, r: HistoryRecord)
    requires UniqueIds(t.rows)
    ensures var answer := Answer(t, q); var most := if 1 <= q.limit <= 500 then q.limit else 500;
            var since := if q.sinceUnixNano > 0 then Some(q.sinceUnixNano) else None;
            && answer.requestId == q.requestId
            && (r in answer.records <==>
                  && r in t.rows && (q.sinceUnixNano > 0 ==> q.sinceUnixNano <= r.timestamp)
                  && (if q.offset < 0 then 0 else q.offset) <= RowsBefore(t, since, r)
                  && RowsBefore(t, since, r) < (if q.offset < 0 then 0 else q.offset) + most)
            && |answer.records| <= most && (answer.hasMore <==> |answer.records| == most)
            && answer.nextOffset == q.offset + |answer.records|
  {
    SelectIsByRank(t, SinceOf(q.sinceUnixNano), q.offset, EffectiveLimit(q.limit), r);
  }

  // ---- The protocol ----

  /** Importing: the handler has looked the sync up and inserts the records in turn; next is the one
      to come, inserted counts the rows this page has added. */
  datatype Phase =
    | Asked(request: Request)
    | Answered(response: Response)
    | Importing(response: Response, next: nat, inserted: int)
    | Succeeded
    | Failed

  /** abandoned: the caller gave up while a page was being imported. requests counts the requests sent;
      delivered and firstTable are history: the records handed to the requester's table, and the
      responder's table when the sync began. */
  datatype Pull = Pull(
    responder: Table,
    requester: Table,
    offset: int,
    total: int,
    requests: nat,
    phase: Phase,
    abandoned: bool,
    syncTime: Option<int>,
    delivered: set<HistoryRecord>,
    firstTable: Table)

  /** timeOk: the query for the latest time works. */
  datatype PullStep =
    | ResponderWrites(record: HistoryRecord)
    | RequesterWrites(record: HistoryRecord)
    | ResponderCleans(cutoff: int)
    | RequesterCleans(cutoff: int)
    | Serve
    | Accept
    | ImportRecord
    | ImportFault
    | Conclude(timeOk: bool)
    | Abort

  function NanosOf(syncTime: Option<int>): int {
    if syncTime.Some? then syncTime.value else 0
  }

  function Ask(id: string, since: int, offset: int): Request {
    Request(id, since, offset, PAGE)
  }

  function Begin(id: string, responder: Table, requester: Table, syncTime: Option<int>): Pull {
    Pull(responder, requester, 0, 0, 1, Asked(Ask(id, NanosOf(syncTime), 0)), false, syncTime, {}, responder)
  }

  /** Whether a response lets the sync ask for another page, and from where. */
  datatype Verdict = AskFrom(offset: int) | TooManyPages | Complete

  function Judge(r: Response, limit: int): Verdict
    requires limit != 0
  {
    if !r.hasMore then Complete
    else if r.nextOffset / limit >= MAX_PAGES then TooManyPages
    else AskFrom(r.nextOffset)
  }

  predicate CanStep(p: Pull, s: PullStep) {
    match s
    case Serve => p.phase.Asked?
    case Accept => p.phase.Answered?
    case ImportRecord => p.phase.Importing? && p.phase.next < |p.phase.response.records|
    case ImportFault => p.phase.Importing? && p.phase.next < |p.phase.response.records|
    case Conclude(_) => p.phase.Importing? && p.phase.next == |p.phase.response.records|
    case Abort => (p.phase.Asked? || p.phase.Answered? || p.phase.Importing?) && !p.abandoned
    case _ => true
  }

  /** A page that has been imported is counted; then the sync ends or asks for the next page. A sync
      abandoned meanwhile sends nothing more, but still notes the time of a last page. */
  function Concluded(p: Pull, timeOk: bool): Pull
    requires p.phase.Importing?
  {
    var r := p.phase.response;
    var q := p.(total := p.total + p.phase.inserted, offset := if r.hasMore then r.nextOffset else p.offset);
    match Judge(r, PAGE)
    case Complete =>
      var latest := Latest(p.requester.rows);
      q.(phase := if p.abandoned then Failed else Succeeded,
         syncTime := if timeOk && latest.Some? then latest else p.syncTime)
    case TooManyPages => q.(phase := Failed)
    case AskFrom(offset) =>
      if p.abandoned then q.(phase := Failed)
      else q.(phase := Asked(Ask(r.requestId, NanosOf(p.syncTime), offset)), requests := p.requests + 1)
  }

  function PullNext(p: Pull, s: PullStep): Pull
    requires CanStep(p, s)
  {
    match s
    case ResponderWrites(record) => p.(responder := Insert(p.responder, record))
    case RequesterWrites(record) => p.(requester := Insert(p.requester, record))
    case ResponderCleans(cutoff) => p.(responder := Clean(p.responder, cutoff))
    case RequesterCleans(cutoff) => p.(requester := Clean(p.requester, cutoff))
    case Serve => p.(phase := Answered(Answer(p.responder, p.phase.request)))
    case Accept => p.(phase := Importing(p.phase.response, 0, 0))
    case ImportRecord =>
      var r := p.phase.response.records[p.phase.next];
      var after := Insert(p.requester, r);
      p.(requester := after,
         delivered := p.delivered + {r},
         phase := Importing(p.phase.response, p.phase.next + 1, p.phase.inserted + |after.rows| - |p.requester.rows|))
    case ImportFault => p.(phase := Failed)
    case Conclude(timeOk) => Concluded(p, timeOk)
    case Abort => if p.phase.Importing? then p.(abandoned := true) else p.(phase := Failed)
  }

  datatype PullRun = PullRun(states: seq<Pull>, steps: seq<PullStep>)

  ghost predicate IsPullRun(run: PullRun) {
    && |run.states| == |run.steps| + 1
    && (exists id, t, u, time :: run.states[0] == Begin(id, t, u, time) && Ok(t) && Ok(u))
    && forall i :: 0 <= i < |run.steps| ==>
         CanStep(run.states[i], run.steps[i]) && run.states[i + 1] == PullNext(run.states[i], run.steps[i])
  }

  ghost function Since(p: Pull): Option<int> {
    SinceOf(NanosOf(p.syncTime))
  }

  // ---- Paging ----

  predicate Active(p: Pull) {
    p.phase.Asked? || p.phase.Answered? || p.phase.Importing?
  }

  /** The page on its way to the requester's table. */
  function InFlight(p: Pull): seq<HistoryRecord> {
    if p.phase.Answered? || p.phase.Importing? then p.phase.response.records else []
  }

  /** The position from which rows are still to be asked for, if the sync goes on. */
  function Frontier(p: Pull): Option<int> {
    if p.phase.Asked? then Some(p.offset)
    else if (p.phase.Answered? || p.phase.Importing?) && p.phase.response.hasMore then Some(p.offset + PAGE)
    else None
  }

  ghost predicate PageOf(r: Response, offset: int) {
    && IsPage(r.records) && |r.records| <= PAGE && (r.hasMore <==> |r.records| == PAGE)
    && r.nextOffset == offset + |r.records|
  }

  /** Pages are asked for at multiples of the page size. */
  ghost predicate PullInv(p: Pull, since: Option<int>) {
    && Ok(p.responder) && Ok(p.requester) && 1 <= p.requests <= MAX_PAGES
    && (Active(p) ==> Since(p) == since && p.offset == PAGE * (p.requests - 1))
    && (p.phase.Asked? ==> p.phase.request == Ask(p.phase.request.requestId, NanosOf(p.syncTime), p.offset))
    && (p.phase.Answered? || p.phase.Importing? ==> PageOf(p.phase.response, p.offset))
    && (p.phase.Importing? ==>
          && p.phase.next <= |p.phase.response.records|
          && forall k :: 0 <= k < p.phase.next ==> p.phase.response.records[k] in p.delivered)
  }

  lemma TableStepKeepsPullInv(p: Pull, s: PullStep, since: Option<int>)
    requires PullInv(p, since)
    requires s.ResponderWrites? || s.RequesterWrites? || s.ResponderCleans? || s.RequesterCleans?
    ensures PullInv(PullNext(p, s), since)
  {
    match s
    case ResponderWrites(record) => InsertConserves(p.responder, record);
    case RequesterWrites(record) => InsertConserves(p.requester, record);
    case ResponderCleans(cutoff) => CleanConserves(p.responder, cutoff);
    case RequesterCleans(cutoff) => CleanConserves(p.requester, cutoff);
  }

  lemma ConcludeKeepsPullInv(p: Pull, timeOk: bool, since: Option<int>)
    requires CanStep(p, Conclude(timeOk)) && PullInv(p, since)
    ensures PullInv(PullNext(p, Conclude(timeOk)), since)
  {
    var r := p.phase.response;
    if r.hasMore {
      assert r.nextOffset == PAGE * p.requests;
      assert r.nextOffset / PAGE == p.requests;
    }
  }

  lemma StepKeepsPullInv(p: Pull, s: PullStep, since: Option<int>)
    requires CanStep(p, s) && PullInv(p, since)
    ensures PullInv(PullNext(p, s), since)
  {
    match s
    case Serve => PageRowsAreDistinct(p.responder, p.phase.request);
    case Conclude(timeOk) => ConcludeKeepsPullInv(p, timeOk, since);
    case ImportRecord => InsertConserves(p.requester, p.phase.response.records[p.phase.next]);
    case Accept =>
    case Abort =>
    case ImportFault =>
    case _ => TableStepKeepsPullInv(p, s, since);
  }

  lemma {:induction false} PullRunsKeepInv(run: PullRun, i: nat)
    requires IsPullRun(run) && i < |run.states|
    ensures PullInv(run.states[i], Since(run.states[0]))
    ensures run.states[i].firstTable == run.states[0].responder
    decreases i
  {
    if i > 0 {
      PullRunsKeepInv(run, i - 1);
      StepKeepsPullInv(run.states[i - 1], run.steps[i - 1], Since(run.states[0]));
    }
  }

  // ---- Snapshot completeness ----

  ghost predicate LiesFrom(r: HistoryRecord, s: seq<HistoryRecord>, position: int) {
    exists k :: 0 <= k < |s| && position <= k && s[k] == r
  }

  /** r has been delivered or, while the sync goes on, is in flight or still lies at or beyond the frontier.
      Of a failed sync nothing is asked. */
  ghost predicate Covered(p: Pull, since: Option<int>, r: HistoryRecord) {
    || p.phase.Failed?
    || r in p.delivered
    || r in InFlight(p)
    || (Frontier(p).Some? && LiesFrom(r, Ordered(p.responder.rows, since), Frontier(p).value))
  }

  /** A row at or beyond a position stays there while the table grows, wherever rows are inserted. */
  lemma GrowthKeepsBeyond(t: Table, u: Table, since: Option<int>, r: HistoryRecord, position: int)
    requires Grows(t, u) && UniqueIds(t.rows) && UniqueIds(u.rows)
    requires LiesFrom(r, Ordered(t.rows, since), position)
    ensures LiesFrom(r, Ordered(u.rows, since), position)
  {
    var a, b := Ordered(t.rows, since), Ordered(u.rows, since);
    OrderedIsSorted(t.rows, since);
    OrderedIsSorted(u.rows, since);
    var k :| 0 <= k < |a| && position <= k && a[k] == r;
    assert r in a && r in t.rows && r in u.rows && r in b;
    var j :| 0 <= j < |b| && b[j] == r;
    PositionsOnlyMoveBack(t, u, since, k, j);
  }

  lemma ServeKeepsCovered(p: Pull, since: Option<int>, r: HistoryRecord)
    requires PullInv(p, since) && p.phase.Asked? && Covered(p, since, r)
    ensures Covered(PullNext(p, Serve), since, r)
  {
    var all, page := Ordered(p.responder.rows, since), PullNext(p, Serve).phase.response.records;
    assert page == all[Clip(p.offset, 0, |all|)..Clip(p.offset + PAGE, 0, |all|)];
    if r !in p.delivered {
      var k :| 0 <= k < |all| && p.offset <= k && all[k] == r;
      if k < p.offset + PAGE {
        assert page[k - p.offset] == r;
      }
    }
  }

  lemma ConcludeKeepsCovered(p: Pull, timeOk: bool, since: Option<int>, r: HistoryRecord)
    requires PullInv(p, since) && CanStep(p, Conclude(timeOk)) && Covered(p, since, r)
    ensures Covered(PullNext(p, Conclude(timeOk)), since, r)
  {
    var records := p.phase.response.records;
    if r in records {
      var k :| 0 <= k < |records| && records[k] == r;
    }
    ConcludeKeepsPullInv(p, timeOk, since);
  }

  /** No step but a cleaning of the responder makes the sync miss a record. */
  lemma StepKeepsCovered(p: Pull, s: PullStep, since: Option<int>, r: HistoryRecord)
    requires CanStep(p, s) && PullInv(p, since) && Covered(p, since, r) && !s.ResponderCleans?
    ensures Covered(PullNext(p, s), since, r)
  {
    match s
    case ResponderWrites(record) =>
      InsertConserves(p.responder, record);
      if !p.phase.Failed? && r !in p.delivered && r !in InFlight(p) {
        GrowthKeepsBeyond(p.responder, PullNext(p, s).responder, since, r, Frontier(p).value);
      }
    case Serve => ServeKeepsCovered(p, since, r);
    case Conclude(timeOk) => ConcludeKeepsCovered(p, timeOk, since, r);
    case _ =>
  }

  /** The rows of the first table that a sync in this state has passed over. */
  ghost function Missed(p: Pull, since: Option<int>): set<HistoryRecord> {
    set r | r in RowSet(p.firstTable.rows, since) && !Covered(p, since, r)
  }

  lemma SeqHasFewMembers(s: seq<HistoryRecord>)
    ensures |set x | x in s| <= |s|
  {
    if s != [] {
      var init, last := s[..|s| - 1], s[|s| - 1];
      assert s == init + [last];
      SeqHasFewMembers(init);
      assert (set x | x in s) == (set x | x in init) + {last};
    }
  }

  function Window(s: seq<HistoryRecord>, from: int, length: nat): seq<HistoryRecord> {
    var start := Clip(from, 0, |s|);
    s[start..Clip(start + length, 0, |s|)]
  }

  lemma WindowIsShort(s: seq<HistoryRecord>, from: int, length: nat)
    ensures |set x | x in Window(s, from, length)| <= length
  {
    SeqHasFewMembers(Window(s, from, length));
  }

  /** The first d rows that are still to be asked for. */
  ghost function NextRows(p: Pull, since: Option<int>, d: nat): seq<HistoryRecord>
    requires Frontier(p).Some?
  {
    Window(Ordered(p.responder.rows, since), Frontier(p).value, d)
  }

  lemma DroppingAPrefix(all: seq<HistoryRecord>, d: nat, from: nat, r: HistoryRecord)
    requires d <= |all| && LiesFrom(r, all, from)
    ensures LiesFrom(r, all[d..], from) || r in Window(all, from, d)
  {
    var k :| 0 <= k < |all| && from <= k && all[k] == r;
    if k < from + d {
      assert Window(all, from, d)[k - from] == r;
    } else {
      assert all[d..][k - d] == r;
    }
  }

  lemma CleaningMissesTheNextRows(p: Pull, cutoff: int, since: Option<int>, r: HistoryRecord)
    requires PullInv(p, since) && Covered(p, since, r) && Frontier(p).Some?
    ensures Covered(PullNext(p, ResponderCleans(cutoff)), since, r)
            || r in NextRows(p, since, |Deleted(p.responder, since, cutoff)|)
  {
    var q, all := PullNext(p, ResponderCleans(cutoff)), Ordered(p.responder.rows, since);
    var d := |Deleted(p.responder, since, cutoff)|;
    assert Frontier(q) == Frontier(p) && InFlight(q) == InFlight(p);
    CleaningDropsAPrefix(p.responder, since, cutoff);
    if LiesFrom(r, all, Frontier(p).value) {
      DroppingAPrefix(all, d, Frontier(p).value, r);
    }
  }

  /** A cleaning that deletes d rows in range moves the others d positions forward: at most the next d of the rows
      still to be asked for are passed over. */
  lemma CleaningMissesNoMoreThanItDeletes(p: Pull, cutoff: int, since: Option<int>)
    requires PullInv(p, since)
    ensures var q := PullNext(p, ResponderCleans(cutoff));
            |Missed(q, since)| <=
            |Missed(p, since)| + if Frontier(p).Some? then |Deleted(p.responder, since, cutoff)| else 0
  {
    var q := PullNext(p, ResponderCleans(cutoff));
    if Frontier(p).None? {
      assert Missed(q, since) == Missed(p, since);
    } else {
      var next := NextRows(p, since, |Deleted(p.responder, since, cutoff)|);
      var passed := set x | x in next;
      WindowIsShort(Ordered(p.responder.rows, since), Frontier(p).value, |Deleted(p.responder, since, cutoff)|);
      forall r | r in Missed(q, since) ensures r in Missed(p, since) + passed {
        if Covered(p, since, r) {
          CleaningMissesTheNextRows(p, cutoff, since, r);
        }
      }
      SubsetIsNoLarger(Missed(q, since), Missed(p, since) + passed);
    }
  }

  /** How many rows in range the responder deleted in the first i steps while pages were still to be asked for. */
  ghost function RowsDeleted(run: PullRun, i: nat): nat
    requires IsPullRun(run) && i <= |run.steps|
  {
    if i == 0 then 0
    else
      var p, s := run.states[i - 1], run.steps[i - 1];
      RowsDeleted(run, i - 1)
      + if s.ResponderCleans? && Frontier(p).Some? then |Deleted(p.responder, Since(run.states[0]), s.cutoff)| else 0
  }

  lemma {:induction false} MissesAtMostTheDeleted(run: PullRun, i: nat)
    requires IsPullRun(run) && i < |run.states|
    ensures |Missed(run.states[i], Since(run.states[0]))| <= RowsDeleted(run, i)
    decreases i
  {
    var since := Since(run.states[0]);
    if i == 0 {
      OrderedIsSorted(run.states[0].responder.rows, since);
      forall r | r in RowSet(run.states[0].firstTable.rows, since) ensures Covered(run.states[0], since, r) {
        assert r in Ordered(run.states[0].responder.rows, since);
      }
      assert Missed(run.states[0], since) == {};
    } else {
      var p, s := run.states[i - 1], run.steps[i - 1];
      MissesAtMostTheDeleted(run, i - 1);
      PullRunsKeepInv(run, i - 1);
      if s.ResponderCleans? {
        CleaningMissesNoMoreThanItDeletes(p, s.cutoff, since);
      } else {
        forall r | r in Missed(run.states[i], since) ensures r in Missed(p, since) {
          if Covered(p, since, r) {
            StepKeepsCovered(p, s, since, r);
          }
        }
        SubsetIsNoLarger(Missed(run.states[i], since), Missed(p, since));
      }
    }
  }

  /** When a sync succeeds, it has missed at most as many of the records in range that the responder held at its
      beginning as the responder deleted meanwhile, although both tables were written to throughout, anywhere in
      the order. */
  lemma SuccessfulPullMissesAtMostTheDeleted(run: PullRun, i: nat)
    requires IsPullRun(run) && i < |run.states| && run.states[i].phase.Succeeded?
    ensures var snapshot := RowSet(run.states[0].responder.rows, Since(run.states[0]));
            |snapshot - run.states[i].delivered| <= RowsDeleted(run, i)
  {
    var since := Since(run.states[0]);
    PullRunsKeepInv(run, i);
    MissesAtMostTheDeleted(run, i);
    assert Missed(run.states[i], since) == RowSet(run.states[0].responder.rows, since) - run.states[i].delivered;
  }

  lemma NothingMissing(a: set<HistoryRecord>, b: set<HistoryRecord>)
    requires |a - b| == 0
    ensures a <= b
  {
    forall x | x in a ensures x in b {
      assert x in b || x in a - b;
    }
  }

  /** Snapshot completeness: when a sync succeeds, every record in range that the responder held when it began has been
      delivered in some page, unless rows in range were deleted while pages were still to be asked for. */
  lemma SuccessfulPullIsComplete(run: PullRun, i: nat)
    requires IsPullRun(run) && i < |run.states| && run.states[i].phase.Succeeded? && RowsDeleted(run, i) == 0
    ensures RowSet(run.states[0].responder.rows, Since(run.states[0])) <= run.states[i].delivered
    ensures var time := run.states[0].syncTime;
            forall r :: r in run.states[0].responder.rows && (time.Some? && time.value > 0 ==> time.value <= r.timestamp) ==>
              r in run.states[i].delivered
  {
    SuccessfulPullMissesAtMostTheDeleted(run, i);
    NothingMissing(RowSet(run.states[0].responder.rows, Since(run.states[0])), run.states[i].delivered);
  }

  /** Only such records are delivered, in any run, and each is still what the responder sent. */
  lemma {:induction false} OnlyRecordsInRangeAreDelivered(run: PullRun, i: nat, r: HistoryRecord)
    requires IsPullRun(run) && i < |run.states| && (r in run.states[i].delivered || r in InFlight(run.states[i]))
    ensures var time := run.states[0].syncTime; time.Some? && time.value > 0 ==> time.value <= r.timestamp
    ensures exists k :: 0 <= k < i && r in run.states[k].responder.rows
    decreases i
  {
    if i > 0 {
      var p := run.states[i - 1];
      PullRunsKeepInv(run, i - 1);
      if r in p.delivered || r in InFlight(p) {
        OnlyRecordsInRangeAreDelivered(run, i - 1, r);
      } else {
        assert run.steps[i - 1].Serve? && r in Answer(p.responder, p.phase.request).records;
        AnswerIsTheWindow(p.responder, p.phase.request, r);
        assert r in run.states[i - 1].responder.rows;
      }
    }
  }

  /** The usual case: a sync that asks from a time no cleaning reaches loses nothing to cleanings. */
  lemma {:induction false} OldCutoffsDeleteNothing(run: PullRun, i: nat)
    requires IsPullRun(run) && i <= |run.steps| && Since(run.states[0]).Some?
    requires forall k :: 0 <= k < i && run.steps[k].ResponderCleans? ==>
               run.steps[k].cutoff <= Since(run.states[0]).value
    ensures RowsDeleted(run, i) == 0
    decreases i
  {
    if i > 0 {
      OldCutoffsDeleteNothing(run, i - 1);
      var p, s := run.states[i - 1], run.steps[i - 1];
      assert s.ResponderCleans? ==> Deleted(p.responder, Since(run.states[0]), s.cutoff) == {};
    }
  }

  /** However fast the responder's table grows, at most MAX_PAGES requests are sent, and each asks
      for the next multiple of the page size. */
  lemma RequestsAreBounded(run: PullRun, i: nat)
    requires IsPullRun(run) && i < |run.states|
    ensures 1 <= run.states[i].requests <= 100
    ensures run.states[i].phase.Asked? ==>
              var q := run.states[i].phase.request;
              && q.limit == 500 && q.offset == 500 * (run.states[i].requests - 1)
              && q.sinceUnixNano == (if run.states[i].syncTime.Some? then run.states[i].syncTime.value else 0)
  {
    PullRunsKeepInv(run, i);
  }

  // ---- A responder that stands still ----

  /** Number of rows in range. */
  ghost function Matching(p: Pull, since: Option<int>): nat {
    |Ordered(p.responder.rows, since)|
  }

  /** The responder's table stands still and nothing fails; the requester may be written to and cleaned. */
  predicate Undisturbing(s: PullStep) {
    !s.ResponderWrites? && !s.ResponderCleans? && !s.Abort? && !s.ImportFault?
  }

  ghost predicate Undisturbed(run: PullRun) {
    forall i :: 0 <= i < |run.steps| ==>
      Undisturbing(run.steps[i])
  }

  /** How many requests were answered and pages concluded in the first i steps. */
  ghost function Exchanges(run: PullRun, i: nat): nat
    requires i <= |run.steps|
  {
    if i == 0 then 0
    else Exchanges(run, i - 1) + if run.steps[i - 1].Serve? || run.steps[i - 1].Conclude? then 1 else 0
  }

  /** With n rows in range, so far every page but a last one was full. */
  ghost predicate Paced(p: Pull, n: nat, exchanges: nat) {
    && !p.abandoned
    && match p.phase
       case Asked(_) => exchanges == 2 * (p.requests - 1) && PAGE * (p.requests - 1) <= n
       case Succeeded => exchanges == 2 * p.requests && PAGE * (p.requests - 1) <= n < PAGE * p.requests
       case Failed => exchanges == 2 * p.requests && p.requests == MAX_PAGES && PAGE * MAX_PAGES <= n
       case _ =>
         && exchanges == 2 * p.requests - 1 && PAGE * (p.requests - 1) <= n
         && (p.phase.response.hasMore <==> PAGE * p.requests <= n)
  }

  lemma StepKeepsPace(p: Pull, s: PullStep, since: Option<int>, exchanges: nat)
    requires CanStep(p, s) && Undisturbing(s)
    requires PullInv(p, since) && Paced(p, Matching(p, since), exchanges)
    ensures PullNext(p, s).responder == p.responder
    ensures Paced(PullNext(p, s), Matching(p, since), exchanges + if s.Serve? || s.Conclude? then 1 else 0)
  {
    if s.Conclude? && p.phase.response.hasMore {
      assert p.phase.response.nextOffset / PAGE == p.requests;
    }
  }

  lemma {:induction false} UndisturbedRunsArePaced(run: PullRun, i: nat)
    requires IsPullRun(run) && Undisturbed(run) && i < |run.states|
    ensures run.states[i].responder == run.states[0].responder
    ensures Paced(run.states[i], Matching(run.states[0], Since(run.states[0])), Exchanges(run, i))
    decreases i
  {
    if i > 0 {
      UndisturbedRunsArePaced(run, i - 1);
      PullRunsKeepInv(run, i - 1);
      StepKeepsPace(run.states[i - 1], run.steps[i - 1], Since(run.states[0]), Exchanges(run, i - 1));
    }
  }

  /** Against a responder that stands still with n rows in range, whoever else writes to the requester: the
      sync succeeds exactly when n is below MAX_PAGES full pages, after exactly n / PAGE + 1 requests, and
      otherwise fails after exactly MAX_PAGES; it has ended once each request was answered and concluded. */
  lemma FixedResponderPageCount(run: PullRun)
    requires IsPullRun(run) && Undisturbed(run)
    ensures var n := Matching(run.states[0], Since(run.states[0])); var end := run.states[|run.steps|];
            var last := if n < 50_000 then n / 500 + 1 else 100;
            && Exchanges(run, |run.steps|) <= 2 * last
            && (end.phase.Succeeded? || end.phase.Failed? <==> Exchanges(run, |run.steps|) == 2 * last)
            && (end.phase.Succeeded? ==> n < 50_000 && end.requests == n / 500 + 1)
            && (end.phase.Failed? ==> n >= 50_000 && end.requests == 100)
  {
    UndisturbedRunsArePaced(run, |run.steps|);
    PullRunsKeepInv(run, |run.steps|);
    var n := Matching(run.states[0], Since(run.states[0]));
    assert n == PAGE * (n / PAGE) + n % PAGE;
  }
}
