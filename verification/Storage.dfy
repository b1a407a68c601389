/** The history table: rows with a unique id and a unique (node, timestamp, event type)
    key, conflict-skipping inserts, and the ordered, paginated query. */
module Storage {
  import opened VectorClocks
  import opened NodeStates

  /** id is 0 for a record that has not been stored yet. */
  datatype HistoryRecord = HistoryRecord(
    id: nat,
    nodeId: NodeId,
    timestamp: int,
    eventType: string,
    status: string,
    source: string,
    metrics: Metrics)

  type Key = (NodeId, int, string)

  function KeyOf(r: HistoryRecord): Key {
    (r.nodeId, r.timestamp, r.eventType)
  }

  /** Rows in order of insertion; lastId is the highest id the table has handed out or taken in. */
  datatype Table = Table(rows: seq<HistoryRecord>, lastId: nat)

  const EMPTY_TABLE := Table([], 0)

  predicate HasKey(t: Table, k: Key) {
    exists i :: 0 <= i < |t.rows| && KeyOf(t.rows[i]) == k
  }

  predicate HasId(t: Table, id: nat) {
    exists i :: 0 <= i < |t.rows| && t.rows[i].id == id
  }

  /** ON CONFLICT DO NOTHING names no column: a clash of keys and a clash of ids both skip the row. */
  predicate Skipped(t: Table, r: HistoryRecord) {
    HasKey(t, KeyOf(r)) || (r.id != 0 && HasId(t, r.id))
  }

  function Insert(t: Table, r: HistoryRecord): Table {
    if Skipped(t, r) then t
    else if r.id == 0 then Table(t.rows + [r.(id := t.lastId + 1)], t.lastId + 1)
    else Table(t.rows + [r], if r.id > t.lastId then r.id else t.lastId)
  }

  function ImportAll(t: Table, records: seq<HistoryRecord>): Table {
    if records == [] then t
    else Insert(ImportAll(t, records[..|records| - 1]), records[|records| - 1])
  }

  ghost predicate UniqueIds(rows: seq<HistoryRecord>) {
    forall i, j :: 0 <= i < j < |rows| ==> rows[i].id != rows[j].id
  }

  ghost predicate UniqueKeys(rows: seq<HistoryRecord>) {
    forall i, j :: 0 <= i < j < |rows| ==> KeyOf(rows[i]) != KeyOf(rows[j])
  }

  /** The table's two unique constraints, and ids that never run past lastId. */
  ghost predicate Ok(t: Table) {
    && UniqueIds(t.rows)
    && UniqueKeys(t.rows)
    && forall i :: 0 <= i < |t.rows| ==> 1 <= t.rows[i].id <= t.lastId
  }

  /** Every row of t is still in u, unaltered. */
  ghost predicate Grows(t: Table, u: Table) {
    t.rows <= u.rows
  }

  lemma InsertConserves(t: Table, r: HistoryRecord)
    ensures Ok(t) ==> Ok(Insert(t, r))
    ensures Grows(t, Insert(t, r))
    ensures |Insert(t, r).rows| == |t.rows| + if Skipped(t, r) then 0 else 1
    ensures HasKey(Insert(t, r), KeyOf(r)) <==> HasKey(t, KeyOf(r)) || r.id == 0 || !HasId(t, r.id)
  {
    var u := Insert(t, r);
    if !Skipped(t, r) {
      assert KeyOf(u.rows[|t.rows|]) == KeyOf(r);
    }
    assert forall i :: 0 <= i < |t.rows| ==> KeyOf(u.rows[i]) == KeyOf(t.rows[i]);
  }

  /** Exactly when an insert skips its row: another has the same node, time and event type, or the id it brings. */
  lemma InsertSkipsIff(t: Table, r: HistoryRecord)
    ensures Insert(t, r) == t <==>
              || (exists i :: 0 <= i < |t.rows| && t.rows[i].nodeId == r.nodeId
                              && t.rows[i].timestamp == r.timestamp && t.rows[i].eventType == r.eventType)
              || (r.id != 0 && exists i :: 0 <= i < |t.rows| && t.rows[i].id == r.id)
  {
    if HasKey(t, KeyOf(r)) {
      var i :| 0 <= i < |t.rows| && KeyOf(t.rows[i]) == KeyOf(r);
      assert t.rows[i].nodeId == r.nodeId && t.rows[i].timestamp == r.timestamp && t.rows[i].eventType == r.eventType;
    }
    if i :| 0 <= i < |t.rows| && t.rows[i].nodeId == r.nodeId && t.rows[i].timestamp == r.timestamp
            && t.rows[i].eventType == r.eventType {
      assert KeyOf(t.rows[i]) == KeyOf(r);
    }
    assert !Skipped(t, r) ==> |Insert(t, r).rows| == |t.rows| + 1;
  }

  /** A row that is inserted is stored as it came, under its own id or under one that no row ever had. */
  lemma InsertStoresTheRow(t: Table, r: HistoryRecord)
    requires Ok(t) && Insert(t, r) != t
    ensures var u := Insert(t, r); var row := u.rows[|t.rows|];
            && u.rows == t.rows + [row] && row == r.(id := row.id)
            && (if r.id != 0 then row.id == r.id else row.id > t.lastId)
            && row.id <= u.lastId && t.lastId <= u.lastId && !HasId(t, row.id)
  {
  }

  lemma GrowthKeeps(t: Table, u: Table, k: Key, id: nat)
    requires Grows(t, u)
    ensures HasKey(t, k) ==> HasKey(u, k)
    ensures HasId(t, id) ==> HasId(u, id)
  {
    if HasKey(t, k) {
      var i :| 0 <= i < |t.rows| && KeyOf(t.rows[i]) == k;
      assert KeyOf(u.rows[i]) == k;
    }
    if HasId(t, id) {
      var i :| 0 <= i < |t.rows| && t.rows[i].id == id;
      assert u.rows[i].id == id;
    }
  }

  /** An import alters no row and keeps both constraints. */
  lemma {:induction false} ImportConserves(t: Table, records: seq<HistoryRecord>)
    ensures Ok(t) ==> Ok(ImportAll(t, records))
    ensures Grows(t, ImportAll(t, records))
  {
    if records != [] {
      var init := records[..|records| - 1];
      ImportConserves(t, init);
      InsertConserves(ImportAll(t, init), records[|records| - 1]);
    }
  }

  /** Once imported, or skipped, a record is skipped for ever: importing a batch again inserts nothing. */
  lemma {:induction false} ImportIsIdempotent(t: Table, records: seq<HistoryRecord>, u: Table)
    requires Grows(ImportAll(t, records), u)
    ensures forall i :: 0 <= i < |records| ==> Skipped(u, records[i])
    ensures ImportAll(u, records) == u
  {
    if records != [] {
      var init, r := records[..|records| - 1], records[|records| - 1];
      var before := ImportAll(t, init);
      InsertConserves(before, r);
      ImportIsIdempotent(t, init, u);
      GrowthKeeps(ImportAll(t, records), u, KeyOf(r), r.id);
      GrowthKeeps(before, u, KeyOf(r), r.id);
      assert Skipped(u, r);
      assert forall i :: 0 <= i < |init| ==> records[i] == init[i];
    }
  }

  /** Where the keys and the ids of an imported batch come from. */
  lemma {:induction false} ImportOrigins(t: Table, records: seq<HistoryRecord>, k: Key, id: nat)
    requires forall i :: 0 <= i < |records| ==> records[i].id != 0
    ensures HasKey(ImportAll(t, records), k) ==>
              HasKey(t, k) || exists i :: 0 <= i < |records| && KeyOf(records[i]) == k
    ensures HasId(ImportAll(t, records), id) ==>
              HasId(t, id) || exists i :: 0 <= i < |records| && records[i].id == id
  {
    if records != [] {
      var init, r := records[..|records| - 1], records[|records| - 1];
      var before, after := ImportAll(t, init), ImportAll(t, records);
      ImportOrigins(t, init, k, id);
      assert forall i :: 0 <= i < |init| ==> init[i] == records[i];
      if HasKey(after, k) && KeyOf(r) != k {
        var i :| 0 <= i < |after.rows| && KeyOf(after.rows[i]) == k;
        assert KeyOf(before.rows[i]) == k;
      }
      if HasId(after, id) && r.id != id {
        var i :| 0 <= i < |after.rows| && after.rows[i].id == id;
        assert before.rows[i].id == id;
      }
    }
  }

  /** A page of another table's rows: ids and keys are unique within it. */
  ghost predicate IsPage(records: seq<HistoryRecord>) {
    && UniqueIds(records)
    && UniqueKeys(records)
    && forall i :: 0 <= i < |records| ==> records[i].id != 0
  }

  /** Which records of a page survive its import: a record's key is in the table afterwards
      exactly when it was there before or no row held the id that came over the wire. */
  lemma {:induction false} ImportedIffIdWasFree(t: Table, page: seq<HistoryRecord>, i: nat)
    requires IsPage(page) && i < |page|
    ensures HasKey(ImportAll(t, page), KeyOf(page[i])) <==> HasKey(t, KeyOf(page[i])) || !HasId(t, page[i].id)
  {
    var init, last := page[..|page| - 1], page[|page| - 1];
    var before := ImportAll(t, init);
    InsertConserves(before, last);
    ImportConserves(t, init);
    if i == |init| {
      ImportOrigins(t, init, KeyOf(last), last.id);
      GrowthKeeps(t, before, KeyOf(last), last.id);
      assert forall j :: 0 <= j < |init| ==> init[j] == page[j];
    } else {
      ImportedIffIdWasFree(t, init, i);
      var k := KeyOf(page[i]);
      GrowthKeeps(before, ImportAll(t, page), k, 0);
      assert k != KeyOf(last);
      if HasKey(ImportAll(t, page), k) {
        var j :| 0 <= j < |ImportAll(t, page).rows| && KeyOf(ImportAll(t, page).rows[j]) == k;
        assert KeyOf(before.rows[j]) == k;
      }
    }
  }

  // ---- The ordered query ----

  /** ORDER BY timestamp, with ties broken by row id. */
  predicate Precedes(a: HistoryRecord, b: HistoryRecord) {
    a.timestamp < b.timestamp || (a.timestamp == b.timestamp && a.id < b.id)
  }

  predicate InRange(r: HistoryRecord, since: Option<int>) {
    since.Some? ==> r.timestamp >= since.value
  }

  /** Places r before the first row that does not precede it. */
  function Place(r: HistoryRecord, sorted: seq<HistoryRecord>): seq<HistoryRecord> {
    if sorted == [] || Precedes(r, sorted[0]) then [r] + sorted
    else [sorted[0]] + Place(r, sorted[1..])
  }

  /** The rows at or after since, in query order. */
  function Ordered(rows: seq<HistoryRecord>, since: Option<int>): seq<HistoryRecord> {
    if rows == [] then []
    else
      var rest := Ordered(rows[..|rows| - 1], since);
      var r := rows[|rows| - 1];
      if InRange(r, since) then Place(r, rest) else rest
  }

  const MAX_LIMIT := 500

  function Clip(x: int, lo: int, hi: int): int
    requires lo <= hi
  {
    if x < lo then lo else if x > hi then hi else x
  }

  function EffectiveLimit(limit: int): (n: nat)
    ensures 1 <= n <= MAX_LIMIT
    ensures n == limit || (n == MAX_LIMIT && !(1 <= limit <= MAX_LIMIT))
  {
    if limit <= 0 || limit > MAX_LIMIT then MAX_LIMIT else limit
  }

  /** OFFSET and LIMIT; a negative offset is no offset. */
  function Select(t: Table, since: Option<int>, offset: int, limit: int): seq<HistoryRecord> {
    var all := Ordered(t.rows, since);
    var from := Clip(offset, 0, |all|);
    all[from..Clip(from + EffectiveLimit(limit), 0, |all|)]
  }

  ghost predicate StrictlyOrdered(s: seq<HistoryRecord>) {
    forall i, j :: 0 <= i < j < |s| ==> Precedes(s[i], s[j])
  }

  ghost function RowSet(rows: seq<HistoryRecord>, since: Option<int>): set<HistoryRecord> {
    set r | r in rows && InRange(r, since)
  }

  lemma {:induction false} PlaceKeepsOrder(r: HistoryRecord, s: seq<HistoryRecord>)
    requires StrictlyOrdered(s)
    requires forall x :: x in s ==> x.id != r.id
    ensures StrictlyOrdered(Place(r, s))
    ensures forall x :: x in Place(r, s) <==> x == r || x in s
  {
    if s != [] {
      assert s == [s[0]] + s[1..];
      if !Precedes(r, s[0]) {
        PlaceKeepsOrder(r, s[1..]);
        var tail := Place(r, s[1..]);
        assert Precedes(s[0], r);
        forall j | 0 <= j < |tail| ensures Precedes(s[0], tail[j]) {
          assert tail[j] in tail;
        }
      } else {
        forall j | 0 <= j < |s| ensures Precedes(r, s[j]) {
          assert j > 0 ==> Precedes(s[0], s[j]);
        }
      }
    }
  }

  lemma {:induction false} OrderedIsSorted(rows: seq<HistoryRecord>, since: Option<int>)
    requires UniqueIds(rows)
    ensures StrictlyOrdered(Ordered(rows, since))
    ensures forall x :: x in Ordered(rows, since) <==> x in RowSet(rows, since)
  {
    if rows != [] {
      var init, r := rows[..|rows| - 1], rows[|rows| - 1];
      OrderedIsSorted(init, since);
      assert rows == init + [r];
      forall x | x in Ordered(init, since) ensures x.id != r.id {
        assert x in init;
      }
      if InRange(r, since) {
        PlaceKeepsOrder(r, Ordered(init, since));
      }
    }
  }

  /** In a sorted sequence, the rows before position p are exactly those that precede the row there. */
  lemma PositionIsRank(s: seq<HistoryRecord>, p: nat)
    requires StrictlyOrdered(s) && p < |s|
    ensures |set x | x in s && Precedes(x, s[p])| == p
  {
    var before := set x | x in s && Precedes(x, s[p]);
    forall x ensures x in before <==> x in s[..p] {
      if x in s[..p] {
        var i :| 0 <= i < p && s[..p][i] == x;
        assert s[i] == x;
      }
      if x in before {
        var i :| 0 <= i < |s| && s[i] == x;
        assert i < p;
        assert s[..p][i] == x;
      }
    }
    assert before == set x | x in s[..p];
    DistinctCount(s[..p]);
  }

  lemma {:induction false} DistinctCount(s: seq<HistoryRecord>)
    requires StrictlyOrdered(s)
    ensures |set x | x in s| == |s|
  {
    if s != [] {
      var init, r := s[..|s| - 1], s[|s| - 1];
      assert s == init + [r];
      DistinctCount(init);
      assert r !in init;
      assert (set x | x in s) == (set x | x in init) + {r};
    }
  }

  /** How many rows in range come before r. */
  ghost function Rank(t: Table, since: Option<int>, r: HistoryRecord): nat {
    |set x | x in RowSet(t.rows, since) && Precedes(x, r)|
  }

  lemma OrderedPositionIsRank(t: Table, since: Option<int>, p: nat)
    requires UniqueIds(t.rows) && p < |Ordered(t.rows, since)|
    ensures Rank(t, since, Ordered(t.rows, since)[p]) == p
  {
    var all := Ordered(t.rows, since);
    OrderedIsSorted(t.rows, since);
    PositionIsRank(all, p);
    assert (set x | x in all && Precedes(x, all[p])) == set x | x in RowSet(t.rows, since) && Precedes(x, all[p]);
  }

  ghost predicate LiesBetween(r: HistoryRecord, all: seq<HistoryRecord>, lo: int, hi: int) {
    exists p :: 0 <= p < |all| && lo <= p < hi && all[p] == r
  }

  /** Being on a page is being at one of its positions. */
  lemma OnPage(all: seq<HistoryRecord>, from: nat, limit: nat, r: HistoryRecord)
    ensures var page := all[Clip(from, 0, |all|)..Clip(Clip(from, 0, |all|) + limit, 0, |all|)];
            r in page <==> LiesBetween(r, all, from, from + limit)
  {
    var start := Clip(from, 0, |all|);
    var page := all[start..Clip(start + limit, 0, |all|)];
    if r in page {
      var k :| 0 <= k < |page| && page[k] == r;
      assert all[from + k] == r;
    }
    if p :| 0 <= p < |all| && from <= p < from + limit && all[p] == r {
      assert page[p - from] == r;
    }
  }

  lemma RankIsPosition(t: Table, since: Option<int>, r: HistoryRecord, lo: int, hi: int)
    requires UniqueIds(t.rows) && 0 <= lo
    ensures var all := Ordered(t.rows, since);
            LiesBetween(r, all, lo, hi) <==>
            r in RowSet(t.rows, since) && lo <= Rank(t, since, r) < hi
  {
    var all := Ordered(t.rows, since);
    OrderedIsSorted(t.rows, since);
    if r in RowSet(t.rows, since) {
      assert r in all;
      var p :| 0 <= p < |all| && all[p] == r;
      OrderedPositionIsRank(t, since, p);
    }
    if q :| 0 <= q < |all| && lo <= q < hi && all[q] == r {
      assert r in all;
      OrderedPositionIsRank(t, since, q);
    }
  }

  /** How many rows of the table come before r, among those not before since: by time, then by id. */
  ghost function RowsBefore(t: Table, since: Option<int>, r: HistoryRecord): nat {
    |set x | x in t.rows && (since.Some? ==> since.value <= x.timestamp)
             && (x.timestamp < r.timestamp || (x.timestamp == r.timestamp && x.id < r.id))|
  }

  lemma RowsBeforeIsRank(t: Table, since: Option<int>, r: HistoryRecord)
    ensures RowsBefore(t, since, r) == Rank(t, since, r)
  {
    assert (set x | x in t.rows && (since.Some? ==> since.value <= x.timestamp)
                    && (x.timestamp < r.timestamp || (x.timestamp == r.timestamp && x.id < r.id)))
           == set x | x in RowSet(t.rows, since) && Precedes(x, r);
  }

  /** A page, without mentioning how the rows were sorted: it holds exactly the rows not before since of
      which at least offset and fewer than offset + limit others come first. */
  lemma SelectIsByRank(t: Table, since: Option<int>, offset: int, limit: int, r: HistoryRecord)
    requires UniqueIds(t.rows)
    ensures var from := if offset < 0 then 0 else offset;
            var most := if 1 <= limit <= 500 then limit else 500;
            r in Select(t, since, offset, limit) <==>
            && r in t.rows && (since.Some? ==> since.value <= r.timestamp)
            && from <= RowsBefore(t, since, r) < from + most
  {
    var all, from := Ordered(t.rows, since), if offset < 0 then 0 else offset;
    var start := Clip(from, 0, |all|);
    assert Select(t, since, offset, limit) == all[start..Clip(start + EffectiveLimit(limit), 0, |all|)];
    OnPage(all, from, EffectiveLimit(limit), r);
    RankIsPosition(t, since, r, from, from + EffectiveLimit(limit));
    RowsBeforeIsRank(t, since, r);
  }

  lemma SelectIsOrdered(t: Table, since: Option<int>, offset: int, limit: int)
    requires UniqueIds(t.rows)
    ensures var page := Select(t, since, offset, limit);
            forall i, j :: 0 <= i < j < |page| ==>
              || page[i].timestamp < page[j].timestamp
              || (page[i].timestamp == page[j].timestamp && page[i].id < page[j].id)
  {
    OrderedIsSorted(t.rows, since);
    var page := Select(t, since, offset, limit);
    assert forall i, j :: 0 <= i < j < |page| ==> Precedes(page[i], page[j]);
  }

  /** While the table grows, wherever rows are inserted, a row never moves to an earlier position. */
  lemma PositionsOnlyMoveBack(t: Table, u: Table, since: Option<int>, p: nat, q: nat)
    requires Grows(t, u) && UniqueIds(t.rows) && UniqueIds(u.rows)
    requires p < |Ordered(t.rows, since)| && q < |Ordered(u.rows, since)|
    requires Ordered(t.rows, since)[p] == Ordered(u.rows, since)[q]
    ensures p <= q
  {
    var a, b := Ordered(t.rows, since), Ordered(u.rows, since);
    OrderedIsSorted(t.rows, since);
    OrderedIsSorted(u.rows, since);
    PositionIsRank(a, p);
    PositionIsRank(b, q);
    var before, after := set x | x in a && Precedes(x, a[p]), set x | x in b && Precedes(x, b[q]);
    forall x | x in before ensures x in after {
      assert x in t.rows;
      assert x in u.rows;
      assert x in RowSet(u.rows, since);
    }
    SubsetIsNoLarger(before, after);
  }

  // ---- Deleting old rows ----

  function NotBefore(rows: seq<HistoryRecord>, cutoff: int): seq<HistoryRecord> {
    if rows == [] then []
    else
      var last := rows[|rows| - 1];
      NotBefore(rows[..|rows| - 1], cutoff) + if last.timestamp >= cutoff then [last] else []
  }

  /** Deletes the rows before the cutoff. Their ids are not handed out again. */
  function Clean(t: Table, cutoff: int): Table {
    Table(NotBefore(t.rows, cutoff), t.lastId)
  }

  lemma {:induction false} NotBeforeKeeps(rows: seq<HistoryRecord>, cutoff: int)
    ensures |NotBefore(rows, cutoff)| <= |rows|
    ensures forall r :: r in NotBefore(rows, cutoff) <==> r in rows && r.timestamp >= cutoff
    ensures UniqueIds(rows) ==> UniqueIds(NotBefore(rows, cutoff))
    ensures UniqueKeys(rows) ==> UniqueKeys(NotBefore(rows, cutoff))
  {
    if rows != [] {
      var init, last := rows[..|rows| - 1], rows[|rows| - 1];
      assert rows == init + [last];
      NotBeforeKeeps(init, cutoff);
      forall k | 0 <= k < |NotBefore(init, cutoff)| ensures NotBefore(init, cutoff)[k] in init {
        assert NotBefore(init, cutoff)[k] in NotBefore(init, cutoff);
      }
    }
  }

  /** A cleaning keeps both constraints and exactly the rows that are not too old. */
  lemma CleanConserves(t: Table, cutoff: int)
    ensures Ok(t) ==> Ok(Clean(t, cutoff))
    ensures Clean(t, cutoff).lastId == t.lastId
    ensures forall r :: r in Clean(t, cutoff).rows <==> r in t.rows && r.timestamp >= cutoff
    ensures forall k: Key :: HasKey(Clean(t, cutoff), k) <==> HasKey(t, k) && k.1 >= cutoff
  {
    NotBeforeKeeps(t.rows, cutoff);
    var rows := Clean(t, cutoff).rows;
    if Ok(t) {
      forall i | 0 <= i < |rows| ensures 1 <= rows[i].id <= t.lastId {
        assert rows[i] in t.rows;
      }
    }
    forall k: Key ensures HasKey(Clean(t, cutoff), k) <==> HasKey(t, k) && k.1 >= cutoff {
      CleanKeepsKey(t, cutoff, k);
    }
  }

  lemma CleanKeepsKey(t: Table, cutoff: int, k: Key)
    ensures HasKey(Clean(t, cutoff), k) <==> HasKey(t, k) && k.1 >= cutoff
  {
    var rows := Clean(t, cutoff).rows;
    NotBeforeKeeps(t.rows, cutoff);
    if HasKey(Clean(t, cutoff), k) {
      var i :| 0 <= i < |rows| && KeyOf(rows[i]) == k;
      assert rows[i] in rows;
    }
    if HasKey(t, k) && k.1 >= cutoff {
      var i :| 0 <= i < |t.rows| && KeyOf(t.rows[i]) == k;
      assert t.rows[i] in rows;
    }
  }

  lemma TailMembers(s: seq<HistoryRecord>, x: HistoryRecord)
    requires StrictlyOrdered(s) && s != []
    ensures x in s[1..] <==> x in s && x != s[0]
  {
    assert s == [s[0]] + s[1..];
    if x in s[1..] {
      var k :| 0 <= k < |s| - 1 && s[1..][k] == x;
      assert Precedes(s[0], s[k + 1]);
    }
  }

  lemma {:induction false} SortedIsUnique(a: seq<HistoryRecord>, b: seq<HistoryRecord>)
    requires StrictlyOrdered(a) && StrictlyOrdered(b)
    requires forall x :: x in a <==> x in b
    ensures a == b
  {
    assert forall k :: 0 <= k < |a| ==> a[k] in b;
    assert forall k :: 0 <= k < |b| ==> b[k] in a;
    if a != [] && b != [] {
      assert a[0] in b && b[0] in a;
      assert a[0] == b[0];
      forall x ensures x in a[1..] <==> x in b[1..] {
        TailMembers(a, x);
        TailMembers(b, x);
      }
      SortedIsUnique(a[1..], b[1..]);
    }
  }

  /** The rows in range that a cleaning deletes. */
  ghost function Deleted(t: Table, since: Option<int>, cutoff: int): set<HistoryRecord> {
    set r | r in RowSet(t.rows, since) && r.timestamp < cutoff
  }

  /** The first position of a sorted sequence that is not before the cutoff. */
  function FirstFrom(s: seq<HistoryRecord>, cutoff: int): nat {
    if s == [] || s[0].timestamp >= cutoff then 0 else 1 + FirstFrom(s[1..], cutoff)
  }

  lemma {:induction false} FirstFromSplits(s: seq<HistoryRecord>, cutoff: int)
    requires StrictlyOrdered(s)
    ensures FirstFrom(s, cutoff) <= |s|
    ensures forall k :: 0 <= k < |s| ==> (s[k].timestamp < cutoff <==> k < FirstFrom(s, cutoff))
  {
    if s != [] {
      if s[0].timestamp < cutoff {
        FirstFromSplits(s[1..], cutoff);
        forall k | 0 < k < |s| ensures s[k].timestamp < cutoff <==> k < FirstFrom(s, cutoff) {
          assert s[k] == s[1..][k - 1];
        }
      } else {
        forall k | 0 < k < |s| ensures s[k].timestamp >= cutoff {
          assert Precedes(s[0], s[k]);
        }
      }
    }
  }

  lemma FirstFromParts(s: seq<HistoryRecord>, cutoff: int, x: HistoryRecord)
    requires StrictlyOrdered(s) && FirstFrom(s, cutoff) <= |s|
    ensures x in s[..FirstFrom(s, cutoff)] <==> x in s && x.timestamp < cutoff
    ensures x in s[FirstFrom(s, cutoff)..] <==> x in s && x.timestamp >= cutoff
  {
    var d := FirstFrom(s, cutoff);
    FirstFromSplits(s, cutoff);
    if x in s {
      var k :| 0 <= k < |s| && s[k] == x;
      assert if k < d then s[..d][k] == x else s[d..][k - d] == x;
    }
  }

  /** In the order of the query a cleaning deletes a prefix: every other row moves forward by as many
      positions as rows in range were deleted. */
  lemma CleaningDropsAPrefix(t: Table, since: Option<int>, cutoff: int)
    requires UniqueIds(t.rows)
    ensures var all, d := Ordered(t.rows, since), |Deleted(t, since, cutoff)|;
            && d <= |all| && Ordered(Clean(t, cutoff).rows, since) == all[d..]
            && forall x :: x in all[..d] <==> x in Deleted(t, since, cutoff)
  {
    var all, d := Ordered(t.rows, since), FirstFrom(Ordered(t.rows, since), cutoff);
    OrderedIsSorted(t.rows, since);
    NotBeforeKeeps(t.rows, cutoff);
    OrderedIsSorted(Clean(t, cutoff).rows, since);
    FirstFromSplits(all, cutoff);
    forall x
      ensures x in all[..d] <==> x in Deleted(t, since, cutoff)
      ensures x in all[d..] <==> x in Ordered(Clean(t, cutoff).rows, since)
    {
      FirstFromParts(all, cutoff, x);
    }
    DistinctCount(all[..d]);
    assert Deleted(t, since, cutoff) == set x | x in all[..d];
    SortedIsUnique(all[d..], Ordered(Clean(t, cutoff).rows, since));
  }

  /** The latest timestamp in the table, if there is any row. */
  function Latest(rows: seq<HistoryRecord>): (time: Option<int>)
    ensures time.None? <==> rows == []
    ensures time.Some? ==> (exists i :: 0 <= i < |rows| && rows[i].timestamp == time.value)
                           && forall i :: 0 <= i < |rows| ==> rows[i].timestamp <= time.value
  {
    if rows == [] then None
    else
      var r, earlier := rows[|rows| - 1], Latest(rows[..|rows| - 1]);
      assert rows[|rows| - 1].timestamp == r.timestamp;
      if earlier.None? || r.timestamp > earlier.value then Some(r.timestamp) else earlier
  }

  /** What the node table keeps of a state: there is no column for the clock. */
  function WithoutClock(ns: NodeState): NodeState {
    ns.(clock := map[])
  }

  /** The database handle. Whether the database carries out a query or a write is a parameter. */
  class Store {
    var table: Table
    var nodeStates: map<NodeId, NodeState>

    constructor ()
      ensures table == EMPTY_TABLE && nodeStates == map[]
    {
      table := EMPTY_TABLE;
      nodeStates := map[];
    }

    method SaveNodeState(ns: NodeState, dbOk: bool) returns (ok: bool)
      modifies this`nodeStates
      ensures ok == dbOk
      ensures nodeStates == if dbOk then old(nodeStates)[ns.nodeId := WithoutClock(ns)] else old(nodeStates)
    {
      ok := dbOk;
      if dbOk {
        nodeStates := nodeStates[ns.nodeId := WithoutClock(ns)];
      }
    }

    /** Whatever was saved, a state read back has no clock. */
    method GetNodeState(nodeId: NodeId, dbOk: bool) returns (ns: Option<NodeState>)
      ensures ns.Some? <==> dbOk && nodeId in nodeStates
      ensures ns.Some? ==> ns.value == nodeStates[nodeId].(clock := map[])
    {
      ns := if dbOk && nodeId in nodeStates then Some(WithoutClock(nodeStates[nodeId])) else None;
    }

    method SaveHistoryRecord(r: HistoryRecord, dbOk: bool) returns (ok: bool)
      modifies this`table
      ensures ok == dbOk
      ensures table == if dbOk then Insert(old(table), r) else old(table)
    {
      ok := dbOk;
      if dbOk {
        table := Insert(table, r);
      }
    }

    /** Imports record by record and stops at the first write that fails, keeping what was
        inserted before it. The count is the growth of the table. */
    method ImportHistoryRecords(records: seq<HistoryRecord>, faultAt: nat) returns (inserted: int, ok: bool)
      modifies this`table
      ensures ok <==> |records| <= faultAt
      ensures table == ImportAll(old(table), if ok then records else records[..faultAt])
      ensures inserted == |table.rows| - |old(table).rows|
    {
      inserted, ok := 0, true;
      ghost var before := table;
      var i := 0;
      while i < |records|
        invariant 0 <= i <= |records| && i <= faultAt
        invariant table == ImportAll(before, records[..i])
        invariant inserted == |table.rows| - |before.rows|
      {
        if i == faultAt {
          ok := false;
          return;
        }
        InsertConserves(table, records[i]);
        assert records[..i + 1][..i] == records[..i];
        var grown := Insert(table, records[i]);
        inserted := inserted + |grown.rows| - |table.rows|;
        table := grown;
        i := i + 1;
      }
      assert records[..i] == records;
    }

    method GetAllHistorySince(since: Option<int>, offset: int, limit: int, dbOk: bool)
      returns (records: seq<HistoryRecord>, ok: bool)
      ensures ok == dbOk
      ensures records == if ok then Select(table, since, offset, limit) else []
      ensures |records| <= EffectiveLimit(limit)
    {
      ok := dbOk;
      records := if ok then Select(table, since, offset, limit) else [];
    }

    /** Deletes the rows older than the retention time and returns how many there were. */
    method CleanOldRecords(now: int, retention: int, dbOk: bool) returns (deleted: nat, ok: bool)
      modifies this`table
      ensures ok == dbOk
      ensures table == if ok then Clean(old(table), now - retention) else old(table)
      ensures deleted == |old(table).rows| - |table.rows|
      ensures ok ==> forall r :: r in table.rows <==> r in old(table).rows && now - r.timestamp <= retention
      ensures Ok(old(table)) ==> Ok(table)
    {
      ok := dbOk;
      deleted := 0;
      if ok {
        CleanConserves(table, now - retention);
        NotBeforeKeeps(table.rows, now - retention);
        var cleaned := Clean(table, now - retention);
        deleted := |table.rows| - |cleaned.rows|;
        table := cleaned;
      }
    }

    /** No time for an empty table; an error is told apart from that. */
    method GetLatestHistoryTime(dbOk: bool) returns (time: Option<int>, ok: bool)
      ensures ok == dbOk
      ensures time == if ok then Latest(table.rows) else None
    {
      ok := dbOk;
      time := if ok then Latest(table.rows) else None;
    }
  }
}
