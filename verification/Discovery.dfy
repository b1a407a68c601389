/** The cache that keeps discovered addresses from being joined too often. It forgets old entries;
    nobody can tell. */
module Discovery {

  type Seen = map<string, int>

  function Prune(seen: Seen, now: int, cooldown: int): Seen {
    map a | a in seen && now - seen[a] <= 5 * cooldown :: seen[a]
  }

  predicate Cooled(seen: Seen, addr: string, now: int, cooldown: int) {
    addr !in seen || now - seen[addr] > cooldown
  }

  function Note(seen: Seen, addr: string, now: int, cooldown: int): Seen {
    if Cooled(seen, addr, now, cooldown) then seen[addr := now] else seen
  }

  class DiscoveryBase {
    const clusterName: string
    var cooldown: int
    var seenAddrs: Seen

    constructor (clusterName: string)
      ensures this.clusterName == clusterName && seenAddrs == map[] && cooldown == 30_000_000_000
    {
      this.clusterName := clusterName;
      cooldown := 30_000_000_000;
      seenAddrs := map[];
    }

    method IsNew(addr: string, now: int) returns (isNew: bool)
      modifies this`seenAddrs
      ensures var kept := Prune(old(seenAddrs), now, cooldown);
              isNew == Cooled(kept, addr, now, cooldown) && seenAddrs == Note(kept, addr, now, cooldown)
      ensures cooldown >= 0 ==> forall a :: a in seenAddrs ==> now - seenAddrs[a] <= 5 * cooldown
      ensures forall a :: a in old(seenAddrs) && a != addr ==>
                (a in seenAddrs <==> now - old(seenAddrs)[a] <= 5 * cooldown)
    {
      var rest := seenAddrs.Keys;
      while rest != {}
        invariant rest <= seenAddrs.Keys <= old(seenAddrs).Keys
        invariant forall a :: a in old(seenAddrs) ==>
                    (a in seenAddrs <==> a in rest || now - old(seenAddrs)[a] <= 5 * cooldown)
        invariant forall a :: a in seenAddrs ==> seenAddrs[a] == old(seenAddrs)[a]
      {
        var a :| a in rest;
        rest := rest - {a};
        if now - seenAddrs[a] > 5 * cooldown {
          seenAddrs := seenAddrs - {a};
        }
      }
      assert seenAddrs == Prune(old(seenAddrs), now, cooldown);
      if addr !in seenAddrs || now - seenAddrs[addr] > cooldown {
        seenAddrs := seenAddrs[addr := now];
        return true;
      }
      return false;
    }

    /** Whether a discovered peer is joined. Peers of other clusters leave no trace. */
    method TryJoin(addr: string, remoteCluster: string, now: int) returns (joins: bool)
      modifies this`seenAddrs
      ensures var kept := Prune(old(seenAddrs), now, cooldown);
              if remoteCluster != clusterName then !joins && seenAddrs == old(seenAddrs)
              else joins == Cooled(kept, addr, now, cooldown) && seenAddrs == Note(kept, addr, now, cooldown)
    {
      if remoteCluster != clusterName {
        return false;
      }
      joins := IsNew(addr, now);
    }
  }

  // ---- Sequences of calls ----

  datatype Call = Call(addr: string, now: int)

  /** The cache after a sequence of calls on an empty one. */
  function SeenAfter(calls: seq<Call>, cooldown: int): Seen {
    if calls == [] then map[]
    else
      var c := calls[|calls| - 1];
      Note(Prune(SeenAfter(calls[..|calls| - 1], cooldown), c.now, cooldown), c.addr, c.now, cooldown)
  }

  /** The answer to call i of the sequence. */
  predicate Answer(calls: seq<Call>, cooldown: int, i: nat)
    requires i < |calls|
  {
    Cooled(Prune(SeenAfter(calls[..i], cooldown), calls[i].now, cooldown), calls[i].addr, calls[i].now, cooldown)
  }

  /** The same without ever pruning. */
  function UnprunedAfter(calls: seq<Call>, cooldown: int): Seen {
    if calls == [] then map[]
    else
      var c := calls[|calls| - 1];
      Note(UnprunedAfter(calls[..|calls| - 1], cooldown), c.addr, c.now, cooldown)
  }

  predicate UnprunedAnswer(calls: seq<Call>, cooldown: int, i: nat)
    requires i < |calls|
  {
    Cooled(UnprunedAfter(calls[..i], cooldown), calls[i].addr, calls[i].now, cooldown)
  }

  /** The clock never runs backwards. */
  ghost predicate Timely(calls: seq<Call>) {
    forall i, j :: 0 <= i < j < |calls| ==> calls[i].now <= calls[j].now
  }

  /** What pruning has dropped would have counted as cooled down anyway. */
  ghost predicate Agree(pruned: Seen, full: Seen, now: int, cooldown: int) {
    && (forall a :: a in pruned ==> a in full && pruned[a] == full[a])
    && (forall a :: a in full ==> full[a] <= now && (a in pruned || now - full[a] > cooldown))
  }

  lemma CallKeepsAgreement(pruned: Seen, full: Seen, before: int, addr: string, now: int, cooldown: int)
    requires Agree(pruned, full, before, cooldown) && before <= now
    ensures var kept := Prune(pruned, now, cooldown);
            && Cooled(kept, addr, now, cooldown) == Cooled(full, addr, now, cooldown)
            && Agree(Note(kept, addr, now, cooldown), Note(full, addr, now, cooldown), now, cooldown)
  {
  }

  lemma {:induction false} CachesAgree(calls: seq<Call>, cooldown: int)
    requires Timely(calls) && calls != []
    ensures Agree(SeenAfter(calls, cooldown), UnprunedAfter(calls, cooldown), calls[|calls| - 1].now, cooldown)
  {
    var init, c := calls[..|calls| - 1], calls[|calls| - 1];
    if init == [] {
      CallKeepsAgreement(map[], map[], c.now, c.addr, c.now, cooldown);
    } else {
      CachesAgree(init, cooldown);
      CallKeepsAgreement(SeenAfter(init, cooldown), UnprunedAfter(init, cooldown),
                         init[|init| - 1].now, c.addr, c.now, cooldown);
    }
  }

  /** Pruning is invisible: every answer is the one a cache that never forgets would give. */
  lemma PruningIsInvisible(calls: seq<Call>, cooldown: int, i: nat)
    requires Timely(calls) && i < |calls|
    ensures Answer(calls, cooldown, i) == UnprunedAnswer(calls, cooldown, i)
  {
    var earlier := calls[..i];
    if i == 0 {
      CallKeepsAgreement(map[], map[], calls[i].now, calls[i].addr, calls[i].now, cooldown);
    } else {
      CachesAgree(earlier, cooldown);
      CallKeepsAgreement(SeenAfter(earlier, cooldown), UnprunedAfter(earlier, cooldown),
                         calls[i - 1].now, calls[i].addr, calls[i].now, cooldown);
    }
  }

  /** The calls among the first n that the unpruned cache answers yes. */
  ghost function Hits(calls: seq<Call>, cooldown: int, n: nat): set<int>
    requires n <= |calls|
  {
    if n == 0 then {}
    else Hits(calls, cooldown, n - 1) + if UnprunedAnswer(calls, cooldown, n - 1) then {n - 1} else {}
  }

  lemma {:induction false} HitsAreAnsweredYes(calls: seq<Call>, cooldown: int, n: nat, i: nat)
    requires n <= |calls| && i < |calls|
    ensures i in Hits(calls, cooldown, n) <==> i < n && UnprunedAnswer(calls, cooldown, i)
    ensures forall k :: k in Hits(calls, cooldown, n) ==> 0 <= k < n
    decreases n
  {
    if n > 0 {
      HitsAreAnsweredYes(calls, cooldown, n - 1, i);
    }
  }

  /** The cache holds, for each address, the time of its latest hit. */
  ghost predicate Tracks(full: Seen, calls: seq<Call>, hits: set<int>) {
    && (forall i :: i in hits ==> 0 <= i < |calls| && calls[i].addr in full && calls[i].now <= full[calls[i].addr])
    && (forall a :: a in full ==> exists i :: i in hits && 0 <= i < |calls| && calls[i] == Call(a, full[a]))
  }

  lemma {:induction false} UnprunedTracks(calls: seq<Call>, cooldown: int, n: nat)
    requires Timely(calls) && n <= |calls|
    ensures Tracks(UnprunedAfter(calls[..n], cooldown), calls, Hits(calls, cooldown, n))
    decreases n
  {
    if n > 0 {
      UnprunedTracks(calls, cooldown, n - 1);
      HitsAreAnsweredYes(calls, cooldown, n - 1, 0);
      OneCallMore(calls, cooldown, n - 1);
      CallIsTracked(UnprunedAfter(calls[..n - 1], cooldown), UnprunedAfter(calls[..n], cooldown), calls, cooldown,
                    Hits(calls, cooldown, n - 1), Hits(calls, cooldown, n), n - 1);
    }
  }

  /** One more call, on the cache and on the set of hits. */
  ghost predicate NextCall(before: Seen, after: Seen, c: Call, cooldown: int, hits: set<int>, more: set<int>, n: int) {
    && after == Note(before, c.addr, c.now, cooldown)
    && more == if Cooled(before, c.addr, c.now, cooldown) then hits + {n} else hits
  }

  lemma OneCallMore(calls: seq<Call>, cooldown: int, n: nat)
    requires n < |calls|
    ensures NextCall(UnprunedAfter(calls[..n], cooldown), UnprunedAfter(calls[..n + 1], cooldown), calls[n], cooldown,
                     Hits(calls, cooldown, n), Hits(calls, cooldown, n + 1), n)
  {
    assert calls[..n + 1][..n] == calls[..n];
  }

  lemma CallIsTracked(
    before: Seen, after: Seen, calls: seq<Call>, cooldown: int, hits: set<int>, more: set<int>, n: nat)
    requires Timely(calls) && n < |calls| && Tracks(before, calls, hits) && forall i :: i in hits ==> i < n
    requires NextCall(before, after, calls[n], cooldown, hits, more, n)
    ensures Tracks(after, calls, more)
  {
    var c := calls[n];
    if Cooled(before, c.addr, c.now, cooldown) {
      forall a | a in after ensures exists i :: i in more && 0 <= i < |calls| && calls[i] == Call(a, after[a]) {
        if a == c.addr {
          assert n in more;
        } else {
          var i :| i in hits && 0 <= i < |calls| && calls[i] == Call(a, before[a]);
          assert i in more;
        }
      }
    }
  }

  /** What the cache decides, without mentioning a cache: a call is answered yes exactly when every
      earlier yes for its address lies more than the cooldown back. */
  lemma AnswerIffCooledDown(calls: seq<Call>, cooldown: int, j: nat)
    requires Timely(calls) && j < |calls|
    ensures Answer(calls, cooldown, j) <==>
            forall i :: 0 <= i < j && calls[i].addr == calls[j].addr && Answer(calls, cooldown, i) ==>
              calls[j].now - calls[i].now > cooldown
  {
    var c, full := calls[j], UnprunedAfter(calls[..j], cooldown);
    UnprunedTracks(calls, cooldown, j);
    PruningIsInvisible(calls, cooldown, j);
    forall i | 0 <= i < j ensures Answer(calls, cooldown, i) <==> i in Hits(calls, cooldown, j) {
      PruningIsInvisible(calls, cooldown, i);
      HitsAreAnsweredYes(calls, cooldown, j, i);
    }
    HitsAreAnsweredYes(calls, cooldown, j, j);
    if !Cooled(full, c.addr, c.now, cooldown) {
      var i :| i in Hits(calls, cooldown, j) && calls[i] == Call(c.addr, full[c.addr]);
      assert Answer(calls, cooldown, i);
    }
  }

  /** Calls for one address that were all answered yes, in order. */
  ghost predicate Accepted(calls: seq<Call>, cooldown: int, addr: string, hits: seq<nat>) {
    && (forall k :: 0 <= k < |hits| ==>
          hits[k] < |calls| && calls[hits[k]].addr == addr && Answer(calls, cooldown, hits[k]))
    && (forall k :: 0 < k < |hits| ==> hits[k - 1] < hits[k])
  }

  lemma HitsAreApart(calls: seq<Call>, cooldown: int, i: nat, j: nat)
    requires Timely(calls) && i < j < |calls| && calls[i].addr == calls[j].addr
    requires Answer(calls, cooldown, i) && Answer(calls, cooldown, j)
    ensures calls[j].now - calls[i].now > cooldown
  {
    AnswerIffCooledDown(calls, cooldown, j);
  }

  /** A rate bound: k yes answers for one address span at least k - 1 times more than the cooldown. */
  lemma {:induction false} JoinsAreRateLimited(calls: seq<Call>, cooldown: int, addr: string, hits: seq<nat>)
    requires Timely(calls) && Accepted(calls, cooldown, addr, hits) && hits != []
    ensures (|hits| - 1) * (cooldown + 1) <= calls[hits[|hits| - 1]].now - calls[hits[0]].now
  {
    var n := |hits| - 1;
    if n > 0 {
      var init := hits[..n];
      assert forall k :: 0 <= k < n ==> init[k] == hits[k];
      JoinsAreRateLimited(calls, cooldown, addr, init);
      HitsAreApart(calls, cooldown, hits[n - 1], hits[n]);
      OneGapMore(n, cooldown + 1);
    }
  }

  lemma OneGapMore(n: nat, gap: int)
    requires n > 0
    ensures n * gap == (n - 1) * gap + gap
  {
  }
}
