/** Vector clocks: the pointwise order they carry, and the mutable class whose
    loops decide and build it. */
module VectorClocks {

  type NodeId = string

  const MAX_INT64: int := 0x7FFF_FFFF_FFFF_FFFF

  /** A Go int64. */
  type Int64 = v: int | -MAX_INT64 - 1 <= v <= MAX_INT64

  /** The contents of a vector clock. A nil Go map and an empty one behave alike here. */
  type Clock = map<NodeId, Int64>

  /** One more than v, wrapping around as int64 does. */
  function Succ64(v: Int64): Int64 {
    if v == MAX_INT64 then -MAX_INT64 - 1 else v + 1
  }

  /** A missing key reads as zero, which is what vc[id]++ starts from. */
  function Bump(c: Clock, id: NodeId): Clock {
    c[id := Succ64(if id in c then c[id] else 0)]
  }

  /** Clock a is ahead of b at id: a missing entry is below every present one, even zero. */
  predicate AheadAt(a: Clock, b: Clock, id: NodeId) {
    id in a && (id !in b || a[id] > b[id])
  }

  predicate Exceeds(a: Clock, b: Clock) {
    exists id :: id in a && AheadAt(a, b, id)
  }

  /** The answer of VectorClock.Compare, free of any iteration order. */
  function CompareClocks(a: Clock, b: Clock): int {
    if Exceeds(a, b) && !Exceeds(b, a) then 1
    else if Exceeds(b, a) && !Exceeds(a, b) then -1
    else 0
  }

  function Join(a: Clock, b: Clock): Clock {
    map id | id in a.Keys + b.Keys ::
      if id in a && (id !in b || b[id] <= a[id]) then a[id] else b[id]
  }

  // ---- The order itself, stated independently of Compare ----

  ghost predicate Leq(a: Clock, b: Clock) {
    forall id :: id in a ==> id in b && a[id] <= b[id]
  }

  ghost predicate Less(a: Clock, b: Clock) {
    Leq(a, b) && a != b
  }

  ghost predicate Concurrent(a: Clock, b: Clock) {
    !Leq(a, b) && !Leq(b, a)
  }

  lemma LeqIsAPartialOrder(a: Clock, b: Clock, c: Clock)
    ensures Leq(a, a)
    ensures Leq(a, b) && Leq(b, a) ==> a == b
    ensures Leq(a, b) && Leq(b, c) ==> Leq(a, c)
    ensures Less(a, b) && Less(b, c) ==> Less(a, c)
  {
    if Leq(a, b) && Leq(b, a) {
      assert a.Keys == b.Keys;
    }
  }

  lemma ExceedsIsNotLeq(a: Clock, b: Clock)
    ensures Exceeds(a, b) <==> !Leq(a, b)
  {
    if !Leq(a, b) {
      var id :| id in a && !(id in b && a[id] <= b[id]);
      assert AheadAt(a, b, id);
    }
  }

  /** Compare decides the pointwise order exactly. */
  lemma CompareDecidesTheOrder(a: Clock, b: Clock)
    ensures CompareClocks(a, b) == 1 <==> Less(b, a)
    ensures CompareClocks(a, b) == -1 <==> Less(a, b)
    ensures CompareClocks(a, b) == 0 <==> a == b || Concurrent(a, b)
    ensures CompareClocks(a, b) == -CompareClocks(b, a)
  {
    ExceedsIsNotLeq(a, b);
    ExceedsIsNotLeq(b, a);
    LeqIsAPartialOrder(a, b, a);
  }

  lemma JoinIsLeastUpperBound(a: Clock, b: Clock, c: Clock)
    ensures Leq(a, Join(a, b)) && Leq(b, Join(a, b))
    ensures Leq(Join(a, b), c) <==> Leq(a, c) && Leq(b, c)
  {
    var j := Join(a, b);
    assert forall id :: id in a || id in b <==> id in j;
    if Leq(j, c) {
      forall id | id in a ensures id in c && a[id] <= c[id] { assert id in j; }
      forall id | id in b ensures id in c && b[id] <= c[id] { assert id in j; }
    }
  }

  /** Whatever order entries and clocks are joined in, the result is the same. */
  lemma JoinIsASemilattice(a: Clock, b: Clock, c: Clock)
    ensures Join(a, b) == Join(b, a)
    ensures Join(Join(a, b), c) == Join(a, Join(b, c))
    ensures Join(a, a) == a
  {
    JoinAssociates(a, b, c);
    assert Join(a, b).Keys == Join(b, a).Keys;
    assert Join(a, a).Keys == a.Keys;
  }

  lemma JoinAssociates(a: Clock, b: Clock, c: Clock)
    ensures Join(Join(a, b), c) == Join(a, Join(b, c))
  {
    var l, r := Join(Join(a, b), c), Join(a, Join(b, c));
    assert l.Keys == r.Keys;
    forall id | id in l ensures l[id] == r[id] {
    }
  }

  /** A join adds nothing exactly when the other clock was already covered. */
  lemma JoinAbsorbs(a: Clock, b: Clock)
    ensures Join(a, b) == a <==> Leq(b, a)
  {
    JoinIsLeastUpperBound(a, b, a);
    LeqIsAPartialOrder(a, Join(a, b), a);
  }

  /** Increment moves a clock strictly up exactly when the entry is absent or below the
      int64 maximum; at the maximum it wraps around and moves the clock down. */
  lemma BumpClimbsIffNoWrap(c: Clock, id: NodeId)
    ensures Less(c, Bump(c, id)) <==> id !in c || c[id] < 9_223_372_036_854_775_807
    ensures id !in c ==> Bump(c, id) == c[id := 1]
    ensures id in c && c[id] == 9_223_372_036_854_775_807 ==> CompareClocks(Bump(c, id), c) == -1
  {
    var d := Bump(c, id);
    assert d[id] == Succ64(if id in c then c[id] else 0);
    CompareDecidesTheOrder(d, c);
    if id in c && c[id] == MAX_INT64 {
      assert d[id] != c[id];
      assert Less(d, c);
      assert !Leq(c, d);
    }
  }

  /** The Go map behind a clock; its methods update it in place. */
  class VectorClock {
    var entries: Clock

    constructor (c: Clock)
      ensures entries == c
    {
      entries := c;
    }

    method Increment(nodeId: NodeId)
      modifies this
      ensures entries == Bump(old(entries), nodeId)
    {
      var version: Int64 := if nodeId in entries then entries[nodeId] else 0;
      version := Succ64(version);
      entries := entries[nodeId := version];
    }

    /** Both loops visit the keys in an arbitrary order. */
    method Compare(other: VectorClock) returns (c: int)
      ensures c == CompareClocks(entries, other.entries)
    {
      var localGreater, remoteGreater := false, false;
      var rest := entries.Keys;
      while rest != {}
        invariant rest <= entries.Keys
        invariant localGreater <==> exists id :: id in entries.Keys - rest && AheadAt(entries, other.entries, id)
        invariant remoteGreater <==>
                  exists id :: id in entries.Keys - rest && id in other.entries && AheadAt(other.entries, entries, id)
      {
        var id :| id in rest;
        rest := rest - {id};
        if id !in other.entries || entries[id] > other.entries[id] {
          assert AheadAt(entries, other.entries, id);
          localGreater := true;
        } else if entries[id] < other.entries[id] {
          assert AheadAt(other.entries, entries, id);
          remoteGreater := true;
        }
      }
      ghost var first := remoteGreater;
      var more := other.entries.Keys;
      while more != {}
        invariant more <= other.entries.Keys
        invariant remoteGreater <==>
                  first || exists id :: id in other.entries.Keys - more && id !in entries && AheadAt(other.entries, entries, id)
      {
        var id :| id in more;
        more := more - {id};
        if id !in entries {
          assert AheadAt(other.entries, entries, id);
          remoteGreater := true;
        }
      }
      assert localGreater <==> Exceeds(entries, other.entries);
      assert remoteGreater <==> Exceeds(other.entries, entries);
      if localGreater && !remoteGreater {
        return 1;
      }
      if remoteGreater && !localGreater {
        return -1;
      }
      return 0;
    }

    /** Takes the maximum of each entry, one key of other at a time. */
    method Merge(other: Clock)
      modifies this
      ensures entries == Join(old(entries), other)
    {
      ghost var before := entries;
      var rest := other.Keys;
      while rest != {}
        invariant rest <= other.Keys
        invariant entries.Keys == before.Keys + (other.Keys - rest)
        invariant forall id :: id in entries ==>
                    entries[id] == if id in rest then before[id] else Join(before, other)[id]
      {
        var id :| id in rest;
        rest := rest - {id};
        if id !in entries || other[id] > entries[id] {
          entries := entries[id := other[id]];
        }
      }
      assert entries.Keys == Join(before, other).Keys;
    }
  }
}
