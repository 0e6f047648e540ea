/** `mergeNeighbors` of internal/rangeindex/index.go as functions on the ordered tree, and why
    they restore canonical form without changing the map. */
module Merging {
  import opened Segments

  /** Two entries are replaced by one. */
  function Replace<V>(t: seq<Segment<V>>, a: Segment<V>, b: Segment<V>, ab: Segment<V>): seq<Segment<V>> {
    TreeInsert(TreeDelete(TreeDelete(t, a.lo), b.lo), ab)
  }

  predicate Mergeable<V(==)>(x: Segment<V>, y: Segment<V>) { x.hi == y.lo && x.value == y.value }

  /** The first entry a descent from key visits, or -1. */
  function DescendFrom<V>(t: seq<Segment<V>>, key: int): (i: int)
    ensures -1 <= i < |t|
  {
    Rank(t, key + 1) - 1
  }

  /** The entry before seg in a descent from seg.lo that skips seg itself, or -1. */
  function LeftOf<V>(t: seq<Segment<V>>, seg: Segment<V>): (i: int)
    ensures -1 <= i < |t|
  {
    var i := DescendFrom(t, seg.lo);
    if i >= 0 && t[i].lo == seg.lo then i - 1 else i
  }

  function MergeLeft<V(==)>(t: seq<Segment<V>>, seg: Segment<V>): (seq<Segment<V>>, Segment<V>) {
    var i := LeftOf(t, seg);
    if i >= 0 && Mergeable(t[i], seg) then
      var ab := Segment(t[i].lo, seg.hi, seg.value);
      (Replace(t, t[i], seg, ab), ab)
    else
      (t, seg)
  }

  function MergeRight<V(==)>(t: seq<Segment<V>>, seg: Segment<V>): (seq<Segment<V>>, Segment<V>) {
    var i := Rank(t, seg.hi);
    if i < |t| && Mergeable(seg, t[i]) then
      var ab := Segment(seg.lo, t[i].hi, seg.value);
      (Replace(t, t[i], seg, ab), ab)
    else
      (t, seg)
  }

  function Merged<V(==)>(t: seq<Segment<V>>, seg: Segment<V>): seq<Segment<V>> {
    var (u, s1) := MergeLeft(t, seg);
    MergeRight(u, s1).0
  }

  // ---------------------------------------------------------------------------

  lemma ReplaceMembers<V>(t: seq<Segment<V>>, a: Segment<V>, b: Segment<V>, ab: Segment<V>)
    requires Sorted(t)
    ensures Sorted(Replace(t, a, b, ab))
    ensures forall x :: x in Replace(t, a, b, ab) <==> x == ab || (x in t && x.lo !in {a.lo, b.lo, ab.lo})
  {
    hide TreeDelete, TreeInsert, Sorted;
    DeleteMembers(t, a.lo);
    DeleteMembers(TreeDelete(t, a.lo), b.lo);
    InsertMembers(TreeDelete(TreeDelete(t, a.lo), b.lo), ab);
  }

  lemma SameLoSame<V>(t: seq<Segment<V>>, x: Segment<V>, y: Segment<V>)
    requires Sorted(t) && x in t && y in t && x.lo == y.lo
    ensures x == y
  {
    var i :| 0 <= i < |t| && t[i] == x;
    var j :| 0 <= j < |t| && t[j] == y;
  }

  /** u is t with the touching, equal-valued a and b fused into ab. */
  ghost predicate Fused<V(!new)>(t: seq<Segment<V>>, u: seq<Segment<V>>, a: Segment<V>, b: Segment<V>, ab: Segment<V>) {
    && a in t && b in t && a.hi == b.lo && a.value == b.value && ab == Segment(a.lo, b.hi, a.value)
    && Sorted(u)
    && forall x :: x in u <==> x == ab || (x in t && x != a && x != b)
  }

  lemma ReplaceFuses<V(!new)>(t: seq<Segment<V>>, u: seq<Segment<V>>, a: Segment<V>, b: Segment<V>, ab: Segment<V>, minKey: int, maxKey: int)
    requires Disjoint(t, minKey, maxKey) && a in t && b in t && a.hi == b.lo && a.value == b.value
    requires ab == Segment(a.lo, b.hi, a.value)
    requires u == Replace(t, a, b, ab) || u == Replace(t, b, a, ab)
    ensures Fused(t, u, a, b, ab)
  {
    ReplaceMembers(t, a, b, ab);
    ReplaceMembers(t, b, a, ab);
    hide Replace;
    forall x ensures x in u <==> x == ab || (x in t && x != a && x != b) {
      if x in t && x.lo == a.lo { SameLoSame(t, x, a); }
      if x in t && x.lo == b.lo { SameLoSame(t, x, b); }
    }
  }

  lemma FusedDisjoint<V(!new)>(t: seq<Segment<V>>, u: seq<Segment<V>>, a: Segment<V>, b: Segment<V>, ab: Segment<V>, minKey: int, maxKey: int)
    requires Disjoint(t, minKey, maxKey) && Fused(t, u, a, b, ab)
    ensures Disjoint(u, minKey, maxKey)
  {
    hide Sorted;
    forall x, y | x in u && y in u && x.lo < y.lo ensures Apart(x, y) {
      if x == ab && y in t && y != a && y != b {
        if y.lo == b.lo { SameLo(t, minKey, maxKey, y, b, b.lo); }
        assert Apart(a, y);
      } else if y == ab && x in t && x != a && x != b {
        assert Apart(x, a);
      }
    }
  }

  lemma FusedSameMap<V(!new)>(t: seq<Segment<V>>, u: seq<Segment<V>>, a: Segment<V>, b: Segment<V>, ab: Segment<V>, minKey: int, maxKey: int)
    requires Disjoint(t, minKey, maxKey) && Disjoint(u, minKey, maxKey) && Fused(t, u, a, b, ab)
    ensures SameMap(t, u)
  {
    forall k ensures Lookup(t, k) == Lookup(u, k) {
      hide Lookup, Disjoint;
      if x :| x in t && Covers(x, k) {
        LookupIn(t, minKey, maxKey, k, x);
        LookupIn(u, minKey, maxKey, k, if x == a || x == b then ab else x);
      } else {
        assert !Covers(a, k) && !Covers(b, k);
        LookupNone(t, k);
        LookupNone(u, k);
      }
    }
  }

  /** seg is the only segment that may still touch an equal-valued neighbour. */
  ghost predicate Pending<V>(t: seq<Segment<V>>, seg: Segment<V>, minKey: int, maxKey: int) {
    Disjoint(t, minKey, maxKey) && seg in t && CanonicalBut(t, seg)
  }

  ghost predicate LeftDone<V>(t: seq<Segment<V>>, seg: Segment<V>) {
    forall x :: x in t && x.lo < seg.lo ==> Unmergeable(x, seg)
  }

  ghost predicate RightDone<V>(t: seq<Segment<V>>, seg: Segment<V>) {
    forall x :: x in t && seg.lo < x.lo ==> Unmergeable(seg, x)
  }

  lemma BothDone<V>(t: seq<Segment<V>>, seg: Segment<V>, minKey: int, maxKey: int)
    requires Pending(t, seg, minKey, maxKey) && LeftDone(t, seg) && RightDone(t, seg)
    ensures Canonical(t, minKey, maxKey)
  {
  }

  /** Fusing seg with a mergeable neighbour: that side is done, the other as far as it was. */
  lemma FuseStep<V(!new)>(t: seq<Segment<V>>, u: seq<Segment<V>>, a: Segment<V>, b: Segment<V>, ab: Segment<V>,
                          seg: Segment<V>, minKey: int, maxKey: int)
    requires Pending(t, seg, minKey, maxKey) && Fused(t, u, a, b, ab) && (seg == a || seg == b)
    ensures Pending(u, ab, minKey, maxKey) && SameMap(t, u)
    ensures (seg == b || LeftDone(t, seg)) ==> LeftDone(u, ab)
    ensures (seg == a || RightDone(t, seg)) ==> RightDone(u, ab)
  {
    FusedDisjoint(t, u, a, b, ab, minKey, maxKey);
    FusedSameMap(t, u, a, b, ab, minKey, maxKey);
    hide Sorted, SameMap;
    forall x | x in u && x.lo < ab.lo && (seg == b || LeftDone(t, seg)) ensures Unmergeable(x, ab) {
      assert Unmergeable(x, a);
    }
    forall x | x in u && ab.lo < x.lo && (seg == a || RightDone(t, seg)) ensures Unmergeable(ab, x) {
      if x.lo == b.lo { SameLo(t, minKey, maxKey, x, b, b.lo); }
      assert Unmergeable(b, x);
    }
  }

  /** The descent finds the nearest entry below seg. */
  lemma LeftOfIs<V>(t: seq<Segment<V>>, seg: Segment<V>, minKey: int, maxKey: int)
    requires Disjoint(t, minKey, maxKey) && seg in t
    ensures var i := LeftOf(t, seg);
      && (i >= 0 ==> t[i].lo < seg.lo)
      && forall x :: x in t && x.lo < seg.lo && x.hi == seg.lo ==> i >= 0 && x == t[i]
  {
    RankSplits(t, seg.lo + 1);
    var i := LeftOf(t, seg);
    var p :| 0 <= p < |t| && t[p] == seg;
    var r := Rank(t, seg.lo + 1);
    assert r == p + 1;
    assert i == p - 1;
    forall x | x in t && x.lo < seg.lo && x.hi == seg.lo ensures i >= 0 && x == t[i] {
      var j :| 0 <= j < |t| && t[j] == x;
      assert 0 <= i && t[i] in t;
    }
  }

  lemma MergeLeftOk<V(!new)>(t: seq<Segment<V>>, seg: Segment<V>, minKey: int, maxKey: int)
    requires Pending(t, seg, minKey, maxKey)
    ensures var (u, s1) := MergeLeft(t, seg);
      Pending(u, s1, minKey, maxKey) && LeftDone(u, s1) && SameMap(t, u)
  {
    LeftOfIs(t, seg, minKey, maxKey);
    var i := LeftOf(t, seg);
    hide LeftOf, Sorted;
    if i >= 0 && Mergeable(t[i], seg) {
      var ab := Segment(t[i].lo, seg.hi, seg.value);
      var u := Replace(t, t[i], seg, ab);
      hide Disjoint, CanonicalBut, LeftDone, SameMap, Replace, Fused;
      ReplaceFuses(t, u, t[i], seg, ab, minKey, maxKey);
      FuseStep(t, u, t[i], seg, ab, seg, minKey, maxKey);
    }
  }

  lemma MergeRightOk<V(!new)>(t: seq<Segment<V>>, seg: Segment<V>, minKey: int, maxKey: int)
    requires Pending(t, seg, minKey, maxKey) && LeftDone(t, seg)
    ensures Canonical(MergeRight(t, seg).0, minKey, maxKey) && SameMap(t, MergeRight(t, seg).0)
  {
    RankSplits(t, seg.hi);
    var i := Rank(t, seg.hi);
    if i < |t| && Mergeable(seg, t[i]) {
      var ab := Segment(seg.lo, t[i].hi, seg.value);
      var u := Replace(t, t[i], seg, ab);
      hide Rank, Sorted, Disjoint, CanonicalBut, LeftDone, RightDone, SameMap, Replace, Fused;
      ReplaceFuses(t, u, seg, t[i], ab, minKey, maxKey);
      FuseStep(t, u, seg, t[i], ab, seg, minKey, maxKey);
      BothDone(u, ab, minKey, maxKey);
    } else {
      forall x | x in t && seg.lo < x.lo ensures Unmergeable(seg, x) {
        var j :| 0 <= j < |t| && t[j] == x;
      }
      BothDone(t, seg, minKey, maxKey);
    }
  }

  /** Merging restores canonical form and does not change the map. */
  lemma MergedOk<V(!new)>(t: seq<Segment<V>>, seg: Segment<V>, minKey: int, maxKey: int)
    requires Pending(t, seg, minKey, maxKey)
    ensures Canonical(Merged(t, seg), minKey, maxKey) && SameMap(t, Merged(t, seg))
  {
    hide MergeLeft, MergeRight, Pending, LeftDone, Canonical;
    MergeLeftOk(t, seg, minKey, maxKey);
    var (u, s1) := MergeLeft(t, seg);
    MergeRightOk(u, s1, minKey, maxKey);
  }
}
