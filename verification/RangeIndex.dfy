/** The index of internal/rangeindex/index.go: point operations on merged segments, proved to
    refine a plain map and to keep the segments in their unique shortest form. */
module RangeIndex {
  import opened Seqs
  import opened Segments
  import opened Repaint
  import opened Merging

  function InsertOpt<V>(t: seq<Segment<V>>, o: Option<Segment<V>>): seq<Segment<V>> {
    if o.Some? then TreeInsert(t, o.value) else t
  }

  function First<V>(over: seq<Segment<V>>, lo: int): Option<Segment<V>> {
    if over != [] && over[0].lo < lo then Some(over[0]) else None
  }

  function Last<V>(over: seq<Segment<V>>, hi: int): Option<Segment<V>> {
    if over != [] && over[|over| - 1].hi > hi then Some(over[|over| - 1]) else None
  }

  /** over holds the segments of t that overlap [lo, hi), in order. */
  ghost predicate OverlapsOf<V(!new)>(t: seq<Segment<V>>, over: seq<Segment<V>>, lo: int, hi: int) {
    Sorted(over) && forall x :: x in over <==> x in t && Overlaps(x, lo, hi)
  }

  lemma RunOverlaps<V(!new)>(t: seq<Segment<V>>, minKey: int, maxKey: int, lo: int, hi: int, a: nat, b: nat)
    requires Disjoint(t, minKey, maxKey) && lo < hi && a <= b <= |t|
    requires forall i :: 0 <= i < a ==> t[i].hi <= lo
    requires forall i :: a <= i < |t| ==> t[i].hi > lo
    requires forall i :: a <= i < b ==> t[i].lo < hi
    requires forall i :: b <= i < |t| ==> t[i].lo >= hi
    ensures OverlapsOf(t, t[a..b], lo, hi)
  {
    forall x ensures x in t[a..b] <==> x in t && Overlaps(x, lo, hi) {
      if x in t && Overlaps(x, lo, hi) {
        var i :| 0 <= i < |t| && t[i] == x;
        assert t[a..b][i - a] == x;
      }
    }
  }

  lemma StraddlersOf<V(!new)>(t: seq<Segment<V>>, over: seq<Segment<V>>, minKey: int, maxKey: int, lo: int, hi: int)
    requires Disjoint(t, minKey, maxKey) && lo < hi && OverlapsOf(t, over, lo, hi)
    ensures Straddler(t, lo, First(over, lo)) && Straddler(t, hi, Last(over, hi))
  {
    assert over != [] ==> over[0] in over && over[|over| - 1] in over;
    forall x | x in t && x.lo < lo < x.hi ensures First(over, lo) == Some(x) {
      StraddlesFirst(t, over, minKey, maxKey, lo, hi, x);
    }
    forall x | x in t && x.lo < hi < x.hi ensures Last(over, hi) == Some(x) {
      StraddlesLast(t, over, minKey, maxKey, lo, hi, x);
    }
  }

  lemma StraddlesFirst<V(!new)>(t: seq<Segment<V>>, over: seq<Segment<V>>, minKey: int, maxKey: int, lo: int, hi: int, x: Segment<V>)
    requires Disjoint(t, minKey, maxKey) && lo < hi && OverlapsOf(t, over, lo, hi)
    requires x in t && x.lo < lo < x.hi
    ensures First(over, lo) == Some(x)
  {
    var i :| 0 <= i < |over| && over[i] == x;
    assert over[0] in over;
  }

  lemma StraddlesLast<V(!new)>(t: seq<Segment<V>>, over: seq<Segment<V>>, minKey: int, maxKey: int, lo: int, hi: int, x: Segment<V>)
    requires Disjoint(t, minKey, maxKey) && lo < hi && OverlapsOf(t, over, lo, hi)
    requires x in t && x.lo < hi < x.hi
    ensures Last(over, hi) == Some(x)
  {
    var i :| 0 <= i < |over| && over[i] == x;
    assert over[|over| - 1] in over;
  }

  lemma InsertFresh<V(!new)>(t: seq<Segment<V>>, o: Option<Segment<V>>)
    requires Sorted(t)
    requires o.Some? ==> forall x :: x in t ==> x.lo != o.value.lo
    ensures Sorted(InsertOpt(t, o))
    ensures forall x :: x in InsertOpt(t, o) <==> x in t || Some(x) == o
  {
    if o.Some? {
      InsertMembers(t, o.value);
    }
  }

  /** Deleting what overlaps and inserting trims and the painted segment paints [lo, hi). */
  lemma CutByInserts<V(!new)>(s: seq<Segment<V>>, t: seq<Segment<V>>, minKey: int, maxKey: int, lo: int, hi: int, v: Option<V>,
                              left: Option<Segment<V>>, right: Option<Segment<V>>)
    requires Disjoint(s, minKey, maxKey) && lo < hi && Sorted(t)
    requires Straddler(s, lo, left) && Straddler(s, hi, right)
    requires forall x :: x in t <==> x in s && !Overlaps(x, lo, hi)
    ensures Cut(s, InsertOpt(InsertOpt(InsertOpt(t, LeftTrim(left, lo, v)), RightTrim(right, hi, v)), Painted(left, right, lo, hi, v)),
                lo, hi, v, left, right)
  {
    hide *;
    var lt, rt, p := LeftTrim(left, lo, v), RightTrim(right, hi, v), Painted(left, right, lo, hi, v);
    TrimsFresh(s, lo, hi, v, left, right);
    forall x | x in t
      ensures (lt.Some? ==> x.lo != lt.value.lo) && (rt.Some? ==> x.lo != rt.value.lo) && (p.Some? ==> x.lo != p.value.lo)
    {
      KeptFresh(s, x, minKey, maxKey, lo, hi, v, left, right);
    }
    InsertThree(t, lt, rt, p);
    CutIntro(s, t, InsertOpt(InsertOpt(InsertOpt(t, lt), rt), p), lo, hi, v, left, right);
  }

  lemma CutIntro<V(!new)>(s: seq<Segment<V>>, t: seq<Segment<V>>, u: seq<Segment<V>>, lo: int, hi: int, v: Option<V>,
                          left: Option<Segment<V>>, right: Option<Segment<V>>)
    requires Sorted(u) && Straddler(s, lo, left) && Straddler(s, hi, right)
    requires forall x :: x in t <==> x in s && !Overlaps(x, lo, hi)
    requires forall x :: x in u <==>
      (x in t || Some(x) == LeftTrim(left, lo, v) || Some(x) == RightTrim(right, hi, v) || Some(x) == Painted(left, right, lo, hi, v))
    ensures Cut(s, u, lo, hi, v, left, right)
  {
    hide Sorted, Straddler, LeftTrim, RightTrim, Painted, Overlaps;
  }

  lemma KeptFresh<V>(s: seq<Segment<V>>, x: Segment<V>, minKey: int, maxKey: int, lo: int, hi: int, v: Option<V>,
                     left: Option<Segment<V>>, right: Option<Segment<V>>)
    requires Disjoint(s, minKey, maxKey) && lo < hi && x in s && !Overlaps(x, lo, hi)
    requires Straddler(s, lo, left) && Straddler(s, hi, right)
    ensures var lt, rt, p := LeftTrim(left, lo, v), RightTrim(right, hi, v), Painted(left, right, lo, hi, v);
      (lt.Some? ==> x.lo != lt.value.lo) && (rt.Some? ==> x.lo != rt.value.lo) && (p.Some? ==> x.lo != p.value.lo)
  {
    KeptClear(s, x, minKey, maxKey, lo, hi, left, right);
    assert x.lo < x.hi;
    hide Disjoint;
  }

  lemma TrimsFresh<V>(s: seq<Segment<V>>, lo: int, hi: int, v: Option<V>, left: Option<Segment<V>>, right: Option<Segment<V>>)
    requires lo < hi && Straddler(s, lo, left) && Straddler(s, hi, right)
    ensures var lt, rt, p := LeftTrim(left, lo, v), RightTrim(right, hi, v), Painted(left, right, lo, hi, v);
      && (lt.Some? && rt.Some? ==> lt.value.lo != rt.value.lo)
      && (lt.Some? && p.Some? ==> lt.value.lo != p.value.lo)
      && (rt.Some? && p.Some? ==> rt.value.lo != p.value.lo)
  {
  }

  lemma InsertThree<V(!new)>(t: seq<Segment<V>>, a: Option<Segment<V>>, b: Option<Segment<V>>, c: Option<Segment<V>>)
    requires Sorted(t)
    requires forall x :: x in t ==>
      (a.Some? ==> x.lo != a.value.lo) && (b.Some? ==> x.lo != b.value.lo) && (c.Some? ==> x.lo != c.value.lo)
    requires a.Some? && b.Some? ==> a.value.lo != b.value.lo
    requires a.Some? && c.Some? ==> a.value.lo != c.value.lo
    requires b.Some? && c.Some? ==> b.value.lo != c.value.lo
    ensures var u := InsertOpt(InsertOpt(InsertOpt(t, a), b), c);
      Sorted(u) && forall x :: x in u <==> x in t || Some(x) == a || Some(x) == b || Some(x) == c
  {
    hide InsertOpt, Sorted;
    InsertFresh(t, a);
    InsertFresh(InsertOpt(t, a), b);
    InsertFresh(InsertOpt(InsertOpt(t, a), b), c);
  }

  class Index<V(==,!new)> {
    var tree: seq<Segment<V>>
    const minKey: int
    const maxKey: int

    ghost predicate Valid()
      reads this
    {
      minKey < maxKey && Canonical(tree, minKey, maxKey)
    }

    constructor (minKey: int, maxKey: int)
      requires minKey < maxKey
      ensures Valid() && tree == [] && this.minKey == minKey && this.maxKey == maxKey
    {
      tree := [];
      this.minKey := minKey;
      this.maxKey := maxKey;
    }

    /** key+1 in the integer type K, which wraps at its maximum. */
    function Succ(key: int): int {
      if key == maxKey then minKey else key + 1
    }

    /** `findCovering`: the segment a descent from key meets first, if it reaches past key. */
    function FindCovering(key: int): Option<Segment<V>>
      reads this
    {
      var i := DescendFrom(tree, key);
      if i >= 0 && key < tree[i].hi then Some(tree[i]) else None
    }

    lemma CoveringIsLookup(key: int)
      requires Valid()
      ensures Lookup(tree, key) == if FindCovering(key).Some? then Some(FindCovering(key).value.value) else None
    {
      hide DescendFrom, Lookup, Valid, Disjoint, Canonical, Sorted;
      IsCanonical();
      DescentAt(tree, minKey, maxKey, key);
      var i := DescendFrom(tree, key);
      if i >= 0 && key < tree[i].hi {
        LookupIn(tree, minKey, maxKey, key, tree[i]);
      } else {
        forall x | x in tree ensures !Covers(x, key) {
          var j :| 0 <= j < |tree| && tree[j] == x;
        }
        LookupNone(tree, key);
      }
    }

    /** `Get`, with its found flag. */
    method Get(key: int) returns (v: Option<V>)
      requires Valid()
      ensures v == Lookup(tree, key)
    {
      CoveringIsLookup(key);
      var seg := FindCovering(key);
      v := if seg.Some? then Some(seg.value.value) else None;
    }

    lemma IsCanonical()
      requires Valid()
      ensures Canonical(tree, minKey, maxKey) && Disjoint(tree, minKey, maxKey) && Sorted(tree) && minKey < maxKey
    {
    }

    /** `findOverlapping`: one step down from lo, then up until hi. */
    method FindOverlapping(lo: int, hi: int) returns (out: seq<Segment<V>>)
      requires Valid() && lo < hi
      ensures OverlapsOf(tree, out, lo, hi)
    {
      hide *;
      var t := tree;
      IsCanonical();
      out := [];
      var startLo := lo;
      var d := DescendFrom(t, lo);
      if d >= 0 && t[d].hi > lo {
        out := [t[d]];
        startLo := t[d].lo;
      }
      ghost var taken := out;
      var i := Rank(t, startLo);
      ghost var a := i;
      RunStart(t, minKey, maxKey, lo, hi, a, taken);
      out := Ascend(t, lo, hi, i, taken, out);
      ghost var b: nat :| Collected(t, lo, hi, a, b, taken, out) && b <= |t| && (b < |t| ==> t[b].lo >= hi);
      RunEnd(t, minKey, maxKey, lo, hi, a, b, taken, out);
    }

    /** Deletes every collected segment from the tree. */
    method RemoveAll(over: seq<Segment<V>>, lo: int, hi: int)
      requires Sorted(tree) && OverlapsOf(tree, over, lo, hi)
      modifies this
      ensures Sorted(tree)
      ensures forall x :: x in tree <==> x in old(tree) && !Overlaps(x, lo, hi)
    {
      ghost var t := tree;
      for i := 0 to |over|
        invariant Sorted(tree) && forall x :: x in tree <==> x in t && x !in over[..i]
      {
        DeleteOne(t, tree, over, i);
        tree := TreeDelete(tree, over[i].lo);
      }
      assert over[..|over|] == over;
    }

    /** `mergeNeighbors`: first with the entry before seg, then with the one at its end. */
    method MergeNeighbors(seg: Segment<V>)
      modifies this
      ensures tree == Merged(old(tree), seg)
    {
      var merged := seg;
      var i := LeftOf(tree, seg);
      if i >= 0 {
        var left := tree[i];
        if left.hi == seg.lo && left.value == seg.value {
          merged := Segment(left.lo, seg.hi, seg.value);
          tree := TreeInsert(TreeDelete(TreeDelete(tree, left.lo), seg.lo), merged);
        }
      }
      var j := Rank(tree, merged.hi);
      if j < |tree| {
        var right := tree[j];
        if right.lo == merged.hi && right.value == merged.value {
          tree := TreeInsert(TreeDelete(TreeDelete(tree, right.lo), merged.lo), Segment(merged.lo, right.hi, merged.value));
        }
      }
    }

    /** `internalSet`: paints [lo, hi) with value. */
    method InternalSet(lo: int, hi: int, value: V)
      requires Valid() && minKey <= lo && hi <= maxKey
      modifies this
      ensures Valid()
      ensures if lo >= hi then tree == old(tree) else PaintedMap(old(tree), tree, lo, hi, Some(value))
    {
      if lo >= hi {
        return;
      }
      hide *;
      ghost var s := tree;
      IsCanonical();
      var overlapping := FindOverlapping(lo, hi);
      var leftTrim, rightTrim, newSeg := Trims(overlapping, lo, hi, value);
      RemoveAll(overlapping, lo, hi);
      SetCut(s, tree, minKey, maxKey, lo, hi, value, overlapping);
      tree := InsertOpt(tree, leftTrim);
      tree := InsertOpt(tree, rightTrim);
      tree := InsertOpt(tree, Some(newSeg));
      SetMerged(s, tree, minKey, maxKey, lo, hi, value, newSeg);
      MergeNeighbors(newSeg);
      Validated();
    }

    /** The trims and the painted segment, as `internalSet` computes them from the overlaps. */
    method Trims(overlapping: seq<Segment<V>>, lo: int, hi: int, value: V)
      returns (leftTrim: Option<Segment<V>>, rightTrim: Option<Segment<V>>, newSeg: Segment<V>)
      ensures leftTrim == LeftTrim(First(overlapping, lo), lo, Some(value))
      ensures rightTrim == RightTrim(Last(overlapping, hi), hi, Some(value))
      ensures Some(newSeg) == Painted(First(overlapping, lo), Last(overlapping, hi), lo, hi, Some(value))
    {
      leftTrim, rightTrim := None, None;
      var newLo, newHi := lo, hi;
      if |overlapping| > 0 {
        var first := overlapping[0];
        if first.lo < lo && first.value != value {
          leftTrim := Some(Segment(first.lo, lo, first.value));
        } else if first.lo < lo && first.value == value {
          newLo := first.lo;
        }
        var last := overlapping[|overlapping| - 1];
        if last.hi > hi && last.value != value {
          rightTrim := Some(Segment(hi, last.hi, last.value));
        } else if last.hi > hi && last.value == value {
          newHi := last.hi;
        }
      }
      newSeg := Segment(newLo, newHi, value);
    }

    /** `internalDelete`: clears [lo, hi). */
    method InternalDelete(lo: int, hi: int)
      requires Valid() && minKey <= lo && hi <= maxKey
      modifies this
      ensures Valid()
      ensures if lo >= hi then tree == old(tree) else PaintedMap(old(tree), tree, lo, hi, None)
    {
      if lo >= hi {
        return;
      }
      ghost var s := tree;
      IsCanonical();
      var overlapping := FindOverlapping(lo, hi);
      if |overlapping| == 0 {
        NothingToClear(s, minKey, maxKey, lo, hi);
        return;
      }
      var leftTrim, rightTrim: Option<Segment<V>> := None, None;
      var first := overlapping[0];
      if first.lo < lo {
        leftTrim := Some(Segment(first.lo, lo, first.value));
      }
      var last := overlapping[|overlapping| - 1];
      if last.hi > hi {
        rightTrim := Some(Segment(hi, last.hi, last.value));
      }
      assert leftTrim == LeftTrim(First(overlapping, lo), lo, None);
      assert rightTrim == RightTrim(Last(overlapping, hi), hi, None);
      hide *;
      RemoveAll(overlapping, lo, hi);
      DeleteCut(s, tree, minKey, maxKey, lo, hi, overlapping);
      tree := InsertOpt(tree, leftTrim);
      tree := InsertOpt(tree, rightTrim);
      Validated();
    }

    lemma Validated()
      requires minKey < maxKey && Canonical(tree, minKey, maxKey)
      ensures Valid()
    {
    }

    /** `Set`. It keeps its promise for every key but the greatest, for which it does nothing. */
    method Set(key: int, value: V)
      requires Valid() && minKey <= key <= maxKey
      modifies this
      ensures Valid()
      ensures key < maxKey ==> PaintedMap(old(tree), tree, key, key + 1, Some(value))
      ensures key == maxKey ==> tree == old(tree)
      ensures Lookup(tree, key) == Some(value) <==> key < maxKey
    {
      InternalSet(key, Succ(key), value);
      TopUncovered(tree, maxKey);
    }

    /** `Delete`. */
    method Delete(key: int)
      requires Valid() && minKey <= key <= maxKey
      modifies this
      ensures Valid()
      ensures PaintedMap(old(tree), tree, key, key + 1, None)
    {
      InternalDelete(key, Succ(key));
      TopUncovered(tree, maxKey);
    }

    /** `SetIfAbsent`. Its answer is always right; the key is set, and the index stays valid,
        for every key but the greatest. */
    method SetIfAbsent(key: int, value: V) returns (wasSet: bool)
      requires Valid() && minKey <= key <= maxKey
      modifies this
      ensures wasSet <==> old(Lookup(tree, key)) == None
      ensures !wasSet ==> tree == old(tree)
      ensures key < maxKey ==> Valid()
      ensures wasSet && key < maxKey ==> PaintedMap(old(tree), tree, key, key + 1, Some(value))
      ensures wasSet ==> (Lookup(tree, key) == Some(value) <==> key < maxKey)
      ensures key == maxKey ==> tree == TopSet(old(tree), minKey, maxKey, value)
    {
      hide *;
      CoveringIsLookup(key);
      IsCanonical();
      TopNotFound();
      ghost var s := tree;
      if FindCovering(key).Some? {
        return false;
      }
      var newSeg := Segment(key, Succ(key), value);
      SuccIs(key);
      tree := TreeInsert(tree, newSeg);
      if key < maxKey {
        FreshCut(s, minKey, maxKey, key, value);
        SetMerged(s, tree, minKey, maxKey, key, key + 1, value, newSeg);
      } else {
        TopLost(s, minKey, maxKey, value);
        TopSetIs(s, minKey, maxKey, value);
      }
      MergeNeighbors(newSeg);
      if key < maxKey {
        Validated();
        PaintedAt(s, tree, key, value);
      }
      return true;
    }

    lemma TopNotFound()
      requires Valid()
      ensures Lookup(tree, maxKey) == None
    {
      TopUncovered(tree, maxKey);
    }

    lemma SuccIs(key: int)
      ensures Succ(key) == if key == maxKey then minKey else key + 1
    {
    }

    /** `Clear`. */
    method Clear()
      requires minKey < maxKey
      modifies this
      ensures Valid() && tree == []
    {
      tree := [];
    }

    /** `Len`: no description of the map by segments is shorter. */
    method Len() returns (n: nat)
      requires Valid()
      ensures n == |tree|
      ensures forall t :: Describes(t, tree) ==> n <= |t|
    {
      n := |tree|;
      forall t | Describes(t, tree) ensures n <= |t| {
        CanonicalMinimal(tree, t, minKey, maxKey);
      }
    }

    /** `CollectRanges`: the one canonical list of the map the index stands for. */
    method CollectRanges() returns (out: seq<Segment<V>>)
      requires Valid()
      ensures Canonical(out, minKey, maxKey) && SameMap(out, tree)
      ensures forall t :: Canonical(t, minKey, maxKey) && SameMap(tree, t) ==> t == out
    {
      out := [];
      for i := 0 to |tree|
        invariant out == tree[..i]
      {
        out := out + [tree[i]];
      }
      forall t | Canonical(t, minKey, maxKey) && SameMap(tree, t) ensures t == out {
        CanonicalUnique(tree, t, minKey, maxKey);
      }
    }
  }

  /** What a segment with lo above hi does to the list: `SetIfAbsent` at the greatest key. */
  ghost function TopSet<V>(s: seq<Segment<V>>, minKey: int, maxKey: int, value: V): seq<Segment<V>> {
    var newSeg := Segment(maxKey, minKey, value);
    Merged(TreeInsert(s, newSeg), newSeg)
  }

  lemma TopSetIs<V>(s: seq<Segment<V>>, minKey: int, maxKey: int, value: V)
    ensures var newSeg := Segment(maxKey, minKey, value);
      TopSet(s, minKey, maxKey, value) == Merged(TreeInsert(s, newSeg), newSeg)
  {
  }

  /** No segment can cover the greatest key, since its end would be past it. */
  lemma TopUncovered<V>(s: seq<Segment<V>>, maxKey: int)
    requires forall x :: x in s ==> x.hi <= maxKey
    ensures Lookup(s, maxKey) == None
  {
    LookupNone(s, maxKey);
  }

  /** After `SetIfAbsent` at the greatest key, that key is still not found. */
  lemma TopLost<V(!new)>(s: seq<Segment<V>>, minKey: int, maxKey: int, value: V)
    requires Disjoint(s, minKey, maxKey) && minKey < maxKey
    ensures Lookup(TopSet(s, minKey, maxKey, value), maxKey) == None
  {
    var newSeg := Segment(maxKey, minKey, value);
    InsertMembers(s, newSeg);
    var t := TreeInsert(s, newSeg);
    MergeEnds(t, newSeg, maxKey);
    TopUncovered(Merged(t, newSeg), maxKey);
  }

  lemma MergeEnds<V(!new)>(t: seq<Segment<V>>, seg: Segment<V>, maxKey: int)
    requires Sorted(t) && (forall x :: x in t ==> x.hi <= maxKey) && seg.hi <= maxKey
    ensures forall x :: x in Merged(t, seg) ==> x.hi <= maxKey
  {
    hide Replace, LeftOf, Rank, Sorted;
    var i := LeftOf(t, seg);
    if i >= 0 {
      ReplaceMembers(t, t[i], seg, Segment(t[i].lo, seg.hi, seg.value));
      assert t[i] in t;
    }
    var (u, s1) := MergeLeft(t, seg);
    assert Sorted(u) && (forall x :: x in u ==> x.hi <= maxKey) && s1.hi <= maxKey;
    var j := Rank(u, s1.hi);
    if j < |u| {
      assert u[j] in u;
      ReplaceMembers(u, u[j], s1, Segment(s1.lo, u[j].hi, s1.value));
    }
  }

  lemma DeleteOne<V(!new)>(t: seq<Segment<V>>, u: seq<Segment<V>>, over: seq<Segment<V>>, i: nat)
    requires Sorted(t) && Sorted(u) && i < |over| && (forall x :: x in over ==> x in t)
    requires forall x :: x in u <==> x in t && x !in over[..i]
    ensures Sorted(TreeDelete(u, over[i].lo))
    ensures forall x :: x in TreeDelete(u, over[i].lo) <==> x in t && x !in over[..i + 1]
  {
    DeleteMembers(u, over[i].lo);
    assert over[i] in over;
    assert over[..i + 1] == over[..i] + [over[i]];
    forall x | x in t && x.lo == over[i].lo ensures x == over[i] {
      SameLoSame(t, x, over[i]);
    }
  }

  lemma PaintedAt<V>(s: seq<Segment<V>>, t: seq<Segment<V>>, key: int, value: V)
    requires PaintedMap(s, t, key, key + 1, Some(value))
    ensures Lookup(t, key) == Some(value)
  {
  }

  /** The tree before merging is s painted, and only the painted segment may need merging. */
  lemma SetCut<V(!new)>(s: seq<Segment<V>>, t: seq<Segment<V>>, minKey: int, maxKey: int, lo: int, hi: int, value: V, over: seq<Segment<V>>)
    requires Canonical(s, minKey, maxKey) && minKey <= lo < hi <= maxKey && OverlapsOf(s, over, lo, hi)
    requires Sorted(t) && forall x :: x in t <==> x in s && !Overlaps(x, lo, hi)
    ensures var left, right, v := First(over, lo), Last(over, hi), Some(value);
      var p := Painted(left, right, lo, hi, v);
      var u := InsertOpt(InsertOpt(InsertOpt(t, LeftTrim(left, lo, v)), RightTrim(right, hi, v)), p);
      p.Some? && Pending(u, p.value, minKey, maxKey) && PaintedMap(s, u, lo, hi, v)
  {
    var left, right, v := First(over, lo), Last(over, hi), Some(value);
    StraddlersOf(s, over, minKey, maxKey, lo, hi);
    CutByInserts(s, t, minKey, maxKey, lo, hi, v, left, right);
    var u := InsertOpt(InsertOpt(InsertOpt(t, LeftTrim(left, lo, v)), RightTrim(right, hi, v)), Painted(left, right, lo, hi, v));
    CutPending(s, u, minKey, maxKey, lo, hi, value, left, right);
  }

  lemma CutPending<V(!new)>(s: seq<Segment<V>>, u: seq<Segment<V>>, minKey: int, maxKey: int, lo: int, hi: int, value: V,
                            left: Option<Segment<V>>, right: Option<Segment<V>>)
    requires Canonical(s, minKey, maxKey) && minKey <= lo < hi <= maxKey
    requires Cut(s, u, lo, hi, Some(value), left, right)
    ensures var p := Painted(left, right, lo, hi, Some(value)).value;
      Pending(u, p, minKey, maxKey) && PaintedMap(s, u, lo, hi, Some(value))
  {
    CutDisjoint(s, u, minKey, maxKey, lo, hi, Some(value), left, right);
    CutCanonical(s, u, minKey, maxKey, lo, hi, Some(value), left, right);
    CutLookup(s, u, minKey, maxKey, lo, hi, Some(value), left, right);
    hide Disjoint, CanonicalBut, PaintedMap, Sorted, Straddler;
  }

  lemma SetMerged<V(!new)>(s: seq<Segment<V>>, u: seq<Segment<V>>, minKey: int, maxKey: int, lo: int, hi: int, value: V, newSeg: Segment<V>)
    requires Pending(u, newSeg, minKey, maxKey) && PaintedMap(s, u, lo, hi, Some(value))
    ensures Canonical(Merged(u, newSeg), minKey, maxKey) && PaintedMap(s, Merged(u, newSeg), lo, hi, Some(value))
  {
    MergedOk(u, newSeg, minKey, maxKey);
    hide Merged, Pending, Canonical, Lookup;
  }

  lemma DeleteCut<V(!new)>(s: seq<Segment<V>>, t: seq<Segment<V>>, minKey: int, maxKey: int, lo: int, hi: int, over: seq<Segment<V>>)
    requires Canonical(s, minKey, maxKey) && minKey <= lo < hi <= maxKey && OverlapsOf(s, over, lo, hi)
    requires Sorted(t) && forall x :: x in t <==> x in s && !Overlaps(x, lo, hi)
    ensures var u := InsertOpt(InsertOpt(t, LeftTrim(First(over, lo), lo, None)), RightTrim(Last(over, hi), hi, None));
      Canonical(u, minKey, maxKey) && PaintedMap(s, u, lo, hi, None)
  {
    var left, right := First(over, lo), Last(over, hi);
    var u := InsertOpt(InsertOpt(t, LeftTrim(left, lo, None)), RightTrim(right, hi, None));
    StraddlersOf(s, over, minKey, maxKey, lo, hi);
    CutByInserts(s, t, minKey, maxKey, lo, hi, None, left, right);
    assert InsertOpt(u, Painted(left, right, lo, hi, None)) == u;
    hide *;
    IsDisjoint(s, minKey, maxKey);
    CutCanonical(s, u, minKey, maxKey, lo, hi, None, left, right);
    CutLookup(s, u, minKey, maxKey, lo, hi, None, left, right);
  }

  lemma IsDisjoint<V>(s: seq<Segment<V>>, minKey: int, maxKey: int)
    requires Canonical(s, minKey, maxKey)
    ensures Disjoint(s, minKey, maxKey)
  {
  }

  lemma NothingToClear<V(!new)>(s: seq<Segment<V>>, minKey: int, maxKey: int, lo: int, hi: int)
    requires Disjoint(s, minKey, maxKey) && OverlapsOf(s, [], lo, hi)
    ensures PaintedMap(s, s, lo, hi, None)
  {
    forall k | lo <= k < hi ensures Lookup(s, k) == None {
      forall x | x in s ensures !Covers(x, k) {
        assert !Overlaps(x, lo, hi);
      }
      LookupNone(s, k);
    }
  }

  /** Inserting an uncovered key is a painting that removes and trims nothing. */
  lemma FreshCut<V(!new)>(s: seq<Segment<V>>, minKey: int, maxKey: int, key: int, value: V)
    requires Canonical(s, minKey, maxKey) && minKey <= key < maxKey && Lookup(s, key) == None
    ensures var newSeg := Segment(key, key + 1, value);
      Pending(TreeInsert(s, newSeg), newSeg, minKey, maxKey)
      && PaintedMap(s, TreeInsert(s, newSeg), key, key + 1, Some(value))
  {
    forall x | x in s ensures !Covers(x, key) {
      if Covers(x, key) {
        LookupIn(s, minKey, maxKey, key, x);
      }
    }
    CutByInserts(s, s, minKey, maxKey, key, key + 1, Some(value), None, None);
    var newSeg := Segment(key, key + 1, value);
    assert Painted<V>(None, None, key, key + 1, Some(value)) == Some(newSeg);
    hide Canonical, Cut;
    CutPending(s, TreeInsert(s, newSeg), minKey, maxKey, key, key + 1, value, None, None);
  }

  /** The ascent starts at a: what lies before ends by lo, what follows ends after it, and the
      descent has taken the entry at a already or nothing. */
  ghost predicate Started<V>(t: seq<Segment<V>>, lo: int, a: nat, taken: seq<Segment<V>>) {
    && a <= |t|
    && (forall i :: 0 <= i < a ==> t[i].hi <= lo)
    && (forall i :: a <= i < |t| ==> t[i].hi > lo)
    && (forall i :: a < i < |t| ==> t[a].lo < t[i].lo)
    && (taken == [] || (a < |t| && taken == [t[a]] && t[a].lo <= lo))
  }

  /** The entries from a up to i have been collected. */
  ghost predicate Collected<V>(t: seq<Segment<V>>, lo: int, hi: int, a: nat, i: nat, taken: seq<Segment<V>>, out: seq<Segment<V>>) {
    && Started(t, lo, a, taken) && a <= i <= |t|
    && out == (if i == a then taken else t[a..i])
    && forall j :: a <= j < i ==> t[j].lo < hi
  }

  /** The entry already taken by the descent is skipped, every other one is appended. */
  lemma RunNext<V>(t: seq<Segment<V>>, lo: int, hi: int, a: nat, i: nat, taken: seq<Segment<V>>, out: seq<Segment<V>>)
    requires Collected(t, lo, hi, a, i, taken, out) && i < |t| && t[i].lo < hi
    ensures Collected(t, lo, hi, a, i + 1, taken, if |out| > 0 && t[i].lo == out[0].lo then out else out + [t[i]])
  {
    assert t[a..i + 1] == t[a..i] + [t[i]];
  }

  /** The ascent of `findOverlapping`, from the entry at a on. */
  method Ascend<V>(t: seq<Segment<V>>, ghost lo: int, hi: int, a: nat, ghost taken: seq<Segment<V>>, first: seq<Segment<V>>)
    returns (out: seq<Segment<V>>)
    requires Collected(t, lo, hi, a, a, taken, first)
    ensures exists b: nat :: Collected(t, lo, hi, a, b, taken, out) && b <= |t| && (b < |t| ==> t[b].lo >= hi)
  {
    hide Started;
    out := first;
    var i := a;
    while i < |t| && t[i].lo < hi
      invariant a <= i <= |t| && Collected(t, lo, hi, a, i, taken, out)
    {
      RunNext(t, lo, hi, a, i, taken, out);
      if |out| > 0 && t[i].lo == out[0].lo {
      } else {
        out := out + [t[i]];
      }
      i := i + 1;
    }
  }

  /** Where the ascent of `findOverlapping` starts, and what the descent has already taken. */
  lemma RunStart<V>(t: seq<Segment<V>>, minKey: int, maxKey: int, lo: int, hi: int, a: nat, taken: seq<Segment<V>>)
    requires Disjoint(t, minKey, maxKey) && Sorted(t)
    requires var d := DescendFrom(t, lo);
      var included := d >= 0 && t[d].hi > lo;
      a == Rank(t, if included then t[d].lo else lo) && taken == if included then [t[d]] else []
    ensures Collected(t, lo, hi, a, a, taken, taken)
  {
    hide Disjoint, DescendFrom;
    DescentAt(t, minKey, maxKey, lo);
    var d := DescendFrom(t, lo);
    if d >= 0 && t[d].hi > lo {
      RankIs(t, t[d].lo, d);
    } else {
      RankIs(t, lo, d + 1);
    }
  }

  /** What lies on either side of the entry a descent from lo meets first. */
  lemma DescentAt<V>(t: seq<Segment<V>>, minKey: int, maxKey: int, lo: int)
    requires Disjoint(t, minKey, maxKey)
    ensures var d := DescendFrom(t, lo);
      && (forall i :: 0 <= i < d ==> t[i].lo < t[d].lo && t[i].hi <= t[d].lo)
      && (d >= 0 ==> t[d].lo <= lo && t[d].lo < t[d].hi)
      && (forall i :: d < i < |t| ==> lo < t[i].lo < t[i].hi)
  {
    RankSplits(t, lo + 1);
    var d := DescendFrom(t, lo);
    hide Rank;
    forall i | 0 <= i < |t| ensures t[i].lo < t[i].hi && (i < d ==> t[i].hi <= t[d].lo) {
      assert t[i] in t && (i < d ==> t[d] in t && Apart(t[i], t[d]));
    }
  }

  lemma RankIs<V>(t: seq<Segment<V>>, key: int, r: nat)
    requires Sorted(t) && r <= |t|
    requires r > 0 ==> t[r - 1].lo < key
    requires r < |t| ==> t[r].lo >= key
    ensures Rank(t, key) == r
  {
    RankSplits(t, key);
    var k := Rank(t, key);
    hide Rank;
    assert r == 0 || k <= r - 1 || t[r - 1].lo < key;
    assert k < |t| ==> t[k].lo >= key;
  }

  lemma RunEnd<V(!new)>(t: seq<Segment<V>>, minKey: int, maxKey: int, lo: int, hi: int, a: nat, b: nat,
                        taken: seq<Segment<V>>, out: seq<Segment<V>>)
    requires Canonical(t, minKey, maxKey) && lo < hi && Collected(t, lo, hi, a, b, taken, out)
    requires b < |t| ==> t[b].lo >= hi
    ensures OverlapsOf(t, out, lo, hi)
  {
    assert forall i :: b < i < |t| ==> t[b].lo < t[i].lo;
    RunOverlaps(t, minKey, maxKey, lo, hi, a, b);
    if b == a {
      assert t[a..b] == [];
    }
  }

  /** One call on a valid index loses a whole run: with [lo, maxKey) stored, `SetIfAbsent` of the
      same value at the greatest key merges the run into a segment that covers nothing. */
  lemma TopSetErases<V>(minKey: int, maxKey: int, lo: int, value: V)
    requires minKey < lo < maxKey
    ensures var s := [Segment(lo, maxKey, value)];
      && Canonical(s, minKey, maxKey) && Lookup(s, lo) == Some(value)
      && TopSet(s, minKey, maxKey, value) == [Segment(lo, minKey, value)]
      && Lookup(TopSet(s, minKey, maxKey, value), lo) == None
  {
    var a, b := Segment(lo, maxKey, value), Segment(maxKey, minKey, value);
    var s, t, ab := [a], [a, b], Segment(lo, minKey, value);
    assert Rank(s, maxKey) == 1 && TreeInsert(s, b) == t;
    assert t[..1] == [a];
    assert Rank(t, maxKey + 1) == 2 && LeftOf(t, b) == 0;
    assert [a][..0] == [] && Rank(t, lo) == 0;
    assert TreeDelete(t, lo) == [b];
    assert [b][..0] == [] && Rank([b], maxKey) == 0;
    assert TreeDelete([b], maxKey) == [];
    assert Rank<V>([], lo) == 0 && TreeInsert([], ab) == [ab];
    assert MergeLeft(t, b) == ([ab], ab);
    assert [ab][..0] == [] && Rank([ab], minKey) == 0;
  }

  /** No key but the greatest means anything else than before. */
  ghost predicate OthersKept<V>(s: seq<Segment<V>>, t: seq<Segment<V>>, maxKey: int) {
    forall k :: k != maxKey ==> Lookup(t, k) == Lookup(s, k)
  }

  /** `SetIfAbsent` at the greatest key leaves all other keys alone exactly when neither the key
      before it nor the least key has the value. */
  lemma TopSetKeepsIff<V(!new)>(s: seq<Segment<V>>, minKey: int, maxKey: int, value: V)
    requires Canonical(s, minKey, maxKey) && minKey < maxKey
    ensures OthersKept(s, TopSet(s, minKey, maxKey, value), maxKey) <==>
      Lookup(s, maxKey - 1) != Some(value) && Lookup(s, minKey) != Some(value)
  {
    hide Canonical, Lookup, TopSet;
    if Lookup(s, maxKey - 1) == Some(value) {
      TopSetLosesLast(s, minKey, maxKey, value);
    } else if Lookup(s, minKey) == Some(value) {
      TopSetLosesFirst(s, minKey, maxKey, value);
    } else {
      TopSetHarmless(s, minKey, maxKey, value);
    }
  }

  /** Before merging, the new segment is the last one, and covers nothing. */
  lemma TopInserted<V(!new)>(s: seq<Segment<V>>, minKey: int, maxKey: int, value: V) returns (t: seq<Segment<V>>, newSeg: Segment<V>)
    requires Canonical(s, minKey, maxKey) && minKey < maxKey
    ensures newSeg == Segment(maxKey, minKey, value) && t == TreeInsert(s, newSeg) == s + [newSeg] && Sorted(t)
    ensures TopSet(s, minKey, maxKey, value) == Merged(t, newSeg)
    ensures LeftOf(t, newSeg) == |s| - 1
    ensures forall x :: x in t <==> x in s || x == newSeg
    ensures forall x :: x in s ==> minKey <= x.lo < x.hi <= maxKey
  {
    newSeg := Segment(maxKey, minKey, value);
    t := TreeInsert(s, newSeg);
    TopAppends(s, minKey, maxKey, newSeg);
    hide TreeInsert, Merged, Rank;
    InsertMembers(s, newSeg);
    RankIs(t, maxKey + 1, |t|);
  }

  lemma TopAppends<V>(s: seq<Segment<V>>, minKey: int, maxKey: int, newSeg: Segment<V>)
    requires Canonical(s, minKey, maxKey) && newSeg.lo == maxKey
    ensures TreeInsert(s, newSeg) == s + [newSeg]
  {
    hide Rank;
    assert forall i :: 0 <= i < |s| ==> s[i] in s;
    RankIs(s, maxKey, |s|);
    assert s[..|s|] == s && s[|s|..] == [];
  }

  lemma CoversOne<V>(s: seq<Segment<V>>, minKey: int, maxKey: int, k: int, value: V) returns (x: Segment<V>)
    requires Canonical(s, minKey, maxKey) && Lookup(s, k) == Some(value)
    ensures x in s && Covers(x, k) && x.value == value && forall y :: y in s && Covers(y, k) ==> y == x
  {
    x := LookupSome(s, k);
    forall y | y in s && Covers(y, k) ensures y == x {
      SameLo(s, minKey, maxKey, x, y, k);
    }
  }

  /** An entry of s that could be merged with covers the key next to where it touches. */
  lemma NoMatchAt<V>(s: seq<Segment<V>>, minKey: int, maxKey: int, k: int, value: V, x: Segment<V>)
    requires Canonical(s, minKey, maxKey) && Lookup(s, k) != Some(value) && x in s && Covers(x, k)
    ensures x.value != value
  {
    LookupIn(s, minKey, maxKey, k, x);
  }

  lemma TopSetHarmless<V(!new)>(s: seq<Segment<V>>, minKey: int, maxKey: int, value: V)
    requires Canonical(s, minKey, maxKey) && minKey < maxKey
    requires Lookup(s, maxKey - 1) != Some(value) && Lookup(s, minKey) != Some(value)
    ensures OthersKept(s, TopSet(s, minKey, maxKey, value), maxKey)
  {
    hide Canonical, Lookup, LeftOf, TreeInsert, TopSet, Sorted;
    var t, newSeg := TopInserted(s, minKey, maxKey, value);
    NoLeftMerge(s, t, minKey, maxKey, value);
    NoRightMerge(s, t, minKey, maxKey, value);
    hide MergeLeft, MergeRight;
    forall k ensures Lookup(t, k) == Lookup(s, k) {
      EmptyLast(s, newSeg, k);
    }
  }

  lemma NoLeftMerge<V(!new)>(s: seq<Segment<V>>, t: seq<Segment<V>>, minKey: int, maxKey: int, value: V)
    requires Canonical(s, minKey, maxKey) && minKey < maxKey && Lookup(s, maxKey - 1) != Some(value)
    requires t == s + [Segment(maxKey, minKey, value)] && LeftOf(t, Segment(maxKey, minKey, value)) == |s| - 1
    ensures MergeLeft(t, Segment(maxKey, minKey, value)) == (t, Segment(maxKey, minKey, value))
  {
    hide Lookup, LeftOf, Replace;
    var i, newSeg := |s| - 1, Segment(maxKey, minKey, value);
    if i >= 0 && Mergeable(t[i], newSeg) {
      assert t[i] in s && Covers(t[i], maxKey - 1);
      NoMatchAt(s, minKey, maxKey, maxKey - 1, value, t[i]);
    }
  }

  lemma NoRightMerge<V(!new)>(s: seq<Segment<V>>, t: seq<Segment<V>>, minKey: int, maxKey: int, value: V)
    requires Canonical(s, minKey, maxKey) && minKey < maxKey && Lookup(s, minKey) != Some(value)
    requires t == s + [Segment(maxKey, minKey, value)]
    ensures MergeRight(t, Segment(maxKey, minKey, value)).0 == t
  {
    hide Lookup, Rank, Replace;
    var j, newSeg := Rank(t, minKey), Segment(maxKey, minKey, value);
    if j < |t| && Mergeable(newSeg, t[j]) {
      assert t[j] in s && Covers(t[j], minKey);
      NoMatchAt(s, minKey, maxKey, minKey, value, t[j]);
    }
  }

  lemma {:induction false} EmptyLast<V>(s: seq<Segment<V>>, x: Segment<V>, k: int)
    requires !Covers(x, k)
    ensures Lookup(s + [x], k) == Lookup(s, k)
  {
    if s == [] {
      assert (s + [x])[1..] == [];
    } else {
      assert (s + [x])[1..] == s[1..] + [x];
      EmptyLast(s[1..], x, k);
    }
  }

  /** Fusing seg with what follows it covers k only if something did before. */
  lemma MergeRightUncovered<V(!new)>(u: seq<Segment<V>>, seg: Segment<V>, k: int)
    requires Sorted(u) && seg.hi <= k && forall e :: e in u ==> !Covers(e, k)
    ensures Lookup(MergeRight(u, seg).0, k) == None
  {
    hide Replace, Rank, Sorted;
    var j := Rank(u, seg.hi);
    if j < |u| && Mergeable(seg, u[j]) {
      assert u[j] in u;
      ReplaceMembers(u, u[j], seg, Segment(seg.lo, u[j].hi, seg.value));
    }
    LookupNone(MergeRight(u, seg).0, k);
  }

  lemma TopSetLosesLast<V(!new)>(s: seq<Segment<V>>, minKey: int, maxKey: int, value: V)
    requires Canonical(s, minKey, maxKey) && minKey < maxKey && Lookup(s, maxKey - 1) == Some(value)
    ensures Lookup(TopSet(s, minKey, maxKey, value), maxKey - 1) == None
  {
    hide Lookup, LeftOf, TreeInsert, TopSet, Replace, MergeRight, Disjoint;
    var t, newSeg := TopInserted(s, minKey, maxKey, value);
    var x := CoversOne(s, minKey, maxKey, maxKey - 1, value);
    LastIs(s, minKey, maxKey, x);
    var ab := Segment(x.lo, minKey, value);
    ReplaceMembers(t, x, newSeg, ab);
    var u := Replace(t, x, newSeg, ab);
    assert MergeLeft(t, newSeg) == (u, ab);
    forall e | e in u ensures !Covers(e, maxKey - 1) {
    }
    MergeRightUncovered(u, ab, maxKey - 1);
  }

  /** A segment that reaches the greatest key is the last. */
  lemma LastIs<V>(s: seq<Segment<V>>, minKey: int, maxKey: int, x: Segment<V>)
    requires Disjoint(s, minKey, maxKey) && x in s && x.hi == maxKey
    ensures s != [] && s[|s| - 1] == x
  {
    var i :| 0 <= i < |s| && s[i] == x;
    assert s[|s| - 1] in s;
    if i < |s| - 1 {
      assert false;
    }
  }

  lemma FirstIs<V>(s: seq<Segment<V>>, minKey: int, maxKey: int, x: Segment<V>)
    requires Disjoint(s, minKey, maxKey) && x in s && x.lo == minKey
    ensures s != [] && s[0] == x
  {
    var i :| 0 <= i < |s| && s[i] == x;
    assert s[0] in s;
  }

  lemma TopSetLosesFirst<V(!new)>(s: seq<Segment<V>>, minKey: int, maxKey: int, value: V)
    requires Canonical(s, minKey, maxKey) && minKey < maxKey
    requires Lookup(s, minKey) == Some(value) && Lookup(s, maxKey - 1) != Some(value)
    ensures Lookup(TopSet(s, minKey, maxKey, value), minKey) == None
  {
    hide Lookup, LeftOf, TreeInsert, TopSet, Replace, Disjoint;
    var t, newSeg := TopInserted(s, minKey, maxKey, value);
    var y := CoversOne(s, minKey, maxKey, minKey, value);
    FirstIs(s, minKey, maxKey, y);
    NoLeftMerge(s, t, minKey, maxKey, value);
    hide MergeLeft;
    RankIs(t, minKey, 0);
    var ab := Segment(maxKey, y.hi, value);
    ReplaceMembers(t, y, newSeg, ab);
    var u := Replace(t, y, newSeg, ab);
    assert Merged(t, newSeg) == u;
    forall e | e in u ensures !Covers(e, minKey) {
    }
    LookupNone(u, minKey);
  }

  // ---------------------------------------------------------------------------
  // Whole runs

  datatype Op<V> = SetOp(key: int, value: V) | DeleteOp(key: int) | SetIfAbsentOp(key: int, value: V) | ClearOp

  /** The same operation on a plain map. */
  function OnMap<V>(m: map<int, V>, op: Op<V>): map<int, V> {
    match op
    case SetOp(k, v) => m[k := v]
    case DeleteOp(k) => m - {k}
    case SetIfAbsentOp(k, v) => if k in m then m else m[k := v]
    case ClearOp => map[]
  }

  /** The plain map after the first n operations of a run. */
  function MapAfter<V>(ops: seq<Op<V>>, n: nat): map<int, V>
    requires n <= |ops|
  {
    if n == 0 then map[] else OnMap(MapAfter(ops, n - 1), ops[n - 1])
  }

  /** Whether `SetIfAbsent` should answer true. */
  predicate Absent<V>(m: map<int, V>, op: Op<V>) {
    op.SetIfAbsentOp? && op.key !in m
  }

  /** The segments stand for exactly this map. */
  ghost predicate StandsFor<V>(s: seq<Segment<V>>, m: map<int, V>) {
    forall k :: Lookup(s, k) == if k in m then Some(m[k]) else None
  }

  /** The key is one of the type K. */
  ghost predicate InKeys<V>(op: Op<V>, minKey: int, maxKey: int) {
    match op
    case SetOp(k, _) => minKey <= k <= maxKey
    case SetIfAbsentOp(k, _) => minKey <= k <= maxKey
    case DeleteOp(k) => minKey <= k <= maxKey
    case ClearOp => true
  }

  /** Setting needs key+1 to be a key too. */
  predicate KeyFits<V>(op: Op<V>, maxKey: int) {
    match op
    case SetOp(k, _) => k < maxKey
    case SetIfAbsentOp(k, _) => k < maxKey
    case DeleteOp(_) => true
    case ClearOp => true
  }

  lemma PaintedStands<V>(s: seq<Segment<V>>, t: seq<Segment<V>>, key: int, v: Option<V>, m: map<int, V>)
    requires StandsFor(s, m) && PaintedMap(s, t, key, key + 1, v)
    ensures StandsFor(t, if v.Some? then m[key := v.value] else m - {key})
  {
  }

  lemma TopMissing<V>(t: seq<Segment<V>>, m: map<int, V>, key: int)
    requires key in m && Lookup(t, key) == None
    ensures !StandsFor(t, m)
  {
  }

  /** One operation: the index goes on standing for the plain map exactly when the key fits. */
  method Apply<V(==,!new)>(index: Index<V>, op: Op<V>, ghost m: map<int, V>) returns (added: bool)
    requires index.Valid() && InKeys(op, index.minKey, index.maxKey) && StandsFor(index.tree, m)
    modifies index
    ensures StandsFor(index.tree, OnMap(m, op)) <==> KeyFits(op, index.maxKey)
    ensures KeyFits(op, index.maxKey) ==> index.Valid()
    ensures added == Absent(m, op)
  {
    ghost var s := index.tree;
    ghost var top := index.maxKey;
    index.IsCanonical();
    TopUncovered(s, top);
    added := false;
    hide Lookup, Canonical, TopSet, Disjoint;
    match op {
      case SetOp(k, v) =>
        index.Set(k, v);
        if k < top {
          PaintedStands(s, index.tree, k, Some(v), m);
        } else {
          TopMissing(index.tree, OnMap(m, op), k);
        }
      case DeleteOp(k) =>
        index.Delete(k);
        PaintedStands(s, index.tree, k, None, m);
      case SetIfAbsentOp(k, v) =>
        added := index.SetIfAbsent(k, v);
        if k == top {
          TopLost(s, index.minKey, top, v);
          TopMissing(index.tree, OnMap(m, op), k);
        } else if added {
          PaintedStands(s, index.tree, k, Some(v), m);
        }
      case ClearOp =>
        index.Clear();
        Emptied<V>();
    }
  }

  lemma Emptied<V>()
    ensures StandsFor<V>([], map[])
  {
  }

  /** Each answer so far was right. */
  ghost predicate Answered<V>(ops: seq<Op<V>>, added: seq<bool>) {
    |added| <= |ops| && forall i :: 0 <= i < |added| ==> added[i] == Absent(MapAfter(ops, i), ops[i])
  }

  /** None of the first n operations sets the greatest key. */
  ghost predicate AllFit<V>(ops: seq<Op<V>>, n: nat, maxKey: int) {
    n <= |ops| && forall i :: 0 <= i < n ==> KeyFits(ops[i], maxKey)
  }

  lemma NoneDone<V>(ops: seq<Op<V>>, maxKey: int)
    ensures Answered(ops, []) && AllFit(ops, 0, maxKey)
  {
  }

  lemma FitFewer<V>(ops: seq<Op<V>>, n: nat, maxKey: int)
    ensures AllFit(ops, n, maxKey) && n > 0 ==> AllFit(ops, n - 1, maxKey)
  {
  }

  lemma OneMore<V>(ops: seq<Op<V>>, added: seq<bool>, a: bool, n: nat, maxKey: int)
    requires Answered(ops, added) && |added| == n < |ops| && AllFit(ops, n, maxKey) && a == Absent(MapAfter(ops, n), ops[n])
    ensures Answered(ops, added + [a]) && (AllFit(ops, n + 1, maxKey) <==> KeyFits(ops[n], maxKey))
  {
    hide Absent, MapAfter;
  }

  /** Any run on a new index, up to the first operation that sets the greatest key: until then it
      stays canonical, agrees with the plain map, and every `SetIfAbsent` answers whether its key
      was absent; with that operation it ceases to agree. */
  method Run<V(==,!new)>(ops: seq<Op<V>>, minKey: int, maxKey: int) returns (index: Index<V>, added: seq<bool>)
    requires minKey < maxKey && forall i :: 0 <= i < |ops| ==> InKeys(ops[i], minKey, maxKey)
    ensures index.minKey == minKey && index.maxKey == maxKey
    ensures Answered(ops, added) && (|added| > 0 ==> AllFit(ops, |added| - 1, maxKey))
    ensures if AllFit(ops, |added|, maxKey)
            then |added| == |ops| && index.Valid() && StandsFor(index.tree, MapAfter(ops, |ops|))
            else !StandsFor(index.tree, MapAfter(ops, |added|))
  {
    hide Lookup, Canonical, OnMap, Absent, KeyFits, InKeys, Index.Valid, Answered, AllFit, StandsFor;
    NoneDone(ops, maxKey);
    index := new Index<V>(minKey, maxKey);
    added := [];
    Emptied<V>();
    for n := 0 to |ops|
      invariant fresh(index) && index.Valid() && index.minKey == minKey && index.maxKey == maxKey
      invariant StandsFor(index.tree, MapAfter(ops, n))
      invariant |added| == n && Answered(ops, added) && AllFit(ops, n, maxKey)
    {
      var a := Apply(index, ops[n], MapAfter(ops, n));
      OneMore(ops, added, a, n, maxKey);
      added := added + [a];
      if !KeyFits(ops[n], maxKey) {
        return;
      }
    }
    FitFewer(ops, |ops|, maxKey);
  }

  /** Two runs that give the same map leave the same segments. */
  lemma HistoryIndependent<V>(s: seq<Segment<V>>, t: seq<Segment<V>>, minKey: int, maxKey: int, m: map<int, V>)
    requires Canonical(s, minKey, maxKey) && Canonical(t, minKey, maxKey)
    requires StandsFor(s, m) && StandsFor(t, m)
    ensures s == t
  {
    CanonicalUnique(s, t, minKey, maxKey);
  }
}
