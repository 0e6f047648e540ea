/** Segment lists of internal/rangeindex/index.go: the ordered tree as a sorted sequence, what a
    list of segments means as a map, canonical form, and why it is unique and minimal. */
module Segments {
  import opened Seqs

  /** The half-open interval [lo, hi) mapped to a value. */
  datatype Segment<V> = Segment(lo: int, hi: int, value: V)

  predicate Covers<V>(x: Segment<V>, k: int) { x.lo <= k < x.hi }

  /** What a list of segments maps k to: the value of the first segment covering it. */
  ghost function Lookup<V>(s: seq<Segment<V>>, k: int): Option<V> {
    if s == [] then None
    else if Covers(s[0], k) then Some(s[0].value)
    else Lookup(s[1..], k)
  }

  ghost predicate Sorted<V>(s: seq<Segment<V>>) {
    forall i, j :: 0 <= i < j < |s| ==> s[i].lo < s[j].lo
  }

  /** x lies wholly before y. */
  ghost predicate Apart<V>(x: Segment<V>, y: Segment<V>) { x.hi <= y.lo }

  /** If x ends where y begins, their values differ. */
  ghost predicate Unmergeable<V>(x: Segment<V>, y: Segment<V>) { x.hi == y.lo ==> x.value != y.value }

  /** Sorted, non-empty, disjoint segments within [minKey, maxKey]. */
  ghost predicate Disjoint<V>(s: seq<Segment<V>>, minKey: int, maxKey: int) {
    && Sorted(s)
    && (forall x :: x in s ==> minKey <= x.lo < x.hi <= maxKey)
    && (forall x, y :: x in s && y in s && x.lo < y.lo ==> Apart(x, y))
  }

  /** No two touching segments share a value, except perhaps where `seg` is involved. */
  ghost predicate CanonicalBut<V>(s: seq<Segment<V>>, seg: Segment<V>) {
    forall x, y :: x in s && y in s && x.lo < y.lo && x != seg && y != seg ==> Unmergeable(x, y)
  }

  /** The form the index keeps its segments in. */
  ghost predicate Canonical<V>(s: seq<Segment<V>>, minKey: int, maxKey: int) {
    && Disjoint(s, minKey, maxKey)
    && (forall x, y :: x in s && y in s && x.lo < y.lo ==> Unmergeable(x, y))
  }

  // ---------------------------------------------------------------------------
  // The ordered tree

  /** How many entries lie below key; the position an ascent from key starts at. */
  function Rank<V>(s: seq<Segment<V>>, key: int): (r: nat)
    ensures r <= |s|
  {
    if s == [] then 0
    else if s[|s| - 1].lo < key then |s|
    else Rank(s[..|s| - 1], key)
  }

  lemma {:induction false} RankSplits<V>(s: seq<Segment<V>>, key: int)
    requires Sorted(s)
    ensures forall i :: 0 <= i < Rank(s, key) ==> s[i].lo < key
    ensures forall i :: Rank(s, key) <= i < |s| ==> s[i].lo >= key
  {
    if s != [] && s[|s| - 1].lo >= key {
      RankSplits(s[..|s| - 1], key);
    }
  }

  /** Removes the entry keyed lo, if there is one. */
  function TreeDelete<V>(s: seq<Segment<V>>, lo: int): seq<Segment<V>> {
    var r := Rank(s, lo);
    if r < |s| && s[r].lo == lo then s[..r] + s[r + 1..] else s
  }

  /** Puts seg at its place, replacing an entry with the same lo. */
  function TreeInsert<V>(s: seq<Segment<V>>, seg: Segment<V>): seq<Segment<V>> {
    var r := Rank(s, seg.lo);
    s[..r] + [seg] + if r < |s| && s[r].lo == seg.lo then s[r + 1..] else s[r..]
  }

  /** t is s with the entries from r up to k replaced by mid. */
  ghost predicate Spliced<V>(s: seq<Segment<V>>, t: seq<Segment<V>>, r: nat, k: nat, mid: seq<Segment<V>>) {
    r <= k <= |s| && t == s[..r] + mid + s[k..]
  }

  lemma SplicedAt<V>(s: seq<Segment<V>>, t: seq<Segment<V>>, r: nat, k: nat, mid: seq<Segment<V>>, i: nat)
    requires Spliced(s, t, r, k, mid) && i < |t|
    ensures |t| == |s| + |mid| + r - k
    ensures t[i] == if i < r then s[i] else if i < r + |mid| then mid[i - r] else s[i - r - |mid| + k]
  {
  }

  lemma SplicedFrom<V>(s: seq<Segment<V>>, t: seq<Segment<V>>, r: nat, k: nat, mid: seq<Segment<V>>, i: nat)
    requires Spliced(s, t, r, k, mid) && i < |s| && (i < r || k <= i)
    ensures s[i] in t
  {
    assert |t| == |s| + |mid| + r - k;
    var j := if i < r then i else i - k + r + |mid|;
    assert t[j] == s[i];
  }

  /** The entries before r lie below key, those from k on above it, and between them is only key. */
  ghost predicate Around<V>(s: seq<Segment<V>>, r: nat, k: nat, key: int) {
    && r <= k <= |s|
    && (forall i :: 0 <= i < r ==> s[i].lo < key)
    && (forall i :: r <= i < k ==> s[i].lo == key)
    && (forall i :: k <= i < |s| ==> s[i].lo > key)
  }

  lemma RankAround<V>(s: seq<Segment<V>>, key: int)
    requires Sorted(s)
    ensures var r := Rank(s, key); Around(s, r, if r < |s| && s[r].lo == key then r + 1 else r, key)
  {
    RankSplits(s, key);
  }

  /** Splicing at key keeps the order and every entry with another key. */
  lemma SplicedMembers<V>(s: seq<Segment<V>>, t: seq<Segment<V>>, r: nat, k: nat, mid: seq<Segment<V>>, key: int)
    requires Sorted(s) && Around(s, r, k, key) && Spliced(s, t, r, k, mid)
    requires |mid| <= 1 && forall x :: x in mid ==> x.lo == key
    ensures Sorted(t)
    ensures forall x :: x in t <==> x in mid || (x in s && x.lo != key)
  {
    hide Spliced;
    forall i, j | 0 <= i < j < |t| ensures t[i].lo < t[j].lo {
      SplicedAt(s, t, r, k, mid, i);
      SplicedAt(s, t, r, k, mid, j);
    }
    forall x ensures x in t <==> x in mid || (x in s && x.lo != key) {
      if x in t {
        var i :| 0 <= i < |t| && t[i] == x;
        SplicedAt(s, t, r, k, mid, i);
      }
      if x in s && x.lo != key {
        var i :| 0 <= i < |s| && s[i] == x;
        SplicedFrom(s, t, r, k, mid, i);
      }
      if x in mid {
        MidStays(s, t, r, k, mid, x);
      }
    }
  }

  lemma MidStays<V>(s: seq<Segment<V>>, t: seq<Segment<V>>, r: nat, k: nat, mid: seq<Segment<V>>, x: Segment<V>)
    requires Spliced(s, t, r, k, mid) && x in mid
    ensures x in t
  {
  }

  lemma DeleteSplices<V>(s: seq<Segment<V>>, lo: int)
    ensures var r := Rank(s, lo); Spliced(s, TreeDelete(s, lo), r, if r < |s| && s[r].lo == lo then r + 1 else r, [])
  {
    hide Rank;
    var r := Rank(s, lo);
    assert s[..r] + [] == s[..r] && s[..r] + s[r..] == s;
  }

  lemma InsertSplices<V>(s: seq<Segment<V>>, seg: Segment<V>)
    ensures var r := Rank(s, seg.lo); Spliced(s, TreeInsert(s, seg), r, if r < |s| && s[r].lo == seg.lo then r + 1 else r, [seg])
  {
    hide Rank;
  }

  lemma DeleteMembers<V>(s: seq<Segment<V>>, lo: int)
    requires Sorted(s)
    ensures Sorted(TreeDelete(s, lo))
    ensures forall x :: x in TreeDelete(s, lo) <==> x in s && x.lo != lo
  {
    hide Sorted, Around, Spliced, TreeDelete, Rank;
    var r := Rank(s, lo);
    var k := if r < |s| && s[r].lo == lo then r + 1 else r;
    RankAround(s, lo);
    DeleteSplices(s, lo);
    SplicedMembers(s, TreeDelete(s, lo), r, k, [], lo);
  }

  lemma InsertMembers<V>(s: seq<Segment<V>>, seg: Segment<V>)
    requires Sorted(s)
    ensures Sorted(TreeInsert(s, seg))
    ensures forall x :: x in TreeInsert(s, seg) <==> x == seg || (x in s && x.lo != seg.lo)
  {
    hide Sorted, Around, Spliced, TreeInsert, Rank;
    var r := Rank(s, seg.lo);
    var k := if r < |s| && s[r].lo == seg.lo then r + 1 else r;
    RankAround(s, seg.lo);
    InsertSplices(s, seg);
    SplicedMembers(s, TreeInsert(s, seg), r, k, [seg], seg.lo);
  }

  // ---------------------------------------------------------------------------
  // What a list means

  lemma {:induction false} LookupFound<V>(s: seq<Segment<V>>, k: int, x: Segment<V>)
    requires x in s && Covers(x, k)
    requires forall y :: y in s && Covers(y, k) ==> y == x
    ensures Lookup(s, k) == Some(x.value)
  {
    if !Covers(s[0], k) {
      LookupFound(s[1..], k, x);
    }
  }

  lemma {:induction false} LookupNone<V>(s: seq<Segment<V>>, k: int)
    requires forall y :: y in s ==> !Covers(y, k)
    ensures Lookup(s, k) == None
  {
    if s != [] {
      assert s[0] in s;
      LookupNone(s[1..], k);
    }
  }

  lemma {:induction false} LookupSome<V>(s: seq<Segment<V>>, k: int) returns (x: Segment<V>)
    requires Lookup(s, k).Some?
    ensures x in s && Covers(x, k) && Lookup(s, k) == Some(x.value)
  {
    if Covers(s[0], k) {
      x := s[0];
    } else {
      x := LookupSome(s[1..], k);
    }
  }

  /** In a disjoint list, the covering segment decides. */
  lemma LookupIn<V>(s: seq<Segment<V>>, minKey: int, maxKey: int, k: int, x: Segment<V>)
    requires Disjoint(s, minKey, maxKey) && x in s && Covers(x, k)
    ensures Lookup(s, k) == Some(x.value)
  {
    forall y | y in s && Covers(y, k) ensures y == x {
      SameLo(s, minKey, maxKey, x, y, k);
    }
    LookupFound(s, k, x);
  }

  lemma SameLo<V>(s: seq<Segment<V>>, minKey: int, maxKey: int, x: Segment<V>, y: Segment<V>, k: int)
    requires Disjoint(s, minKey, maxKey) && x in s && y in s && Covers(x, k) && Covers(y, k)
    ensures x == y
  {
    assert !(x.lo < y.lo) && !(y.lo < x.lo) by { assert x.lo < y.lo ==> Apart(x, y); assert y.lo < x.lo ==> Apart(y, x); }
    var i :| 0 <= i < |s| && s[i] == x;
    var j :| 0 <= j < |s| && s[j] == y;
  }

  /** Two lists that cover the same keys with the same values mean the same. */
  ghost predicate SameMap<V>(s: seq<Segment<V>>, t: seq<Segment<V>>) {
    forall k :: Lookup(s, k) == Lookup(t, k)
  }

  // ---------------------------------------------------------------------------
  // Canonical lists are unique and minimal

  lemma TailCanonical<V>(s: seq<Segment<V>>, minKey: int, maxKey: int)
    requires Canonical(s, minKey, maxKey) && s != []
    ensures Canonical(s[1..], minKey, maxKey)
    ensures forall y :: y in s[1..] ==> y in s && s[0].lo < y.lo && Apart(s[0], y) && Unmergeable(s[0], y)
  {
  }

  /** At the end of a segment of a canonical list, the map does not go on with its value. */
  lemma EndsThere<V>(s: seq<Segment<V>>, minKey: int, maxKey: int, x: Segment<V>)
    requires Canonical(s, minKey, maxKey) && x in s
    ensures Lookup(s, x.hi) != Some(x.value)
  {
    hide Lookup, Sorted;
    if Lookup(s, x.hi) == Some(x.value) {
      var y := LookupSome(s, x.hi);
      if x.lo == y.lo {
        SameLo(s, minKey, maxKey, x, y, x.lo);
      }
    }
  }

  lemma HeadIsLeast<V>(s: seq<Segment<V>>, minKey: int, maxKey: int, k: int)
    requires Canonical(s, minKey, maxKey) && s != []
    ensures k < s[0].lo ==> Lookup(s, k) == None
    ensures Covers(s[0], k) ==> Lookup(s, k) == Some(s[0].value)
  {
    if k < s[0].lo {
      TailCanonical(s, minKey, maxKey);
      forall y | y in s ensures !Covers(y, k) { assert y == s[0] || y in s[1..]; }
      LookupNone(s, k);
    }
  }

  lemma SameHead<V>(s: seq<Segment<V>>, t: seq<Segment<V>>, minKey: int, maxKey: int)
    requires Canonical(s, minKey, maxKey) && Canonical(t, minKey, maxKey) && s != [] && t != []
    requires SameMap(s, t) && s[0].lo <= t[0].lo
    ensures s[0].lo == t[0].lo && s[0].value == t[0].value
  {
    HeadIsLeast(s, minKey, maxKey, s[0].lo);
    HeadIsLeast(t, minKey, maxKey, s[0].lo);
    assert Lookup(s, s[0].lo) == Lookup(t, s[0].lo);
  }

  lemma HeadNotShorter<V>(s: seq<Segment<V>>, t: seq<Segment<V>>, minKey: int, maxKey: int)
    requires Canonical(s, minKey, maxKey) && Canonical(t, minKey, maxKey) && s != [] && t != []
    requires SameMap(s, t) && s[0].lo == t[0].lo && s[0].value == t[0].value
    ensures s[0].hi >= t[0].hi
  {
    var k := s[0].hi;
    EndsThere(s, minKey, maxKey, s[0]);
    HeadIsLeast(t, minKey, maxKey, k);
    assert Lookup(s, k) == Lookup(t, k);
  }

  /** History does not matter: canonical lists that mean the same map are the same list. */
  lemma {:induction false} CanonicalUnique<V>(s: seq<Segment<V>>, t: seq<Segment<V>>, minKey: int, maxKey: int)
    requires Canonical(s, minKey, maxKey) && Canonical(t, minKey, maxKey) && SameMap(s, t)
    ensures s == t
  {
    if s == [] || t == [] {
      BothEmpty(s, t, minKey, maxKey);
      BothEmpty(t, s, minKey, maxKey);
    } else {
      if s[0].lo <= t[0].lo {
        SameHead(s, t, minKey, maxKey);
      } else {
        SameHead(t, s, minKey, maxKey);
      }
      HeadNotShorter(s, t, minKey, maxKey);
      HeadNotShorter(t, s, minKey, maxKey);
      assert s[0] == t[0];
      TailCanonical(s, minKey, maxKey);
      TailCanonical(t, minKey, maxKey);
      TailsSame(s, t, minKey, maxKey);
      CanonicalUnique(s[1..], t[1..], minKey, maxKey);
      assert s == [s[0]] + s[1..] && t == [t[0]] + t[1..];
    }
  }

  lemma BothEmpty<V>(s: seq<Segment<V>>, t: seq<Segment<V>>, minKey: int, maxKey: int)
    requires SameMap(s, t) && Canonical(t, minKey, maxKey)
    ensures s == [] ==> t == []
  {
    if t != [] {
      HeadIsLeast(t, minKey, maxKey, t[0].lo);
      assert Lookup(s, t[0].lo) == Lookup(t, t[0].lo);
    }
  }

  lemma TailsSame<V>(s: seq<Segment<V>>, t: seq<Segment<V>>, minKey: int, maxKey: int)
    requires Canonical(s, minKey, maxKey) && Canonical(t, minKey, maxKey) && s != [] && t != []
    requires SameMap(s, t) && s[0] == t[0]
    ensures SameMap(s[1..], t[1..])
  {
    TailCanonical(s, minKey, maxKey);
    TailCanonical(t, minKey, maxKey);
    forall k ensures Lookup(s[1..], k) == Lookup(t[1..], k) {
      assert Lookup(s, k) == Lookup(t, k);
      if Covers(s[0], k) {
        forall y | y in s[1..] || y in t[1..] ensures !Covers(y, k) { assert Apart(s[0], y); }
        LookupNone(s[1..], k);
        LookupNone(t[1..], k);
      }
    }
  }

  /** t is some list of segments, in any order, overlapping or not, that describes the same map as s. */
  ghost predicate Describes<V>(t: seq<Segment<V>>, s: seq<Segment<V>>) {
    && (forall x, k :: x in t && Covers(x, k) ==> Lookup(s, k) == Some(x.value))
    && (forall k :: Lookup(s, k).Some? ==> exists x :: x in t && Covers(x, k))
  }

  /** One segment of t cannot cover the starts of two different segments of a canonical s. */
  lemma OneStartEach<V>(s: seq<Segment<V>>, t: seq<Segment<V>>, minKey: int, maxKey: int, x: Segment<V>, i: nat, j: nat)
    requires Canonical(s, minKey, maxKey) && Describes(t, s)
    requires x in t && i < j < |s| && Covers(x, s[i].lo)
    ensures !Covers(x, s[j].lo)
  {
    if Covers(x, s[j].lo) {
      assert s[i].lo < s[j].lo && Apart(s[i], s[j]);
      LookupIn(s, minKey, maxKey, s[i].lo, s[i]);
      assert Covers(x, s[i].hi);
      EndsThere(s, minKey, maxKey, s[i]);
    }
  }

  /** A canonical list is as short as any description of its map. */
  lemma CanonicalMinimal<V>(s: seq<Segment<V>>, t: seq<Segment<V>>, minKey: int, maxKey: int)
    requires Canonical(s, minKey, maxKey) && Describes(t, s)
    ensures |s| <= |t|
  {
    var f := Starts(s, t, minKey, maxKey, |s|);
    forall i, j | 0 <= i < j < |f| ensures f[i] != f[j] {
      OneStartEach(s, t, minKey, maxKey, t[f[i]], i, j);
    }
    Pigeonhole(f, |t|);
  }

  /** For each of the first n segments of s, a segment of t that covers its start. */
  lemma {:induction false} Starts<V>(s: seq<Segment<V>>, t: seq<Segment<V>>, minKey: int, maxKey: int, n: nat) returns (f: seq<nat>)
    requires Canonical(s, minKey, maxKey) && Describes(t, s) && n <= |s|
    ensures |f| == n && forall i :: 0 <= i < n ==> f[i] < |t| && Covers(t[f[i]], s[i].lo)
  {
    if n == 0 {
      f := [];
    } else {
      f := Starts(s, t, minKey, maxKey, n - 1);
      LookupIn(s, minKey, maxKey, s[n - 1].lo, s[n - 1]);
      var x :| x in t && Covers(x, s[n - 1].lo);
      var p: nat :| p < |t| && t[p] == x;
      f := f + [p];
    }
  }

  lemma {:induction false} Pigeonhole(f: seq<nat>, m: nat)
    requires NoDuplicates(f) && forall i :: 0 <= i < |f| ==> f[i] < m
    ensures |f| <= m
  {
    if f != [] {
      assert f[0] < m;
      if m - 1 in f {
        var k: nat :| k < |f| && f[k] == m - 1;
        var g := RemoveAt(f, k);
        forall i | 0 <= i < |g| ensures g[i] < m - 1 && g[i] == if i < k then f[i] else f[i + 1] {
        }
        Pigeonhole(g, m - 1);
      } else {
        assert forall i :: 0 <= i < |f| ==> f[i] in f;
        Pigeonhole(f, m - 1);
      }
    }
  }
}
