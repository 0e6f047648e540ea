/** The value side of the KD-bush: rows, permutations of a slice, and the
    alternating-axis tree order that lives implicitly in a sorted row sequence. */
module KDTree {

  /** One position of the parallel arrays `idxs` and `coords`. */
  datatype Item = Item(idx: int, x: real, y: real)

  function Key(it: Item, axis: nat): real {
    if axis == 0 then it.x else it.y
  }

  function Swapped(s: seq<Item>, i: nat, j: nat): (r: seq<Item>)
    requires i < |s| && j < |s|
    ensures |r| == |s|
  {
    s[i := s[j]][j := s[i]]
  }

  /** t rearranges the slice lo..hi (inclusive) of s and touches nothing else. */
  ghost predicate PermIn(s: seq<Item>, t: seq<Item>, lo: int, hi: int) {
    && 0 <= lo <= hi + 1 <= |s|
    && |s| == |t|
    && s[..lo] == t[..lo]
    && s[hi + 1..] == t[hi + 1..]
    && multiset(s[lo..hi + 1]) == multiset(t[lo..hi + 1])
  }

  lemma PermOutside(s: seq<Item>, t: seq<Item>, lo: int, hi: int, p: int)
    requires PermIn(s, t, lo, hi)
    requires 0 <= p < |s| && !(lo <= p <= hi)
    ensures t[p] == s[p]
  {
    if p < lo {
      assert s[..lo][p] == t[..lo][p];
    } else {
      assert s[hi + 1..][p - hi - 1] == t[hi + 1..][p - hi - 1];
    }
  }

  /** Every row of the rearranged slice came from that slice. */
  lemma PermSource(s: seq<Item>, t: seq<Item>, lo: int, hi: int, p: int) returns (q: int)
    requires PermIn(s, t, lo, hi)
    requires lo <= p <= hi
    ensures lo <= q <= hi && t[p] == s[q]
  {
    assert t[p] == t[lo..hi + 1][p - lo];
    assert t[p] in multiset(t[lo..hi + 1]);
    assert t[p] in s[lo..hi + 1];
    var r :| 0 <= r < |s[lo..hi + 1]| && s[lo..hi + 1][r] == t[p];
    q := lo + r;
  }

  lemma PermWiden(s: seq<Item>, t: seq<Item>, lo: int, hi: int, lo': int, hi': int)
    requires PermIn(s, t, lo, hi)
    requires 0 <= lo' <= lo && hi <= hi' < |s|
    ensures PermIn(s, t, lo', hi')
  {
    assert s[..lo'] == s[..lo][..lo'] && t[..lo'] == t[..lo][..lo'];
    assert s[hi' + 1..] == s[hi + 1..][hi' - hi..] && t[hi' + 1..] == t[hi + 1..][hi' - hi..];
    assert s[lo'..lo] == s[..lo][lo'..] && t[lo'..lo] == t[..lo][lo'..];
    assert s[hi + 1..hi' + 1] == s[hi + 1..][..hi' - hi] && t[hi + 1..hi' + 1] == t[hi + 1..][..hi' - hi];
    assert s[lo'..hi' + 1] == s[lo'..lo] + s[lo..hi + 1] + s[hi + 1..hi' + 1];
    assert t[lo'..hi' + 1] == t[lo'..lo] + t[lo..hi + 1] + t[hi + 1..hi' + 1];
  }

  lemma PermSwap(s: seq<Item>, i: nat, j: nat, lo: int, hi: int)
    requires 0 <= lo <= i <= hi < |s| && lo <= j <= hi
    ensures PermIn(s, Swapped(s, i, j), lo, hi)
  {
    var u := s[lo..hi + 1];
    assert Swapped(s, i, j)[lo..hi + 1] == u[i - lo := u[j - lo]][j - lo := u[i - lo]];
  }

  /** The median m is >= everything left of it and <= everything right of it. */
  ghost predicate Splits(s: seq<Item>, left: int, m: int, right: int, axis: nat)
    requires 0 <= left <= m <= right < |s|
  {
    && (forall p :: left <= p < m ==> Key(s[p], axis) <= Key(s[m], axis))
    && (forall p :: m < p <= right ==> Key(s[m], axis) <= Key(s[p], axis))
  }

  /** The two axes alternate from one depth to the next. */
  type Axis = a: nat | a < 2

  lemma Alternate(depth: nat)
    ensures (depth + 1) % 2 == 1 - depth % 2
  {
  }

  /** floor((left+right)/2), the row at which a slice is split. */
  function Mid(left: int, right: int): (m: int)
    requires left <= right
    ensures left <= m <= right
    ensures m - left <= right - m <= m - left + 1
  {
    (left + right) / 2
  }

  /** The tree order that `sort` establishes and the queries rely on, to every depth. */
  ghost predicate KD(s: seq<Item>, nodeSize: int, left: int, right: int, axis: Axis)
    requires -1 <= nodeSize && 0 <= left <= right + 1 <= |s|
    decreases right - left + 1
  {
    right - left <= nodeSize ||
    var m := Mid(left, right);
    && Splits(s, left, m, right, axis)
    && KD(s, nodeSize, left, m - 1, 1 - axis)
    && KD(s, nodeSize, m + 1, right, 1 - axis)
  }

  /** Rearranging rows on either side of a median keeps the median's split. */
  lemma SplitsKept(s: seq<Item>, t: seq<Item>, left: int, m: int, right: int, axis: nat, lo: int, hi: int)
    requires 0 <= left <= m <= right < |s|
    requires Splits(s, left, m, right, axis)
    requires PermIn(s, t, lo, hi)
    requires (left <= lo && hi < m) || (m < lo && hi <= right)
    ensures Splits(t, left, m, right, axis)
  {
    PermOutside(s, t, lo, hi, m);
    forall p | left <= p <= right && p != m
      ensures p < m ==> Key(t[p], axis) <= Key(t[m], axis)
      ensures m < p ==> Key(t[m], axis) <= Key(t[p], axis)
    {
      if lo <= p <= hi {
        var q := PermSource(s, t, lo, hi, p);
      } else {
        PermOutside(s, t, lo, hi, p);
      }
    }
  }

  lemma SplitsFrame(s: seq<Item>, t: seq<Item>, left: int, m: int, right: int, axis: Axis)
    requires 0 <= left <= m <= right < |s| && |s| == |t|
    requires forall p :: left <= p <= right ==> s[p] == t[p]
    requires Splits(s, left, m, right, axis)
    ensures Splits(t, left, m, right, axis)
  {
  }

  /** The tree order of a slice is not disturbed by rearrangements elsewhere. */
  lemma {:induction false} KDFrame(s: seq<Item>, t: seq<Item>, nodeSize: int, left: int, right: int, axis: Axis)
    requires -1 <= nodeSize && 0 <= left <= right + 1 <= |s| && |s| == |t|
    requires forall p :: left <= p <= right ==> s[p] == t[p]
    requires KD(s, nodeSize, left, right, axis)
    ensures KD(t, nodeSize, left, right, axis)
    decreases right - left + 1
  {
    hide Splits, Mid;
    if right - left > nodeSize {
      var m := Mid(left, right);
      SplitsFrame(s, t, left, m, right, axis);
      KDFrame(s, t, nodeSize, left, m - 1, 1 - axis);
      KDFrame(s, t, nodeSize, m + 1, right, 1 - axis);
    }
  }

  lemma KDLeaf(s: seq<Item>, nodeSize: int, left: int, right: int, axis: Axis)
    requires -1 <= nodeSize && 0 <= left <= right + 1 <= |s| && right - left <= nodeSize
    ensures KD(s, nodeSize, left, right, axis) && PermIn(s, s, left, right)
  {
  }
}
