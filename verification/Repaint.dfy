/** Why cutting, painting and merging segments changes the map only where it should and keeps
    the list canonical. */
module Repaint {
  import opened Seqs
  import opened Segments

  predicate Overlaps<V>(x: Segment<V>, lo: int, hi: int) { x.lo < hi && x.hi > lo }

  /** The segment of s that begins before p and ends after it, if there is one. */
  ghost predicate Straddler<V>(s: seq<Segment<V>>, p: int, o: Option<Segment<V>>) {
    match o
    case Some(x) => x in s && x.lo < p < x.hi
    case None => forall x :: x in s ==> !(x.lo < p < x.hi)
  }

  /** What remains of the straddler left of lo, unless it has the painted value. */
  function LeftTrim<V(==)>(left: Option<Segment<V>>, lo: int, v: Option<V>): Option<Segment<V>> {
    if left.Some? && v != Some(left.value.value) then Some(Segment(left.value.lo, lo, left.value.value)) else None
  }

  /** What remains of the straddler right of hi, unless it has the painted value. */
  function RightTrim<V(==)>(right: Option<Segment<V>>, hi: int, v: Option<V>): Option<Segment<V>> {
    if right.Some? && v != Some(right.value.value) then Some(Segment(hi, right.value.hi, right.value.value)) else None
  }

  /** The painted segment, grown over straddlers that already have its value. */
  function Painted<V(==)>(left: Option<Segment<V>>, right: Option<Segment<V>>, lo: int, hi: int, v: Option<V>): Option<Segment<V>> {
    if v.None? then None else
    Some(Segment(if left.Some? && v == Some(left.value.value) then left.value.lo else lo,
                 if right.Some? && v == Some(right.value.value) then right.value.hi else hi,
                 v.value))
  }

  /** x is one of the segments left after painting [lo, hi) of s with v. */
  ghost predicate Piece<V>(s: seq<Segment<V>>, x: Segment<V>, lo: int, hi: int, v: Option<V>,
                           left: Option<Segment<V>>, right: Option<Segment<V>>) {
    || (x in s && !Overlaps(x, lo, hi))
    || LeftTrim(left, lo, v) == Some(x)
    || RightTrim(right, hi, v) == Some(x)
    || Painted(left, right, lo, hi, v) == Some(x)
  }

  /** t is s with [lo, hi) painted with v, or cleared when v is None. */
  ghost predicate Cut<V(!new)>(s: seq<Segment<V>>, t: seq<Segment<V>>, lo: int, hi: int, v: Option<V>,
                               left: Option<Segment<V>>, right: Option<Segment<V>>) {
    && Sorted(t) && Straddler(s, lo, left) && Straddler(s, hi, right)
    && forall x :: x in t <==> Piece(s, x, lo, hi, v, left, right)
  }

  /** The map after painting [lo, hi). */
  ghost predicate PaintedMap<V>(s: seq<Segment<V>>, t: seq<Segment<V>>, lo: int, hi: int, v: Option<V>) {
    forall k :: Lookup(t, k) == if lo <= k < hi then v else Lookup(s, k)
  }

  /** Where the affected stretch begins and ends, straddlers included. */
  function LeftEdge<V>(left: Option<Segment<V>>, lo: int): int { if left.Some? then left.value.lo else lo }

  function RightEdge<V>(right: Option<Segment<V>>, hi: int): int { if right.Some? then right.value.hi else hi }

  /** An untouched segment keeps clear of the stretch. */
  lemma KeptClear<V>(s: seq<Segment<V>>, x: Segment<V>, minKey: int, maxKey: int, lo: int, hi: int,
                     left: Option<Segment<V>>, right: Option<Segment<V>>)
    requires Disjoint(s, minKey, maxKey) && lo < hi && x in s && !Overlaps(x, lo, hi)
    requires Straddler(s, lo, left) && Straddler(s, hi, right)
    ensures x.hi <= LeftEdge(left, lo) || RightEdge(right, hi) <= x.lo
  {
    hide Sorted;
    if left.Some? && left.value.lo == x.lo {
      SameLo(s, minKey, maxKey, x, left.value, x.lo);
    }
    if right.Some? && right.value.lo == x.lo {
      SameLo(s, minKey, maxKey, x, right.value, x.lo);
    }
  }

  /** A trimmed or painted piece lies inside the stretch; trims have another value than v. */
  ghost predicate InStretch<V>(x: Segment<V>, lo: int, hi: int, v: Option<V>, l: int, r: int) {
    || (x.lo == l < lo == x.hi && v != Some(x.value))
    || (x.lo == hi < r == x.hi && v != Some(x.value))
    || (l <= x.lo <= lo && hi <= x.hi <= r)
  }

  lemma CutDisjoint<V(!new)>(s: seq<Segment<V>>, t: seq<Segment<V>>, minKey: int, maxKey: int, lo: int, hi: int, v: Option<V>,
                             left: Option<Segment<V>>, right: Option<Segment<V>>)
    requires Disjoint(s, minKey, maxKey) && minKey <= lo < hi <= maxKey
    requires Cut(s, t, lo, hi, v, left, right)
    ensures Disjoint(t, minKey, maxKey)
  {
    var l, r := LeftEdge(left, lo), RightEdge(right, hi);
    forall x | x in t
      ensures minKey <= x.lo < x.hi <= maxKey
      ensures (x in s && (x.hi <= l || r <= x.lo)) || (l <= x.lo && x.hi <= r)
    {
      PieceWhere(s, x, minKey, maxKey, lo, hi, v, left, right);
    }
    forall x, y | x in t && y in t && x.lo < y.lo ensures Apart(x, y) {
      PieceWhere(s, x, minKey, maxKey, lo, hi, v, left, right);
      PieceWhere(s, y, minKey, maxKey, lo, hi, v, left, right);
      PiecesApart(s, x, y, minKey, maxKey, lo, hi, v, left, right);
    }
  }

  lemma PieceWhere<V>(s: seq<Segment<V>>, x: Segment<V>, minKey: int, maxKey: int, lo: int, hi: int, v: Option<V>,
                      left: Option<Segment<V>>, right: Option<Segment<V>>)
    requires Disjoint(s, minKey, maxKey) && minKey <= lo < hi <= maxKey
    requires Straddler(s, lo, left) && Straddler(s, hi, right) && Piece(s, x, lo, hi, v, left, right)
    ensures var l, r := LeftEdge(left, lo), RightEdge(right, hi);
      && minKey <= l <= lo && hi <= r <= maxKey && minKey <= x.lo < x.hi <= maxKey
      && ((x in s && (x.hi <= l || r <= x.lo)) || InStretch(x, lo, hi, v, l, r))
    ensures Painted(left, right, lo, hi, v) == Some(x) || (x in s && !Overlaps(x, lo, hi)) || v != Some(x.value)
  {
    if x in s && !Overlaps(x, lo, hi) {
      KeptClear(s, x, minKey, maxKey, lo, hi, left, right);
    }
  }

  lemma PiecesApart<V>(s: seq<Segment<V>>, x: Segment<V>, y: Segment<V>, minKey: int, maxKey: int, lo: int, hi: int, v: Option<V>,
                       left: Option<Segment<V>>, right: Option<Segment<V>>)
    requires Disjoint(s, minKey, maxKey) && minKey <= lo < hi <= maxKey && x.lo < y.lo
    requires Straddler(s, lo, left) && Straddler(s, hi, right)
    requires Piece(s, x, lo, hi, v, left, right) && Piece(s, y, lo, hi, v, left, right)
    ensures Apart(x, y)
  {
    PieceWhere(s, x, minKey, maxKey, lo, hi, v, left, right);
    PieceWhere(s, y, minKey, maxKey, lo, hi, v, left, right);
    if x in s && y in s {
      assert Apart(x, y);
    }
    hide Disjoint, Straddler, LeftEdge, RightEdge;
  }

  /** Pieces other than the painted one do not touch a piece with their own value. */
  lemma PiecesUnmergeable<V>(s: seq<Segment<V>>, x: Segment<V>, y: Segment<V>, minKey: int, maxKey: int, lo: int, hi: int, v: Option<V>,
                             left: Option<Segment<V>>, right: Option<Segment<V>>)
    requires Canonical(s, minKey, maxKey) && minKey <= lo < hi <= maxKey && x.lo < y.lo
    requires Straddler(s, lo, left) && Straddler(s, hi, right)
    requires Piece(s, x, lo, hi, v, left, right) && Piece(s, y, lo, hi, v, left, right)
    requires Painted(left, right, lo, hi, v) != Some(x) && Painted(left, right, lo, hi, v) != Some(y)
    ensures Unmergeable(x, y)
  {
    PieceWhere(s, x, minKey, maxKey, lo, hi, v, left, right);
    PieceWhere(s, y, minKey, maxKey, lo, hi, v, left, right);
    var x0 := if x in s && !Overlaps(x, lo, hi) then x else if LeftTrim(left, lo, v) == Some(x) then left.value else right.value;
    var y0 := if y in s && !Overlaps(y, lo, hi) then y else if LeftTrim(left, lo, v) == Some(y) then left.value else right.value;
    assert x0 in s && y0 in s && x0.value == x.value && y0.value == y.value;
    if x0.lo < y0.lo {
      assert Unmergeable(x0, y0);
    }
    hide Disjoint, Straddler;
  }

  lemma CutCanonical<V(!new)>(s: seq<Segment<V>>, t: seq<Segment<V>>, minKey: int, maxKey: int, lo: int, hi: int, v: Option<V>,
                              left: Option<Segment<V>>, right: Option<Segment<V>>)
    requires Canonical(s, minKey, maxKey) && minKey <= lo < hi <= maxKey
    requires Cut(s, t, lo, hi, v, left, right)
    ensures v.None? ==> Canonical(t, minKey, maxKey)
    ensures v.Some? ==> CanonicalBut(t, Painted(left, right, lo, hi, v).value)
  {
    CutDisjoint(s, t, minKey, maxKey, lo, hi, v, left, right);
    forall x, y | x in t && y in t && x.lo < y.lo && Painted(left, right, lo, hi, v) !in {Some(x), Some(y)}
      ensures Unmergeable(x, y)
    {
      PiecesUnmergeable(s, x, y, minKey, maxKey, lo, hi, v, left, right);
    }
  }

  lemma CutLookup<V(!new)>(s: seq<Segment<V>>, t: seq<Segment<V>>, minKey: int, maxKey: int, lo: int, hi: int, v: Option<V>,
                     left: Option<Segment<V>>, right: Option<Segment<V>>)
    requires Disjoint(s, minKey, maxKey) && minKey <= lo < hi <= maxKey
    requires Cut(s, t, lo, hi, v, left, right)
    ensures PaintedMap(s, t, lo, hi, v)
  {
    CutDisjoint(s, t, minKey, maxKey, lo, hi, v, left, right);
    forall k ensures Lookup(t, k) == if lo <= k < hi then v else Lookup(s, k) {
      CutLookupAt(s, t, minKey, maxKey, lo, hi, v, left, right, k);
    }
  }

  /** A piece outside [lo, hi) covers only what some segment of s with its value covered. */
  lemma PieceOrigin<V>(s: seq<Segment<V>>, x: Segment<V>, lo: int, hi: int, v: Option<V>,
                       left: Option<Segment<V>>, right: Option<Segment<V>>, k: int)
    requires Straddler(s, lo, left) && Straddler(s, hi, right) && Piece(s, x, lo, hi, v, left, right)
    requires Covers(x, k) && lo < hi
    ensures lo <= k < hi ==> v == Some(x.value)
    ensures !(lo <= k < hi) ==> exists y :: y in s && Covers(y, k) && y.value == x.value
  {
    if k < lo && !(x in s && !Overlaps(x, lo, hi)) {
      assert Covers(left.value, k) && left.value in s;
    } else if k >= hi && !(x in s && !Overlaps(x, lo, hi)) {
      assert Covers(right.value, k) && right.value in s;
    }
  }

  /** What s covers outside [lo, hi) is still covered by a piece with the same value. */
  lemma PieceAfter<V>(s: seq<Segment<V>>, x: Segment<V>, minKey: int, maxKey: int, lo: int, hi: int, v: Option<V>,
                      left: Option<Segment<V>>, right: Option<Segment<V>>, k: int) returns (y: Segment<V>)
    requires Disjoint(s, minKey, maxKey) && lo < hi && x in s && Covers(x, k) && !(lo <= k < hi)
    requires Straddler(s, lo, left) && Straddler(s, hi, right)
    ensures Piece(s, y, lo, hi, v, left, right) && Covers(y, k) && y.value == x.value
  {
    if !Overlaps(x, lo, hi) {
      y := x;
    } else if k < lo {
      SameLo(s, minKey, maxKey, x, left.value, k);
      y := if v == Some(x.value) then Painted(left, right, lo, hi, v).value else LeftTrim(left, lo, v).value;
    } else {
      SameLo(s, minKey, maxKey, x, right.value, k);
      y := if v == Some(x.value) then Painted(left, right, lo, hi, v).value else RightTrim(right, hi, v).value;
    }
  }

  lemma CutLookupAt<V(!new)>(s: seq<Segment<V>>, t: seq<Segment<V>>, minKey: int, maxKey: int, lo: int, hi: int, v: Option<V>,
                             left: Option<Segment<V>>, right: Option<Segment<V>>, k: int)
    requires Disjoint(s, minKey, maxKey) && Disjoint(t, minKey, maxKey) && minKey <= lo < hi <= maxKey
    requires Cut(s, t, lo, hi, v, left, right)
    ensures Lookup(t, k) == if lo <= k < hi then v else Lookup(s, k)
  {
    if lo <= k < hi && v.Some? {
      var x := Painted(left, right, lo, hi, v).value;
      assert Piece(s, x, lo, hi, v, left, right);
      hide Lookup, Disjoint, Piece;
      LookupIn(t, minKey, maxKey, k, x);
    } else if x :| !(lo <= k < hi) && x in s && Covers(x, k) {
      hide Lookup, Disjoint, Piece, Painted, LeftTrim, RightTrim;
      var y := PieceAfter(s, x, minKey, maxKey, lo, hi, v, left, right, k);
      LookupIn(s, minKey, maxKey, k, x);
      LookupIn(t, minKey, maxKey, k, y);
    } else {
      hide Lookup, Disjoint, Piece, Painted, LeftTrim, RightTrim;
      forall y | y in t ensures !Covers(y, k) {
        if Covers(y, k) {
          PieceOrigin(s, y, lo, hi, v, left, right, k);
        }
      }
      LookupNone(t, k);
      if !(lo <= k < hi) {
        LookupNone(s, k);
      }
    }
  }
}
