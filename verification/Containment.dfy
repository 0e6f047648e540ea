/** What `polygonContains` of geoparser/geommaker.go decides: the law of one side, free of division,
    what the count says of a rectangle, and that the direction of a ring does not matter. */
module Containment {
  import opened Seqs
  import opened Ways
  import opened Joining
  import opened Polygons

  /** The side from a up to b passes p's height to the right of p. */
  ghost predicate PassesRight(a: Pt, b: Pt, p: Pt) {
    a.y <= p.y < b.y && (b.x - a.x) * (p.y - a.y) > (p.x - a.x) * (b.y - a.y)
  }

  /** A side is crossed exactly when it, or the same side taken the other way, passes p upwards on
      the right; in particular its direction does not matter. */
  lemma SideLaw(a: Pt, b: Pt, p: Pt)
    ensures Crosses(a, b, p) <==> PassesRight(a, b, p) || PassesRight(b, a, p)
    ensures Crosses(a, b, p) == Crosses(b, a, p)
    ensures a.y <= p.y < b.y ==> (Crosses(a, b, p) <==> (b.x - a.x) * (p.y - a.y) > (p.x - a.x) * (b.y - a.y))
  {
    if a.y <= p.y < b.y {
      RightOf(a.x, b.x - a.x, p.y - a.y, b.y - a.y, p.x);
      Downwards(a, b, p);
    } else if b.y <= p.y < a.y {
      RightOf(b.x, a.x - b.x, p.y - b.y, a.y - b.y, p.x);
      Downwards(b, a, p);
    }
  }

  lemma RightOf(x0: real, w: real, k: real, h: real, x: real)
    requires h > 0.0
    ensures x < w * k / h + x0 <==> w * k > (x - x0) * h
  {
    Quotient(w * k, h, x - x0);
  }

  lemma Quotient(n: real, d: real, c: real)
    requires d > 0.0
    ensures c < n / d <==> c * d < n
  {
    var q := n / d;
    assert q * d == n;
    if c < q {
      Scaled(c, q, d);
    } else if q < c {
      Scaled(q, c, d);
    }
  }

  lemma Scaled(a: real, b: real, d: real)
    requires d > 0.0 && a < b
    ensures a * d < b * d
  {
    assert (b - a) * d > 0.0;
    assert (b - a) * d == b * d - a * d;
  }

  /** Seen from its other end, a side meets p's height at the same place. */
  lemma Downwards(a: Pt, b: Pt, p: Pt)
    requires a.y < b.y
    ensures (a.x - b.x) * (p.y - b.y) / (a.y - b.y) + b.x == (b.x - a.x) * (p.y - a.y) / (b.y - a.y) + a.x
  {
    var w, h, k := b.x - a.x, b.y - a.y, p.y - a.y;
    assert a.x - b.x == -w && a.y - b.y == -h && p.y - b.y == k - h;
    SameQuotient(w, k, h);
  }

  lemma SameQuotient(w: real, k: real, h: real)
    requires h > 0.0
    ensures -w * (k - h) / -h + w == w * k / h
  {
    var q := w * k / h;
    assert q * h == w * k;
    assert -w * (k - h) == -(w * k) + w * h;
    assert -w * (k - h) == (q - w) * -h by {
      assert (q - w) * -h == -(q * h) + w * h;
    }
    Divided(q - w, -h, -w * (k - h));
  }

  lemma Divided(q: real, d: real, n: real)
    requires d != 0.0 && n == q * d
    ensures n / d == q
  {
  }

  // ---------------------------------------------------------------------------
  // Rectangles

  /** An upright side is passed on the right by what lies at its height to its left. */
  lemma UprightSide(x: real, y0: real, y1: real, p: Pt)
    requires y0 < y1
    ensures Crosses(Pt(x, y0), Pt(x, y1), p) == Crosses(Pt(x, y1), Pt(x, y0), p) == (y0 <= p.y < y1 && p.x < x)
  {
    SideLaw(Pt(x, y0), Pt(x, y1), p);
    if p.x < x {
      Scaled(p.x - x, 0.0, y1 - y0);
    } else if p.x > x {
      Scaled(0.0, p.x - x, y1 - y0);
    }
  }

  lemma LevelSide(a: Pt, b: Pt, p: Pt)
    requires a.y == b.y
    ensures !Crosses(a, b, p)
  {
  }

  function Rectangle(x0: real, y0: real, x1: real, y1: real): (r: Ring)
    ensures ClosedRing(r) && |r| == 5
  {
    [Pt(x0, y0), Pt(x1, y0), Pt(x1, y1), Pt(x0, y1), Pt(x0, y0)]
  }

  lemma InRectangle(x0: real, y0: real, x1: real, y1: real, p: Pt)
    requires x0 < x1 && y0 < y1
    ensures OddCrossings(Rectangle(x0, y0, x1, y1), p, 5) <==> x0 <= p.x < x1 && y0 <= p.y < y1
  {
    var r := Rectangle(x0, y0, x1, y1);
    hide Crosses;
    LevelSide(r[0], r[4], p);
    LevelSide(r[1], r[0], p);
    UprightSide(x1, y0, y1, p);
    LevelSide(r[3], r[2], p);
    UprightSide(x0, y0, y1, p);
    assert !OddCrossings(r, p, 0);
    assert !OddCrossings(r, p, 1);
    assert !OddCrossings(r, p, 2);
    assert OddCrossings(r, p, 3) == Crosses(r[2], r[1], p);
    assert OddCrossings(r, p, 4) == OddCrossings(r, p, 3);
    assert OddCrossings(r, p, 5) == (OddCrossings(r, p, 4) != Crosses(r[4], r[3], p));
  }

  /** A rectangle contains exactly the rings with a point in it, left and lower sides included. */
  lemma RectangleContains(x0: real, y0: real, x1: real, y1: real, r: Ring)
    requires x0 < x1 && y0 < y1
    ensures Contains([Pt(x0, y0), Pt(x1, y0), Pt(x1, y1), Pt(x0, y1), Pt(x0, y0)], r)
      <==> exists k :: 0 <= k < |r| && x0 <= r[k].x < x1 && y0 <= r[k].y < y1
  {
    var outer := Rectangle(x0, y0, x1, y1);
    forall k | 0 <= k < |r| ensures OddCrossings(outer, r[k], 5) <==> x0 <= r[k].x < x1 && y0 <= r[k].y < y1 {
      InRectangle(x0, y0, x1, y1, r[k]);
    }
    hide OddCrossings;
    assert Contains(outer, r) <==> exists k :: 0 <= k < |r| && OddCrossings(outer, r[k], 5);
  }

  // ---------------------------------------------------------------------------
  // Direction

  /** Whether the side that ends at point i is crossed. */
  ghost predicate SideCrossed(outer: Ring, p: Pt, i: nat)
    requires i < |outer|
  {
    Crosses(outer[i], outer[if i == 0 then |outer| - 1 else i - 1], p)
  }

  ghost function Sides(outer: Ring, p: Pt): (s: seq<bool>)
    ensures |s| == |outer| && forall i :: 0 <= i < |outer| ==> s[i] == SideCrossed(outer, p, i)
  {
    seq(|outer|, i requires 0 <= i < |outer| => SideCrossed(outer, p, i))
  }

  /** An odd number of them is true. */
  ghost predicate Odd(s: seq<bool>) { s != [] && Odd(s[..|s| - 1]) != s[|s| - 1] }

  /** The running answer is the parity of the number of sides crossed. */
  lemma {:induction false} OddIsParity(outer: Ring, p: Pt, n: nat)
    requires n <= |outer|
    ensures OddCrossings(outer, p, n) == Odd(Sides(outer, p)[..n])
  {
    hide Crosses;
    if n > 0 {
      var s := Sides(outer, p);
      OddIsParity(outer, p, n - 1);
      assert s[..n][..n - 1] == s[..n - 1] && s[..n][n - 1] == SideCrossed(outer, p, n - 1);
    }
  }

  lemma {:induction false} OddConcat(a: seq<bool>, b: seq<bool>)
    ensures Odd(a + b) == (Odd(a) != Odd(b))
    decreases |b|
  {
    if b == [] {
      assert a + b == a;
    } else {
      OddConcat(a, b[..|b| - 1]);
      assert (a + b)[..|a + b| - 1] == a + b[..|b| - 1];
    }
  }

  lemma {:induction false} OddBackwards(s: seq<bool>)
    ensures Odd(Reversed(s)) == Odd(s)
    decreases |s|
  {
    if s == [] {
      assert Reversed(s) == [];
    } else {
      var n := |s| - 1;
      OddBackwards(s[..n]);
      OddConcat([s[n]], Reversed(s[..n]));
      OddOne(s[n]);
      assert Reversed(s) == [s[n]] + Reversed(s[..n]);
    }
  }

  lemma OddOne(b: bool)
    ensures Odd([b]) == b
  {
    assert [b][..0] == [];
  }

  lemma SideReversed(outer: Ring, p: Pt, i: nat)
    requires i < |outer|
    ensures SideCrossed(Reversed(outer), p, i) == SideCrossed(outer, p, if i == 0 then 0 else |outer| - i)
  {
    var n := |outer|;
    hide Crosses;
    if i == 0 {
      SideLaw(outer[0], outer[n - 1], p);
    } else {
      SideLaw(outer[n - 1 - i], outer[n - i], p);
    }
  }

  lemma SidesReversed(outer: Ring, p: Pt)
    requires outer != []
    ensures Sides(Reversed(outer), p) == [Sides(outer, p)[0]] + Reversed(Sides(outer, p)[1..])
  {
    var n, s, t := |outer|, Sides(outer, p), Sides(Reversed(outer), p);
    hide SideCrossed;
    forall i | 0 <= i < n ensures t[i] == if i == 0 then s[0] else s[n - i] {
      SideReversed(outer, p, i);
    }
  }

  lemma OddReversed(outer: Ring, p: Pt)
    ensures OddCrossings(Reversed(outer), p, |outer|) == OddCrossings(outer, p, |outer|)
  {
    var s, t, n := Sides(outer, p), Sides(Reversed(outer), p), |outer|;
    OddIsParity(outer, p, n);
    OddIsParity(Reversed(outer), p, n);
    assert s[..n] == s && t[..n] == t;
    hide OddCrossings, Sides, Reversed, Odd;
    if outer != [] {
      SidesReversed(outer, p);
      OddConcat([s[0]], s[1..]);
      OddConcat([s[0]], Reversed(s[1..]));
      OddBackwards(s[1..]);
      assert s == [s[0]] + s[1..];
    }
  }

  /** Which rings a ring contains does not depend on the direction it runs in. */
  lemma ContainsReversed(outer: Ring, r: Ring)
    ensures Contains(Reversed(outer), r) <==> Contains(outer, r)
  {
    forall k | 0 <= k < |r| ensures OddCrossings(Reversed(outer), r[k], |outer|) == OddCrossings(outer, r[k], |outer|) {
      OddReversed(outer, r[k]);
    }
  }
}
