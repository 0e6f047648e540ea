/** When `Ring` of geoparser/geommaker.go turns a group round, in terms of the ways as they were
    found, and that it has the winding asked for; with the signed area that `Orientation` of the
    same file adds up as the winding. */
module Orientation {
  import opened Ways
  import opened Joining
  import opened Polygons

  ghost predicate Unreversed(ws: seq<Way>) {
    forall i :: 0 <= i < |ws| ==> !ws[i].reversed
  }

  ghost predicate SomeOriented(ws: seq<Way>) {
    exists i :: 0 <= i < |ws| && ws[i].orientation != 0
  }

  /** Every oriented member laid as it was found has orientation o, and none laid backwards has. */
  ghost predicate Agrees(ms: seq<Way>, origs: seq<Way>, o: int)
    requires |ms| == |origs|
  {
    forall i :: 0 <= i < |ms| && origs[i].orientation != 0 ==>
      if ms[i].reversed then origs[i].orientation != o else origs[i].orientation == o
  }

  lemma SameOrientations(ms: seq<Way>, t: Trace)
    requires Woven(ms, t)
    ensures |ms| == |t.origs| && forall i :: 0 <= i < |ms| ==> ms[i].orientation == t.origs[i].orientation
  {
    forall i | 0 <= i < |ms| ensures ms[i].orientation == t.origs[i].orientation {
      assert SameWay(t.parts[i], t.origs[i]);
    }
  }

  /** With oriented members the ring is the line as laid exactly when they agree. */
  lemma RingDirection(ms: seq<Way>, t: Trace, o: int, winding: Winding)
    requires Woven(ms, t) && Unreversed(t.origs) && SomeOriented(t.origs)
    ensures |ms| == |t.origs|
    ensures RingOf(ms, o, winding) == if Agrees(ms, t.origs, o) then LineString(ms) else Reversed(LineString(ms))
  {
    SameOrientations(ms, t);
    hide Woven, LineString, AnyOriented, AnyDisagrees, SomeOriented, Agrees, Reversed, Unreversed;
    OrientedIff(ms, t.origs);
    AgreesIff(ms, t.origs, o);
  }

  lemma OrientedIff(ms: seq<Way>, origs: seq<Way>)
    requires |ms| == |origs| && forall i :: 0 <= i < |ms| ==> ms[i].orientation == origs[i].orientation
    ensures AnyOriented(ms) <==> SomeOriented(origs)
  {
    if SomeOriented(origs) {
      var i :| 0 <= i < |ms| && origs[i].orientation != 0;
      assert ms[i] in ms;
    }
  }

  lemma AgreesIff(ms: seq<Way>, origs: seq<Way>, o: int)
    requires |ms| == |origs| && forall i :: 0 <= i < |ms| ==> ms[i].orientation == origs[i].orientation
    ensures Agrees(ms, origs, o) <==> !AnyDisagrees(ms, o)
  {
    if Agrees(ms, origs, o) {
      forall w | w in ms && w.orientation != 0 ensures (w.orientation == o) != w.reversed {
        var i :| 0 <= i < |ms| && ms[i] == w;
        assert origs[i].orientation != 0;
      }
    } else {
      var j :| 0 <= j < |ms| && origs[j].orientation != 0
        && !(if ms[j].reversed then origs[j].orientation != o else origs[j].orientation == o);
      assert ms[j] in ms;
    }
  }

  /** Without any, it is the line if that has the winding asked for, and turned otherwise. */
  lemma UnorientedRing(ms: seq<Way>, t: Trace, o: int, winding: Winding)
    requires Woven(ms, t) && !SomeOriented(t.origs)
    ensures RingOf(ms, o, winding) == if winding(LineString(ms)) == o then LineString(ms) else Reversed(LineString(ms))
  {
    SameOrientations(ms, t);
    hide Woven, LineString, AnyOriented, AnyDisagrees, SomeOriented, Reversed;
    OrientedIff(ms, t.origs);
  }

  /** The orientations tell the truth about a line that winds as w: a member laid as it was found
      says w, one laid backwards says the opposite. */
  ghost predicate Truthful(ms: seq<Way>, origs: seq<Way>, w: int)
    requires |ms| == |origs|
  {
    forall i :: 0 <= i < |ms| && origs[i].orientation != 0 ==> origs[i].orientation == if ms[i].reversed then -w else w
  }

  /** A ring has the winding asked for, whenever turning it round changes its winding and no
      orientation lies about it. */
  lemma RingWinds(ms: seq<Way>, t: Trace, o: int, winding: Winding)
    requires Woven(ms, t) && Unreversed(t.origs) && (o == 1 || o == -1)
    requires var line := LineString(ms);
      (winding(line) == 1 || winding(line) == -1) && winding(Reversed(line)) == -winding(line)
      && |ms| == |t.origs| && Truthful(ms, t.origs, winding(line))
    ensures winding(RingOf(ms, o, winding)) == o
  {
    var w := winding(LineString(ms));
    hide Woven, LineString, RingOf, Reversed, SomeOriented, Unreversed;
    if SomeOriented(t.origs) {
      RingDirection(ms, t, o, winding);
      OneOriented(ms, t, w, o);
    } else {
      UnorientedRing(ms, t, o, winding);
    }
  }

  lemma OneOriented(ms: seq<Way>, t: Trace, w: int, o: int)
    requires |ms| == |t.origs| && SomeOriented(t.origs) && Truthful(ms, t.origs, w) && (o == 1 || o == -1) && (w == 1 || w == -1)
    ensures Agrees(ms, t.origs, o) <==> w == o
  {
    var i :| 0 <= i < |ms| && t.origs[i].orientation != 0;
  }

  // ---------------------------------------------------------------------------
  // Signed area

  /** Twice the signed area of the triangle from c over p and q. */
  function Cross(p: Pt, q: Pt, c: Pt): real {
    (p.x - c.x) * (q.y - c.y) - (q.x - c.x) * (p.y - c.y)
  }

  function AreaFrom(l: seq<Pt>, c: Pt): real {
    if |l| < 2 then 0.0 else AreaFrom(l[..|l| - 1], c) + Cross(l[|l| - 2], l[|l| - 1], c)
  }

  /** Twice the area a line goes round, seen from its first point. */
  function Area(l: seq<Pt>): real {
    if l == [] then 0.0 else AreaFrom(l, l[0])
  }

  lemma CrossTurned(p: Pt, q: Pt, c: Pt)
    ensures Cross(q, p, c) == -Cross(p, q, c)
  {
  }

  lemma {:induction false} AreaPrepend(p: Pt, l: seq<Pt>, c: Pt)
    requires l != []
    ensures AreaFrom([p] + l, c) == Cross(p, l[0], c) + AreaFrom(l, c)
    decreases |l|
  {
    hide Cross;
    var n := |l| - 1;
    assert ([p] + l)[..n + 1] == [p] + l[..n];
    if n > 0 {
      AreaPrepend(p, l[..n], c);
    } else {
      assert AreaFrom([p], c) == 0.0;
    }
  }

  lemma {:induction false} AreaTurned(l: seq<Pt>, c: Pt)
    ensures AreaFrom(Reversed(l), c) == -AreaFrom(l, c)
    decreases |l|
  {
    hide Cross;
    if |l| >= 2 {
      var n := |l| - 1;
      AreaTurned(l[..n], c);
      AreaPrepend(l[n], Reversed(l[..n]), c);
      CrossTurned(l[n - 1], l[n], c);
      assert Reversed(l) == [l[n]] + Reversed(l[..n]);
    }
  }

  /** Going round counter-clockwise, or not. */
  function AreaWinding(): Winding {
    l => if Area(l) > 0.0 then CCW else CW
  }

  /** The line is closed and goes round some area: turning it round changes how it winds. */
  lemma ClosedAreaTurned(l: seq<Pt>)
    requires ClosedRing(l) && Area(l) != 0.0
    ensures AreaWinding()(Reversed(l)) == -AreaWinding()(l)
  {
    AreaTurned(l, l[0]);
  }

  /** Wound by area, the ring of a closed group that goes round some area winds as asked for, unless
      an orientation lies about it. */
  lemma AreaRingWinds(ms: seq<Way>, t: Trace, o: int)
    requires Woven(ms, t) && Unreversed(t.origs) && (o == 1 || o == -1)
    requires Closed(ms) && Area(LineString(ms)) != 0.0
    requires |ms| == |t.origs| && Truthful(ms, t.origs, if Area(LineString(ms)) > 0.0 then 1 else -1)
    ensures var ring := RingOf(ms, o, AreaWinding());
      ClosedRing(ring) && (Area(ring) > 0.0 <==> o == 1)
  {
    var line := LineString(ms);
    WovenEdges(ms, t);
    WovenEnds(ms, t);
    assert ClosedRing(line) by { hide LineString; }
    hide Woven, LineString, RingOf, Reversed, Closed, Unreversed, Truthful, Area;
    ClosedAreaTurned(line);
    RingWinds(ms, t, o, AreaWinding());
    RingKeepsGroup(ms, t, o, AreaWinding());
  }

  /** `Orientation`. The first line must not be empty, as in the source. */
  method Orientation(ms: seq<Way>) returns (o: int)
    requires ms != [] && ms[0].line != []
    ensures o == AreaWinding()(LineString(ms))
  {
    hide LineString, AreaSoFar, AreaFrom, Cross;
    AreaStart(ms[0].line[0]);
    LineStringNone();
    var area := 0.0;
    var offset := ms[0].line[0];
    var prev := offset;
    assert ms[..0] == [];
    for i := 0 to |ms|
      invariant AreaSoFar(LineString(ms[..i]), offset, prev, area)
    {
      var line := ms[i].line;
      ghost var before := LineString(ms[..i]);
      assert ms[..i + 1] == ms[..i] + [ms[i]];
      LineStringAppend(ms[..i], ms[i]);
      assert before + line[..0] == before;
      for j := 0 to |line|
        invariant AreaSoFar(before + line[..j], offset, prev, area)
      {
        var point := line[j];
        assert before + line[..j + 1] == before + line[..j] + [point];
        AreaNext(before + line[..j], offset, prev, area, point);
        area := area + ((prev.x - offset.x) * (point.y - offset.y) - (point.x - offset.x) * (prev.y - offset.y));
        prev := point;
      }
      assert line[..|line|] == line;
    }
    assert ms[..|ms|] == ms;
    FirstOfLine(ms);
    AreaEnd(LineString(ms), offset, prev, area);
    o := if area > 0.0 then CCW else CW;
  }

  /** prev is the last point taken, and area what has been added up. */
  ghost predicate AreaSoFar(l: seq<Pt>, offset: Pt, prev: Pt, area: real) {
    area == AreaFrom(l, offset) && prev == if l == [] then offset else l[|l| - 1]
  }

  lemma AreaStart(offset: Pt)
    ensures AreaSoFar([], offset, offset, 0.0)
  {
  }

  lemma AreaEnd(l: seq<Pt>, offset: Pt, prev: Pt, area: real)
    requires AreaSoFar(l, offset, prev, area) && l != [] && l[0] == offset
    ensures area == Area(l)
  {
  }

  lemma AreaNext(l: seq<Pt>, offset: Pt, prev: Pt, area: real, p: Pt)
    requires AreaSoFar(l, offset, prev, area)
    ensures AreaSoFar(l + [p], offset, p, area + ((prev.x - offset.x) * (p.y - offset.y) - (p.x - offset.x) * (prev.y - offset.y)))
  {
    assert (l + [p])[..|l|] == l;
  }

  lemma {:induction false} FirstOfLine(ms: seq<Way>)
    requires ms != [] && ms[0].line != []
    ensures LineString(ms) != [] && LineString(ms)[0] == ms[0].line[0]
    decreases |ms|
  {
    if |ms| > 1 {
      FirstOfLine(ms[..|ms| - 1]);
    } else {
      LineStringOne(ms[0]);
      assert ms == [ms[0]];
    }
  }
}
