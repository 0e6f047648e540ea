/** `Ring`, `buildPolygon` and `addToMultiPolygon` of geoparser/geommaker.go, from the ways
    already looked up: which rings come out, and that no hole is lost or doubled. */
module Polygons {
  import opened Seqs
  import opened Ways
  import opened Joining

  type Ring = seq<Pt>
  type Polygon = seq<Ring>

  const CCW := 1
  const CW := -1

  /** The winding of a ring, as the geometry library computes it. */
  type Winding = Ring -> int

  // ---------------------------------------------------------------------------
  // Rings

  /** Some member has an orientation. */
  predicate AnyOriented(ms: seq<Way>) { exists w :: w in ms && w.orientation != 0 }

  /** Some member's orientation disagrees with the ring asked for. */
  predicate AnyDisagrees(ms: seq<Way>, o: int) {
    exists w :: w in ms && w.orientation != 0 && ((w.orientation == o) == w.reversed)
  }

  predicate TurnRing(ms: seq<Way>, o: int, line: Ring, winding: Winding) {
    if AnyOriented(ms) then AnyDisagrees(ms, o) else winding(line) != o
  }

  /** The ring of a group: its line, turned if its members' orientations (or, without any, its
      winding) say so. */
  function RingOf(ms: seq<Way>, o: int, winding: Winding): Ring {
    var line := LineString(ms);
    if TurnRing(ms, o, line, winding) then Reversed(line) else line
  }

  /** `Ring`. */
  method MakeRing(ms: seq<Way>, o: int, winding: Winding) returns (ring: Ring)
    ensures ring == RingOf(ms, o, winding)
  {
    ring := [];
    var haveOrient, reversed := false, false;
    for i := 0 to |ms|
      invariant ring == LineString(ms[..i])
      invariant haveOrient == AnyOriented(ms[..i]) && reversed == AnyDisagrees(ms[..i], o)
    {
      hide *;
      var s := ms[i];
      if s.orientation != 0 {
        haveOrient := true;
        if (s.orientation == o) == s.reversed {
          reversed := true;
        }
      }
      assert ms[..i + 1] == ms[..i] + [s];
      LineStringAppend(ms[..i], s);
      OrientedAppend(ms[..i], s, o);
      ring := ring + s.line;
    }
    assert ms[..|ms|] == ms;
    hide LineString, AnyOriented, AnyDisagrees;
    if (haveOrient && reversed) || (!haveOrient && winding(ring) != o) {
      ring := Reversed(ring);
    }
  }

  lemma OrientedAppend(ms: seq<Way>, w: Way, o: int)
    ensures AnyOriented(ms + [w]) <==> AnyOriented(ms) || w.orientation != 0
    ensures AnyDisagrees(ms + [w], o) <==>
      AnyDisagrees(ms, o) || (w.orientation != 0 && ((w.orientation == o) == w.reversed))
  {
    assert forall v :: v in ms + [w] <==> v in ms || v == w;
  }

  predicate ClosedRing(r: Ring) { r != [] && r[0] == r[|r| - 1] }

  /** At least four points and matching ends. */
  predicate ValidOuter(r: Ring) { |r| >= 4 && ClosedRing(r) }

  /** Making a ring of a woven group keeps its edges, and closes exactly the closed groups. */
  lemma RingKeepsGroup(ms: seq<Way>, t: Trace, o: int, winding: Winding)
    requires Woven(ms, t)
    ensures Edges(RingOf(ms, o, winding)) == AllEdges(t.origs)
    ensures ClosedRing(RingOf(ms, o, winding)) <==> Closed(ms)
  {
    hide Woven, Edges, AllEdges, TurnRing, LineString;
    WovenEdges(ms, t);
    WovenEnds(ms, t);
    WovenBounds(ms, t);
    WovenOrigs(ms, t);
    EdgesReversed(LineString(ms));
  }

  lemma WovenOrigs(ms: seq<Way>, t: Trace)
    requires Woven(ms, t)
    ensures AllEdges(t.parts) == AllEdges(t.origs)
  {
    hide AllEdges, SameWay;
    SameWaysEdges(t.parts, t.origs);
  }

  // ---------------------------------------------------------------------------
  // Containment

  /** A ray to the right of p crosses the side from a to b. */
  predicate Crosses(a: Pt, b: Pt, p: Pt) {
    ((a.y > p.y) != (b.y > p.y)) && p.x < (b.x - a.x) * (p.y - a.y) / (b.y - a.y) + a.x
  }

  /** Whether an odd number of the first n sides is crossed; side i ends at point i. */
  predicate OddCrossings(outer: Ring, p: Pt, n: nat)
    requires n <= |outer|
  {
    n > 0 && (OddCrossings(outer, p, n - 1) !=
              Crosses(outer[n - 1], outer[if n == 1 then |outer| - 1 else n - 2], p))
  }

  /** Some point of r lies inside outer. */
  predicate Contains(outer: Ring, r: Ring) {
    exists k :: 0 <= k < |r| && OddCrossings(outer, r[k], |outer|)
  }

  /** `polygonContains`. */
  method PolygonContains(outer: Ring, r: Ring) returns (b: bool)
    ensures b == Contains(outer, r)
  {
    for k := 0 to |r|
      invariant forall m :: 0 <= m < k ==> !OddCrossings(outer, r[m], |outer|)
    {
      var p := r[k];
      var inside := false;
      var i, j := 0, |outer| - 1;
      while i < |outer|
        invariant 0 <= i <= |outer| && j == if i == 0 then |outer| - 1 else i - 1
        invariant inside == OddCrossings(outer, p, i)
        decreases |outer| - i
      {
        if Crosses(outer[i], outer[j], p) {
          inside := !inside;
        }
        j := i;
        i := i + 1;
      }
      if inside {
        return true;
      }
    }
    return false;
  }

  // ---------------------------------------------------------------------------
  // Placing holes

  /** Every polygon has an outer ring, perhaps an empty one. */
  predicate Headed(mp: seq<Polygon>) { forall i :: 0 <= i < |mp| ==> mp[i] != [] }

  /** r goes to polygon i: the first that contains it. */
  ghost predicate FirstContaining(mp: seq<Polygon>, r: Ring, i: nat)
    requires Headed(mp)
  {
    && i < |mp| && Contains(mp[i][0], r)
    && forall k :: 0 <= k < i ==> !Contains(mp[k][0], r)
  }

  ghost predicate Homeless(mp: seq<Polygon>, r: Ring)
    requires Headed(mp)
  {
    forall k :: 0 <= k < |mp| ==> !Contains(mp[k][0], r)
  }

  ghost predicate FirstEmpty(mp: seq<Polygon>, i: nat)
    requires Headed(mp)
  {
    && i < |mp| && mp[i][0] == []
    && forall k :: 0 <= k < i ==> mp[k][0] != []
  }

  predicate OpenFirst(mp: seq<Polygon>)
    requires Headed(mp)
  {
    mp != [] && mp[0][0] != [] && !ClosedRing(mp[0][0])
  }

  function WithHole(mp: seq<Polygon>, i: nat, r: Ring): seq<Polygon>
    requires i < |mp|
  {
    mp[i := mp[i] + [r]]
  }

  /** `addToMultiPolygon`. */
  method AddToMultiPolygon(mp: seq<Polygon>, r: Ring) returns (out: seq<Polygon>)
    requires Headed(mp)
    ensures Headed(out)
    ensures forall i: nat :: FirstContaining(mp, r, i) ==> out == WithHole(mp, i, r)
    ensures Homeless(mp, r) && OpenFirst(mp) ==> out == WithHole(mp, 0, r)
    ensures Homeless(mp, r) && !OpenFirst(mp) ==>
      if exists i: nat :: FirstEmpty(mp, i) then exists i: nat :: FirstEmpty(mp, i) && out == WithHole(mp, i, r)
      else out == mp + [[[], r]]
  {
    for i := 0 to |mp|
      invariant forall k :: 0 <= k < i ==> !Contains(mp[k][0], r)
    {
      var inside := PolygonContains(mp[i][0], r);
      if inside {
        return WithHole(mp, i, r);
      }
    }
    if |mp| > 0 {
      var fr := mp[0][0];
      if |fr| != 0 && fr[0] != fr[|fr| - 1] {
        return WithHole(mp, 0, r);
      }
      for i := 0 to |mp|
        invariant forall k :: 0 <= k < i ==> mp[k][0] != []
      {
        if |mp[i][0]| == 0 {
          assert FirstEmpty(mp, i);
          return WithHole(mp, i, r);
        }
      }
    }
    return mp + [[[], r]];
  }

  // ---------------------------------------------------------------------------
  // What the result must look like

  function Holes(mp: seq<Polygon>): seq<Ring>
    requires Headed(mp)
  {
    if mp == [] then [] else
    assert Headed(mp[..|mp| - 1]);
    Holes(mp[..|mp| - 1]) + mp[|mp| - 1][1..]
  }

  /** The given outer rings head the polygons in order; beyond them at most one polygon, without
      an outer ring, collects what lies in none. */
  ghost predicate HeadedBy(mp: seq<Polygon>, outers: seq<Ring>) {
    && Headed(mp) && |outers| <= |mp| <= |outers| + 1
    && (forall i :: 0 <= i < |outers| ==> mp[i][0] == outers[i])
    && (|mp| > |outers| ==> mp[|outers|][0] == [])
  }

  /** A hole belongs to the first outer ring that contains it, and past them all if none does. */
  ghost predicate Belongs(hole: Ring, i: nat, outers: seq<Ring>) {
    && (i < |outers| ==> Contains(outers[i], hole))
    && forall k :: 0 <= k < i && k < |outers| ==> !Contains(outers[k], hole)
  }

  /** Every hole is in the polygon it belongs to. */
  ghost predicate PlacedIn(mp: seq<Polygon>, outers: seq<Ring>) {
    forall i: nat, j: nat :: i < |mp| && 0 < j < |mp[i]| ==> Belongs(mp[i][j], i, outers)
  }

  /** Heads in order, each hole once and where it belongs. */
  ghost predicate Assembled(mp: seq<Polygon>, outers: seq<Ring>, holes: seq<Ring>) {
    HeadedBy(mp, outers) && PlacedIn(mp, outers) && multiset(Holes(mp)) == multiset(holes)
  }

  lemma AssembledFrom(mp: seq<Polygon>, outers: seq<Ring>, holes: seq<Ring>)
    requires Headed(mp) && HeadedBy(mp, outers) && PlacedIn(mp, outers) && multiset(Holes(mp)) == multiset(holes)
    ensures Assembled(mp, outers, holes)
  {
  }

  lemma {:induction false} HolesConcat(a: seq<Polygon>, b: seq<Polygon>)
    requires Headed(a) && Headed(b)
    ensures Headed(a + b) && Holes(a + b) == Holes(a) + Holes(b)
    decreases |b|
  {
    hide Holes;
    if b == [] {
      assert a + b == a;
      NoHoles();
    } else {
      var b', p := b[..|b| - 1], b[|b| - 1];
      assert Headed(b') && b == b' + [p] && a + b == a + b' + [p];
      HolesConcat(a, b');
      HolesAppend(b', p);
      HolesAppend(a + b', p);
      assert Holes(a) + Holes(b') + p[1..] == Holes(a) + (Holes(b') + p[1..]);
    }
  }

  lemma NoHoles()
    ensures Holes([]) == []
  {
  }

  lemma HolesAppend(mp: seq<Polygon>, p: Polygon)
    requires Headed(mp) && p != []
    ensures Headed(mp + [p]) && Holes(mp + [p]) == Holes(mp) + p[1..]
  {
    assert (mp + [p])[..|mp|] == mp;
  }

  lemma HolesOne(p: Polygon)
    requires p != []
    ensures Headed([p]) && Holes([p]) == p[1..]
  {
    assert [p][..0] == [];
  }

  lemma HolesAt(mp: seq<Polygon>, i: nat)
    requires Headed(mp) && i < |mp|
    ensures Headed(mp[..i]) && Headed(mp[i + 1..])
    ensures Holes(mp) == Holes(mp[..i]) + mp[i][1..] + Holes(mp[i + 1..])
  {
    HeadedAt(mp, i);
    hide *;
    RemoveAtIs(mp, i);
    HolesAppend(mp[..i], mp[i]);
    HolesConcat(mp[..i] + [mp[i]], mp[i + 1..]);
  }

  lemma HeadedAt(mp: seq<Polygon>, i: nat)
    requires Headed(mp) && i < |mp|
    ensures mp[i] != [] && Headed(mp[..i]) && Headed(mp[..i] + [mp[i]]) && Headed(mp[i + 1..])
  {
  }

  lemma WithHoleCounts(mp: seq<Polygon>, i: nat, r: Ring)
    requires Headed(mp) && i < |mp|
    ensures Headed(WithHole(mp, i, r))
    ensures multiset(Holes(WithHole(mp, i, r))) == multiset(Holes(mp)) + multiset{r}
  {
    var out := WithHole(mp, i, r);
    WithHoleIs(mp, i, r);
    hide *;
    HolesAt(mp, i);
    HolesAt(out, i);
    AddedCounts(Holes(mp[..i]), mp[i][1..], Holes(mp[i + 1..]), r);
  }

  lemma WithHoleIs(mp: seq<Polygon>, i: nat, r: Ring)
    requires Headed(mp) && i < |mp|
    ensures var out := WithHole(mp, i, r);
      && Headed(out) && |out| == |mp| && mp[i] != [] && out[i] != []
      && out[..i] == mp[..i] && out[i + 1..] == mp[i + 1..] && out[i][1..] == mp[i][1..] + [r]
  {
  }

  lemma AddedCounts<A>(a: seq<A>, b: seq<A>, c: seq<A>, x: A)
    ensures multiset(a + (b + [x]) + c) == multiset(a + b + c) + multiset{x}
  {
  }

  lemma NewHoleCounts(mp: seq<Polygon>, r: Ring)
    requires Headed(mp)
    ensures Headed(mp + [[[], r]])
    ensures multiset(Holes(mp + [[[], r]])) == multiset(Holes(mp)) + multiset{r}
  {
    hide Holes;
    HolesOne([[], r]);
    HolesConcat(mp, [[[], r]]);
  }

  /** Adding a hole adds just that hole, keeps every head, and makes at most one polygon without
      an outer ring. With closed heads the "first outer is open" case does not arise. */
  lemma AddKeeps(mp: seq<Polygon>, r: Ring, out: seq<Polygon>, outers: seq<Ring>)
    requires HeadedBy(mp, outers) && outers != [] && forall i :: 0 <= i < |outers| ==> ValidOuter(outers[i])
    requires forall i: nat :: FirstContaining(mp, r, i) ==> out == WithHole(mp, i, r)
    requires Homeless(mp, r) && !OpenFirst(mp) ==>
      if exists i: nat :: FirstEmpty(mp, i) then exists i: nat :: FirstEmpty(mp, i) && out == WithHole(mp, i, r)
      else out == mp + [[[], r]]
    ensures !OpenFirst(mp)
    ensures HeadedBy(out, outers) && multiset(Holes(out)) == multiset(Holes(mp)) + multiset{r}
  {
    hide Holes, Contains;
    assert mp[0][0] == outers[0];
    assert |mp| > |outers| ==> FirstEmpty(mp, |outers|);
    if !Homeless(mp, r) {
      var k := LeastContaining(mp, r);
      WithHoleCounts(mp, k, r);
    } else if i: nat :| FirstEmpty(mp, i) && out == WithHole(mp, i, r) {
      WithHoleCounts(mp, i, r);
    } else {
      NewHoleCounts(mp, r);
    }
  }

  lemma NothingInEmpty(r: Ring)
    ensures !Contains([], r)
  {
  }

  /** A new hole is put where it belongs, and no other hole moves. */
  lemma AddPlaces(mp: seq<Polygon>, r: Ring, out: seq<Polygon>, outers: seq<Ring>)
    requires HeadedBy(mp, outers) && PlacedIn(mp, outers) && Headed(mp) && !OpenFirst(mp)
    requires forall i :: 0 <= i < |outers| ==> ValidOuter(outers[i])
    requires forall i: nat :: FirstContaining(mp, r, i) ==> out == WithHole(mp, i, r)
    requires Homeless(mp, r) && !OpenFirst(mp) ==>
      if exists i: nat :: FirstEmpty(mp, i) then exists i: nat :: FirstEmpty(mp, i) && out == WithHole(mp, i, r)
      else out == mp + [[[], r]]
    ensures PlacedIn(out, outers)
  {
    NothingInEmpty(r);
    hide Contains;
    if !Homeless(mp, r) {
      var k := LeastContaining(mp, r);
      assert Belongs(r, k, outers);
    } else {
      assert forall k :: 0 <= k < |outers| ==> !Contains(outers[k], r) by {
        assert forall k :: 0 <= k < |outers| ==> mp[k][0] == outers[k];
      }
      assert Belongs(r, |outers|, outers);
      assert |mp| > |outers| ==> FirstEmpty(mp, |outers|);
    }
    hide Belongs;
  }

  lemma LeastContaining(mp: seq<Polygon>, r: Ring) returns (k: nat)
    requires Headed(mp) && !Homeless(mp, r)
    ensures FirstContaining(mp, r, k)
  {
    k := 0;
    while !Contains(mp[k][0], r)
      invariant k < |mp| && forall j :: 0 <= j < k ==> !Contains(mp[j][0], r)
      decreases |mp| - k
    {
      k := k + 1;
    }
  }

  /** The rings of groups, in order. */
  function Rings(groups: seq<seq<Way>>, o: int, winding: Winding): (r: seq<Ring>)
    ensures |r| == |groups|
  {
    seq(|groups|, i requires 0 <= i < |groups| => RingOf(groups[i], o, winding))
  }

  function ValidOnly(rings: seq<Ring>): (r: seq<Ring>)
    ensures forall i :: 0 <= i < |r| ==> ValidOuter(r[i])
  {
    if rings == [] then [] else
    ValidOnly(rings[..|rings| - 1]) + If(ValidOuter(rings[|rings| - 1]), [rings[|rings| - 1]])
  }

  /** The groups `join` makes of these ways. */
  function JoinedGroups(ways: seq<Way>): seq<seq<Way>> {
    LongOnlyAll(ways);
    Groups(LongOnly(ways))
  }

  lemma LongOnlyAll(ways: seq<Way>)
    ensures AllLong(LongOnly(ways))
  {
    LongOnlyLong(ways);
    assert forall k: nat :: k < |LongOnly(ways)| ==> LongOnly(ways)[k] in LongOnly(ways);
  }

  /** A ring as a way, to count its edges. */
  function AsWay(r: Ring): Way { Way(0, 0, false, r) }

  /** The edges of all the rings, counted with multiplicity. */
  ghost function RingEdges(rings: seq<Ring>): multiset<Edge> { AllEdges(Map(AsWay, rings)) }

  lemma RingEdgesAppend(rings: seq<Ring>, r: Ring)
    ensures RingEdges(rings + [r]) == RingEdges(rings) + Edges(r)
  {
    hide AllEdges;
    MapConcat(AsWay, rings, [r]);
    assert Map(AsWay, [r]) == [AsWay(r)];
    AllEdgesAppend(Map(AsWay, rings), AsWay(r));
  }

  lemma RingEdgesPerm(a: seq<Ring>, b: seq<Ring>)
    requires multiset(a) == multiset(b)
    ensures RingEdges(a) == RingEdges(b)
  {
    hide AllEdges, Map;
    MapPerm(AsWay, a, b);
    AllEdgesPerm(Map(AsWay, a), Map(AsWay, b));
  }

  /** The groups that make a valid outer ring: where their ways came from. */
  ghost function ValidTraces(groups: seq<seq<Way>>, ts: seq<Trace>, winding: Winding): seq<Trace>
    requires |groups| == |ts|
  {
    if groups == [] then [] else
    var n := |groups| - 1;
    ValidTraces(groups[..n], ts[..n], winding) + If(ValidOuter(RingOf(groups[n], CCW, winding)), [ts[n]])
  }

  ghost predicate AllWoven(groups: seq<seq<Way>>, ts: seq<Trace>) {
    |groups| == |ts| && forall g :: 0 <= g < |groups| ==> Woven(groups[g], ts[g])
  }

  lemma AllOrigsAppend(ts: seq<Trace>, t: Trace)
    ensures AllOrigs(ts + [t]) == AllOrigs(ts) + t.origs
  {
    assert (ts + [t])[..|ts|] == ts;
  }

  lemma RingsAppend(groups: seq<seq<Way>>, o: int, winding: Winding)
    requires groups != []
    ensures var n := |groups| - 1; Rings(groups, o, winding) == Rings(groups[..n], o, winding) + [RingOf(groups[n], o, winding)]
  {
  }

  lemma AllWovenFront(groups: seq<seq<Way>>, ts: seq<Trace>)
    requires AllWoven(groups, ts) && groups != []
    ensures var n := |groups| - 1; AllWoven(groups[..n], ts[..n]) && Woven(groups[n], ts[n]) && ts == ts[..n] + [ts[n]]
  {
    hide Woven;
  }

  /** All rings made of the groups have the edges of the ways in the groups. */
  lemma {:induction false} RingsKeepEdges(groups: seq<seq<Way>>, ts: seq<Trace>, o: int, winding: Winding)
    requires AllWoven(groups, ts)
    ensures RingEdges(Rings(groups, o, winding)) == AllEdges(AllOrigs(ts))
    decreases |groups|
  {
    if groups == [] {
      assert ts == [] && Rings(groups, o, winding) == [];
    } else {
      var n := |groups| - 1;
      hide *;
      AllWovenFront(groups, ts);
      RingsKeepEdges(groups[..n], ts[..n], o, winding);
      RingKeepsGroup(groups[n], ts[n], o, winding);
      RingsAppend(groups, o, winding);
      RingEdgesAppend(Rings(groups[..n], o, winding), RingOf(groups[n], o, winding));
      AllOrigsAppend(ts[..n], ts[n]);
      AllEdgesConcat(AllOrigs(ts[..n]), ts[n].origs);
    }
  }

  /** The valid ones among them have the edges of the ways in their groups. */
  lemma {:induction false} ValidKeepEdges(groups: seq<seq<Way>>, ts: seq<Trace>, winding: Winding)
    requires AllWoven(groups, ts)
    ensures RingEdges(ValidOnly(Rings(groups, CCW, winding))) == AllEdges(AllOrigs(ValidTraces(groups, ts, winding)))
    decreases |groups|
  {
    if groups == [] {
      assert Rings(groups, CCW, winding) == [];
    } else {
      var n := |groups| - 1;
      var ring := RingOf(groups[n], CCW, winding);
      hide *;
      AllWovenFront(groups, ts);
      ValidKeepEdges(groups[..n], ts[..n], winding);
      RingsAppend(groups, CCW, winding);
      ValidSteps(groups, ts, winding);
      if ValidOuter(ring) {
        RingKeepsGroup(groups[n], ts[n], CCW, winding);
        RingEdgesAppend(ValidOnly(Rings(groups[..n], CCW, winding)), ring);
        AllOrigsAppend(ValidTraces(groups[..n], ts[..n], winding), ts[n]);
        AllEdgesConcat(AllOrigs(ValidTraces(groups[..n], ts[..n], winding)), ts[n].origs);
      }
    }
  }

  lemma ValidSteps(groups: seq<seq<Way>>, ts: seq<Trace>, winding: Winding)
    requires |groups| == |ts| > 0
    ensures var n := |groups| - 1;
      var ring, rings, front := RingOf(groups[n], CCW, winding), Rings(groups, CCW, winding), Rings(groups[..n], CCW, winding);
      && ValidOnly(rings) == (if ValidOuter(ring) then ValidOnly(front) + [ring] else ValidOnly(front))
      && ValidTraces(groups, ts, winding)
         == (if ValidOuter(ring) then ValidTraces(groups[..n], ts[..n], winding) + [ts[n]] else ValidTraces(groups[..n], ts[..n], winding))
  {
    var n := |groups| - 1;
    RingsAppend(groups, CCW, winding);
    hide ValidOuter, RingOf, Rings;
    var front, rings := Rings(groups[..n], CCW, winding), Rings(groups, CCW, winding);
    assert rings[..|rings| - 1] == front;
  }

  lemma JoinedWoven(input: seq<Way>, lists: seq<seq<Way>>, ts: seq<Trace>)
    requires Joined(input, lists, ts)
    ensures AllWoven(lists, ts) && AllEdges(AllOrigs(ts)) == AllEdges(input)
  {
    hide Woven, Done, AllEdges, AllOrigs, LongOnly;
    AllEdgesPerm(AllOrigs(ts), LongOnly(input));
    ShortWaysHaveNoEdges(input);
  }

  /** The outer rings of the polygons, in order. */
  function Heads(mp: seq<Polygon>): (r: seq<Ring>)
    requires Headed(mp)
    ensures |r| == |mp| && forall i :: 0 <= i < |mp| ==> r[i] == mp[i][0]
  {
    seq(|mp|, i requires 0 <= i < |mp| => mp[i][0])
  }

  /** An empty outer ring adds no edges. */
  lemma HeadEdges(mp: seq<Polygon>, outers: seq<Ring>)
    requires HeadedBy(mp, outers)
    ensures RingEdges(Heads(mp)) == RingEdges(outers)
  {
    hide Edges;
    if |mp| == |outers| {
      assert Heads(mp) == outers;
    } else {
      assert Heads(mp) == outers + [[]];
      RingEdgesAppend(outers, []);
      NoEdges();
    }
  }

  lemma NoEdges()
    ensures Edges([]) == multiset{}
  {
  }

  /** What a finished multipolygon is made of: its holes have the edges of the inner ways, and its
      outer rings those of the ways whose groups make a valid one. */
  ghost predicate Conserves(mp: seq<Polygon>, outer: seq<Way>, inner: seq<Way>, ts: seq<Trace>, winding: Winding) {
    && Headed(mp) && RingEdges(Holes(mp)) == AllEdges(inner)
    && Joined(outer, JoinedGroups(outer), ts)
    && RingEdges(Heads(mp)) == AllEdges(AllOrigs(ValidTraces(JoinedGroups(outer), ts, winding)))
  }

  lemma AssembledConserves(mp: seq<Polygon>, outer: seq<Way>, inner: seq<Way>, ts: seq<Trace>, its: seq<Trace>, winding: Winding)
    requires Joined(outer, JoinedGroups(outer), ts) && Joined(inner, JoinedGroups(inner), its)
    requires Assembled(mp, ValidOnly(Rings(JoinedGroups(outer), CCW, winding)), Rings(JoinedGroups(inner), CW, winding))
    ensures Conserves(mp, outer, inner, ts, winding) && Headed(mp) && RingEdges(Holes(mp)) == AllEdges(inner)
  {
    var outers, holes := ValidOnly(Rings(JoinedGroups(outer), CCW, winding)), Rings(JoinedGroups(inner), CW, winding);
    hide Headed, HeadedBy, PlacedIn, Holes, Heads, RingEdges, AllEdges, AllOrigs, Joined, JoinedGroups, Rings, ValidOnly, ValidTraces, AllWoven;
    HeadedBySays(mp, outers);
    JoinedWoven(outer, JoinedGroups(outer), ts);
    JoinedWoven(inner, JoinedGroups(inner), its);
    RingEdgesPerm(Holes(mp), holes);
    RingsKeepEdges(JoinedGroups(inner), its, CW, winding);
    HeadEdges(mp, outers);
    ValidKeepEdges(JoinedGroups(outer), ts, winding);
  }

  lemma HeadedBySays(mp: seq<Polygon>, outers: seq<Ring>)
    requires HeadedBy(mp, outers)
    ensures Headed(mp)
  {
  }

  /** One outer way and its holes. */
  lemma OneConserves(outer: seq<Way>, inner: seq<Way>, its: seq<Trace>, winding: Winding)
    requires |outer| == 1 && ValidOuter(RingOf(outer, CCW, winding)) && Joined(inner, JoinedGroups(inner), its)
    ensures var ring, holes := RingOf(outer, CCW, winding), Rings(JoinedGroups(inner), CW, winding);
      Edges(ring) == AllEdges(outer) && RingEdges(holes) == AllEdges(inner)
  {
    var w := outer[0];
    LineStringOne(w);
    assert outer == [w] && Long(w);
    hide *;
    WovenSeed(w);
    RingKeepsGroup(outer, Trace(outer, outer, 0), CCW, winding);
    JoinedWoven(inner, JoinedGroups(inner), its);
    RingsKeepEdges(JoinedGroups(inner), its, CW, winding);
  }

  method JoinWays(ways: seq<Way>) returns (lists: seq<seq<Way>>, ghost ts: seq<Trace>)
    ensures lists == JoinedGroups(ways) && Joined(ways, lists, ts)
  {
    var segs := new Way[|ways|](i requires 0 <= i < |ways| => ways[i]);
    assert segs[..] == ways;
    lists, ts := Join(segs);
  }

  /** `buildPolygon`, from the ways that were found. `outerCount` also counts outer members whose
      way was not. ts tells which outer ways are in which group. */
  method BuildPolygon(outer: seq<Way>, inner: seq<Way>, outerCount: nat, winding: Winding)
    returns (r: Result<seq<Polygon>>, ghost ts: seq<Trace>)
    ensures var holes := Rings(JoinedGroups(inner), CW, winding);
      if |outer| == 1 && outerCount == 1 then
        var ring := RingOf(outer, CCW, winding);
        if ValidOuter(ring) then r == Ok([[ring] + holes]) else r == Err
      else
        var outers := ValidOnly(Rings(JoinedGroups(outer), CCW, winding));
        if outers == [] then r == Err
        else r.Ok? && Assembled(r.value, outers, holes)
    ensures r.Ok? && !(|outer| == 1 && outerCount == 1) ==> Conserves(r.value, outer, inner, ts, winding)
    ensures CCW == 1 && CW == -1
    ensures r.Ok? ==> Headed(r.value) && RingEdges(Holes(r.value)) == AllEdges(inner)
    ensures r.Ok? && |outer| == 1 && outerCount == 1 ==> RingEdges(Heads(r.value)) == AllEdges(outer)
  {
    assert CCW == 1 && CW == -1;
    hide *;
    ts := [];
    if |outer| == 1 && outerCount == 1 {
      r := BuildFromOne(outer, inner, winding);
    } else {
      r, ts := BuildFromSeveral(outer, inner, winding);
    }
  }

  /** The one outer way is the ring; every inner group is a hole of it. */
  method BuildFromOne(outer: seq<Way>, inner: seq<Way>, winding: Winding) returns (r: Result<seq<Polygon>>)
    requires |outer| == 1
    ensures r.Ok? ==> Headed(r.value) && RingEdges(Holes(r.value)) == AllEdges(inner) && RingEdges(Heads(r.value)) == AllEdges(outer)
    ensures var ring := RingOf(outer, CCW, winding);
      if ValidOuter(ring) then r == Ok([[ring] + Rings(JoinedGroups(inner), CW, winding)]) else r == Err
  {
    hide *;
    var outerRing := MakeRing(outer, CCW, winding);
    ValidOuterIs(outerRing);
    if |outerRing| < 4 || !ClosedRing(outerRing) {
      return Err;
    }
    var innerSections, its := JoinWays(inner);
    ghost var holes := Rings(innerSections, CW, winding);
    var polygon := [outerRing];
    for i := 0 to |innerSections|
      invariant polygon == [outerRing] + holes[..i]
    {
      var ring := MakeRing(innerSections[i], CW, winding);
      RingsAt(innerSections, CW, winding, i);
      assert holes[..i + 1] == holes[..i] + [holes[i]];
      polygon := polygon + [ring];
    }
    assert holes[..|holes|] == holes;
    OneConserves(outer, inner, its, winding);
    OnePolygon(outerRing, holes);
    return Ok([polygon]);
  }

  lemma OnePolygon(ring: Ring, holes: seq<Ring>)
    ensures Headed([[ring] + holes])
    ensures Holes([[ring] + holes]) == holes && RingEdges(Heads([[ring] + holes])) == Edges(ring)
  {
    HolesOne([ring] + holes);
    assert Heads([[ring] + holes]) == [] + [ring];
    RingEdgesAppend([], ring);
  }

  lemma ValidOuterIs(r: Ring)
    ensures ValidOuter(r) <==> |r| >= 4 && ClosedRing(r)
  {
  }

  lemma RingsAt(groups: seq<seq<Way>>, o: int, winding: Winding, i: nat)
    requires i < |groups|
    ensures Rings(groups, o, winding)[i] == RingOf(groups[i], o, winding)
  {
  }

  /** The closed outer groups head polygons; every inner group goes to the first that contains it. */
  method BuildFromSeveral(outer: seq<Way>, inner: seq<Way>, winding: Winding)
    returns (r: Result<seq<Polygon>>, ghost ts: seq<Trace>)
    ensures var outers := ValidOnly(Rings(JoinedGroups(outer), CCW, winding));
      if outers == [] then r == Err
      else r.Ok? && Assembled(r.value, outers, Rings(JoinedGroups(inner), CW, winding))
    ensures r.Ok? ==> Headed(r.value) && RingEdges(Holes(r.value)) == AllEdges(inner)
    ensures r.Ok? ==> Conserves(r.value, outer, inner, ts, winding)
  {
    hide *;
    var outerSections;
    outerSections, ts := JoinWays(outer);
    var mp := OuterPolygons(outerSections, winding);
    ghost var outers := ValidOnly(Rings(outerSections, CCW, winding));
    OnlyHeadsStart(mp, outers);
    if |mp| == 0 {
      return Err, ts;
    }
    var innerSections, its := JoinWays(inner);
    ghost var holes := Rings(innerSections, CW, winding);
    for i := 0 to |innerSections|
      invariant Headed(mp) && HeadedBy(mp, outers) && PlacedIn(mp, outers) && multiset(Holes(mp)) == multiset(holes[..i])
    {
      var ring := MakeRing(innerSections[i], CW, winding);
      var out := AddToMultiPolygon(mp, ring);
      AddKeeps(mp, ring, out, outers);
      AddPlaces(mp, ring, out, outers);
      mp := out;
      RingsAt(innerSections, CW, winding, i);
      assert holes[..i + 1] == holes[..i] + [holes[i]];
    }
    assert holes[..|holes|] == holes;
    AssembledFrom(mp, outers, holes);
    AssembledConserves(mp, outer, inner, ts, its, winding);
    return Ok(mp), ts;
  }

  method OuterPolygons(outerSections: seq<seq<Way>>, winding: Winding) returns (mp: seq<Polygon>)
    ensures OnlyHeads(mp, ValidOnly(Rings(outerSections, CCW, winding)))
  {
    hide *;
    ghost var rings := Rings(outerSections, CCW, winding);
    mp := [];
    NoHeads();
    for i := 0 to |outerSections|
      invariant OnlyHeads(mp, ValidOnly(rings[..i]))
    {
      var ring := MakeRing(outerSections[i], CCW, winding);
      RingsAt(outerSections, CCW, winding, i);
      HeadsNext(mp, rings, i);
      if |ring| >= 4 && ClosedRing(ring) {
        mp := mp + [[ring]];
      }
    }
    assert rings[..|rings|] == rings;
  }

  /** Polygons without holes, headed by exactly these rings. */
  ghost predicate OnlyHeads(mp: seq<Polygon>, outers: seq<Ring>) {
    |mp| == |outers| && forall i :: 0 <= i < |mp| ==> mp[i] == [outers[i]]
  }

  lemma NoHeads()
    ensures OnlyHeads([], ValidOnly([]))
  {
  }

  lemma HeadsNext(mp: seq<Polygon>, rings: seq<Ring>, i: nat)
    requires i < |rings| && OnlyHeads(mp, ValidOnly(rings[..i]))
    ensures OnlyHeads(if |rings[i]| >= 4 && ClosedRing(rings[i]) then mp + [[rings[i]]] else mp, ValidOnly(rings[..i + 1]))
  {
    assert rings[..i + 1][..i] == rings[..i];
  }

  lemma {:induction false} OnlyHeadsStart(mp: seq<Polygon>, outers: seq<Ring>)
    requires OnlyHeads(mp, outers)
    ensures HeadedBy(mp, outers) && PlacedIn(mp, outers) && Headed(mp) && Holes(mp) == [] && |mp| == |outers|
    decreases |mp|
  {
    if mp != [] {
      OnlyHeadsStart(mp[..|mp| - 1], outers[..|mp| - 1]);
    }
  }
}
