/** Ways of geoparser/geommaker.go as values: lines, their undirected edges, and what it means
    for a group of ways to be woven into one continuous line. */
module Ways {
  import opened Seqs

  datatype Pt = Pt(x: real, y: real)

  datatype Way = Way(index: int, orientation: int, reversed: bool, line: seq<Pt>)

  function Reversed<A>(s: seq<A>): (r: seq<A>)
    ensures |r| == |s|
    ensures forall i :: 0 <= i < |s| ==> r[i] == s[|s| - 1 - i]
  {
    seq(|s|, i requires 0 <= i < |s| => s[|s| - 1 - i])
  }

  /** `segment.Reverse`. */
  function Turned(w: Way): Way {
    w.(reversed := !w.reversed, line := Reversed(w.line))
  }

  /** A way with at least one edge; `compact` keeps just these. */
  predicate Long(w: Way) { |w.line| >= 2 }

  function Head(w: Way): Pt
    requires w.line != []
  {
    w.line[0]
  }

  function Tail(w: Way): Pt
    requires w.line != []
  {
    w.line[|w.line| - 1]
  }

  function First(ms: seq<Way>): Pt
    requires ms != [] && ms[0].line != []
  {
    ms[0].line[0]
  }

  function Last(ms: seq<Way>): Pt
    requires ms != [] && ms[|ms| - 1].line != []
  {
    var line := ms[|ms| - 1].line;
    line[|line| - 1]
  }

  /** `LineString`: all lines one after the other. */
  function LineString(ms: seq<Way>): seq<Pt> {
    if ms == [] then [] else LineString(ms[..|ms| - 1]) + ms[|ms| - 1].line
  }

  // ---------------------------------------------------------------------------
  // Undirected edges

  /** An undirected edge is the set of its two ends. */
  type Edge = set<Pt>

  ghost function Between(p: Pt, q: Pt): Edge { {p, q} }

  lemma BetweenSymmetric(p: Pt, q: Pt)
    ensures Between(p, q) == Between(q, p)
  {
  }

  ghost function Edges(l: seq<Pt>): multiset<Edge> {
    if |l| < 2 then multiset{} else Edges(l[..|l| - 1]) + multiset{Between(l[|l| - 2], l[|l| - 1])}
  }

  /** The edges of all the ways, counted with multiplicity. */
  ghost function AllEdges(ws: seq<Way>): multiset<Edge> {
    if ws == [] then multiset{} else AllEdges(ws[..|ws| - 1]) + Edges(ws[|ws| - 1].line)
  }

  /** Appending a line without its first point, where the lines meet, adds just its edges. */
  lemma {:induction false} EdgesJoin(a: seq<Pt>, l: seq<Pt>)
    requires a != [] && l != [] && a[|a| - 1] == l[0]
    ensures Edges(a + l[1..]) == Edges(a) + Edges(l)
    decreases |l|
  {
    hide Edges, Between;
    if |l| == 1 {
      assert a + l[1..] == a;
      EdgesNone(l);
    } else {
      var l' := l[..|l| - 1];
      EdgesJoin(a, l');
      JoinedStep(a, l);
      EdgesStep(a + l[1..]);
      EdgesStep(l);
    }
  }

  lemma EdgesNone(l: seq<Pt>)
    requires |l| < 2
    ensures Edges(l) == multiset{}
  {
  }

  /** The last edge of a line is the last edge once it is laid on. */
  lemma JoinedStep(a: seq<Pt>, l: seq<Pt>)
    requires a != [] && |l| >= 2 && a[|a| - 1] == l[0]
    ensures var r, n := a + l[1..], |a| + |l| - 1;
      |r| == n >= 2 && r[..n - 1] == a + l[..|l| - 1][1..] && r[n - 2] == l[|l| - 2] && r[n - 1] == l[|l| - 1]
  {
  }

  /** Prepending a line without its last point, likewise. */
  lemma EdgesJoinFront(l: seq<Pt>, a: seq<Pt>)
    requires a != [] && l != [] && l[|l| - 1] == a[0]
    ensures Edges(l[..|l| - 1] + a) == Edges(l) + Edges(a)
  {
    assert l[..|l| - 1] + a == l + a[1..];
    EdgesJoin(l, a);
  }

  lemma EdgesStep(l: seq<Pt>)
    requires |l| >= 2
    ensures Edges(l) == Edges(l[..|l| - 1]) + multiset{Between(l[|l| - 2], l[|l| - 1])}
  {
  }

  lemma EdgesTwo(p: Pt, q: Pt)
    ensures Edges([p, q]) == multiset{Between(p, q)}
  {
    assert [p, q][..1] == [p];
  }

  lemma ReversedStep<A>(l: seq<A>)
    requires |l| >= 2
    ensures Reversed(l) == [l[|l| - 1], l[|l| - 2]] + Reversed(l[..|l| - 1])[1..]
  {
  }

  lemma {:induction false} EdgesReversed(l: seq<Pt>)
    ensures Edges(Reversed(l)) == Edges(l)
    decreases |l|
  {
    if |l| >= 2 {
      hide Edges, Reversed, Between;
      var l' := l[..|l| - 1];
      var p, q := l[|l| - 1], l[|l| - 2];
      EdgesReversed(l');
      ReversedStep(l);
      EdgesJoin([p, q], Reversed(l'));
      EdgesTwo(p, q);
      EdgesStep(l);
      BetweenSymmetric(p, q);
    } else {
      assert Reversed(l) == l;
    }
  }

  lemma AllEdgesAppend(ws: seq<Way>, w: Way)
    ensures AllEdges(ws + [w]) == AllEdges(ws) + Edges(w.line)
  {
    assert (ws + [w])[..|ws|] == ws;
  }

  lemma AllEdgesNone()
    ensures AllEdges([]) == multiset{}
  {
  }

  lemma {:induction false} AllEdgesConcat(a: seq<Way>, b: seq<Way>)
    ensures AllEdges(a + b) == AllEdges(a) + AllEdges(b)
    decreases |b|
  {
    hide AllEdges, Edges;
    if b == [] {
      AllEdgesNone();
      assert a + b == a;
    } else {
      var b', w := b[..|b| - 1], b[|b| - 1];
      AllEdgesConcat(a, b');
      AllEdgesAppend(a + b', w);
      AllEdgesAppend(b', w);
      assert a + b == a + b' + [w] && b == b' + [w];
    }
  }

  lemma AllEdgesRemoveAt(ws: seq<Way>, k: nat)
    requires k < |ws|
    ensures AllEdges(ws) == AllEdges(RemoveAt(ws, k)) + Edges(ws[k].line)
  {
    hide *;
    RemoveAtIs(ws, k);
    AllEdgesConcat(ws[..k] + [ws[k]], ws[k + 1..]);
    AllEdgesAppend(ws[..k], ws[k]);
    AllEdgesConcat(ws[..k], ws[k + 1..]);
    SwapLast(AllEdges(ws[..k]), Edges(ws[k].line), AllEdges(ws[k + 1..]));
  }

  lemma SwapLast<A>(a: multiset<A>, b: multiset<A>, c: multiset<A>)
    ensures a + b + c == a + c + b
  {
  }

  /** Only which ways there are matters, not their order. */
  lemma {:induction false} AllEdgesPerm(a: seq<Way>, b: seq<Way>)
    requires multiset(a) == multiset(b)
    ensures AllEdges(a) == AllEdges(b)
    decreases |a|
  {
    hide AllEdges, Edges, RemoveAt;
    SameSize(a, b);
    if a != [] {
      var k := IndexIn(a[0], b, a);
      AllEdgesRemoveAt(a, 0);
      AllEdgesRemoveAt(b, k);
      RemoveAtCounts(a, 0);
      RemoveAtCounts(b, k);
      MultisetCancel(multiset(RemoveAt(a, 0)), multiset(RemoveAt(b, k)), a[0]);
      AllEdgesPerm(RemoveAt(a, 0), RemoveAt(b, k));
    }
  }

  // ---------------------------------------------------------------------------
  // Woven groups

  /** How a group came about: the whole ways as laid end to end, the input ways they are, and
      which of them the group started from. */
  datatype Trace = Trace(parts: seq<Way>, origs: seq<Way>, seed: nat)

  /** A way used as it is, or from its end to its beginning with its flag flipped. */
  predicate SameWay(p: Way, o: Way) {
    && p.index == o.index && p.orientation == o.orientation
    && (if p.reversed == o.reversed then p.line == o.line else p.line == Reversed(o.line))
  }

  /** ms is the group: every way appears once, as it is or turned; each end meets the next
      beginning; and of every way but the seed just the point it shares with its neighbour
      towards the seed is dropped. */
  ghost predicate Woven(ms: seq<Way>, t: Trace) {
    && |ms| == |t.parts| == |t.origs| && t.seed < |ms|
    && (forall i :: 0 <= i < |ms| ==> Long(t.parts[i]) && SameWay(t.parts[i], t.origs[i]))
    && (forall i :: 0 <= i < |ms| - 1 ==> Tail(t.parts[i]) == Head(t.parts[i + 1]))
    && (forall i :: 0 <= i < |ms| ==> ms[i] == t.parts[i].(line := Kept(t.parts[i].line, i, t.seed)))
  }

  /** What remains of the line at position i of a group grown from position seed. */
  function Kept(l: seq<Pt>, i: nat, seed: nat): seq<Pt>
    requires |l| >= 2
  {
    if i < seed then l[..|l| - 1] else if i == seed then l else l[1..]
  }

  lemma TurnedSame(w: Way)
    ensures SameWay(w, w) && SameWay(Turned(w), w)
  {
  }

  lemma WovenSeed(w: Way)
    requires Long(w)
    ensures Woven([w], Trace([w], [w], 0))
  {
  }

  lemma WovenEnds(ms: seq<Way>, t: Trace)
    requires Woven(ms, t)
    ensures ms != [] && forall i :: 0 <= i < |ms| ==> ms[i].line != []
    ensures First(ms) == Head(t.parts[0]) && Last(ms) == Tail(t.parts[|ms| - 1])
  {
  }

  lemma WovenAppend(ms: seq<Way>, t: Trace, p: Way, o: Way)
    requires Woven(ms, t) && Long(p) && SameWay(p, o) && Tail(t.parts[|ms| - 1]) == Head(p)
    ensures Woven(ms + [p.(line := p.line[1..])], Trace(t.parts + [p], t.origs + [o], t.seed))
  {
    hide SameWay, Head, Tail;
  }

  lemma WovenPrepend(ms: seq<Way>, t: Trace, p: Way, o: Way)
    requires Woven(ms, t) && Long(p) && SameWay(p, o) && Tail(p) == Head(t.parts[0])
    ensures Woven([p.(line := p.line[..|p.line| - 1])] + ms, Trace([p] + t.parts, [o] + t.origs, t.seed + 1))
  {
    hide SameWay, Head, Tail;
  }

  lemma {:induction false} LineStringConcat(a: seq<Way>, b: seq<Way>)
    ensures LineString(a + b) == LineString(a) + LineString(b)
    decreases |b|
  {
    hide LineString;
    if b == [] {
      assert a + b == a;
      LineStringNone();
    } else {
      var b', w := b[..|b| - 1], b[|b| - 1];
      LineStringConcat(a, b');
      LineStringAppend(a + b', w);
      LineStringAppend(b', w);
      assert a + b == a + b' + [w] && b == b' + [w];
      assert LineString(a) + LineString(b') + w.line == LineString(a) + (LineString(b') + w.line);
    }
  }

  lemma LineStringNone()
    ensures LineString([]) == []
  {
  }

  lemma LineStringOne(w: Way)
    ensures LineString([w]) == w.line
  {
    assert [w][..0] == [];
  }

  /** The line of a woven group runs from its first point to its last and has exactly the edges
      of its ways: none is lost, doubled or invented at a joint. */
  lemma {:induction false} WovenEdges(ms: seq<Way>, t: Trace)
    requires Woven(ms, t)
    ensures LineString(ms) != [] && t.parts != [] && t.parts[0].line != [] && t.parts[|t.parts| - 1].line != []
    ensures LineString(ms)[0] == Head(t.parts[0])
    ensures LineString(ms)[|LineString(ms)| - 1] == Tail(t.parts[|t.parts| - 1])
    ensures Edges(LineString(ms)) == AllEdges(t.parts)
    decreases |ms|
  {
    hide LineString, AllEdges, Edges, Woven;
    var n := |ms|;
    WovenBounds(ms, t);
    if n == 1 {
      LineStringOne(ms[0]);
      AllEdgesOne(t.parts[0]);
    } else if t.seed < n - 1 {
      var front := ms[..n - 1];
      var u := WovenButLast(ms, t);
      WovenEdges(front, u);
      EdgesJoin(LineString(front), t.parts[n - 1].line);
      JoinBack(LineString(front), t.parts[n - 1].line);
      LineStringAppend(front, ms[n - 1]);
      AllEdgesAppend(u.parts, t.parts[n - 1]);
    } else {
      var back := ms[1..];
      var u := WovenButFirst(ms, t);
      WovenEdges(back, u);
      EdgesJoinFront(t.parts[0].line, LineString(back));
      JoinFront(t.parts[0].line, LineString(back));
      LineStringConcat([ms[0]], back);
      LineStringOne(ms[0]);
      AllEdgesConcat([t.parts[0]], u.parts);
      AllEdgesOne(t.parts[0]);
    }
  }

  lemma WovenBounds(ms: seq<Way>, t: Trace)
    requires Woven(ms, t)
    ensures 0 <= t.seed < |ms| == |t.parts| && t.parts[0].line != [] && t.parts[|ms| - 1].line != []
    ensures |ms| == 1 ==> ms == [ms[0]] && t.parts == [t.parts[0]] && ms[0].line == t.parts[0].line
  {
  }

  lemma JoinBack(a: seq<Pt>, l: seq<Pt>)
    requires a != [] && |l| >= 2 && a[|a| - 1] == l[0]
    ensures var r := a + l[1..]; r != [] && r[0] == a[0] && r[|r| - 1] == l[|l| - 1]
  {
  }

  lemma JoinFront(l: seq<Pt>, a: seq<Pt>)
    requires a != [] && |l| >= 2 && l[|l| - 1] == a[0]
    ensures var r := l[..|l| - 1] + a; r != [] && r[0] == l[0] && r[|r| - 1] == a[|a| - 1]
  {
  }

  lemma LineStringAppend(ms: seq<Way>, w: Way)
    ensures LineString(ms + [w]) == LineString(ms) + w.line
  {
    assert (ms + [w])[..|ms|] == ms;
  }

  lemma AllEdgesOne(w: Way)
    ensures AllEdges([w]) == Edges(w.line)
  {
    assert [w][..0] == [];
  }

  /** Without its last way, a group that did not start there is still woven. */
  lemma WovenButLast(ms: seq<Way>, t: Trace) returns (u: Trace)
    requires Woven(ms, t) && t.seed < |ms| - 1
    ensures var n := |ms| - 1;
      && u == Trace(t.parts[..n], t.origs[..n], t.seed) && Woven(ms[..n], u)
      && ms == ms[..n] + [ms[n]] && t.parts == u.parts + [t.parts[n]] && |u.parts| == n > 0
      && u.parts[0] == t.parts[0]
      && |t.parts[n].line| >= 2 && ms[n].line == t.parts[n].line[1..] && Tail(u.parts[n - 1]) == Head(t.parts[n])
  {
    var n := |ms| - 1;
    u := Trace(t.parts[..n], t.origs[..n], t.seed);
  }

  /** Without its first way, likewise. */
  lemma WovenButFirst(ms: seq<Way>, t: Trace) returns (u: Trace)
    requires Woven(ms, t) && 0 < t.seed
    ensures var n := |ms| - 1;
      && u == Trace(t.parts[1..], t.origs[1..], t.seed - 1) && Woven(ms[1..], u)
      && ms == [ms[0]] + ms[1..] && t.parts == [t.parts[0]] + u.parts && |u.parts| == n > 0
      && u.parts[n - 1] == t.parts[n]
      && |t.parts[0].line| >= 2 && ms[0].line == t.parts[0].line[..|t.parts[0].line| - 1]
      && Tail(t.parts[0]) == Head(u.parts[0])
  {
    u := Trace(t.parts[1..], t.origs[1..], t.seed - 1);
    TailWoven(ms, t);
    assert ms == [ms[0]] + ms[1..] && t.parts == [t.parts[0]] + u.parts;
  }

  lemma TailWoven(ms: seq<Way>, t: Trace)
    requires Woven(ms, t) && 0 < t.seed
    ensures Woven(ms[1..], Trace(t.parts[1..], t.origs[1..], t.seed - 1))
  {
    hide SameWay, Long, Head, Tail;
  }

  /** Turning ways round does not change their edges. */
  lemma {:induction false} SameWaysEdges(parts: seq<Way>, origs: seq<Way>)
    requires |parts| == |origs| && forall i :: 0 <= i < |parts| ==> SameWay(parts[i], origs[i])
    ensures AllEdges(parts) == AllEdges(origs)
    decreases |parts|
  {
    if parts != [] {
      var n := |parts| - 1;
      SameWaysEdges(parts[..n], origs[..n]);
      EdgesReversed(origs[n].line);
    }
  }
}
