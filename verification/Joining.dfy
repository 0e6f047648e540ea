/** `compact` and `join` of geoparser/geommaker.go: greedy stitching of ways into groups over a
    shrinking window of an array. */
module Joining {
  import opened Seqs
  import opened Ways

  predicate AllLong(ws: seq<Way>) {
    forall k: nat :: k < |ws| ==> Long(ws[k])
  }

  /** The ways `compact` keeps, in order. */
  function LongOnly(s: seq<Way>): seq<Way> {
    if s == [] then [] else
    LongOnly(s[..|s| - 1]) + If(Long(s[|s| - 1]), [s[|s| - 1]])
  }

  lemma {:induction false} LongOnlyLong(s: seq<Way>)
    ensures |LongOnly(s)| <= |s|
    ensures forall w :: w in LongOnly(s) <==> w in s && Long(w)
  {
    if s != [] {
      LongOnlyLong(s[..|s| - 1]);
      assert s == s[..|s| - 1] + [s[|s| - 1]];
    }
  }

  lemma LongOnlyNext(s: seq<Way>, i: nat)
    requires i < |s|
    ensures LongOnly(s[..i + 1]) == LongOnly(s[..i]) + If(Long(s[i]), [s[i]])
  {
    assert s[..i + 1][..i] == s[..i];
  }

  /** `compact`: moves the long ways to the front, over the others. */
  method Compact(ms: array<Way>) returns (at: nat)
    modifies ms
    ensures at <= ms.Length && ms[..at] == LongOnly(old(ms[..]))
  {
    ghost var s := ms[..];
    at := 0;
    for i := 0 to ms.Length
      invariant at <= i && ms[..at] == LongOnly(s[..i])
      invariant forall k :: i <= k < ms.Length ==> ms[k] == s[k]
    {
      LongOnlyNext(s, i);
      if Long(ms[i]) {
        ms[at] := ms[i];
        at := at + 1;
      }
    }
    assert s[..ms.Length] == s;
  }

  /** Removes one way from the window lo..hi, shifting the shorter side. */
  method DeleteAt(segs: array<Way>, lo: nat, hi: nat, foundAt: nat, ghost win: seq<Way>) returns (lo': nat, hi': nat)
    requires lo <= hi <= segs.Length && foundAt < hi - lo && win == segs[lo..hi]
    modifies segs
    ensures lo <= lo' <= hi' <= hi && segs[lo'..hi'] == RemoveAt(win, foundAt)
  {
    hide *;
    ghost var s := segs[..];
    if foundAt < (hi - lo) / 2 {
      ShiftUp(segs, lo, lo + foundAt);
      lo', hi' := lo + 1, hi;
      HoleUp(s, segs[..], lo, lo + foundAt, hi);
    } else {
      ShiftDown(segs, lo + foundAt, hi);
      lo', hi' := lo, hi - 1;
      HoleDown(s, segs[..], lo, lo + foundAt, hi);
    }
  }

  lemma HoleUp<A>(s: seq<A>, t: seq<A>, lo: nat, hole: nat, hi: nat)
    requires |s| == |t| && lo <= hole < hi <= |s|
    requires (forall k :: lo < k <= hole ==> t[k] == s[k - 1]) && (forall k :: hole < k < |s| ==> t[k] == s[k])
    ensures t[lo + 1..hi] == RemoveAt(s[lo..hi], hole - lo)
  {
  }

  lemma HoleDown<A>(s: seq<A>, t: seq<A>, lo: nat, hole: nat, hi: nat)
    requires |s| == |t| && lo <= hole < hi <= |s|
    requires (forall k :: 0 <= k < hole ==> t[k] == s[k]) && (forall k :: hole <= k < hi - 1 ==> t[k] == s[k + 1])
    ensures t[lo..hi - 1] == RemoveAt(s[lo..hi], hole - lo)
  {
  }

  /** First half: everything before the hole moves up by one. */
  method ShiftUp(segs: array<Way>, lo: nat, hole: nat)
    requires lo <= hole < segs.Length
    modifies segs
    ensures forall k :: lo < k <= hole ==> segs[k] == old(segs[k - 1])
    ensures forall k :: hole < k < segs.Length ==> segs[k] == old(segs[k])
  {
    ghost var s := segs[..];
    var i := hole;
    while i > lo
      invariant lo <= i <= hole
      invariant forall k :: i < k <= hole ==> segs[k] == s[k - 1]
      invariant forall k :: 0 <= k <= i ==> segs[k] == s[k]
      invariant forall k :: hole < k < segs.Length ==> segs[k] == s[k]
    {
      segs[i] := segs[i - 1];
      i := i - 1;
    }
  }

  /** Second half: everything after the hole moves down by one. */
  method ShiftDown(segs: array<Way>, hole: nat, hi: nat)
    requires hole < hi <= segs.Length
    modifies segs
    ensures forall k :: 0 <= k < hole ==> segs[k] == old(segs[k])
    ensures forall k :: hole <= k < hi - 1 ==> segs[k] == old(segs[k + 1])
  {
    ghost var s := segs[..];
    for i := hole + 1 to hi
      invariant forall k :: hole <= k < i - 1 ==> segs[k] == s[k + 1]
      invariant forall k :: 0 <= k < hole ==> segs[k] == s[k]
      invariant forall k :: i - 1 <= k < segs.Length ==> segs[k] == s[k]
    {
      segs[i - 1] := segs[i];
    }
  }

  /** The four ways a way can continue a group, in the order in which they are tried. */
  datatype Fit = EndAsIs | EndTurned | StartAsIs | StartTurned | NoFit

  function FitOf(first: Pt, last: Pt, w: Way): Fit
    requires Long(w)
  {
    if last == Head(w) then EndAsIs
    else if last == Tail(w) then EndTurned
    else if first == Tail(w) then StartAsIs
    else if first == Head(w) then StartTurned
    else NoFit
  }

  /** A way is tried at the end of the group before its start, and as it is before turned round. */
  lemma FitLaw(first: Pt, last: Pt, w: Way)
    requires |w.line| >= 2
    ensures var fit, a, b := FitOf(first, last, w), w.line[0], w.line[|w.line| - 1];
      && (fit == EndAsIs <==> a == last)
      && (fit == EndTurned <==> b == last && a != last)
      && (fit == StartAsIs <==> b == first && a != last && b != last)
      && (fit == StartTurned <==> a == first && b != first && a != last && b != last)
      && (fit == NoFit <==> a != first && b != first && a != last && b != last)
  {
  }

  /** The group with w laid on, without the point the two share. */
  function Attach(current: seq<Way>, w: Way, fit: Fit): seq<Way>
    requires Long(w) && fit != NoFit
  {
    match fit
    case EndAsIs => current + [w.(line := w.line[1..])]
    case EndTurned => var r := Turned(w); current + [r.(line := r.line[1..])]
    case StartAsIs => [w.(line := w.line[..|w.line| - 1])] + current
    case StartTurned => var r := Turned(w); [r.(line := r.line[..|r.line| - 1])] + current
  }

  ghost predicate NoneFits(first: Pt, last: Pt, ws: seq<Way>)
    requires AllLong(ws)
  {
    forall k :: 0 <= k < |ws| ==> FitOf(first, last, ws[k]) == NoFit
  }

  /** The position of the first way that fits, or the length if none does. */
  function FirstFit(first: Pt, last: Pt, ws: seq<Way>): (k: nat)
    requires AllLong(ws)
    ensures k <= |ws|
    ensures k < |ws| ==> FitOf(first, last, ws[k]) != NoFit
  {
    if ws == [] || FitOf(first, last, ws[0]) != NoFit then 0 else 1 + FirstFit(first, last, ws[1..])
  }

  lemma {:induction false} FirstFitIs(first: Pt, last: Pt, ws: seq<Way>, k: nat)
    requires AllLong(ws) && k <= |ws| && NoneFits(first, last, ws[..k])
    requires k < |ws| ==> FitOf(first, last, ws[k]) != NoFit
    ensures FirstFit(first, last, ws) == k
  {
    if k > 0 {
      assert ws[..k][0] == ws[0] && ws[..k][1..] == ws[1..][..k - 1];
      FirstFitIs(first, last, ws[1..], k - 1);
    }
  }

  /** A group every member of which still has a point. */
  predicate Solid(ms: seq<Way>) {
    ms != [] && forall i :: 0 <= i < |ms| ==> ms[i].line != []
  }

  /** What one group takes from the ways left: the first that fits, again and again. */
  function GroupFrom(current: seq<Way>, ws: seq<Way>): (r: (seq<Way>, seq<Way>))
    requires Solid(current) && AllLong(ws)
    ensures |r.1| <= |ws| && AllLong(r.1)
    decreases |ws|
  {
    var first, last := First(current), Last(current);
    if ws == [] || first == last then (current, ws) else
    var k := FirstFit(first, last, ws);
    if k == |ws| then (current, ws) else
    GroupFrom(Attach(current, ws[k], FitOf(first, last, ws[k])), RemoveAt(ws, k))
  }

  /** The groups `join` makes of its long ways. */
  function Groups(ws: seq<Way>): seq<seq<Way>>
    requires AllLong(ws)
    decreases |ws|
  {
    if ws == [] then [] else
    assert Long(ws[|ws| - 1]);
    var (g, rest) := GroupFrom([ws[|ws| - 1]], ws[..|ws| - 1]);
    [g] + Groups(rest)
  }

  /** The first way in the window that fits, if any. */
  method FindFit(segs: array<Way>, lo: nat, hi: nat, first: Pt, last: Pt, ghost win: seq<Way>) returns (foundAt: int)
    requires lo <= hi <= segs.Length && win == segs[lo..hi] && AllLong(win)
    ensures -1 <= foundAt < |win|
    ensures foundAt == -1 ==> NoneFits(first, last, win)
    ensures foundAt >= 0 ==> FitOf(first, last, win[foundAt]) != NoFit && NoneFits(first, last, win[..foundAt])
    ensures FirstFit(first, last, win) == if foundAt == -1 then |win| else foundAt
  {
    for i := 0 to hi - lo
      invariant NoneFits(first, last, win[..i])
    {
      assert segs[lo + i] == win[i];
      if FitOf(first, last, segs[lo + i]) != NoFit {
        FirstFitIs(first, last, win, i);
        return i;
      }
    }
    assert win[..hi - lo] == win;
    FirstFitIs(first, last, win, |win|);
    return -1;
  }

  /** The trace after laying w on. */
  ghost function Traced(t: Trace, w: Way, fit: Fit): Trace {
    match fit
    case EndAsIs => Trace(t.parts + [w], t.origs + [w], t.seed)
    case EndTurned => Trace(t.parts + [Turned(w)], t.origs + [w], t.seed)
    case StartAsIs => Trace([w] + t.parts, [w] + t.origs, t.seed + 1)
    case _ => Trace([Turned(w)] + t.parts, [w] + t.origs, t.seed + 1)
  }

  lemma TracedCounts(t: Trace, w: Way, fit: Fit)
    ensures multiset(Traced(t, w, fit).origs) == multiset(t.origs) + multiset{w}
  {
  }

  lemma AttachWoven(ms: seq<Way>, t: Trace, w: Way)
    requires Woven(ms, t) && Long(w)
    ensures ms != [] && ms[0].line != [] && ms[|ms| - 1].line != []
    ensures FitOf(First(ms), Last(ms), w) != NoFit ==>
      var fit := FitOf(First(ms), Last(ms), w);
      Woven(Attach(ms, w, fit), Traced(t, w, fit)) && multiset(Traced(t, w, fit).origs) == multiset(t.origs) + multiset{w}
  {
    WovenEnds(ms, t);
    WovenBounds(ms, t);
    var fit := FitOf(First(ms), Last(ms), w);
    TracedCounts(t, w, fit);
    hide Woven, Attach, Traced;
    if fit == EndAsIs || fit == EndTurned {
      AttachAtEnd(ms, t, w, fit);
    } else if fit != NoFit {
      AttachAtStart(ms, t, w, fit);
    }
  }

  lemma AttachAtEnd(ms: seq<Way>, t: Trace, w: Way, fit: Fit)
    requires Woven(ms, t) && Long(w) && |ms| == |t.parts| > 0 && t.parts[|ms| - 1].line != []
    requires (fit == EndAsIs && Tail(t.parts[|ms| - 1]) == Head(w)) || (fit == EndTurned && Tail(t.parts[|ms| - 1]) == Tail(w))
    ensures Woven(Attach(ms, w, fit), Traced(t, w, fit))
  {
    hide Woven;
    TurnedSame(w);
    WovenAppend(ms, t, if fit == EndAsIs then w else Turned(w), w);
  }

  lemma AttachAtStart(ms: seq<Way>, t: Trace, w: Way, fit: Fit)
    requires Woven(ms, t) && Long(w) && t.parts != [] && t.parts[0].line != []
    requires (fit == StartAsIs && Tail(w) == Head(t.parts[0])) || (fit == StartTurned && Head(w) == Head(t.parts[0]))
    ensures Woven(Attach(ms, w, fit), Traced(t, w, fit))
  {
    hide Woven;
    TurnedSame(w);
    WovenPrepend(ms, t, if fit == StartAsIs then w else Turned(w), w);
  }

  // ---------------------------------------------------------------------------

  /** Neither end of w is an end of the group. */
  ghost predicate Clear(ms: seq<Way>, w: Way) {
    && ms != [] && ms[0].line != [] && ms[|ms| - 1].line != [] && w.line != []
    && Head(w) != First(ms) && Head(w) != Last(ms) && Tail(w) != First(ms) && Tail(w) != Last(ms)
  }

  ghost predicate Closed(ms: seq<Way>) {
    ms != [] && ms[0].line != [] && ms[|ms| - 1].line != [] && First(ms) == Last(ms)
  }

  /** Nothing that could have continued the group was left over. */
  ghost predicate Done(ms: seq<Way>, rest: seq<Way>) {
    Closed(ms) || forall w :: w in rest ==> Clear(ms, w)
  }

  ghost function AllOrigs(ts: seq<Trace>): seq<Way> {
    if ts == [] then [] else AllOrigs(ts[..|ts| - 1]) + ts[|ts| - 1].origs
  }

  /** What `join` leaves behind: woven groups that use each long way once, none of which could
      have been continued with a way of a later group. */
  ghost predicate Joined(input: seq<Way>, lists: seq<seq<Way>>, ts: seq<Trace>) {
    && |lists| == |ts|
    && (forall g :: 0 <= g < |lists| ==> Woven(lists[g], ts[g]))
    && (forall g, h :: 0 <= g < h < |lists| ==> Done(lists[g], ts[h].origs))
    && multiset(AllOrigs(ts)) == multiset(LongOnly(input))
  }

  /** The state between two groups: as `Joined`, with the window still to be used. */
  ghost predicate Joining(input: seq<Way>, lists: seq<seq<Way>>, ts: seq<Trace>, win: seq<Way>) {
    && |lists| == |ts| && AllLong(win)
    && (forall g :: 0 <= g < |lists| ==> Woven(lists[g], ts[g]) && Done(lists[g], win))
    && (forall g, h :: 0 <= g < h < |lists| ==> Done(lists[g], ts[h].origs))
    && multiset(AllOrigs(ts)) + multiset(win) == multiset(LongOnly(input))
  }

  /** The state within a group: its ways and the window make up the window it started with. */
  ghost predicate Growing(win0: seq<Way>, current: seq<Way>, t: Trace, win: seq<Way>) {
    Woven(current, t) && AllLong(win) && multiset(t.origs) + multiset(win) == multiset(win0)
  }

  lemma JoiningStart(input: seq<Way>)
    ensures Joining(input, [], [], LongOnly(input))
  {
    LongOnlyLong(input);
    assert forall k :: 0 <= k < |LongOnly(input)| ==> LongOnly(input)[k] in LongOnly(input);
  }

  lemma JoiningEnd(input: seq<Way>, lists: seq<seq<Way>>, ts: seq<Trace>)
    requires Joining(input, lists, ts, [])
    ensures Joined(input, lists, ts)
  {
  }

  /** A group starts from the last way of the window. */
  lemma GrowingStart(win0: seq<Way>)
    requires AllLong(win0) && win0 != []
    ensures var n := |win0| - 1; Growing(win0, [win0[n]], Trace([win0[n]], [win0[n]], 0), win0[..n])
  {
    var n := |win0| - 1;
    WovenSeed(win0[n]);
    assert win0 == win0[..n] + [win0[n]];
  }

  lemma GrowingStep(win0: seq<Way>, current: seq<Way>, t: Trace, win: seq<Way>, k: nat)
    requires Growing(win0, current, t, win) && k < |win|
    ensures current != [] && current[0].line != [] && current[|current| - 1].line != []
    ensures Long(win[k]) && win[k].line != []
    ensures FitOf(First(current), Last(current), win[k]) != NoFit ==>
      var fit := FitOf(First(current), Last(current), win[k]);
      Growing(win0, Attach(current, win[k], fit), Traced(t, win[k], fit), RemoveAt(win, k))
  {
    AttachWoven(current, t, win[k]);
    RemoveAtCounts(win, k);
    hide Woven, Attach, Traced;
  }

  /** A finished group joins the list; everything after it comes from what it left over. */
  lemma JoiningStep(input: seq<Way>, lists: seq<seq<Way>>, ts: seq<Trace>, win0: seq<Way>,
                    current: seq<Way>, t: Trace, win: seq<Way>)
    requires Joining(input, lists, ts, win0) && Growing(win0, current, t, win) && Done(current, win)
    ensures Joining(input, lists + [current], ts + [t], win)
  {
    hide Woven, Clear, Closed, LongOnly;
    assert (ts + [t])[..|ts|] == ts;
    forall w | w in t.origs || w in win ensures w in win0 {
      assert w in multiset(t.origs) || w in multiset(win);
      assert w in multiset(win0);
    }
  }

  lemma NoFitDone(current: seq<Way>, t: Trace, win: seq<Way>)
    requires Woven(current, t) && AllLong(win)
    ensures current != [] && current[0].line != [] && current[|current| - 1].line != []
    ensures First(current) == Last(current) || NoneFits(First(current), Last(current), win) ==> Done(current, win)
  {
    WovenEnds(current, t);
  }

  /** w is what the way o became at place i of a group grown from place seed: o as it is, or from
      its end to its beginning with its flag flipped, less the point it shares with its neighbour
      towards the seed. */
  ghost predicate LaidFrom(w: Way, o: Way, i: nat, seed: nat) {
    && w.index == o.index && w.orientation == o.orientation && |o.line| >= 2
    && (w.reversed == o.reversed ==>
         w.line == if i < seed then o.line[..|o.line| - 1] else if i == seed then o.line else o.line[1..])
    && (w.reversed != o.reversed ==>
         var back := Reversed(o.line);
         w.line == if i < seed then back[..|back| - 1] else if i == seed then back else back[1..])
  }

  lemma LaidWays(input: seq<Way>, lists: seq<seq<Way>>, ts: seq<Trace>)
    requires Joined(input, lists, ts)
    ensures |lists| == |ts| && forall g :: 0 <= g < |lists| ==> |lists[g]| == |ts[g].origs|
    ensures forall g, i :: 0 <= g < |lists| && 0 <= i < |lists[g]| ==> LaidFrom(lists[g][i], ts[g].origs[i], i, ts[g].seed)
  {
    forall g | 0 <= g < |lists| ensures |lists[g]| == |ts[g].origs| {
      hide Done, LongOnly, AllOrigs;
    }
    forall g, i | 0 <= g < |lists| && 0 <= i < |lists[g]| ensures LaidFrom(lists[g][i], ts[g].origs[i], i, ts[g].seed) {
      hide Done, LongOnly, AllOrigs, LaidFrom;
      LaidInGroup(lists[g], ts[g], i);
    }
  }

  lemma LaidInGroup(ms: seq<Way>, t: Trace, i: nat)
    requires Woven(ms, t) && i < |ms|
    ensures |t.origs| == |ms| && LaidFrom(ms[i], t.origs[i], i, t.seed)
  {
    assert SameWay(t.parts[i], t.origs[i]);
  }

  /** `join`, over the array that holds the ways. */
  method Join(segs: array<Way>) returns (lists: seq<seq<Way>>, ghost ts: seq<Trace>)
    modifies segs
    ensures Joined(old(segs[..]), lists, ts)
    ensures |lists| == |ts| && forall g :: 0 <= g < |lists| ==> |lists[g]| == |ts[g].origs|
    ensures forall g, i :: 0 <= g < |lists| && 0 <= i < |lists[g]| ==> LaidFrom(lists[g][i], ts[g].origs[i], i, ts[g].seed)
    ensures AllLong(LongOnly(old(segs[..])))
         && lists == Groups(LongOnly(old(segs[..])))
  {
    hide *;
    ghost var input := segs[..];
    lists, ts := [], [];
    var lo, hi := 0, 0;
    hi := Compact(segs);
    ghost var win := segs[lo..hi];
    JoiningStart(input);
    JoiningLong(input, lists, ts, win);
    ghost var all := Groups(win);
    while lo < hi
      invariant lo <= hi <= segs.Length && win == segs[lo..hi]
      invariant Joining(input, lists, ts, win)
      invariant AllLong(win) && all == lists + Groups(win)
      decreases hi - lo
    {
      ghost var win0 := win;
      JoiningLong(input, lists, ts, win);
      var current;
      ghost var t;
      current, lo, hi, t := JoinGroup(segs, lo, hi, win0);
      win := segs[lo..hi];
      GroupsStep(lists, win0, current, win);
      JoiningStep(input, lists, ts, win0, current, t, win);
      lists := lists + [current];
      ts := ts + [t];
    }
    JoiningEnd(input, lists, ts);
    LaidWays(input, lists, ts);
    NoGroups();
  }

  lemma NoGroups()
    ensures Groups([]) == []
  {
  }

  lemma GroupsStep(lists: seq<seq<Way>>, win0: seq<Way>, g: seq<Way>, rest: seq<Way>)
    requires win0 != [] && AllLong(win0) && Solid([win0[|win0| - 1]])
    requires (g, rest) == GroupFrom([win0[|win0| - 1]], win0[..|win0| - 1])
    ensures AllLong(rest)
    ensures lists + Groups(win0) == lists + [g] + Groups(rest)
  {
    assert Groups(win0) == [g] + Groups(rest);
    assert lists + ([g] + Groups(rest)) == lists + [g] + Groups(rest);
  }

  /** One group: starts from the last way of the window and takes in ways that fit until it is
      closed or none does. */
  method JoinGroup(segs: array<Way>, lo0: nat, hi0: nat, ghost win0: seq<Way>)
    returns (current: seq<Way>, lo: nat, hi: nat, ghost t: Trace)
    requires lo0 < hi0 <= segs.Length && win0 == segs[lo0..hi0] && AllLong(win0)
    modifies segs
    ensures lo0 <= lo <= hi < hi0
    ensures Growing(win0, current, t, segs[lo..hi]) && Done(current, segs[lo..hi])
    ensures AllLong(win0) && Solid([win0[|win0| - 1]])
    ensures (current, segs[lo..hi]) == GroupFrom([win0[|win0| - 1]], win0[..|win0| - 1])
  {
    hide *;
    lo, hi := lo0, hi0 - 1;
    current := [segs[hi]];
    t := Trace(current, current, 0);
    GrowingStart(win0);
    ghost var win := segs[lo..hi];
    assert win == win0[..|win0| - 1];
    GrowingSolid(win0, current, t, win);
    ghost var end := GroupFrom(current, win);
    while true
      invariant lo0 <= lo <= hi < hi0 && win == segs[lo..hi]
      invariant Growing(win0, current, t, win) && Woven(current, t)
      invariant Solid(current) && AllLong(win) && end == GroupFrom(current, win)
      decreases hi - lo
    {
      NoFitDone(current, t, win);
      var first, last := First(current), Last(current);
      GroupFromIs(current, win);
      if lo == hi || first == last {
        NothingLeft(current, win);
        return;
      }
      var foundAt := FindFit(segs, lo, hi, first, last, win);
      if foundAt == -1 {
        return;
      }
      GrowingStep(win0, current, t, win, foundAt);
      var w := segs[lo + foundAt];
      assert w == win[foundAt];
      var fit := FitOf(first, last, w);
      current, t := Attach(current, w, fit), Traced(t, w, fit);
      lo, hi := DeleteAt(segs, lo, hi, foundAt, win);
      win := RemoveAt(win, foundAt);
      GrowingSolid(win0, current, t, win);
    }
  }

  lemma GroupFromIs(current: seq<Way>, ws: seq<Way>)
    requires Solid(current) && AllLong(ws)
    ensures var first, last := First(current), Last(current);
      if ws == [] || first == last then GroupFrom(current, ws) == (current, ws) else
      var k := FirstFit(first, last, ws);
      if k == |ws| then GroupFrom(current, ws) == (current, ws) else
      var next := Attach(current, ws[k], FitOf(first, last, ws[k]));
      Solid(next) && AllLong(RemoveAt(ws, k)) && GroupFrom(current, ws) == GroupFrom(next, RemoveAt(ws, k))
  {
  }

  lemma GrowingSolid(win0: seq<Way>, current: seq<Way>, t: Trace, win: seq<Way>)
    requires Growing(win0, current, t, win)
    ensures Solid(current) && AllLong(win) && Woven(current, t)
  {
    WovenEnds(current, t);
  }

  lemma JoiningLong(input: seq<Way>, lists: seq<seq<Way>>, ts: seq<Trace>, win: seq<Way>)
    requires Joining(input, lists, ts, win)
    ensures AllLong(win)
  {
  }

  lemma NothingLeft(current: seq<Way>, win: seq<Way>)
    ensures win == [] ==> Done(current, win)
  {
  }

  // ---------------------------------------------------------------------------

  /** The edges of all groups' lines. */
  ghost function GroupEdges(lists: seq<seq<Way>>): multiset<Edge> {
    if lists == [] then multiset{} else
    GroupEdges(lists[..|lists| - 1]) + Edges(LineString(lists[|lists| - 1]))
  }

  lemma {:induction false} GroupEdgesAre(lists: seq<seq<Way>>, ts: seq<Trace>)
    requires |lists| == |ts| && forall g :: 0 <= g < |lists| ==> Woven(lists[g], ts[g])
    ensures GroupEdges(lists) == AllEdges(AllOrigs(ts))
  {
    if lists != [] {
      var n := |lists| - 1;
      GroupEdgesAre(lists[..n], ts[..n]);
      WovenEdges(lists[n], ts[n]);
      SameWaysEdges(ts[n].parts, ts[n].origs);
      AllEdgesConcat(AllOrigs(ts[..n]), ts[n].origs);
    }
  }

  /** `join` conserves geometry: the groups' lines have, with multiplicity, exactly the edges of
      the input ways that have any. */
  lemma JoinConservesEdges(input: seq<Way>, lists: seq<seq<Way>>, ts: seq<Trace>)
    requires Joined(input, lists, ts)
    ensures GroupEdges(lists) == AllEdges(LongOnly(input)) == AllEdges(input)
  {
    GroupEdgesAre(lists, ts);
    AllEdgesPerm(AllOrigs(ts), LongOnly(input));
    ShortWaysHaveNoEdges(input);
  }

  lemma {:induction false} ShortWaysHaveNoEdges(input: seq<Way>)
    ensures AllEdges(LongOnly(input)) == AllEdges(input)
  {
    if input != [] {
      var rest, w := input[..|input| - 1], input[|input| - 1];
      ShortWaysHaveNoEdges(rest);
      if Long(w) {
        AllEdgesAppend(LongOnly(rest), w);
      } else {
        assert LongOnly(rest) + [] == LongOnly(rest);
      }
    }
  }
}
