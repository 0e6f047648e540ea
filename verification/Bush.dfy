/** The in-memory index of kdbush/kdbush.go: building it from points, and the two stack-driven
    queries, proved against the linear scan of the points. */
module Bush {
  import opened Seqs
  import opened KDTree
  import opened KDQuery
  import opened Sampling
  import opened SortSpec
  import opened Select

  /** The rows before sorting: point i at position i. */
  function Initial<T>(points: seq<Point<T>>): (s: seq<Item>)
    ensures |s| == |points|
  {
    seq(|points|, i requires 0 <= i < |points| => Item(i, points[i].x, points[i].y))
  }

  /** The rows are the points, each exactly once, in some order. */
  ghost predicate Indexed<T>(s: seq<Item>, points: seq<Point<T>>) {
    multiset(s) == multiset(Initial(points))
  }

  lemma RowIsPoint<T>(s: seq<Item>, points: seq<Point<T>>, p: int)
    requires Indexed(s, points) && 0 <= p < |s|
    ensures var it := s[p];
      0 <= it.idx < |points| && it.x == points[it.idx].x && it.y == points[it.idx].y
  {
    var k := IndexIn(s[p], Initial(points), s);
  }

  function IdxOf(it: Item): int { it.idx }

  function Idxs(s: seq<Item>): seq<int> { Map(IdxOf, s) }

  /** The linear scan of the first n points: the original indices that match, in order. */
  function Scan<T>(points: seq<Point<T>>, q: Query, n: nat): seq<int>
    requires n <= |points|
  {
    if n == 0 then [] else
    Scan(points, q, n - 1) + if Match(q, points[n - 1].x, points[n - 1].y) then [n - 1] else []
  }

  lemma {:induction false} ScanIsHits<T>(points: seq<Point<T>>, q: Query, n: nat)
    requires n <= |points|
    ensures Scan(points, q, n) == Idxs(Hits(Initial(points)[..n], q))
  {
    if n != 0 {
      ScanIsHits(points, q, n - 1);
      var s := Initial(points)[..n];
      assert s[..n - 1] == Initial(points)[..n - 1];
      MapConcat(IdxOf, Hits(s[..n - 1], q), if Match(q, s[n - 1].x, s[n - 1].y) then [s[n - 1]] else []);
    }
  }

  lemma {:induction false} ScanMeaning<T>(points: seq<Point<T>>, q: Query, n: nat)
    requires n <= |points|
    ensures NoDuplicates(Scan(points, q, n))
    ensures forall i :: i in Scan(points, q, n) <==> 0 <= i < n && Match(q, points[i].x, points[i].y)
  {
    if n != 0 {
      ScanMeaning(points, q, n - 1);
    }
  }

  /** The original indices a query reports, in the order in which it reports them. */
  function Order(s: seq<Item>, nodeSize: int, q: Query): seq<int>
    requires -1 <= nodeSize
  {
    Idxs(Visit(s, nodeSize, q, 0, |s| - 1, 0))
  }

  /** Every matching point is reported exactly once and no other point is. */
  ghost predicate ReportsExactly<T>(r: seq<int>, points: seq<Point<T>>, q: Query) {
    && NoDuplicates(r)
    && (forall i :: i in r <==> 0 <= i < |points| && Match(q, points[i].x, points[i].y))
    && multiset(r) == multiset(Scan(points, q, |points|))
  }

  /** An exact answer to a box: each index of a point in it, once. */
  lemma ExactBox<T>(r: seq<int>, points: seq<Point<T>>, minX: real, minY: real, maxX: real, maxY: real)
    requires ReportsExactly(r, points, Box(minX, minY, maxX, maxY))
    ensures NoDuplicates(r)
    ensures forall i :: i in r <==> 0 <= i < |points| && minX <= points[i].x <= maxX && minY <= points[i].y <= maxY
  {
    var q := Box(minX, minY, maxX, maxY);
    hide NoDuplicates, Scan, Match;
    forall i | 0 <= i < |points|
      ensures Match(q, points[i].x, points[i].y) <==> minX <= points[i].x <= maxX && minY <= points[i].y <= maxY
    {
      MatchMeans(q, points[i].x, points[i].y);
    }
  }

  /** An exact answer to a disc: each index of a point in it, once. */
  lemma ExactDisc<T>(r: seq<int>, points: seq<Point<T>>, qx: real, qy: real, radius: real)
    requires ReportsExactly(r, points, Disc(qx, qy, radius))
    ensures NoDuplicates(r)
    ensures forall i :: i in r <==>
      0 <= i < |points| && (points[i].x - qx) * (points[i].x - qx) + (points[i].y - qy) * (points[i].y - qy) <= radius * radius
  {
    var q := Disc(qx, qy, radius);
    hide NoDuplicates, Scan, Match;
    forall i | 0 <= i < |points|
      ensures Match(q, points[i].x, points[i].y)
        <==> (points[i].x - qx) * (points[i].x - qx) + (points[i].y - qy) * (points[i].y - qy) <= radius * radius
    {
      MatchMeans(q, points[i].x, points[i].y);
    }
  }

  /** The index agrees with a linear scan, for boxes and for discs of non-negative radius. */
  lemma OrderExact<T>(s: seq<Item>, points: seq<Point<T>>, nodeSize: int, q: Query)
    requires Tree(s, nodeSize) && Indexed(s, points) && Sensible(q)
    ensures ReportsExactly(Order(s, nodeSize, q), points, q)
  {
    var r, scan := Order(s, nodeSize, q), Scan(points, q, |points|);
    hide Order, Scan, Match, NoDuplicates, Indexed, Tree, Sensible;
    OrderCounts(s, points, nodeSize, q);
    ScanMeaning(points, q, |points|);
    NoDuplicatesPerm(scan, r);
    SameMembers(scan, r);
  }

  lemma OrderCounts<T>(s: seq<Item>, points: seq<Point<T>>, nodeSize: int, q: Query)
    requires Tree(s, nodeSize) && Indexed(s, points) && Sensible(q)
    ensures multiset(Order(s, nodeSize, q)) == multiset(Scan(points, q, |points|))
  {
    hide Visit, Hits, KD, Scan, Match, Initial, Map, Sensible;
    var all := Initial(points);
    assert s[0..|s|] == s && all[..|points|] == all;
    VisitExact(s, nodeSize, q, 0, |s| - 1, 0);
    HitsPerm(s, all, q);
    MapPerm(IdxOf, Visit(s, nodeSize, q, 0, |s| - 1, 0), Hits(all, q));
    ScanIsHits(points, q, |points|);
  }

  lemma OrderInBox<T>(s: seq<Item>, points: seq<Point<T>>, nodeSize: int, minX: real, minY: real, maxX: real, maxY: real)
    requires Tree(s, nodeSize) && Indexed(s, points)
    ensures var r := Order(s, nodeSize, Box(minX, minY, maxX, maxY));
      && ReportsExactly(r, points, Box(minX, minY, maxX, maxY)) && NoDuplicates(r)
      && forall i :: i in r <==> 0 <= i < |points| && minX <= points[i].x <= maxX && minY <= points[i].y <= maxY
  {
    hide KD, Indexed, Order, NoDuplicates, ReportsExactly;
    OrderExact(s, points, nodeSize, Box(minX, minY, maxX, maxY));
    ExactBox(Order(s, nodeSize, Box(minX, minY, maxX, maxY)), points, minX, minY, maxX, maxY);
  }

  lemma OrderInDisc<T>(s: seq<Item>, points: seq<Point<T>>, nodeSize: int, qx: real, qy: real, radius: real)
    requires Tree(s, nodeSize) && Indexed(s, points) && radius >= 0.0
    ensures var r := Order(s, nodeSize, Disc(qx, qy, radius));
      && ReportsExactly(r, points, Disc(qx, qy, radius)) && NoDuplicates(r)
      && forall i :: i in r <==>
        0 <= i < |points| && (points[i].x - qx) * (points[i].x - qx) + (points[i].y - qy) * (points[i].y - qy) <= radius * radius
  {
    hide KD, Indexed, Order, NoDuplicates, ReportsExactly;
    OrderExact(s, points, nodeSize, Disc(qx, qy, radius));
    ExactDisc(Order(s, nodeSize, Disc(qx, qy, radius)), points, qx, qy, radius);
  }

  // ---------------------------------------------------------------------------
  // The explicit stack

  datatype Frame = Frame(left: int, right: int, axis: Axis)

  ghost predicate FrameIn(f: Frame, n: nat) {
    0 <= f.left <= f.right + 1 <= n
  }

  ghost predicate Frames(stack: seq<Frame>, n: nat) {
    forall k :: 0 <= k < |stack| ==> FrameIn(stack[k], n)
  }

  /** What is still to be reported: the frames from the top of the stack down. */
  ghost function Pending(s: seq<Item>, nodeSize: int, q: Query, stack: seq<Frame>): seq<Item>
    requires -1 <= nodeSize && Frames(stack, |s|)
  {
    if stack == [] then [] else
    var f := stack[|stack| - 1];
    Visit(s, nodeSize, q, f.left, f.right, f.axis) + Pending(s, nodeSize, q, stack[..|stack| - 1])
  }

  /** How much work the stack still holds; every iteration makes it smaller. */
  ghost function Weight(stack: seq<Frame>, n: nat): nat
    requires Frames(stack, n)
  {
    if stack == [] then 0 else
    var f := stack[|stack| - 1];
    2 * (f.right - f.left + 1) + 1 + Weight(stack[..|stack| - 1], n)
  }

  /** The frames pushed for an inner node: the left half first, so that the right half is next. */
  function Push(stack: seq<Frame>, q: Query, f: Frame, m: int, x: real, y: real): seq<Frame> {
    stack
    + If(GoLeft(q, f.axis, x, y), [Frame(f.left, m - 1, 1 - f.axis)])
    + If(GoRight(q, f.axis, x, y), [Frame(m + 1, f.right, 1 - f.axis)])
  }

  lemma PushIf(s: seq<Item>, nodeSize: int, q: Query, stack: seq<Frame>, f: Frame, go: bool)
    requires -1 <= nodeSize && Frames(stack, |s|) && FrameIn(f, |s|)
    ensures var pushed := stack + If(go, [f]);
      && Frames(pushed, |s|)
      && Pending(s, nodeSize, q, pushed)
         == If(go, Visit(s, nodeSize, q, f.left, f.right, f.axis)) + Pending(s, nodeSize, q, stack)
      && Weight(pushed, |s|) <= 2 * (f.right - f.left + 1) + 1 + Weight(stack, |s|)
  {
    if go {
      assert (stack + [f])[..|stack|] == stack;
    } else {
      assert stack + [] == stack;
    }
  }

  lemma Regroup<T>(own: seq<T>, r: seq<T>, l: seq<T>, rest: seq<T>)
    ensures own + r + l + rest == own + (r + (l + rest))
  {
  }

  /** Pushing both halves: the right one is reported before the left one. */
  lemma PushBoth(s: seq<Item>, nodeSize: int, q: Query, stack: seq<Frame>, lf: Frame, rf: Frame, goLeft: bool, goRight: bool)
    requires -1 <= nodeSize && Frames(stack, |s|) && FrameIn(lf, |s|) && FrameIn(rf, |s|)
    ensures var pushed := stack + If(goLeft, [lf]) + If(goRight, [rf]);
      && Frames(pushed, |s|)
      && Pending(s, nodeSize, q, pushed)
         == If(goRight, Visit(s, nodeSize, q, rf.left, rf.right, rf.axis))
          + (If(goLeft, Visit(s, nodeSize, q, lf.left, lf.right, lf.axis)) + Pending(s, nodeSize, q, stack))
      && Weight(pushed, |s|) <= 2 * (lf.right - lf.left + 1) + 2 * (rf.right - rf.left + 1) + 2 + Weight(stack, |s|)
  {
    hide Visit, Pending, Weight, Frames, FrameIn, If;
    PushIf(s, nodeSize, q, stack, lf, goLeft);
    PushIf(s, nodeSize, q, stack + If(goLeft, [lf]), rf, goRight);
  }

  /** Splitting an inner node over the stack reports the node, then what the new stack holds. */
  lemma PushStep(s: seq<Item>, nodeSize: int, q: Query, stack: seq<Frame>, left: int, right: int, axis: Axis, m: int)
    requires -1 <= nodeSize < right - left && 0 <= left <= right < |s| && m == Mid(left, right)
    requires Frames(stack, |s|)
    ensures var pushed := Push(stack, q, Frame(left, right, axis), m, s[m].x, s[m].y);
      && Frames(pushed, |s|)
      && Visit(s, nodeSize, q, left, right, axis) + Pending(s, nodeSize, q, stack)
         == If(Match(q, s[m].x, s[m].y), [s[m]]) + Pending(s, nodeSize, q, pushed)
      && Weight(pushed, |s|) < 2 * (right - left + 1) + 1 + Weight(stack, |s|)
  {
    hide Mid, Match, Visit, Pending, Weight, Frames, If, GoLeft, GoRight;
    var lf, rf := Frame(left, m - 1, 1 - axis), Frame(m + 1, right, 1 - axis);
    var goLeft, goRight := GoLeft(q, axis, s[m].x, s[m].y), GoRight(q, axis, s[m].x, s[m].y);
    VisitNode(s, nodeSize, q, left, right, axis);
    PushBoth(s, nodeSize, q, stack, lf, rf, goLeft, goRight);
    Regroup(If(Match(q, s[m].x, s[m].y), [s[m]]),
            If(goRight, Visit(s, nodeSize, q, rf.left, rf.right, rf.axis)),
            If(goLeft, Visit(s, nodeSize, q, lf.left, lf.right, lf.axis)),
            Pending(s, nodeSize, q, stack));
  }

  lemma PopStep(s: seq<Item>, nodeSize: int, q: Query, stack: seq<Frame>)
    requires -1 <= nodeSize && Frames(stack, |s|) && stack != []
    ensures var f, rest := stack[|stack| - 1], stack[..|stack| - 1];
      && FrameIn(f, |s|) && Frames(rest, |s|)
      && Pending(s, nodeSize, q, stack)
         == Visit(s, nodeSize, q, f.left, f.right, f.axis) + Pending(s, nodeSize, q, rest)
      && Weight(stack, |s|) == 2 * (f.right - f.left + 1) + 1 + Weight(rest, |s|)
  {
  }

  /** `done` has been reported and the stack holds exactly the rest of `order`. */
  ghost predicate OnTrack(s: seq<Item>, nodeSize: int, q: Query, stack: seq<Frame>, done: seq<int>, order: seq<int>) {
    && -1 <= nodeSize && Frames(stack, |s|)
    && order == done + Idxs(Pending(s, nodeSize, q, stack))
  }

  lemma StartStack(s: seq<Item>, nodeSize: int, q: Query)
    requires -1 <= nodeSize
    ensures Frames([Frame(0, |s| - 1, 0)], |s|)
    ensures OnTrack(s, nodeSize, q, [Frame(0, |s| - 1, 0)], [], Order(s, nodeSize, q))
  {
    var f := Frame(0, |s| - 1, 0);
    assert [f][..0] == [];
  }

  lemma EmptyStack(s: seq<Item>, nodeSize: int, q: Query, done: seq<int>, order: seq<int>)
    requires OnTrack(s, nodeSize, q, [], done, order)
    ensures done == order
  {
  }

  /** A popped leaf: reporting its matches leaves the rest of the stack. */
  lemma LeafStep(s: seq<Item>, nodeSize: int, q: Query, stack: seq<Frame>, done: seq<int>, order: seq<int>)
    requires OnTrack(s, nodeSize, q, stack, done, order) && stack != []
    requires var f := stack[|stack| - 1]; f.right - f.left <= nodeSize
    ensures var f, rest := stack[|stack| - 1], stack[..|stack| - 1];
      && 0 <= f.left <= f.right + 1 <= |s| && Frames(rest, |s|)
      && OnTrack(s, nodeSize, q, rest, done + Idxs(Hits(s[f.left..f.right + 1], q)), order)
      && Weight(rest, |s|) < Weight(stack, |s|)
  {
    hide Visit, Pending, Hits, Weight, Frames, Idxs;
    var f, rest := stack[|stack| - 1], stack[..|stack| - 1];
    PopStep(s, nodeSize, q, stack);
    VisitLeaf(s, nodeSize, q, f.left, f.right, f.axis);
    ShiftAll(done, Hits(s[f.left..f.right + 1], q), Pending(s, nodeSize, q, rest));
  }

  lemma ShiftAll(done: seq<int>, found: seq<Item>, after: seq<Item>)
    ensures done + Idxs(found + after) == done + Idxs(found) + Idxs(after)
  {
    MapConcat(IdxOf, found, after);
    assert done + (Idxs(found) + Idxs(after)) == done + Idxs(found) + Idxs(after);
  }

  /** A popped inner node: reporting its median if it matches leaves what the new stack holds. */
  lemma InnerStep(s: seq<Item>, nodeSize: int, q: Query, stack: seq<Frame>, done: seq<int>, order: seq<int>)
    requires OnTrack(s, nodeSize, q, stack, done, order) && stack != []
    requires var f := stack[|stack| - 1]; f.right - f.left > nodeSize
    ensures var f, rest := stack[|stack| - 1], stack[..|stack| - 1];
      && 0 <= f.left <= f.right < |s|
      && var m := Mid(f.left, f.right);
      && var pushed := Push(rest, q, f, m, s[m].x, s[m].y);
      && Frames(pushed, |s|)
      && OnTrack(s, nodeSize, q, pushed, if Match(q, s[m].x, s[m].y) then done + [s[m].idx] else done, order)
      && Weight(pushed, |s|) < Weight(stack, |s|)
  {
    hide Match, Visit, Pending, Weight, Push, Frames, Idxs;
    var f, rest := stack[|stack| - 1], stack[..|stack| - 1];
    PopStep(s, nodeSize, q, stack);
    var m := Mid(f.left, f.right);
    hide Mid;
    PushStep(s, nodeSize, q, rest, f.left, f.right, f.axis, m);
    Shift(done, Pending(s, nodeSize, q, stack), Match(q, s[m].x, s[m].y), s[m],
          Pending(s, nodeSize, q, Push(rest, q, f, m, s[m].x, s[m].y)));
  }

  /** Moving a possible first row from what is pending to what is done. */
  lemma Shift(done: seq<int>, pending: seq<Item>, c: bool, it: Item, after: seq<Item>)
    requires pending == If(c, [it]) + after
    ensures done + Idxs(pending) == (if c then done + [it.idx] else done) + Idxs(after)
  {
    MapConcat(IdxOf, If(c, [it]), after);
    assert done + (Idxs(If(c, [it])) + Idxs(after)) == done + Idxs(If(c, [it])) + Idxs(after);
  }

  /** Scanning a slice row by row: reporting row i if it matches leaves the rows after it. */
  lemma ScanStep(s: seq<Item>, q: Query, i: int, right: int, done: seq<int>, order: seq<int>)
    requires 0 <= i <= right < |s|
    requires order == done + Idxs(Hits(s[i..right + 1], q))
    ensures order == (if Match(q, s[i].x, s[i].y) then done + [s[i].idx] else done) + Idxs(Hits(s[i + 1..right + 1], q))
  {
    hide Match;
    assert s[i..i] == [];
    HitsAround(s, q, i, i, right);
    Shift(done, Hits(s[i..right + 1], q), Match(q, s[i].x, s[i].y), s[i], Hits(s[i + 1..right + 1], q));
  }

  lemma NoRows(s: seq<Item>, q: Query, i: int)
    requires 0 <= i <= |s|
    ensures Idxs(Hits(s[i..i], q)) == []
  {
    assert s[i..i] == [];
  }

  // ---------------------------------------------------------------------------
  // Handing points to a handler

  /** A handler answers true to go on. It may keep state, so it sees all calls made so far. */
  type Handler<!T> = seq<Point<T>> -> bool

  ghost predicate InRange(ids: seq<int>, n: nat) {
    forall k :: 0 <= k < |ids| ==> 0 <= ids[k] < n
  }

  function Pick<T>(points: seq<Point<T>>, ids: seq<int>): (r: seq<Point<T>>)
    requires InRange(ids, |points|)
    ensures |r| == |ids|
  {
    seq(|ids|, k requires 0 <= k < |ids| => points[ids[k]])
  }

  /** The calls so far are the first of `pts`, and the handler accepted every one. */
  ghost predicate Going<T>(h: Handler<T>, pts: seq<Point<T>>, calls: seq<Point<T>>) {
    && |calls| <= |pts| && calls == pts[..|calls|]
    && forall k :: 0 < k <= |calls| ==> h(pts[..k])
  }

  /** The calls are a prefix of `pts`: all of it, or cut just after the first refusal. */
  ghost predicate Delivered<T>(h: Handler<T>, pts: seq<Point<T>>, calls: seq<Point<T>>) {
    && |calls| <= |pts| && calls == pts[..|calls|]
    && (forall k :: 0 < k < |calls| ==> h(pts[..k]))
    && (|calls| < |pts| ==> 0 < |calls| && !h(calls))
  }

  lemma GoingStep<T>(h: Handler<T>, pts: seq<Point<T>>, calls: seq<Point<T>>)
    requires Going(h, pts, calls) && |calls| < |pts|
    ensures var c := calls + [pts[|calls|]]; if h(c) then Going(h, pts, c) else Delivered(h, pts, c)
  {
    assert calls + [pts[|calls|]] == pts[..|calls| + 1];
  }

  /** An accepting handler is given everything. */
  lemma DeliveredAll<T>(h: Handler<T>, pts: seq<Point<T>>, calls: seq<Point<T>>)
    requires Delivered(h, pts, calls) && forall c :: h(c)
    ensures calls == pts
  {
  }

  /** What a handler is given is determined by the points and its answers. */
  lemma DeliveredUnique<T>(h: Handler<T>, pts: seq<Point<T>>, c: seq<Point<T>>, d: seq<Point<T>>)
    requires Delivered(h, pts, c) && Delivered(h, pts, d)
    ensures c == d
  {
    assert pts[..|c|] == c && pts[..|d|] == d;
  }

  lemma GoingStart<T>(h: Handler<T>, pts: seq<Point<T>>)
    ensures Going(h, pts, [])
  {
  }

  lemma GoingEnd<T>(h: Handler<T>, pts: seq<Point<T>>, calls: seq<Point<T>>)
    requires Going(h, pts, calls) && |calls| == |pts|
    ensures Delivered(h, pts, calls)
  {
  }

  lemma TrackTail(s: seq<Item>, nodeSize: int, q: Query, stack: seq<Frame>, done: seq<int>, order: seq<int>)
    requires OnTrack(s, nodeSize, q, stack, done, order)
    ensures -1 <= nodeSize && Frames(stack, |s|) && order == done + Idxs(Pending(s, nodeSize, q, stack))
  {
  }

  /** The index just found is the next one of the reporting order. */
  lemma TrackNext(s: seq<Item>, nodeSize: int, q: Query, stack: seq<Frame>, done: seq<int>, id: int, order: seq<int>)
    requires OnTrack(s, nodeSize, q, stack, done + [id], order)
    ensures |done| < |order| && order[|done|] == id
  {
  }

  lemma NextInOrder(order: seq<int>, upTo: seq<int>, rest: seq<int>, done: seq<int>, id: int, after: seq<int>)
    requires order == upTo + rest && upTo == done + [id] + after
    ensures |done| < |order| && order[|done|] == id
  {
  }

  lemma NextPick<T>(points: seq<Point<T>>, order: seq<int>, n: nat)
    requires InRange(order, |points|) && n < |order|
    ensures 0 <= order[n] < |points| && |Pick(points, order)| == |order| && Pick(points, order)[n] == points[order[n]]
  {
  }

  // ---------------------------------------------------------------------------

  class KDBush<T> {
    var nodeSize: int
    var points: seq<Point<T>>
    var idxs: array<int>
    var coords: array<real>

    ghost predicate Valid()
      reads this, idxs, coords
    {
      && coords.Length == 2 * idxs.Length
      && idxs.Length == |points|
      && Tree(Rows(idxs, coords), nodeSize)
      && Indexed(Rows(idxs, coords), points)
    }

    /** `NewBush` and `buildIndex`. A node size below -1 would make `sort` recurse for ever. */
    constructor (points: seq<Point<T>>, nodeSize: int, est: Sampler)
      requires -1 <= nodeSize && SoundSampler(est)
      ensures Valid() && this.points == points && this.nodeSize == nodeSize
      ensures Rows(idxs, coords) == TreeRows(points, nodeSize, est)
      ensures fresh(idxs) && fresh(coords)
    {
      hide KD, Splits;
      this.nodeSize := nodeSize;
      this.points := points;
      var ids, cs := BuildArrays(points, nodeSize, est);
      idxs := ids;
      coords := cs;
    }

    /** `Range`: the original indices of the points in the closed box. */
    method Range(minX: real, minY: real, maxX: real, maxY: real) returns (result: seq<int>)
      requires Valid()
      ensures result == Order(Rows(idxs, coords), nodeSize, Box(minX, minY, maxX, maxY))
      ensures ReportsExactly(result, points, Box(minX, minY, maxX, maxY))
      ensures NoDuplicates(result)
      ensures forall i :: i in result <==> 0 <= i < |points| && minX <= points[i].x <= maxX && minY <= points[i].y <= maxY
    {
      hide *;
      ValidSays(this);
      ghost var s := Rows(idxs, coords);
      OrderInBox(s, points, nodeSize, minX, minY, maxX, maxY);
      result := Collect(idxs, coords, nodeSize, Box(minX, minY, maxX, maxY), s);
    }

    /** `Within`: hands the points it finds to the handler until it answers false. They are
        exactly the points of the disc, each once, unless the radius is negative (see
        `ExactIffRadius`). */
    method Within(qx: real, qy: real, radius: real, handler: Handler<T>) returns (calls: seq<Point<T>>)
      requires Valid()
      ensures var order := Order(Rows(idxs, coords), nodeSize, Disc(qx, qy, radius));
        && (radius >= 0.0 ==> ReportsExactly(order, points, Disc(qx, qy, radius)))
        && InRange(order, |points|)
        && Delivered(handler, Pick(points, order), calls)
        && (radius >= 0.0 ==> NoDuplicates(order) && forall i :: i in order <==>
             0 <= i < |points| && (points[i].x - qx) * (points[i].x - qx) + (points[i].y - qy) * (points[i].y - qy) <= radius * radius)
    {
      hide *;
      ValidSays(this);
      ghost var s := Rows(idxs, coords);
      if radius >= 0.0 {
        OrderInDisc(s, points, nodeSize, qx, qy, radius);
      }
      OrderInRange(s, points, nodeSize, Disc(qx, qy, radius));
      calls := Deliver(idxs, coords, points, nodeSize, Disc(qx, qy, radius), handler, s);
    }
  }

  lemma ValidSays<T>(tree: KDBush<T>)
    requires tree.Valid()
    ensures tree.coords.Length == 2 * tree.idxs.Length && -1 <= tree.nodeSize && Indexed(Rows(tree.idxs, tree.coords), tree.points)
    ensures Tree(Rows(tree.idxs, tree.coords), tree.nodeSize)
  {
  }

  lemma OrderInRange<T>(s: seq<Item>, points: seq<Point<T>>, nodeSize: int, q: Query)
    requires -1 <= nodeSize && Indexed(s, points)
    ensures InRange(Order(s, nodeSize, q), |points|)
  {
    hide Visit, Initial, Indexed;
    var v := Visit(s, nodeSize, q, 0, |s| - 1, 0);
    forall k | 0 <= k < |v| ensures 0 <= v[k].idx < |points| {
      VisitRows(s, nodeSize, q, 0, |s| - 1, 0, v[k]);
      var p :| 0 <= p < |s| && s[p] == v[k];
      RowIsPoint(s, points, p);
    }
  }

  /** The traversal of `Range`: pops a slice, reports a leaf's matches or its median, pushes the
      halves that can still hold matches. */
  method Collect(idxs: array<int>, coords: array<real>, nodeSize: int, q: Query, ghost s: seq<Item>)
    returns (result: seq<int>)
    requires coords.Length == 2 * idxs.Length && s == Rows(idxs, coords) && -1 <= nodeSize
    ensures result == Order(s, nodeSize, q)
  {
    hide *;
    StartStack(s, nodeSize, q);
    ghost var order := Order(s, nodeSize, q);
    var stack := [Frame(0, idxs.Length - 1, 0)];
    result := [];
    while |stack| > 0
      invariant s == Rows(idxs, coords)
      invariant Frames(stack, |s|) && OnTrack(s, nodeSize, q, stack, result, order)
      decreases Weight(stack, |s|)
    {
      var f := stack[|stack| - 1];
      if f.right - f.left <= nodeSize {
        LeafStep(s, nodeSize, q, stack, result, order);
        stack := stack[..|stack| - 1];
        var found := CollectLeaf(idxs, coords, f.left, f.right, q, s);
        result := result + found;
      } else {
        InnerStep(s, nodeSize, q, stack, result, order);
        var m := Mid(f.left, f.right);
        var it := RowAt(idxs, coords, m);
        stack := Push(stack[..|stack| - 1], q, f, m, it.x, it.y);
        if Match(q, it.x, it.y) {
          result := result + [it.idx];
        }
      }
    }
    EmptyStack(s, nodeSize, q, result, order);
  }

  method CollectLeaf(idxs: array<int>, coords: array<real>, left: int, right: int, q: Query, ghost s: seq<Item>)
    returns (found: seq<int>)
    requires coords.Length == 2 * idxs.Length && s == Rows(idxs, coords)
    requires 0 <= left <= right + 1 <= idxs.Length
    ensures found == Idxs(Hits(s[left..right + 1], q))
  {
    hide *;
    ghost var order := Idxs(Hits(s[left..right + 1], q));
    found := [];
    for i := left to right + 1
      invariant order == found + Idxs(Hits(s[i..right + 1], q))
    {
      ScanStep(s, q, i, right, found, order);
      var it := RowAt(idxs, coords, i);
      if Match(q, it.x, it.y) {
        found := found + [it.idx];
      }
    }
    NoRows(s, q, right + 1);
  }

  /** The traversal of `Within`: as `Collect`, but every match goes to the handler at once. */
  method Deliver<T>(idxs: array<int>, coords: array<real>, points: seq<Point<T>>, nodeSize: int, q: Query,
                    h: Handler<T>, ghost s: seq<Item>)
    returns (calls: seq<Point<T>>)
    requires coords.Length == 2 * idxs.Length && s == Rows(idxs, coords) && -1 <= nodeSize
    requires InRange(Order(s, nodeSize, q), |points|)
    ensures Delivered(h, Pick(points, Order(s, nodeSize, q)), calls)
  {
    hide *;
    StartStack(s, nodeSize, q);
    ghost var order := Order(s, nodeSize, q);
    ghost var pts := Pick(points, order);
    GoingStart(h, pts);
    var stack := [Frame(0, idxs.Length - 1, 0)];
    ghost var done := [];
    calls := [];
    while |stack| > 0
      invariant s == Rows(idxs, coords)
      invariant Frames(stack, |s|) && OnTrack(s, nodeSize, q, stack, done, order)
      invariant Going(h, pts, calls) && |calls| == |done|
      decreases Weight(stack, |s|)
    {
      var f := stack[|stack| - 1];
      if f.right - f.left <= nodeSize {
        LeafStep(s, nodeSize, q, stack, done, order);
        ghost var found := Idxs(Hits(s[f.left..f.right + 1], q));
        ghost var rest := Idxs(Pending(s, nodeSize, q, stack[..|stack| - 1]));
        TrackTail(s, nodeSize, q, stack[..|stack| - 1], done + found, order);
        stack := stack[..|stack| - 1];
        var go;
        calls, go := DeliverLeaf(idxs, coords, points, f.left, f.right, q, h, calls, s, order, done, rest);
        if !go {
          return;
        }
        done := done + found;
      } else {
        InnerStep(s, nodeSize, q, stack, done, order);
        var m := Mid(f.left, f.right);
        var it := RowAt(idxs, coords, m);
        stack := Push(stack[..|stack| - 1], q, f, m, it.x, it.y);
        if Match(q, it.x, it.y) {
          TrackNext(s, nodeSize, q, stack, done, it.idx, order);
          NextPick(points, order, |done|);
          GoingStep(h, pts, calls);
          calls := calls + [points[it.idx]];
          if !h(calls) {
            return;
          }
          done := done + [it.idx];
        }
      }
    }
    EmptyStack(s, nodeSize, q, done, order);
    GoingEnd(h, pts, calls);
  }

  method DeliverLeaf<T>(idxs: array<int>, coords: array<real>, points: seq<Point<T>>, left: int, right: int, q: Query,
                        h: Handler<T>, before: seq<Point<T>>,
                        ghost s: seq<Item>, ghost order: seq<int>, ghost done0: seq<int>, ghost rest: seq<int>)
    returns (calls: seq<Point<T>>, go: bool)
    requires coords.Length == 2 * idxs.Length && s == Rows(idxs, coords)
    requires 0 <= left <= right + 1 <= idxs.Length && InRange(order, |points|)
    requires order == done0 + Idxs(Hits(s[left..right + 1], q)) + rest
    requires Going(h, Pick(points, order), before) && |before| == |done0|
    ensures go ==> Going(h, Pick(points, order), calls) && |calls| == |done0 + Idxs(Hits(s[left..right + 1], q))|
    ensures !go ==> Delivered(h, Pick(points, order), calls)
  {
    hide *;
    ghost var upTo := done0 + Idxs(Hits(s[left..right + 1], q));
    ghost var done := done0;
    calls := before;
    for i := left to right + 1
      invariant upTo == done + Idxs(Hits(s[i..right + 1], q))
      invariant Going(h, Pick(points, order), calls) && |calls| == |done|
    {
      ScanStep(s, q, i, right, done, upTo);
      var it := RowAt(idxs, coords, i);
      if Match(q, it.x, it.y) {
        NextInOrder(order, upTo, rest, done, it.idx, Idxs(Hits(s[i + 1..right + 1], q)));
        NextPick(points, order, |done|);
        GoingStep(h, Pick(points, order), calls);
        calls := calls + [points[it.idx]];
        if !h(calls) {
          go := false;
          return;
        }
        done := done + [it.idx];
      }
    }
    NoRows(s, q, right + 1);
    go := true;
  }

  /** The rows every index over these points holds. */
  ghost function TreeRows<T>(points: seq<Point<T>>, nodeSize: int, est: Sampler): (s: seq<Item>)
    requires -1 <= nodeSize
    ensures |s| == |points|
  {
    SortedRows(Initial(points), nodeSize, 0, |points| - 1, 0, est)
  }

  /** Fills the two arrays in point order and sorts them. */
  method BuildArrays<T>(points: seq<Point<T>>, nodeSize: int, est: Sampler) returns (idxs: array<int>, coords: array<real>)
    requires -1 <= nodeSize && SoundSampler(est)
    ensures fresh(idxs) && fresh(coords) && idxs.Length == |points| && coords.Length == 2 * |points|
    ensures Rows(idxs, coords) == TreeRows(points, nodeSize, est)
    ensures Tree(Rows(idxs, coords), nodeSize) && Indexed(Rows(idxs, coords), points)
  {
    hide KD, SortedRows;
    idxs, coords := FillArrays(points);
    Sort(idxs, coords, nodeSize, 0, idxs.Length - 1, 0, est);
    WholePerm(Initial(points), Rows(idxs, coords));
  }

  method FillArrays<T>(points: seq<Point<T>>) returns (idxs: array<int>, coords: array<real>)
    ensures fresh(idxs) && fresh(coords) && idxs.Length == |points| && coords.Length == 2 * |points|
    ensures Rows(idxs, coords) == Initial(points)
  {
    idxs := new int[|points|];
    coords := new real[2 * |points|];
    for i := 0 to |points|
      invariant forall k :: 0 <= k < i ==> idxs[k] == k
      invariant forall k :: 0 <= k < i ==> coords[2 * k] == points[k].x && coords[2 * k + 1] == points[k].y
    {
      idxs[i] := i;
      coords[i * 2] := points[i].x;
      coords[i * 2 + 1] := points[i].y;
    }
  }

  lemma WholePerm(s: seq<Item>, t: seq<Item>)
    requires PermIn(s, t, 0, |s| - 1)
    ensures multiset(s) == multiset(t)
  {
    assert s[0..|s|] == s && t[0..|s|] == t;
  }
}
