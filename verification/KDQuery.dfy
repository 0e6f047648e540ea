/** What the two queries look for, the order in which the pruned traversal reports it, and the
    proof that pruning loses nothing and adds nothing. */
module KDQuery {
  import opened Seqs
  import opened KDTree

  datatype Point<T> = Point(x: real, y: real, data: T)

  /** `Range` asks for a closed box, `Within` for a disc around a centre. */
  datatype Query =
    | Box(minX: real, minY: real, maxX: real, maxY: real)
    | Disc(qx: real, qy: real, radius: real)

  function Sq(d: real): (r: real)
    ensures r >= 0.0
  {
    d * d
  }

  function SqDist(x0: real, y0: real, x1: real, y1: real): real {
    Sq(x0 - x1) + Sq(y0 - y1)
  }

  predicate Match(q: Query, x: real, y: real) {
    match q
    case Box(minX, minY, maxX, maxY) => x >= minX && x <= maxX && y >= minY && y <= maxY
    case Disc(qx, qy, radius) => SqDist(x, y, qx, qy) <= Sq(radius)
  }

  /** What a query asks for, in coordinates: the closed box, the closed disc. */
  lemma MatchMeans(q: Query, x: real, y: real)
    ensures q.Box? ==> (Match(q, x, y) <==> q.minX <= x <= q.maxX && q.minY <= y <= q.maxY)
    ensures q.Disc? ==> (Match(q, x, y) <==> (x - q.qx) * (x - q.qx) + (y - q.qy) * (y - q.qy) <= q.radius * q.radius)
  {
  }

  predicate GoLeft(q: Query, axis: Axis, x: real, y: real) {
    match q
    case Box(minX, minY, _, _) => (axis == 0 && minX <= x) || (axis != 0 && minY <= y)
    case Disc(qx, qy, radius) => (axis == 0 && qx - radius <= x) || (axis != 0 && qy - radius <= y)
  }

  predicate GoRight(q: Query, axis: Axis, x: real, y: real) {
    match q
    case Box(_, _, maxX, maxY) => (axis == 0 && maxX >= x) || (axis != 0 && maxY >= y)
    case Disc(qx, qy, radius) => (axis == 0 && qx + radius >= x) || (axis != 0 && qy + radius >= y)
  }

  /** The matching rows of a slice, in order: the linear scan. */
  function Hits(s: seq<Item>, q: Query): seq<Item> {
    if s == [] then [] else
    var it := s[|s| - 1];
    Hits(s[..|s| - 1], q) + if Match(q, it.x, it.y) then [it] else []
  }

  /** The rows the traversal reports, in the order in which it reports them. */
  function Visit(s: seq<Item>, nodeSize: int, q: Query, left: int, right: int, axis: Axis): seq<Item>
    requires -1 <= nodeSize && 0 <= left <= right + 1 <= |s|
    decreases right - left + 1
  {
    if right - left <= nodeSize then Hits(s[left..right + 1], q) else
    var m := Mid(left, right);
    (if Match(q, s[m].x, s[m].y) then [s[m]] else [])
    + (if GoRight(q, axis, s[m].x, s[m].y) then Visit(s, nodeSize, q, m + 1, right, 1 - axis) else [])
    + (if GoLeft(q, axis, s[m].x, s[m].y) then Visit(s, nodeSize, q, left, m - 1, 1 - axis) else [])
  }

  ghost predicate Sensible(q: Query) {
    q.Disc? ==> q.radius >= 0.0
  }

  lemma Positive(a: real, b: real)
    requires a > 0.0 && b > 0.0
    ensures a * b > 0.0
  {
  }

  lemma SquareGrows(d: real, r: real)
    requires 0.0 <= r < d
    ensures Sq(r) < Sq(d)
  {
    Positive(d, d - r);
    assert d * (d - r) == d * d - d * r;
    assert r * (d - r) >= 0.0;
    assert r * (d - r) == r * d - r * r;
  }

  lemma SquareOfNegated(d: real)
    ensures Sq(-d) == Sq(d)
  {
  }

  /** A point further than the radius along one axis is outside the disc. */
  lemma OutsideDisc(q: Query, x: real, y: real)
    requires q.Disc? && q.radius >= 0.0
    requires x - q.qx > q.radius || x - q.qx < -q.radius || y - q.qy > q.radius || y - q.qy < -q.radius
    ensures !Match(q, x, y)
  {
    hide Sq;
    var dx, dy, r := x - q.qx, y - q.qy, q.radius;
    SquareOfNegated(dx);
    SquareOfNegated(dy);
    if dx > r || dx < -r {
      SquareGrows(if dx > r then dx else -dx, r);
    } else {
      SquareGrows(if dy > r then dy else -dy, r);
    }
  }

  /** A row on the far side of a pruned median cannot match. */
  lemma PruneSound(q: Query, axis: Axis, m: Item, it: Item)
    requires Sensible(q)
    requires (!GoRight(q, axis, m.x, m.y) && Key(m, axis) <= Key(it, axis))
          || (!GoLeft(q, axis, m.x, m.y) && Key(it, axis) <= Key(m, axis))
    ensures !Match(q, it.x, it.y)
  {
    if q.Disc? {
      hide Match, SqDist;
      OutsideDisc(q, it.x, it.y);
    }
  }

  /** Pruning is as sharp as the median alone allows: a half is visited exactly when something with
      its keys could match. */
  lemma PruneExact(q: Query, axis: Axis, m: Item)
    requires Sensible(q) && (q.Box? ==> q.minX <= q.maxX && q.minY <= q.maxY)
    ensures GoLeft(q, axis, m.x, m.y) <==> exists it: Item :: Key(it, axis) <= Key(m, axis) && Match(q, it.x, it.y)
    ensures GoRight(q, axis, m.x, m.y) <==> exists it: Item :: Key(m, axis) <= Key(it, axis) && Match(q, it.x, it.y)
  {
    forall it: Item | Match(q, it.x, it.y)
      ensures Key(it, axis) <= Key(m, axis) ==> GoLeft(q, axis, m.x, m.y)
      ensures Key(m, axis) <= Key(it, axis) ==> GoRight(q, axis, m.x, m.y)
    {
      hide Match, GoLeft, GoRight, Key;
      if !GoLeft(q, axis, m.x, m.y) && Key(it, axis) <= Key(m, axis) {
        PruneSound(q, axis, m, it);
      }
      if !GoRight(q, axis, m.x, m.y) && Key(m, axis) <= Key(it, axis) {
        PruneSound(q, axis, m, it);
      }
    }
    var low, high := Corners(q, axis);
    assert Key(low, axis) <= Key(m, axis) <==> GoLeft(q, axis, m.x, m.y);
    assert Key(m, axis) <= Key(high, axis) <==> GoRight(q, axis, m.x, m.y);
  }

  /** The lowest and the highest place on an axis that match. */
  lemma Corners(q: Query, axis: Axis) returns (low: Item, high: Item)
    requires Sensible(q) && (q.Box? ==> q.minX <= q.maxX && q.minY <= q.maxY)
    ensures Match(q, low.x, low.y) && Match(q, high.x, high.y)
    ensures q.Box? ==> low == Item(0, q.minX, q.minY) && high == Item(0, q.maxX, q.maxY)
    ensures q.Disc? && axis == 0 ==> low == Item(0, q.qx - q.radius, q.qy) && high == Item(0, q.qx + q.radius, q.qy)
    ensures q.Disc? && axis != 0 ==> low == Item(0, q.qx, q.qy - q.radius) && high == Item(0, q.qx, q.qy + q.radius)
  {
    match q
    case Box(minX, minY, maxX, maxY) =>
      low, high := Item(0, minX, minY), Item(0, maxX, maxY);
    case Disc(qx, qy, r) =>
      SquareOfNegated(r);
      if axis == 0 {
        low, high := Item(0, qx - r, qy), Item(0, qx + r, qy);
        assert low.x - qx == -r && high.x - qx == r;
      } else {
        low, high := Item(0, qx, qy - r), Item(0, qx, qy + r);
        assert low.y - qy == -r && high.y - qy == r;
      }
  }

  lemma {:induction false} HitsConcat(a: seq<Item>, b: seq<Item>, q: Query)
    ensures Hits(a + b, q) == Hits(a, q) + Hits(b, q)
  {
    hide Hits, Match;
    if b == [] {
      assert a + b == a;
      HitsNone(q);
    } else {
      var b', it := b[..|b| - 1], b[|b| - 1];
      HitsConcat(a, b', q);
      HitsAppend(b', it, q);
      HitsAppend(a + b', it, q);
      assert a + b == a + b' + [it] && b == b' + [it];
    }
  }

  lemma HitsNone(q: Query)
    ensures Hits([], q) == []
  {
  }

  lemma HitsAppend(s: seq<Item>, it: Item, q: Query)
    ensures Hits(s + [it], q) == Hits(s, q) + If(Match(q, it.x, it.y), [it])
  {
    assert (s + [it])[..|s|] == s;
  }

  /** The scan keeps each matching row as often as it occurs, and nothing else. */
  lemma {:induction false} HitsCount(s: seq<Item>, q: Query, it: Item)
    ensures multiset(Hits(s, q))[it] == if Match(q, it.x, it.y) then multiset(s)[it] else 0
  {
    if s != [] {
      HitsCount(s[..|s| - 1], q, it);
      assert s == s[..|s| - 1] + [s[|s| - 1]];
    }
  }

  lemma HitsPerm(a: seq<Item>, b: seq<Item>, q: Query)
    requires multiset(a) == multiset(b)
    ensures multiset(Hits(a, q)) == multiset(Hits(b, q))
  {
    forall it ensures multiset(Hits(a, q))[it] == multiset(Hits(b, q))[it] {
      HitsCount(a, q, it);
      HitsCount(b, q, it);
    }
  }

  lemma {:induction false} NoHits(s: seq<Item>, q: Query)
    requires forall p :: 0 <= p < |s| ==> !Match(q, s[p].x, s[p].y)
    ensures Hits(s, q) == []
  {
    if s != [] {
      NoHits(s[..|s| - 1], q);
    }
  }

  /** Pruned halves of a split slice hold no match. */
  lemma PruneHalves(s: seq<Item>, q: Query, left: int, m: int, right: int, axis: Axis)
    requires 0 <= left <= m <= right < |s| && Splits(s, left, m, right, axis) && Sensible(q)
    ensures !GoRight(q, axis, s[m].x, s[m].y) ==> Hits(s[m + 1..right + 1], q) == []
    ensures !GoLeft(q, axis, s[m].x, s[m].y) ==> Hits(s[left..m], q) == []
  {
    hide Match, GoLeft, GoRight;
    forall p | left <= p <= right
      && ((p < m && !GoLeft(q, axis, s[m].x, s[m].y)) || (p > m && !GoRight(q, axis, s[m].x, s[m].y)))
      ensures !Match(q, s[p].x, s[p].y)
    {
      PruneSound(q, axis, s[m], s[p]);
    }
    if !GoRight(q, axis, s[m].x, s[m].y) {
      NoHits(s[m + 1..right + 1], q);
    }
    if !GoLeft(q, axis, s[m].x, s[m].y) {
      NoHits(s[left..m], q);
    }
  }

  /** The pruned traversal of a KD-ordered slice reports exactly what the linear scan finds. */
  lemma {:induction false} VisitExact(s: seq<Item>, nodeSize: int, q: Query, left: int, right: int, axis: Axis)
    requires -1 <= nodeSize && 0 <= left <= right + 1 <= |s|
    requires KD(s, nodeSize, left, right, axis) && Sensible(q)
    ensures multiset(Visit(s, nodeSize, q, left, right, axis)) == multiset(Hits(s[left..right + 1], q))
    decreases right - left + 1
  {
    hide Match, GoLeft, GoRight, Splits, Mid, Visit, Hits, KD;
    if right - left <= nodeSize {
      VisitLeaf(s, nodeSize, q, left, right, axis);
    } else {
      var m := Mid(left, right);
      KDNode(s, nodeSize, left, right, axis);
      PruneHalves(s, q, left, m, right, axis);
      VisitExact(s, nodeSize, q, left, m - 1, 1 - axis);
      VisitExact(s, nodeSize, q, m + 1, right, 1 - axis);
      VisitNode(s, nodeSize, q, left, right, axis);
      HitsAround(s, q, left, m, right);
      HalvesCount(If(Match(q, s[m].x, s[m].y), [s[m]]),
                  GoRight(q, axis, s[m].x, s[m].y), Visit(s, nodeSize, q, m + 1, right, 1 - axis), Hits(s[m + 1..right + 1], q),
                  GoLeft(q, axis, s[m].x, s[m].y), Visit(s, nodeSize, q, left, m - 1, 1 - axis), Hits(s[left..m], q));
    }
  }

  lemma KDNode(s: seq<Item>, nodeSize: int, left: int, right: int, axis: Axis)
    requires -1 <= nodeSize < right - left && 0 <= left && right < |s| && KD(s, nodeSize, left, right, axis)
    ensures var m := Mid(left, right);
      Splits(s, left, m, right, axis) && KD(s, nodeSize, left, m - 1, 1 - axis) && KD(s, nodeSize, m + 1, right, 1 - axis)
  {
  }

  /** The median and the halves visited are the hits, if each half skipped has none. */
  lemma HalvesCount(own: seq<Item>, goRight: bool, vr: seq<Item>, hr: seq<Item>, goLeft: bool, vl: seq<Item>, hl: seq<Item>)
    requires multiset(vr) == multiset(hr) && multiset(vl) == multiset(hl)
    requires (!goRight ==> hr == []) && (!goLeft ==> hl == [])
    ensures multiset(own + If(goRight, vr) + If(goLeft, vl)) == multiset(hl + own + hr)
  {
  }

  lemma VisitNode(s: seq<Item>, nodeSize: int, q: Query, left: int, right: int, axis: Axis)
    requires -1 <= nodeSize < right - left && 0 <= left && right < |s|
    ensures var m := Mid(left, right);
      Visit(s, nodeSize, q, left, right, axis)
      == If(Match(q, s[m].x, s[m].y), [s[m]])
       + If(GoRight(q, axis, s[m].x, s[m].y), Visit(s, nodeSize, q, m + 1, right, 1 - axis))
       + If(GoLeft(q, axis, s[m].x, s[m].y), Visit(s, nodeSize, q, left, m - 1, 1 - axis))
  {
  }

  lemma VisitLeaf(s: seq<Item>, nodeSize: int, q: Query, left: int, right: int, axis: Axis)
    requires -1 <= nodeSize && 0 <= left <= right + 1 <= |s| && right - left <= nodeSize
    ensures Visit(s, nodeSize, q, left, right, axis) == Hits(s[left..right + 1], q)
  {
  }

  /** Whatever the query, only rows of the tree are reported. */
  lemma {:induction false} VisitRows(s: seq<Item>, nodeSize: int, q: Query, left: int, right: int, axis: Axis, it: Item)
    requires -1 <= nodeSize && 0 <= left <= right + 1 <= |s|
    requires it in Visit(s, nodeSize, q, left, right, axis)
    ensures it in s
    decreases right - left + 1
  {
    hide Visit, Match, GoLeft, GoRight, Mid, Hits;
    if right - left <= nodeSize {
      VisitLeaf(s, nodeSize, q, left, right, axis);
      HitsCount(s[left..right + 1], q, it);
      assert it in multiset(Hits(s[left..right + 1], q));
      assert it in multiset(s[left..right + 1]);
      assert it in s[left..right + 1];
    } else {
      var m := Mid(left, right);
      VisitNode(s, nodeSize, q, left, right, axis);
      if it in If(Match(q, s[m].x, s[m].y), [s[m]]) {
      } else if it in If(GoRight(q, axis, s[m].x, s[m].y), Visit(s, nodeSize, q, m + 1, right, 1 - axis)) {
        VisitRows(s, nodeSize, q, m + 1, right, 1 - axis, it);
      } else {
        VisitRows(s, nodeSize, q, left, m - 1, 1 - axis, it);
      }
    }
  }

  lemma HitsAround(s: seq<Item>, q: Query, left: int, m: int, right: int)
    requires 0 <= left <= m <= right < |s|
    ensures Hits(s[left..right + 1], q)
         == Hits(s[left..m], q) + If(Match(q, s[m].x, s[m].y), [s[m]]) + Hits(s[m + 1..right + 1], q)
  {
    hide Hits, Match;
    assert s[left..right + 1] == s[left..m] + [s[m]] + s[m + 1..right + 1];
    HitsConcat(s[left..m] + [s[m]], s[m + 1..right + 1], q);
    HitsAppend(s[left..m], s[m], q);
  }

  /** A whole row sequence in tree order. */
  ghost predicate Tree(s: seq<Item>, nodeSize: int) {
    -1 <= nodeSize && KD(s, nodeSize, 0, |s| - 1, 0)
  }

  /** The traversal of the whole tree reports the matching rows and no others. */
  ghost predicate Exact(s: seq<Item>, nodeSize: int, q: Query)
    requires -1 <= nodeSize
  {
    multiset(Visit(s, nodeSize, q, 0, |s| - 1, 0)) == multiset(Hits(s, q))
  }

  /** `Within` is exact on every tree just when the radius is not negative: with a negative one,
      of two points at the centre only the first is reported. */
  lemma ExactIffRadius(qx: real, qy: real, radius: real)
    ensures radius >= 0.0 <==>
      forall s: seq<Item>, nodeSize: int :: Tree(s, nodeSize) ==> Exact(s, nodeSize, Disc(qx, qy, radius))
  {
    var q := Disc(qx, qy, radius);
    hide Tree, Exact;
    if radius >= 0.0 {
      forall s: seq<Item>, nodeSize: int | Tree(s, nodeSize) ensures -1 <= nodeSize && Exact(s, nodeSize, q) {
        TreeExact(s, nodeSize, q);
      }
    } else {
      NegativeRadiusMisses(qx, qy, radius);
    }
  }

  lemma TreeExact(s: seq<Item>, nodeSize: int, q: Query)
    requires Tree(s, nodeSize) && Sensible(q)
    ensures -1 <= nodeSize && Exact(s, nodeSize, q)
  {
    hide KD, Visit, Hits;
    VisitExact(s, nodeSize, q, 0, |s| - 1, 0);
    assert s[0..|s|] == s;
  }

  lemma NegativeRadiusMisses(qx: real, qy: real, radius: real)
    requires radius < 0.0
    ensures var s := [Item(0, qx, qy), Item(1, qx, qy)]; Tree(s, 0) && !Exact(s, 0, Disc(qx, qy, radius))
  {
    var s, q := [Item(0, qx, qy), Item(1, qx, qy)], Disc(qx, qy, radius);
    assert Match(q, qx, qy) by { hide KD, Visit; }
    assert !GoLeft(q, 0, qx, qy) && !GoRight(q, 0, qx, qy);
    hide Match, GoLeft, GoRight;
    assert Visit(s, 0, q, 0, 1, 0) == [s[0]] by { hide KD; }
    assert Tree(s, 0) by { hide Visit; }
    assert multiset(Hits(s, q))[s[1]] == 1 by {
      HitsCount(s, q, s[1]);
      assert multiset(s) == multiset{s[0]} + multiset{s[1]};
    }
  }
}
