/** `FindInRadius` in memory (geocoder/locator.go) and on disk (geocoder/locator_disk.go): both
    fold over a radius query, resolve the point they settle on, and fall back on the border trees. */
module Geocoder {
  import opened Seqs
  import opened Bytes
  import opened KDTree
  import opened KDQuery
  import opened Sampling
  import Select
  import opened Bush
  import opened DiskFormat
  import opened DiskQuery
  import opened Interning
  import opened CachePoints
  import opened Nearest

  /** A border tree, asked for the zone around a longitude and a latitude. */
  type Borders = (real, real) -> Option<Str>

  /** `InfoModel`: the cache's points carry no country of their own. */
  datatype Address = Address(info: Info, country: Str)

  const BLANK := Info([], [], [], [], [], 0)

  function QueryPoint(borders: Option<Borders>, lon: real, lat: real): Option<Str> {
    if borders.None? then None else borders.value(lon, lat)
  }

  function OrBlank(s: Option<Str>): Str { if s.Some? then s.value else [] }

  /** The address of a point that was found; a region it lacks comes from the border tree. */
  function Complete(info: Info, region: Option<Str>, country: Option<Str>): Address {
    Address(if info.region == [] && region.Some? then info.(region := region.value) else info, OrBlank(country))
  }

  /** What the borders alone say. */
  function FromBorders(region: Option<Str>, country: Option<Str>): Option<Address> {
    if OrBlank(country) != [] || OrBlank(region) != [] then
      Some(Address(BLANK.(region := OrBlank(region)), OrBlank(country)))
    else
      None
  }

  /** How the fold sees the points the query hands over. */
  function Candidates<T>(pts: seq<Point<T>>, weight: T -> int, lon: real, lat: real): (cs: seq<Candidate>)
    ensures |cs| == |pts|
    ensures forall i :: 0 <= i < |pts| ==> cs[i] == Candidate(SqDist(lon, lat, pts[i].x, pts[i].y), weight(pts[i].data))
  {
    seq(|pts|, i requires 0 <= i < |pts| => Candidate(SqDist(lon, lat, pts[i].x, pts[i].y), weight(pts[i].data)))
  }

  function InfoWeight(info: Info): int { info.weight }

  function DataWeight(d: PointData): int { d.weight }

  /** The answer, given the matches in the order in which they are visited. */
  function Answer(pts: seq<Point<Info>>, lon: real, lat: real, region: Option<Str>, country: Option<Str>): Option<Address> {
    var k := Winner(Candidates(pts, InfoWeight, lon, lat));
    if k < 0 then FromBorders(region, country) else Some(Complete(pts[k].data, region, country))
  }

  /** The captured `finPoint` and `finDist`, updated for each point in turn; `finDist` is infinite
      while it is None. */
  method Fold<T>(pts: seq<Point<T>>, weight: T -> int, lon: real, lat: real) returns (finPoint: Option<Point<T>>)
    ensures var k := Winner(Candidates(pts, weight, lon, lat));
      finPoint == if k < 0 then None else Some(pts[k])
  {
    ghost var cs := Candidates(pts, weight, lon, lat);
    finPoint := None;
    var finDist: Option<real> := None;
    assert cs[..0] == [];
    for i := 0 to |pts|
      invariant var k := Winner(cs[..i]);
        && finPoint == (if k < 0 then None else Some(pts[k]))
        && finDist == (if k < 0 then None else Some(cs[k].dist))
    {
      var p := pts[i];
      assert cs[..i + 1][..i] == cs[..i];
      var dist := SqDist(lon, lat, p.x, p.y);
      if finDist.None? || dist < finDist.value || weight(p.data) > weight(finPoint.value.data) {
        finPoint := Some(p);
        finDist := Some(dist);
      }
    }
    assert cs[..|pts|] == cs;
  }

  class RGeoCoder {
    const tree: KDBush<Info>
    const regions: Option<Borders>
    const countries: Option<Borders>

    constructor (tree: KDBush<Info>, regions: Option<Borders>, countries: Option<Borders>)
      ensures this.tree == tree && this.regions == regions && this.countries == countries
    {
      this.tree, this.regions, this.countries := tree, regions, countries;
    }

    /** `FindInRadius`. */
    method FindInRadius(lat: real, lon: real, radius: real) returns (r: Option<Address>)
      requires tree.Valid()
      ensures var order := Order(Select.Rows(tree.idxs, tree.coords), tree.nodeSize, Disc(lon, lat, radius));
        && InRange(order, |tree.points|)
        && (radius >= 0.0 ==> ReportsExactly(order, tree.points, Disc(lon, lat, radius)))
        && r == Answer(Pick(tree.points, order), lon, lat, QueryPoint(regions, lon, lat), QueryPoint(countries, lon, lat))
        && (radius >= 0.0 ==> AnswersFrom(r, tree.points, order, lon, lat, radius,
                                   if regions.Some? then regions.value(lon, lat) else None,
                                   if countries.Some? then countries.value(lon, lat) else None))
    {
      hide *;
      ValidSays(tree);
      QueryIs(regions, lon, lat);
      QueryIs(countries, lon, lat);
      var handler: Handler<Info> := _ => true;
      ghost var order := Order(Select.Rows(tree.idxs, tree.coords), tree.nodeSize, Disc(lon, lat, radius));
      var calls := tree.Within(lon, lat, radius, handler);
      DeliveredAll(handler, Pick(tree.points, order), calls);
      if radius >= 0.0 {
        AnswerMeaning(tree.points, order, lon, lat, radius, QueryPoint(regions, lon, lat), QueryPoint(countries, lon, lat));
      }
      var finPoint := Fold(calls, InfoWeight, lon, lat);
      AnswerIs(calls, lon, lat, QueryPoint(regions, lon, lat), QueryPoint(countries, lon, lat), finPoint);
      if finPoint.Some? {
        return Some(Complete(finPoint.value.data, QueryPoint(regions, lon, lat), QueryPoint(countries, lon, lat)));
      }
      r := FromBorders(QueryPoint(regions, lon, lat), QueryPoint(countries, lon, lat));
    }
  }

  lemma AnswerIs(pts: seq<Point<Info>>, lon: real, lat: real, region: Option<Str>, country: Option<Str>, finPoint: Option<Point<Info>>)
    requires var k := Winner(Candidates(pts, InfoWeight, lon, lat)); finPoint == if k < 0 then None else Some(pts[k])
    ensures Answer(pts, lon, lat, region, country)
         == if finPoint.Some? then Some(Complete(finPoint.value.data, region, country)) else FromBorders(region, country)
  {
  }

  // ---------------------------------------------------------------------------
  // What the answer means

  /** The address of a found point: its own data as they are, but the region only if it has one;
      else the region the tree names, if any, and in any case the country the tree names, if any. */
  ghost predicate AddressOf(a: Address, info: Info, region: Option<Str>, country: Option<Str>) {
    && a.info.name == info.name && a.info.street == info.street && a.info.houseNumber == info.houseNumber
    && a.info.city == info.city && a.info.weight == info.weight
    && a.info.region == (if info.region != [] then info.region else if region.Some? then region.value else [])
    && a.country == (if country.Some? then country.value else [])
  }

  /** Without a point there is an answer exactly when a tree names a region or a country that is not
      empty, and it has just these two. */
  ghost predicate BordersOnly(r: Option<Address>, region: Option<Str>, country: Option<Str>) {
    var rg, ct := if region.Some? then region.value else [], if country.Some? then country.value else [];
    && (r.Some? <==> rg != [] || ct != [])
    && (r.Some? ==>
         && r.value.info.name == [] && r.value.info.street == [] && r.value.info.houseNumber == [] && r.value.info.city == []
         && r.value.info.weight == 0 && r.value.info.region == rg && r.value.country == ct)
  }

  /** What is promised of an answer r: with nothing in the disc it comes from the trees alone,
      otherwise it is the address of a point of the disc than which no match visited later is
      closer or heavier. */
  ghost predicate AnswersFrom(r: Option<Address>, points: seq<Point<Info>>, order: seq<int>, lon: real, lat: real, radius: real,
                       region: Option<Str>, country: Option<Str>)
    requires InRange(order, |points|)
  {
    if forall i :: 0 <= i < |points| ==> DistTo(points[i], lon, lat) > radius * radius
    then BordersOnly(r, region, country)
    else r.Some? && exists k ::
           0 <= k < |order| && FinalPick(points, order, k, lon, lat, radius) && AddressOf(r.value, points[order[k]].data, region, country)
  }

  lemma CompleteIs(info: Info, region: Option<Str>, country: Option<Str>)
    ensures AddressOf(Complete(info, region, country), info, region, country)
  {
  }

  lemma FromBordersIs(region: Option<Str>, country: Option<Str>)
    ensures BordersOnly(FromBorders(region, country), region, country)
  {
  }

  lemma QueryIs(borders: Option<Borders>, lon: real, lat: real)
    ensures QueryPoint(borders, lon, lat) == if borders.Some? then borders.value(lon, lat) else None
  {
  }

  /** With nothing in the disc the borders answer; otherwise a point of the disc does, and every
      match visited after it is neither closer nor heavier. */
  lemma AnswerMeaning(points: seq<Point<Info>>, order: seq<int>, lon: real, lat: real, radius: real, region: Option<Str>, country: Option<Str>)
    requires InRange(order, |points|) && ReportsExactly(order, points, Disc(lon, lat, radius))
    ensures AnswersFrom(Answer(Pick(points, order), lon, lat, region, country), points, order, lon, lat, radius, region, country)
  {
    DiscDistances(points, order, lon, lat, radius);
    hide DistTo, Answer, FromBorders, Complete, AddressOf, BordersOnly, Pick, NoneBetter, ReportsExactly;
    if order == [] {
      NoAnswer(points, lon, lat, region, country);
      FromBordersIs(region, country);
      forall i | 0 <= i < |points| ensures DistTo(points[i], lon, lat) > radius * radius {
        assert i !in order;
      }
    } else {
      var k := PickOf(points, order, lon, lat, region, country);
      CompleteIs(points[order[k]].data, region, country);
      assert order[k] in order;
      assert FinalPick(points, order, k, lon, lat, radius);
    }
  }

  /** Exactly the points within the radius are reported. */
  lemma DiscDistances(points: seq<Point<Info>>, order: seq<int>, lon: real, lat: real, radius: real)
    requires InRange(order, |points|) && ReportsExactly(order, points, Disc(lon, lat, radius))
    ensures forall i :: i in order <==> 0 <= i < |points| && DistTo(points[i], lon, lat) <= radius * radius
  {
    hide ReportsExactly, NoDuplicates;
    ExactDisc(order, points, lon, lat, radius);
  }

  lemma NoAnswer(points: seq<Point<Info>>, lon: real, lat: real, region: Option<Str>, country: Option<Str>)
    ensures InRange([], |points|) && Answer(Pick(points, []), lon, lat, region, country) == FromBorders(region, country)
  {
  }

  /** The point whose data `FindInRadius` answers with. */
  function Picked(points: seq<Point<Info>>, order: seq<int>, lon: real, lat: real): (i: int)
    requires InRange(order, |points|) && order != []
    ensures 0 <= i < |points|
  {
    order[Winner(Candidates(Pick(points, order), InfoWeight, lon, lat))]
  }

  /** The fold's pick among the visited points; no later one is closer or heavier. */
  lemma PickOf(points: seq<Point<Info>>, order: seq<int>, lon: real, lat: real, region: Option<Str>, country: Option<Str>) returns (k: int)
    requires InRange(order, |points|) && order != []
    ensures 0 <= k < |order| && NoneBetter(points, order, k, lon, lat)
    ensures Answer(Pick(points, order), lon, lat, region, country) == Some(Complete(points[order[k]].data, region, country))
    ensures order[k] == Picked(points, order, lon, lat)
  {
    var cs := Candidates(Pick(points, order), InfoWeight, lon, lat);
    hide SqDist, DistTo, Winner, Complete;
    k := Winner(cs);
    WinnerSettled(cs);
    SameDistances(points, order, lon, lat);
  }

  /** The k-th visited match lies within the radius; those visited after it are no better. */
  ghost predicate FinalPick(points: seq<Point<Info>>, order: seq<int>, k: int, lon: real, lat: real, radius: real)
    requires InRange(order, |points|)
  {
    && 0 <= k < |order|
    && DistTo(points[order[k]], lon, lat) <= radius * radius
    && NoneBetter(points, order, k, lon, lat)
  }

  ghost predicate NoneBetter(points: seq<Point<Info>>, order: seq<int>, k: int, lon: real, lat: real)
    requires InRange(order, |points|) && 0 <= k < |order|
  {
    forall j :: k < j < |order| ==>
      && DistTo(points[order[j]], lon, lat) >= DistTo(points[order[k]], lon, lat)
      && points[order[j]].data.weight <= points[order[k]].data.weight
  }

  lemma SameDistances(points: seq<Point<Info>>, order: seq<int>, lon: real, lat: real)
    requires InRange(order, |points|)
    ensures forall j :: 0 <= j < |order| ==>
      var c := Candidates(Pick(points, order), InfoWeight, lon, lat)[j];
      && c.dist == DistTo(points[order[j]], lon, lat) && c.weight == points[order[j]].data.weight
  {
    hide SqDist, DistTo;
    forall j | 0 <= j < |order| ensures SqDist(lon, lat, points[order[j]].x, points[order[j]].y) == DistTo(points[order[j]], lon, lat) {
      DistIs(points[order[j]], lon, lat);
    }
  }

  /** The square of the distance from a place. */
  ghost function DistTo(p: Point<Info>, lon: real, lat: real): real {
    (p.x - lon) * (p.x - lon) + (p.y - lat) * (p.y - lat)
  }

  ghost predicate NearestOf(points: seq<Point<Info>>, i: int, lon: real, lat: real) {
    0 <= i < |points| && forall j :: 0 <= j < |points| ==> DistTo(points[i], lon, lat) <= DistTo(points[j], lon, lat)
  }

  lemma DistIs(p: Point<Info>, lon: real, lat: real)
    ensures SqDist(p.x, p.y, lon, lat) == SqDist(lon, lat, p.x, p.y) == DistTo(p, lon, lat)
  {
    SquareOfNegated(p.x - lon);
    SquareOfNegated(p.y - lat);
    assert -(p.x - lon) == lon - p.x && -(p.y - lat) == lat - p.y;
  }

  // ---------------------------------------------------------------------------
  // When the address is that of a nearest point

  predicate SamePlace(a: Point<Info>, b: Point<Info>) { a.x == b.x && a.y == b.y }

  ghost predicate Heaviest(points: seq<Point<Info>>, k: int) {
    0 <= k < |points| && forall j :: 0 <= j < |points| ==> points[j].data.weight <= points[k].data.weight
  }

  /** k is one of the heaviest points and lies where point i lies. */
  ghost predicate HeaviestAt(points: seq<Point<Info>>, i: int, k: int) {
    0 <= i < |points| && Heaviest(points, k) && SamePlace(points[i], points[k])
  }

  ghost predicate HasHeaviest(points: seq<Point<Info>>, i: int) {
    exists k :: HeaviestAt(points, i, k)
  }

  /** No place is without one of the heaviest points. */
  ghost predicate HeaviestEverywhere(points: seq<Point<Info>>) {
    forall i :: 0 <= i < |points| ==> HasHeaviest(points, i)
  }

  /** On this index, asked this, the point picked is a nearest one of all, if any is in the radius. */
  ghost predicate PicksNearest(points: seq<Point<Info>>, s: seq<Item>, nodeSize: int, lon: real, lat: real, radius: real)
    requires -1 <= nodeSize
  {
    var order := Order(s, nodeSize, Disc(lon, lat, radius));
    InRange(order, |points|) && (order != [] ==> NearestOf(points, Picked(points, order, lon, lat), lon, lat))
  }

  /** The documentation promises the closest address. It is kept by every index over the points, for
      every place and radius, exactly when no place is without one of the heaviest points. */
  lemma NearestIffHeaviest(points: seq<Point<Info>>)
    ensures HeaviestEverywhere(points) <==>
      forall s: seq<Item>, nodeSize: int, lon: real, lat: real, radius: real ::
        Tree(s, nodeSize) && Indexed(s, points) && radius >= 0.0 ==> PicksNearest(points, s, nodeSize, lon, lat, radius)
  {
    hide PicksNearest, Indexed, HasHeaviest;
    if HeaviestEverywhere(points) {
      forall s: seq<Item>, nodeSize: int, lon: real, lat: real, radius: real | Tree(s, nodeSize) && Indexed(s, points) && radius >= 0.0
        ensures PicksNearest(points, s, nodeSize, lon, lat, radius)
      {
        NearestPicked(points, s, nodeSize, lon, lat, radius);
      }
    } else {
      var i :| 0 <= i < |points| && !HasHeaviest(points, i);
      var s, radius := NearestMissed(points, i);
    }
  }

  lemma NearestPicked(points: seq<Point<Info>>, s: seq<Item>, nodeSize: int, lon: real, lat: real, radius: real)
    requires HeaviestEverywhere(points) && Tree(s, nodeSize) && Indexed(s, points) && radius >= 0.0
    ensures PicksNearest(points, s, nodeSize, lon, lat, radius)
  {
    var q := Disc(lon, lat, radius);
    var order := Order(s, nodeSize, q);
    OrderExact(s, points, nodeSize, q);
    OrderInRange(s, points, nodeSize, q);
    hide Tree, Indexed, Order, HeaviestEverywhere, ReportsExactly;
    if order != [] {
      PickedAmong(points, order, lon, lat, radius);
    }
  }

  lemma PickedAmong(points: seq<Point<Info>>, order: seq<int>, lon: real, lat: real, radius: real)
    requires HeaviestEverywhere(points) && order != []
    requires InRange(order, |points|) && ReportsExactly(order, points, Disc(lon, lat, radius))
    ensures NearestOf(points, Picked(points, order, lon, lat), lon, lat)
  {
    var cs := Candidates(Pick(points, order), InfoWeight, lon, lat);
    hide DistTo, Winner, ReportsExactly, NearestOf, Pick, Candidates, HeaviestEverywhere;
    var d := BestReported(points, order, lon, lat, radius);
    ClosestAndHeaviest(cs, d);
    NearestAmong(points, order, lon, lat, radius, Winner(cs));
  }

  /** Among the reported points is one that is both a closest and a heaviest of them. */
  lemma BestReported(points: seq<Point<Info>>, order: seq<int>, lon: real, lat: real, radius: real) returns (d: nat)
    requires HeaviestEverywhere(points) && order != []
    requires InRange(order, |points|) && ReportsExactly(order, points, Disc(lon, lat, radius))
    ensures var cs := Candidates(Pick(points, order), InfoWeight, lon, lat);
      d < |cs| && forall j :: 0 <= j < |cs| ==> cs[d].dist <= cs[j].dist && cs[j].weight <= cs[d].weight
  {
    var cs := Candidates(Pick(points, order), InfoWeight, lon, lat);
    var n := SomeClosest(cs);
    var k: int := HeaviestThere(points, order[n]);
    DiscDistances(points, order, lon, lat, radius);
    hide DistTo, ReportsExactly, Candidates, Pick, HeaviestEverywhere;
    SameDistances(points, order, lon, lat);
    SamePlaceSame(points, order[n], k, lon, lat);
    assert order[n] in order && k in order;
    d :| d < |order| && order[d] == k;
  }

  lemma SamePlaceSame(points: seq<Point<Info>>, i: int, k: int, lon: real, lat: real)
    requires 0 <= i < |points| && 0 <= k < |points| && points[k].x == points[i].x && points[k].y == points[i].y
    ensures DistTo(points[k], lon, lat) == DistTo(points[i], lon, lat)
  {
  }

  lemma HeaviestThere(points: seq<Point<Info>>, i: int) returns (k: int)
    requires HeaviestEverywhere(points) && 0 <= i < |points|
    ensures Heaviest(points, k) && points[k].x == points[i].x && points[k].y == points[i].y
  {
    assert HasHeaviest(points, i);
    k :| HeaviestAt(points, i, k);
  }

  /** A closest one of the reported points is a nearest one of all. */
  lemma NearestAmong(points: seq<Point<Info>>, order: seq<int>, lon: real, lat: real, radius: real, k: int)
    requires InRange(order, |points|) && ReportsExactly(order, points, Disc(lon, lat, radius))
    requires Closest(Candidates(Pick(points, order), InfoWeight, lon, lat), k)
    ensures 0 <= k < |order| && NearestOf(points, order[k], lon, lat)
  {
    var cs := Candidates(Pick(points, order), InfoWeight, lon, lat);
    DiscDistances(points, order, lon, lat, radius);
    hide DistTo, ReportsExactly, Candidates, Pick;
    SameDistances(points, order, lon, lat);
    assert order[k] in order;
    forall j | 0 <= j < |points| ensures DistTo(points[order[k]], lon, lat) <= DistTo(points[j], lon, lat) {
      if j in order {
        var n :| 0 <= n < |order| && order[n] == j;
        assert cs[k].dist <= cs[n].dist;
      }
    }
  }

  /** With no heaviest point at the place of point i, an index that visits a heaviest point last,
      asked at that place, picks a point that lies elsewhere. */
  lemma NearestMissed(points: seq<Point<Info>>, i: nat) returns (s: seq<Item>, radius: real)
    requires i < |points| && !HasHeaviest(points, i)
    ensures Tree(s, |points|) && Indexed(s, points) && radius >= 0.0
    ensures !PicksNearest(points, s, |points|, points[i].x, points[i].y, radius)
  {
    var lon, lat := points[i].x, points[i].y;
    var h := SomeHeaviest(points);
    s := HeaviestLast(points, h);
    radius := SqDist(points[h].x, points[h].y, lon, lat) + 1.0;
    var q := Disc(lon, lat, radius);
    InRadius(points[h], lon, lat);
    var front := LastVisited(points, s, |points|, h, q);
    var order := Order(s, |points|, q);
    OrderInRange(s, points, |points|, q);
    hide Tree, Indexed, Order, Match, SqDist, HasHeaviest;
    var j := LateHeaviest(points, front, order, h, lon, lat);
    ElsewhereFurther(points, i, j);
  }

  lemma {:induction false} SomeHeaviest(points: seq<Point<Info>>) returns (h: nat)
    requires points != []
    ensures Heaviest(points, h)
  {
    h := 0;
    if |points| > 1 {
      var j := SomeHeaviest(points[1..]);
      assert forall i :: 1 <= i < |points| ==> points[1..][i - 1] == points[i];
      h := if points[0].data.weight >= points[j + 1].data.weight then 0 else j + 1;
    }
  }

  /** All points in one leaf, point h at its end. */
  lemma HeaviestLast(points: seq<Point<Info>>, h: nat) returns (s: seq<Item>)
    requires h < |points|
    ensures Tree(s, |points|) && Indexed(s, points) && |s| == |points| && s[|s| - 1] == Item(h, points[h].x, points[h].y)
  {
    var all := Initial(points);
    s := RemoveAt(all, h) + [all[h]];
    RemoveAtCounts(all, h);
  }

  lemma InRadius(p: Point<Info>, lon: real, lat: real)
    ensures SqDist(p.x, p.y, lon, lat) >= 0.0
    ensures Match(Disc(lon, lat, SqDist(p.x, p.y, lon, lat) + 1.0), p.x, p.y)
  {
    var d := SqDist(p.x, p.y, lon, lat);
    assert Sq(d + 1.0) == Sq(d) + d + d + 1.0;
  }

  lemma LastVisited(points: seq<Point<Info>>, s: seq<Item>, nodeSize: int, h: nat, q: Query) returns (front: seq<int>)
    requires h < |points| == |s| <= nodeSize && s[|s| - 1] == Item(h, points[h].x, points[h].y) && Match(q, points[h].x, points[h].y)
    ensures Order(s, nodeSize, q) == front + [h]
  {
    var n := |s| - 1;
    hide Hits, Match, Visit;
    VisitLeaf(s, nodeSize, q, 0, n, 0);
    assert s[0..n + 1] == s[..n] + [s[n]];
    HitsAppend(s[..n], s[n], q);
    MapConcat(IdxOf, Hits(s[..n], q), [s[n]]);
    front := Idxs(Hits(s[..n], q));
  }

  /** When a heaviest point is visited last, the point picked is one of the heaviest. */
  lemma LateHeaviest(points: seq<Point<Info>>, front: seq<int>, order: seq<int>, h: nat, lon: real, lat: real) returns (j: int)
    requires InRange(order, |points|) && order == front + [h] && Heaviest(points, h)
    ensures j == Picked(points, order, lon, lat) && Heaviest(points, j)
  {
    var cs := Candidates(Pick(points, order), InfoWeight, lon, lat);
    hide DistTo, Winner;
    SameDistances(points, order, lon, lat);
    WinnerSettled(cs);
    j := Picked(points, order, lon, lat);
    var w := Winner(cs);
    assert w < |front| ==> cs[|front|].weight <= cs[w].weight;
  }

  lemma ElsewhereFurther(points: seq<Point<Info>>, i: nat, j: int)
    requires i < |points| && Heaviest(points, j) && !HasHeaviest(points, i)
    ensures !NearestOf(points, j, points[i].x, points[i].y)
  {
    assert !HeaviestAt(points, i, j);
    DistIs(points[j], points[i].x, points[i].y);
    var dx, dy := points[j].x - points[i].x, points[j].y - points[i].y;
    SquarePositive(dx);
    SquarePositive(dy);
    assert DistTo(points[i], points[i].x, points[i].y) == 0.0;
    assert DistTo(points[j], points[i].x, points[i].y) > 0.0;
  }

  lemma SquarePositive(d: real)
    ensures d != 0.0 ==> Sq(d) > 0.0
  {
    hide Sq;
    if d > 0.0 {
      SquareGrows(d, 0.0);
    } else if d < 0.0 {
      SquareGrows(-d, 0.0);
      SquareOfNegated(d);
    }
  }

  predicate PairwiseApart(points: seq<Point<Info>>) {
    forall i, j :: 0 <= i < j < |points| ==> !SamePlace(points[i], points[j])
  }

  predicate EqualWeights(points: seq<Point<Info>>) {
    forall i, j :: 0 <= i < j < |points| ==> points[i].data.weight == points[j].data.weight
  }

  /** Equal weights always suffice, and among points at different places nothing less does. */
  lemma HeaviestIfEqual(points: seq<Point<Info>>)
    ensures EqualWeights(points) ==> HeaviestEverywhere(points)
    ensures PairwiseApart(points) ==> (HeaviestEverywhere(points) <==> EqualWeights(points))
  {
    if EqualWeights(points) {
      forall i | 0 <= i < |points| ensures HasHeaviest(points, i) {
        assert HeaviestAt(points, i, i);
      }
    }
    if PairwiseApart(points) && HeaviestEverywhere(points) {
      forall i, j | 0 <= i < j < |points| ensures points[i].data.weight == points[j].data.weight {
        OwnHeaviest(points, i);
        OwnHeaviest(points, j);
      }
    }
  }

  lemma ApartSame(points: seq<Point<Info>>, i: int, k: int)
    requires PairwiseApart(points) && 0 <= i < |points| && 0 <= k < |points|
    requires SamePlace(points[i], points[k]) && SamePlace(points[k], points[i])
    ensures i == k
  {
  }

  lemma OwnHeaviest(points: seq<Point<Info>>, i: int)
    requires PairwiseApart(points) && HeaviestEverywhere(points) && 0 <= i < |points|
    ensures Heaviest(points, i)
  {
    var k := HeaviestThere(points, i);
    ApartSame(points, i, k);
  }

  /** When all points weigh the same, the address is that of a point nearest to the place. */
  lemma SameWeightNearest(points: seq<Point<Info>>, order: seq<int>, lon: real, lat: real, radius: real, region: Option<Str>, country: Option<Str>)
    requires InRange(order, |points|) && ReportsExactly(order, points, Disc(lon, lat, radius)) && order != []
    requires EqualWeights(points)
    ensures var answer := Answer(Pick(points, order), lon, lat, region, country);
      answer.Some? && exists i :: NearestOf(points, i, lon, lat) && AddressOf(answer.value, points[i].data, region, country)
  {
    hide NearestOf, Answer, Complete, AddressOf, EqualWeights, HeaviestEverywhere, ReportsExactly;
    HeaviestIfEqual(points);
    PickedAmong(points, order, lon, lat, radius);
    var k := PickOf(points, order, lon, lat, region, country);
    CompleteIs(points[order[k]].data, region, country);
  }

  /** Two points are enough: asked at the very place of the first, within reach of a heavier second
      one elsewhere, every in-memory and every disk index of the usual node size answers with the
      second, though the first is nearest. */
  lemma FartherAddress(a: Point<Info>, b: Point<Info>, radius: real, region: Option<Str>, country: Option<Str>, est: Sampler)
    requires a.data.weight < b.data.weight && !SamePlace(a, b)
    requires (b.x - a.x) * (b.x - a.x) + (b.y - a.y) * (b.y - a.y) <= radius * radius
    ensures var points := [a, b];
      var order := Order(TreeRows(points, 64, est), 64, Disc(a.x, a.y, radius));
      && InRange(order, |points|) && NearestOf(points, 0, a.x, a.y) && !NearestOf(points, 1, a.x, a.y)
      && var answer := Answer(Pick(points, order), a.x, a.y, region, country);
      && answer.Some? && AddressOf(answer.value, b.data, region, country)
  {
    var points, q := [a, b], Disc(a.x, a.y, radius);
    var s := Initial(points);
    assert points[0] == a && points[1] == b && s[1] == Item(1, b.x, b.y);
    TwoPoints(a, b, est);
    hide *;
    MatchMeans(q, b.x, b.y);
    CompleteIs(b.data, region, country);
    var front := LastVisited(points, s, 64, 1, q);
    var order := Order(s, 64, q);
    OrderInRange(s, points, 64, q);
    var j := LateHeaviest(points, front, order, 1, a.x, a.y);
    var k := PickOf(points, order, a.x, a.y, region, country);
    OwnPlaceNearest(points, 0);
    ElsewhereFurther(points, 0, 1);
  }

  lemma TwoPoints(a: Point<Info>, b: Point<Info>, est: Sampler)
    requires a.data.weight < b.data.weight && !SamePlace(a, b)
    ensures var points := [a, b];
      && Heaviest(points, 1) && !HasHeaviest(points, 0) && (forall j :: Heaviest(points, j) ==> j == 1)
      && TreeRows(points, 64, est) == Initial(points) && Indexed(Initial(points), points)
  {
    var points := [a, b];
    assert points[1].data.weight > points[0].data.weight;
  }

  lemma OwnPlaceNearest(points: seq<Point<Info>>, i: nat)
    requires i < |points|
    ensures NearestOf(points, i, points[i].x, points[i].y)
  {
    assert DistTo(points[i], points[i].x, points[i].y) == 0.0;
  }

  // ---------------------------------------------------------------------------
  // On disk

  /** What is left of a point's data after a trip through the disk geocoder. */
  function Short(info: Info): Info {
    Info(Shortened(info.name), Shortened(info.street), Shortened(info.houseNumber), Shortened(info.city), Shortened(info.region), info.weight)
  }

  function ShortPoints(pts: seq<Point<Info>>): (r: seq<Point<Info>>)
    ensures |r| == |pts| && forall i :: 0 <= i < |pts| ==> r[i] == Point(pts[i].x, pts[i].y, Short(pts[i].data))
  {
    seq(|pts|, i requires 0 <= i < |pts| => Point(pts[i].x, pts[i].y, Short(pts[i].data)))
  }

  ghost predicate Plain(s: Str) { NulFree(s) && |s| <= 512 }

  ghost predicate PlainInfo(info: Info) {
    Plain(info.name) && Plain(info.street) && Plain(info.houseNumber) && Plain(info.city) && Plain(info.region)
  }

  lemma ShortIffPlain(info: Info)
    ensures Short(info) == info <==> PlainInfo(info)
  {
    hide Shortened, NulFree;
    ShortenedWhole(info.name);
    ShortenedWhole(info.street);
    ShortenedWhole(info.houseNumber);
    ShortenedWhole(info.city);
    ShortenedWhole(info.region);
  }

  lemma PlainPoints(points: seq<Point<Info>>)
    requires forall i :: 0 <= i < |points| ==> PlainInfo(points[i].data)
    ensures ShortPoints(points) == points
  {
    hide Short, PlainInfo;
    forall i | 0 <= i < |points| ensures Short(points[i].data) == points[i].data {
      ShortIffPlain(points[i].data);
    }
  }

  class RGeoCoderDisk {
    const diskTree: Disk
    const stringsIndex: seq<nat>
    const stringsDataOffset: int
    const regions: Option<Borders>
    const countries: Option<Borders>

    constructor (diskTree: Disk, stringsIndex: seq<nat>, stringsDataOffset: int, regions: Option<Borders>, countries: Option<Borders>)
      ensures this.diskTree == diskTree && this.stringsIndex == stringsIndex && this.stringsDataOffset == stringsDataOffset
      ensures this.regions == regions && this.countries == countries
    {
      this.diskTree, this.stringsIndex, this.stringsDataOffset := diskTree, stringsIndex, stringsDataOffset;
      this.regions, this.countries := regions, countries;
    }

    /** The handle's file holds the string table of these points and an index over them. */
    ghost predicate Backed(points: seq<Point<Info>>, rows: seq<Item>, blobs: seq<seq<byte>>, fc: FloatCodec) {
      var table := TableOf(points);
      && StringsBacked(table) && CoversAll(table, points)
      && Stored(diskTree, rows, NumberedAll(table, points), blobs, fc, PointCodec())
    }

    ghost predicate StringsBacked(table: seq<Str>) {
      ById(table) && stringsIndex == Starts(table) && At(diskTree.file, stringsDataOffset, Block(table))
    }

    /** `resolvePointData`. */
    method ResolvePointData(d: PointData, ghost table: seq<Str>, ghost info: Info) returns (r: Info)
      requires StringsBacked(table) && Covers(table, info) && d == Numbered(table, info)
      ensures r == Short(info)
    {
      hide *;
      NumberedKnown(table, info);
      StringsSay(table, d);
      ShortIs(info);
      var name := ReadStr(diskTree.file, stringsIndex, stringsDataOffset, d.name, table);
      var street := ReadStr(diskTree.file, stringsIndex, stringsDataOffset, d.street, table);
      var houseNumber := ReadStr(diskTree.file, stringsIndex, stringsDataOffset, d.houseNumber, table);
      var city := ReadStr(diskTree.file, stringsIndex, stringsDataOffset, d.city, table);
      var region := ReadStr(diskTree.file, stringsIndex, stringsDataOffset, d.region, table);
      r := Info(name, street, houseNumber, city, region, d.weight);
    }

    lemma StringsSay(table: seq<Str>, d: PointData)
      requires StringsBacked(table) && Known(d, |table|)
      ensures ById(table) && stringsIndex == Starts(table) && At(diskTree.file, stringsDataOffset, Block(table))
      ensures |stringsIndex| == |table| && Known(d, |stringsIndex|)
      ensures d.name < |table| && d.street < |table| && d.houseNumber < |table| && d.city < |table| && d.region < |table|
    {
    }

    /** `FindInRadius`. A string that is no longer than 512 bytes and has no NUL comes back as it was;
        any other is cut, which also decides whether a region counts as missing. */
    method FindInRadius(lat: real, lon: real, radius: real, fc: FloatCodec,
                        ghost points: seq<Point<Info>>, ghost rows: seq<Item>, ghost blobs: seq<seq<byte>>)
      returns (r: Option<Address>)
      requires Backed(points, rows, blobs, fc)
      ensures -1 <= diskTree.nodeSize
      ensures var order := Order(rows, diskTree.nodeSize, Disc(lon, lat, radius));
        && InRange(order, |points|)
        && r == Answer(ShortPoints(Pick(points, order)), lon, lat, QueryPoint(regions, lon, lat), QueryPoint(countries, lon, lat))
        && (Tree(rows, diskTree.nodeSize) && radius >= 0.0 ==>
             AnswersFrom(r, ShortPoints(points), order, lon, lat, radius,
                         if regions.Some? then regions.value(lon, lat) else None,
                         if countries.Some? then countries.value(lon, lat) else None))
    {
      hide *;
      QueryIs(regions, lon, lat);
      QueryIs(countries, lon, lat);
      BackedSays(this, points, rows, blobs, fc);
      ghost var table := TableOf(points);
      ghost var filled := NumberedAll(table, points);
      ghost var order := Order(rows, diskTree.nodeSize, Disc(lon, lat, radius));
      var handler: Handler<PointData> := _ => true;
      var ok, calls := Within(diskTree, fc, PointCodec(), lon, lat, radius, handler, rows, filled, blobs);
      DeliveredAll(handler, Pick(filled, order), calls);
      if !ok {
        return None;
      }
      if Tree(rows, diskTree.nodeSize) && radius >= 0.0 {
        StoredHolds(diskTree, rows, filled, blobs, fc, PointCodec());
        ShortMeaning(points, table, rows, diskTree.nodeSize, lon, lat, radius, QueryPoint(regions, lon, lat), QueryPoint(countries, lon, lat));
      }
      var finPoint := Fold(calls, DataWeight, lon, lat);
      PickedSame(points, table, order, lon, lat);
      if finPoint.Some? {
        ghost var k := Winner(Candidates(calls, DataWeight, lon, lat));
        PickedInfo(points, table, order, k);
        var gi := ResolvePointData(finPoint.value.data, table, points[order[k]].data);
        AnswerIs(ShortPoints(Pick(points, order)), lon, lat, QueryPoint(regions, lon, lat), QueryPoint(countries, lon, lat),
                 Some(ShortPoints(Pick(points, order))[k]));
        return Some(Complete(gi, QueryPoint(regions, lon, lat), QueryPoint(countries, lon, lat)));
      }
      AnswerIs(ShortPoints(Pick(points, order)), lon, lat, QueryPoint(regions, lon, lat), QueryPoint(countries, lon, lat), None);
      r := FromBorders(QueryPoint(regions, lon, lat), QueryPoint(countries, lon, lat));
    }
  }

  lemma ShortIs(info: Info)
    ensures Short(info)
         == Info(Shortened(info.name), Shortened(info.street), Shortened(info.houseNumber), Shortened(info.city), Shortened(info.region), info.weight)
  {
  }

  lemma BackedSays(g: RGeoCoderDisk, points: seq<Point<Info>>, rows: seq<Item>, blobs: seq<seq<byte>>, fc: FloatCodec)
    requires g.Backed(points, rows, blobs, fc)
    ensures g.StringsBacked(TableOf(points)) && CoversAll(TableOf(points), points)
    ensures Stored(g.diskTree, rows, NumberedAll(TableOf(points), points), blobs, fc, PointCodec())
    ensures -1 <= g.diskTree.nodeSize && g.diskTree.numPoints >= 0
  {
    hide TableOf, CoversAll, Indexed, RGeoCoderDisk.StringsBacked;
  }

  /** Shortening strings moves no point. */
  lemma ShortMeaning(points: seq<Point<Info>>, table: seq<Str>, rows: seq<Item>, nodeSize: int, lon: real, lat: real, radius: real,
                     region: Option<Str>, country: Option<Str>)
    requires Tree(rows, nodeSize) && CoversAll(table, points) && Indexed(rows, NumberedAll(table, points)) && radius >= 0.0
    ensures var order := Order(rows, nodeSize, Disc(lon, lat, radius));
      && InRange(order, |points|)
      && AnswersFrom(Answer(ShortPoints(Pick(points, order)), lon, lat, region, country), ShortPoints(points), order,
                     lon, lat, radius, region, country)
  {
    var order := Order(rows, nodeSize, Disc(lon, lat, radius));
    ShortIndexed(rows, points, table);
    hide KD, Indexed, Order, Answer, AnswersFrom, Short, CoversAll, NumberedAll;
    OrderInRange(rows, ShortPoints(points), nodeSize, Disc(lon, lat, radius));
    OrderInDisc(rows, ShortPoints(points), nodeSize, lon, lat, radius);
    assert ShortPoints(Pick(points, order)) == Pick(ShortPoints(points), order);
    AnswerMeaning(ShortPoints(points), order, lon, lat, radius, region, country);
  }

  lemma ShortIndexed(rows: seq<Item>, points: seq<Point<Info>>, table: seq<Str>)
    requires CoversAll(table, points) && Indexed(rows, NumberedAll(table, points))
    ensures Indexed(rows, ShortPoints(points))
  {
    hide CoversAll;
    assert Initial(ShortPoints(points)) == Initial(NumberedAll(table, points));
  }

  /** Numbered points and plain ones look the same to the fold. */
  lemma PickedSame(points: seq<Point<Info>>, table: seq<Str>, order: seq<int>, lon: real, lat: real)
    requires CoversAll(table, points) && InRange(order, |points|)
    ensures Candidates(Pick(NumberedAll(table, points), order), DataWeight, lon, lat)
         == Candidates(ShortPoints(Pick(points, order)), InfoWeight, lon, lat)
  {
    hide SqDist;
  }

  lemma PickedInfo(points: seq<Point<Info>>, table: seq<Str>, order: seq<int>, k: int)
    requires CoversAll(table, points) && InRange(order, |points|) && 0 <= k < |order|
    ensures 0 <= order[k] < |points| && Covers(table, points[order[k]].data)
    ensures |Pick(NumberedAll(table, points), order)| == |ShortPoints(Pick(points, order))| == |order|
    ensures Pick(NumberedAll(table, points), order)[k].data == Numbered(table, points[order[k]].data)
    ensures ShortPoints(Pick(points, order))[k].data == Short(points[order[k]].data)
  {
  }
}
