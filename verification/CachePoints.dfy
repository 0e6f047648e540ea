/** Points of the v2 cache: the 21-byte records of cachesaver/save/v2/pointdata.go, and the two
    passes of cachesaver/save/v2/save.go that intern their strings and number them. */
module CachePoints {
  import opened Seqs
  import opened Bytes
  import opened KDQuery
  import opened DiskFormat
  import opened Interning

  const POINT_DATA_SIZE := 21

  /** `V2PointData`: string ids of 32 bits and a weight of 8. */
  datatype PointData = PointData(name: nat, street: nat, houseNumber: nat, city: nat, region: nat, weight: byte)

  predicate Narrow(d: PointData) {
    d.name < TWO_TO_32 && d.street < TWO_TO_32 && d.houseNumber < TWO_TO_32 && d.city < TWO_TO_32 && d.region < TWO_TO_32
  }

  function Record(d: PointData): (b: seq<byte>)
    ensures |b| == POINT_DATA_SIZE
  {
    Le(d.name, 4) + Le(d.street, 4) + Le(d.houseNumber, 4) + Le(d.city, 4) + Le(d.region, 4) + [d.weight]
  }

  /** `MarshalBinary`. */
  method MarshalBinary(d: PointData) returns (buf: array<byte>)
    ensures fresh(buf) && buf[..] == Record(d)
  {
    hide Le;
    buf := new byte[POINT_DATA_SIZE];
    Put(buf, 0, d.name, 4);
    assert buf[..4] == Le(d.name, 4);
    Put(buf, 4, d.street, 4);
    Front(buf[..], 4, 8);
    Put(buf, 8, d.houseNumber, 4);
    Front(buf[..], 8, 12);
    Put(buf, 12, d.city, 4);
    Front(buf[..], 12, 16);
    Put(buf, 16, d.region, 4);
    Front(buf[..], 16, 20);
    buf[20] := d.weight;
    Front(buf[..], 20, 21);
  }

  lemma Front(b: seq<byte>, i: nat, j: nat)
    requires i <= j <= |b|
    ensures b[..j] == b[..i] + b[i..j]
  {
  }

  /** `UnmarshalBinary`: nothing at all is the zero record, anything else must be long enough. */
  function Unmarshal(data: seq<byte>): Result<PointData> {
    if |data| == 0 then Ok(ZERO)
    else if |data| < POINT_DATA_SIZE then Err
    else Ok(PointData(UnLe(data[0..4]), UnLe(data[4..8]), UnLe(data[8..12]), UnLe(data[12..16]), UnLe(data[16..20]), data[20]))
  }

  const ZERO := PointData(0, 0, 0, 0, 0, 0)

  /** A record reads back, whatever follows it; cut anywhere but at its start it is refused. */
  lemma RecordRoundTrip(d: PointData, rest: seq<byte>, k: nat)
    requires Narrow(d) && k < POINT_DATA_SIZE
    ensures Unmarshal(Record(d) + rest) == Ok(d)
    ensures Unmarshal(Record(d)[..k]) == if k == 0 then Ok(PointData(0, 0, 0, 0, 0, 0)) else Err
  {
    var b := Record(d) + rest;
    assert b == Record(d) + rest && b[20] == d.weight;
    RecordFields(Le(d.name, 4), Le(d.street, 4), Le(d.houseNumber, 4), Le(d.city, 4), Le(d.region, 4), [d.weight] + rest, b);
    hide Record, Le, UnLe;
    LeHalfWord(d.name);
    LeHalfWord(d.street);
    LeHalfWord(d.houseNumber);
    LeHalfWord(d.city);
    LeHalfWord(d.region);
  }

  lemma RecordFields(a: seq<byte>, b: seq<byte>, c: seq<byte>, d: seq<byte>, e: seq<byte>, rest: seq<byte>, r: seq<byte>)
    requires |a| == |b| == |c| == |d| == |e| == 4 && r == a + b + c + d + e + rest
    ensures |r| >= 20 && r[0..4] == a && r[4..8] == b && r[8..12] == c && r[12..16] == d && r[16..20] == e
  {
  }

  function PointCodec(): Codec<PointData> {
    Codec(d => Ok(Record(d)), Unmarshal, ZERO)
  }

  lemma RecordReadsBack(d: PointData)
    requires Narrow(d)
    ensures ReadBack(PointCodec(), Record(d)) == Ok(d)
  {
    RecordRoundTrip(d, [], 0);
    assert Record(d) + [] == Record(d);
  }

  // ---------------------------------------------------------------------------
  // Interning the strings of points

  /** `Info` of the cache model. */
  datatype Info = Info(name: Str, street: Str, houseNumber: Str, city: Str, region: Str, weight: byte)

  function Strings(info: Info): seq<Str> {
    [info.name, info.street, info.houseNumber, info.city, info.region]
  }

  function StringsOf(points: seq<Point<Info>>): seq<Str> {
    if points == [] then [] else StringsOf(points[..|points| - 1]) + Strings(points[|points| - 1].data)
  }

  const START: seq<Str> := [[]]

  /** Every string of the points, by id. */
  function TableOf(points: seq<Point<Info>>): seq<Str> {
    InternAll(START, StringsOf(points))
  }

  ghost predicate Covers(table: seq<Str>, info: Info) {
    forall s :: s in Strings(info) ==> s in table
  }

  function Numbered(table: seq<Str>, info: Info): PointData
    requires Covers(table, info)
  {
    assert forall i :: 0 <= i < 5 ==> Strings(info)[i] in Strings(info);
    PointData(IdIn(table, info.name), IdIn(table, info.street), IdIn(table, info.houseNumber), IdIn(table, info.city),
              IdIn(table, info.region), info.weight)
  }

  ghost predicate CoversAll(table: seq<Str>, points: seq<Point<Info>>) {
    forall i :: 0 <= i < |points| ==> Covers(table, points[i].data)
  }

  function NumberedAll(table: seq<Str>, points: seq<Point<Info>>): (r: seq<Point<PointData>>)
    requires CoversAll(table, points)
    ensures |r| == |points|
    ensures forall i :: 0 <= i < |points| ==> r[i] == Point(points[i].x, points[i].y, Numbered(table, points[i].data))
  {
    seq(|points|, i requires 0 <= i < |points| => Point(points[i].x, points[i].y, Numbered(table, points[i].data)))
  }

  lemma {:induction false} StringsCovered(points: seq<Point<Info>>, i: nat, s: Str)
    requires i < |points| && s in Strings(points[i].data)
    ensures s in StringsOf(points)
  {
    if i < |points| - 1 {
      StringsCovered(points[..|points| - 1], i, s);
    }
  }

  lemma TableIs(points: seq<Point<Info>>)
    ensures ById(TableOf(points)) && CoversAll(TableOf(points), points)
  {
    InternAllById(START, StringsOf(points));
    forall i, s | 0 <= i < |points| && s in Strings(points[i].data) ensures s in TableOf(points) {
      StringsCovered(points, i, s);
    }
  }

  lemma TableNext(points: seq<Point<Info>>, i: nat)
    requires i < |points|
    ensures TableOf(points[..i + 1]) == InternAll(TableOf(points[..i]), Strings(points[i].data))
  {
    assert points[..i + 1][..i] == points[..i];
    InternConcat(START, StringsOf(points[..i]), Strings(points[i].data));
  }

  /** The table of the first points is the front of the whole one. */
  lemma {:induction false} TableGrows(points: seq<Point<Info>>, i: nat)
    requires i <= |points|
    ensures TableOf(points[..i]) <= TableOf(points)
    decreases |points| - i
  {
    if i < |points| {
      TableGrows(points, i + 1);
      TableNext(points, i);
      TableIs(points[..i]);
      InternAllById(TableOf(points[..i]), Strings(points[i].data));
    } else {
      assert points[..i] == points;
    }
  }

  /** `stringsDedup`: five names for one map. */
  class StringsDedup {
    const names: DedupMap
    const streets: DedupMap
    const houseNumbers: DedupMap
    const cities: DedupMap
    const regions: DedupMap

    ghost predicate Shared()
      reads names
    {
      names == streets == houseNumbers == cities == regions && names.Valid()
    }

    /** `newStringsDedup`. */
    constructor ()
      ensures Shared() && fresh(names) && names.table == START
    {
      var shared := new DedupMap();
      names, streets, houseNumbers, cities, regions := shared, shared, shared, shared, shared;
    }

    /** Registers the strings of one point and numbers them. */
    method Number(info: Info) returns (d: PointData)
      requires Shared() && |InternAll(names.table, Strings(info))| <= TWO_TO_32
      modifies names
      ensures Shared() && names.table == InternAll(old(names.table), Strings(info))
      ensures Covers(names.table, info) && d == Numbered(names.table, info)
    {
      hide InternAll, Interned, IdIn, Numbered, Covers, ById, NoDuplicates;
      ghost var t0 := names.table;
      ghost var t1, t2, t3, t4, t5 := FiveSteps(t0, info);
      Growing(t0, t1, t2, t3, t4, t5, info);
      var a := names.Add(info.name);
      var b := streets.Add(info.street);
      var c := houseNumbers.Add(info.houseNumber);
      var e := cities.Add(info.city);
      var f := regions.Add(info.region);
      d := PointData(a, b, c, e, f, info.weight);
    }
  }

  lemma FiveSteps(t0: seq<Str>, info: Info) returns (t1: seq<Str>, t2: seq<Str>, t3: seq<Str>, t4: seq<Str>, t5: seq<Str>)
    ensures t1 == Interned(t0, info.name) && t2 == Interned(t1, info.street) && t3 == Interned(t2, info.houseNumber)
    ensures t4 == Interned(t3, info.city) && t5 == Interned(t4, info.region) && t5 == InternAll(t0, Strings(info))
  {
    t1 := Interned(t0, info.name);
    t2 := Interned(t1, info.street);
    t3 := Interned(t2, info.houseNumber);
    t4 := Interned(t3, info.city);
    t5 := Interned(t4, info.region);
    var ss := Strings(info);
    assert ss[..4] == [info.name, info.street, info.houseNumber, info.city];
    assert ss[..4][..3] == [info.name, info.street, info.houseNumber];
    assert ss[..4][..3][..2] == [info.name, info.street];
    assert ss[..4][..3][..2][..1] == [info.name];
    assert ss[..4][..3][..2][..1][..0] == ss[..0];
    assert InternAll(t0, [info.name]) == t1;
    assert InternAll(t0, [info.name, info.street]) == t2;
    assert InternAll(t0, [info.name, info.street, info.houseNumber]) == t3;
  }

  /** Ids given out by the first table stand in the second. */
  ghost predicate Before(a: seq<Str>, b: seq<Str>) {
    a <= b && ById(b)
  }

  lemma Step(t: seq<Str>, t': seq<Str>, s: Str)
    requires ById(t) && t' == Interned(t, s)
    ensures ById(t') && Before(t, t') && s in t'
  {
  }

  lemma BeforeAll(a: seq<Str>, b: seq<Str>, c: seq<Str>)
    requires Before(a, b) && Before(b, c)
    ensures Before(a, c)
  {
  }

  lemma IdKept(t: seq<Str>, t': seq<Str>, s: Str)
    requires Before(t, t') && s in t && |t'| <= TWO_TO_32
    ensures |t| <= TWO_TO_32 && s in t' && IdIn(t', s) == IdIn(t, s) % TWO_TO_32
  {
    IdUnique(t', IdIn(t, s));
  }

  lemma Growing(t0: seq<Str>, t1: seq<Str>, t2: seq<Str>, t3: seq<Str>, t4: seq<Str>, t5: seq<Str>, info: Info)
    requires ById(t0) && |t5| <= TWO_TO_32
    requires t1 == Interned(t0, info.name) && t2 == Interned(t1, info.street) && t3 == Interned(t2, info.houseNumber)
    requires t4 == Interned(t3, info.city) && t5 == Interned(t4, info.region)
    ensures |t1| <= TWO_TO_32 && |t2| <= TWO_TO_32 && |t3| <= TWO_TO_32 && |t4| <= TWO_TO_32
    ensures Covers(t5, info)
    ensures info.name in t1 && info.street in t2 && info.houseNumber in t3 && info.city in t4
    ensures Numbered(t5, info)
         == PointData(IdIn(t1, info.name) % TWO_TO_32, IdIn(t2, info.street) % TWO_TO_32, IdIn(t3, info.houseNumber) % TWO_TO_32,
                      IdIn(t4, info.city) % TWO_TO_32, IdIn(t5, info.region) % TWO_TO_32, info.weight)
  {
    hide Interned, ById, IdIn, Before;
    Step(t0, t1, info.name);
    Step(t1, t2, info.street);
    Step(t2, t3, info.houseNumber);
    Step(t3, t4, info.city);
    Step(t4, t5, info.region);
    BeforeAll(t3, t4, t5);
    BeforeAll(t2, t3, t5);
    BeforeAll(t1, t2, t5);
    IdKept(t1, t5, info.name);
    IdKept(t2, t5, info.street);
    IdKept(t3, t5, info.houseNumber);
    IdKept(t4, t5, info.city);
    IdSmall(t5, info.region);
  }

  lemma IdSmall(t: seq<Str>, s: Str)
    requires s in t && |t| <= TWO_TO_32
    ensures IdIn(t, s) == IdIn(t, s) % TWO_TO_32
  {
  }

  // ---------------------------------------------------------------------------
  // The two passes

  /** The first pass: every string gets its id. */
  method Register(d: StringsDedup, points: seq<Point<Info>>)
    requires d.Shared() && d.names.table == START && |TableOf(points)| <= TWO_TO_32
    modifies d.names
    ensures d.Shared() && d.names.Valid() && d.names.table == TableOf(points)
  {
    hide InternAll, StringsOf, Numbered, Covers, ById, DedupMap.Valid;
    NoPoints(points);
    for i := 0 to |points|
      invariant d.Shared() && d.names.table == TableOf(points[..i])
    {
      TableNext(points, i);
      TableGrows(points, i + 1);
      var _ := d.Number(points[i].data);
    }
    assert points[..|points|] == points;
  }

  lemma NoPoints(points: seq<Point<Info>>)
    ensures TableOf(points[..0]) == START
  {
  }

  /** The second pass: the points are filled with ids; the table stays as it is. */
  method Fill(d: StringsDedup, points: seq<Point<Info>>) returns (filled: array<Point<PointData>>)
    requires d.Shared() && d.names.table == TableOf(points) && |TableOf(points)| <= TWO_TO_32
    modifies d.names
    ensures d.Shared() && d.names.table == TableOf(points) && fresh(filled)
    ensures CoversAll(TableOf(points), points) && filled[..] == NumberedAll(TableOf(points), points)
  {
    hide InternAll, StringsOf, Numbered, Covers, ById, TableOf, DedupMap.Valid;
    ghost var table := TableOf(points);
    TableIs(points);
    filled := new Point<PointData>[|points|](_ => Point(0.0, 0.0, ZERO));
    for i := 0 to |points|
      invariant d.Shared() && d.names.table == table
      invariant filled[..i] == NumberedAll(table, points)[..i]
    {
      Again(table, points[i].data);
      var data := d.Number(points[i].data);
      filled[i] := Point(points[i].x, points[i].y, data);
    }
  }

  lemma Again(table: seq<Str>, info: Info)
    requires Covers(table, info)
    ensures InternAll(table, Strings(info)) == table
  {
    InternAgain(table, Strings(info));
  }

  // ---------------------------------------------------------------------------
  // Resolving ids

  predicate Known(d: PointData, n: nat) {
    d.name < n && d.street < n && d.houseNumber < n && d.city < n && d.region < n
  }

  /** `resolvePointFromIndex`; the streaming path has no coordinates for the point. */
  function ResolvePointFromIndex(index: seq<nat>, dataBlock: seq<byte>, d: PointData): Point<Info>
    requires Known(d, |index|)
  {
    Point(0.0, 0.0, Info(ReadStrByID(index, dataBlock, d.name), ReadStrByID(index, dataBlock, d.street),
                         ReadStrByID(index, dataBlock, d.houseNumber), ReadStrByID(index, dataBlock, d.city),
                         ReadStrByID(index, dataBlock, d.region), d.weight))
  }

  ghost predicate AllNulFree(info: Info) {
    NulFree(info.name) && NulFree(info.street) && NulFree(info.houseNumber) && NulFree(info.city) && NulFree(info.region)
  }

  /** A point's data comes back from the cache's string table exactly when no string holds a NUL. */
  lemma ResolvedRoundTrip(points: seq<Point<Info>>, i: nat)
    requires i < |points|
    ensures var table, info := TableOf(points), points[i].data;
      && Covers(table, info) && Known(Numbered(table, info), |table|)
      && (ResolvePointFromIndex(Starts(table), Block(table), Numbered(table, info)).data == info <==> AllNulFree(info))
  {
    TableIs(points);
    var table, info := TableOf(points), points[i].data;
    assert Covers(table, info);
    NumberedKnown(table, info);
    var d := Numbered(table, info);
    hide TableOf, ById, ReadStrByID, Starts, Block, NulFree, UpToNul;
    ReadBackById(table, d.name);
    ReadBackById(table, d.street);
    ReadBackById(table, d.houseNumber);
    ReadBackById(table, d.city);
    ReadBackById(table, d.region);
  }

  lemma NumberedKnown(table: seq<Str>, info: Info)
    requires Covers(table, info)
    ensures var d := Numbered(table, info);
      && Known(d, |table|)
      && table[d.name] == info.name && table[d.street] == info.street && table[d.houseNumber] == info.houseNumber
      && table[d.city] == info.city && table[d.region] == info.region && d.weight == info.weight
  {
  }
}
