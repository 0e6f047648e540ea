/** A v2 cache from saving to lookup: what the disk geocoder answers on a saved file is what the
    in-memory geocoder answers on the points that were saved. */
module EndToEnd {
  import opened Seqs
  import opened Bytes
  import opened KDTree
  import opened KDQuery
  import opened Sampling
  import Select
  import opened Bush
  import opened DiskFormat
  import opened DiskBuild
  import opened DiskQuery
  import opened DiskRefines
  import opened Interning
  import opened CachePoints
  import opened CacheZones
  import opened CacheFile
  import opened CacheStream
  import opened Geocoder

  /** Builds a border tree from zones, in the order in which they are inserted. */
  type TreeBuilder<!G> = seq<G> -> Borders

  /** `LoadGeoCoderFromFileDisk`: checks the first eight bytes, loads, and builds the border trees. */
  method LoadGeoCoderFromFileDisk<G, M>(file: seq<byte>, pc: Protos<G, M>, borders: TreeBuilder<G>,
                                        ghost p: Parts, ghost section: seq<ZoneBlob<G>>, ghost meta: M)
    returns (r: Result<RGeoCoderDisk>)
    ensures r.Ok? ==> fresh(r.value) && |file| >= 8 && file[..8] == [82, 71, 69, 79, 2, 0, 0, 0]
    ensures Readable(file, p, section, meta, pc) && OpenDisk(file, BushAt(p)).Ok? ==>
      && r.Ok? && r.value.diskTree == OpenDisk(file, BushAt(p)).value
      && r.value.stringsIndex == Starts(p.table) && r.value.stringsDataOffset == DataAt(p)
      && r.value.regions == Some(borders(OfKind(ParseZones(section), REGION)))
      && r.value.countries == Some(borders(OfKind(ParseZones(section), COUNTRY)))
  {
    hide *;
    FrontReads(file, p, section, meta, pc);
    var magic := ReadAt(file, 0, 4);
    if magic.Err? || magic.value != CACHE_MAGIC {
      return Err;
    }
    var level := ReadAt(file, 4, 4);
    if level.Err? || UnLe(level.value) != COMPATIBILITY_LEVEL {
      return Err;
    }
    FrontSays(file, level.value);
    var result := LoadMmap(file, pc, p, section, meta);
    if result.Err? {
      return Err;
    }
    var regions := borders(OfKind(result.value.zones, REGION));
    var countries := borders(OfKind(result.value.zones, COUNTRY));
    var g := new RGeoCoderDisk(result.value.diskBush, result.value.stringsIndex, result.value.stringsDataOffset,
                               Some(regions), Some(countries));
    return Ok(g);
  }

  lemma FrontReads<G, M>(file: seq<byte>, p: Parts, section: seq<ZoneBlob<G>>, meta: M, pc: Protos<G, M>)
    ensures Readable(file, p, section, meta, pc) ==>
      && ReadAt(file, 0, 4) == Ok(CACHE_MAGIC)
      && exists level :: ReadAt(file, 4, 4) == Ok(level) && UnLe(level) == COMPATIBILITY_LEVEL
  {
    if Readable(file, p, section, meta, pc) {
      hide FileOf, Le, UnLe, At, ReadAt;
      FileParts(p);
      ReadWhole(file, 0, CACHE_MAGIC);
      ReadWhole(file, 4, Le(COMPATIBILITY_LEVEL, 4));
      LeHalfWord(COMPATIBILITY_LEVEL);
    }
  }

  /** Only one run of four bytes decodes to the level. */
  lemma FrontSays(file: seq<byte>, level: seq<byte>)
    requires ReadAt(file, 0, 4) == Ok(CACHE_MAGIC) && ReadAt(file, 4, 4) == Ok(level) && UnLe(level) == COMPATIBILITY_LEVEL
    ensures |file| >= 8 && file[..8] == [82, 71, 69, 79, 2, 0, 0, 0]
  {
    LeOfUnLe(level);
    LevelBytes();
    assert file[..8] == file[0..4] + file[4..8];
  }

  // ---------------------------------------------------------------------------

  /** The sizes of a file's sections stay within their 32 bits. */
  ghost predicate SectionsFit(parts: Result<Parts>) {
    parts.Ok? ==>
      var p := parts.value;
      |p.header| < TWO_TO_32 && |p.metadata| < TWO_TO_32 && 4 * |p.table| < TWO_TO_32 && |Block(p.table)| < TWO_TO_32 && |p.zones| < TWO_TO_32
  }

  /** What was saved is readable. */
  lemma SavedReadable<G(!new), M(!new)>(points: seq<Point<Info>>, zones: seq<Zone<G>>, meta: M, pc: Protos<G, M>, est: Sampler, fc: FloatCodec)
    requires Faithful(pc) && PartsOf(points, zones, meta, pc, est, fc).Ok? && SectionsFit(PartsOf(points, zones, meta, pc, est, fc))
    ensures var p := PartsOf(points, zones, meta, pc, est, fc).value;
      Readable(FileOf(p), p, Section(zones), meta, pc) && p.table == TableOf(points)
  {
    hide PartsOf, TableOf, Section, HeaderOf, Block, Inverts, FileOf, BlobsOf, Image, TreeRows, NumberedAll, CoversAll;
    var parts, table := PartsOf(points, zones, meta, pc, est, fc), TableOf(points);
    PartsUpTo(points, zones, meta, pc, est, fc);
    var z, m := pc.zones.encode(Section(zones)).value, pc.metadata.encode(meta).value;
    var header := V2Header(|m|, 4 * |table|, |Block(table)|, |z|);
    HeaderFits(m, table, z);
    Decodes(pc.zones, Section(zones));
    Decodes(pc.metadata, meta);
    Decodes(pc.header, header);
  }

  lemma Decodes<T(!new)>(w: Wire<T>, t: T)
    requires Inverts(w) && w.encode(t).Ok?
    ensures w.decode(w.encode(t).value) == Ok(t)
  {
  }

  lemma HeaderFits(m: seq<byte>, table: seq<Str>, z: seq<byte>)
    requires |m| < TWO_TO_32 && 4 * |table| < TWO_TO_32 && |Block(table)| < TWO_TO_32 && |z| < TWO_TO_32
    ensures HeaderOf(m, table, z) == V2Header(|m|, 4 * |table|, |Block(table)|, |z|)
  {
  }

  // ---------------------------------------------------------------------------
  // The index in the file

  ghost predicate SmallEnough(points: seq<Point<Info>>) {
    |points| < TWO_TO_63 && POINT_DATA_SIZE * |points| < TWO_TO_63
  }

  /** Records of numbered points read back, and everything fits its field. */
  lemma FilledSurvive(points: seq<Point<Info>>, fc: FloatCodec)
    requires CoordsSurvive(points, fc) && SmallEnough(points) && |TableOf(points)| <= TWO_TO_32
    ensures CoversAll(TableOf(points), points)
    ensures var filled := NumberedAll(TableOf(points), points);
      PayloadsSurvive(filled, PointCodec()) && CoordsSurvive(filled, fc) && SizesFit(filled, NODE_SIZE, PointCodec())
  {
    hide *;
    TableIs(points);
    var table := TableOf(points);
    RecordsSurvive(points, table);
    CoordsKept(points, table, fc);
    RecordsFit(points, NumberedAll(table, points));
  }

  lemma RecordsSurvive(points: seq<Point<Info>>, table: seq<Str>)
    requires CoversAll(table, points) && |table| <= TWO_TO_32
    ensures PayloadsSurvive(NumberedAll(table, points), PointCodec())
  {
    var filled := NumberedAll(table, points);
    hide Record, ReadBack;
    forall i | 0 <= i < |filled| ensures ReadBack(PointCodec(), Record(filled[i].data)) == Ok(filled[i].data) {
      NumberedKnown(table, points[i].data);
      RecordReadsBack(filled[i].data);
    }
  }

  lemma CoordsKept(points: seq<Point<Info>>, table: seq<Str>, fc: FloatCodec)
    requires CoversAll(table, points) && CoordsSurvive(points, fc)
    ensures CoordsSurvive(NumberedAll(table, points), fc)
  {
    hide Exactly, Numbered;
  }

  lemma RecordsFit(points: seq<Point<Info>>, filled: seq<Point<PointData>>)
    requires SmallEnough(points) && |filled| == |points|
    ensures SizesFit(filled, NODE_SIZE, PointCodec())
  {
    hide BlobsOf;
    RecordsMarshal(filled);
  }

  /** p holds the string table of the points, and the image of these rows and their numbered points. */
  ghost predicate LaidOut(p: Parts, points: seq<Point<Info>>, rows: seq<Item>, fc: FloatCodec, est: Sampler) {
    && |TableOf(points)| <= TWO_TO_32 && CoordsSurvive(points, fc) && SmallEnough(points) && CoversAll(TableOf(points), points)
    && -1 <= NODE_SIZE && rows == TreeRows(points, NODE_SIZE, est) && Indexed(rows, points) && p.table == TableOf(points)
    && BlobsOf(NumberedAll(TableOf(points), points), PointCodec()).Ok?
    && p.bush == Image(rows, NODE_SIZE, BlobsOf(NumberedAll(TableOf(points), points), PointCodec()).value, fc)
  }

  /** The index section opens, and its handle stores the numbered points. */
  lemma SavedOpens(p: Parts, points: seq<Point<Info>>, rows: seq<Item>, fc: FloatCodec, est: Sampler) returns (d: Disk)
    requires LaidOut(p, points, rows, fc, est)
    ensures OpenDisk(FileOf(p), BushAt(p)) == Ok(d) && d.nodeSize == NODE_SIZE && d.file == FileOf(p)
    ensures CoversAll(TableOf(points), points) && BlobsOf(NumberedAll(TableOf(points), points), PointCodec()).Ok?
    ensures var filled := NumberedAll(TableOf(points), points);
      Stored(d, rows, filled, BlobsOf(filled, PointCodec()).value, fc, PointCodec())
  {
    hide TableOf, CoordsSurvive, SmallEnough, TreeRows, Indexed, BlobsOf, Image, NumberedAll, OpenDisk, FileOf, Stored, CoversAll, At, Starts, Block,
         Words, Le, PayloadsSurvive, SizesFit;
    var table := TableOf(points);
    var filled := NumberedAll(table, points);
    FilledSurvive(points, fc);
    SameRows(points, table, est);
    SameIndexed(rows, points, filled);
    FileParts(p);
    BuiltIsStored(filled, rows, NODE_SIZE, fc, PointCodec(), FileOf(p), BushAt(p));
    d := OpenDisk(FileOf(p), BushAt(p)).value;
  }

  /** A geocoder over a saved file is backed by the points that were saved. */
  lemma SavedBacked(g: RGeoCoderDisk, p: Parts, points: seq<Point<Info>>, rows: seq<Item>, fc: FloatCodec, est: Sampler)
    requires LaidOut(p, points, rows, fc, est) && OpenDisk(FileOf(p), BushAt(p)) == Ok(g.diskTree)
    requires g.stringsIndex == Starts(p.table) && g.stringsDataOffset == DataAt(p)
    ensures g.diskTree.nodeSize == NODE_SIZE
    ensures CoversAll(TableOf(points), points) && BlobsOf(NumberedAll(TableOf(points), points), PointCodec()).Ok?
    ensures g.Backed(points, rows, BlobsOf(NumberedAll(TableOf(points), points), PointCodec()).value, fc)
  {
    hide TableOf, CoordsSurvive, SmallEnough, TreeRows, Indexed, BlobsOf, Image, NumberedAll, OpenDisk, FileOf, Stored, CoversAll, At, Starts, Block,
         Words, Le, ById;
    TableIs(points);
    FileParts(p);
    var d := SavedOpens(p, points, rows, fc, est);
  }

  /** What saving asks of its input. */
  ghost predicate Savable<G(!new), M(!new)>(points: seq<Point<Info>>, zones: seq<Zone<G>>, meta: M, pc: Protos<G, M>, est: Sampler, fc: FloatCodec) {
    && Faithful(pc) && CoordsSurvive(points, fc) && SmallEnough(points)
    && |Block(TableOf(points))| < TWO_TO_32 && SectionsFit(PartsOf(points, zones, meta, pc, est, fc))
  }

  /** The file is what saving these leaves behind. */
  ghost predicate SavedAs<G(!new), M(!new)>(file: seq<byte>, points: seq<Point<Info>>, zones: seq<Zone<G>>, meta: M, pc: Protos<G, M>,
                                            est: Sampler, fc: FloatCodec) {
    && Savable(points, zones, meta, pc, est, fc)
    && PartsOf(points, zones, meta, pc, est, fc).Ok? && file == FileOf(PartsOf(points, zones, meta, pc, est, fc).value)
    && -1 <= NODE_SIZE && Indexed(TreeRows(points, NODE_SIZE, est), points)
  }

  lemma SavedParts<G(!new), M(!new)>(file: seq<byte>, points: seq<Point<Info>>, zones: seq<Zone<G>>, meta: M, pc: Protos<G, M>,
                                     est: Sampler, fc: FloatCodec)
    returns (p: Parts, rows: seq<Item>)
    requires SavedAs(file, points, zones, meta, pc, est, fc)
    ensures -1 <= NODE_SIZE && file == FileOf(p) && rows == TreeRows(points, NODE_SIZE, est)
    ensures Readable(file, p, Section(zones), meta, pc) && p.table == TableOf(points) && LaidOut(p, points, rows, fc, est)
  {
    hide PartsOf, FileOf, TableOf, TreeRows, Indexed, Block, Faithful, SectionsFit, CoordsSurvive, SmallEnough, Readable, Section,
         BlobsOf, Image, NumberedAll, CoversAll, HeaderOf, Starts;
    p := PartsOf(points, zones, meta, pc, est, fc).value;
    rows := TreeRows(points, NODE_SIZE, est);
    SmallTable(points);
    PartsUpTo(points, zones, meta, pc, est, fc);
    SavedReadable(points, zones, meta, pc, est, fc);
    SameRows(points, TableOf(points), est);
  }

  ghost predicate AllPlain(points: seq<Point<Info>>) {
    forall i :: 0 <= i < |points| ==> PlainInfo(points[i].data)
  }

  lemma PickedPlain(points: seq<Point<Info>>, order: seq<int>)
    requires AllPlain(points) && InRange(order, |points|)
    ensures ShortPoints(Pick(points, order)) == Pick(points, order)
  {
    hide PlainInfo;
    PlainPoints(Pick(points, order));
  }

  /** Saves a cache, opens it again, and asks both geocoders the same. */
  method SaveAndFind<G(!new), M(!new)>(points: seq<Point<Info>>, zones: seq<Zone<G>>, meta: M, room: nat, pc: Protos<G, M>,
                                       borders: TreeBuilder<G>, est: Sampler, fc: FloatCodec, lat: real, lon: real, radius: real)
    returns (ok: bool, file: seq<byte>, inMemory: Option<Address>, onDisk: Option<Address>)
    requires SoundSampler(est) && Savable(points, zones, meta, pc, est, fc)
    ensures Saved([], file, PartsOf(points, zones, meta, pc, est, fc), ok)
    ensures NODE_SIZE == 64
    ensures ok ==>
      var order := Order(TreeRows(points, NODE_SIZE, est), NODE_SIZE, Disc(lon, lat, radius));
      var region, country := borders(OfKind(zones, REGION))(lon, lat), borders(OfKind(zones, COUNTRY))(lon, lat);
      && InRange(order, |points|) && (radius >= 0.0 ==> ReportsExactly(order, points, Disc(lon, lat, radius)))
      && inMemory == Answer(Pick(points, order), lon, lat, region, country)
      && onDisk == Answer(ShortPoints(Pick(points, order)), lon, lat, region, country)
      && (radius >= 0.0 ==> AnswersFrom(inMemory, points, order, lon, lat, radius, region, country))
      && (radius >= 0.0 ==> AnswersFrom(onDisk, ShortPoints(points), order, lon, lat, radius, region, country))
    ensures ok && AllPlain(points) ==> onDisk == inMemory
  {
    assert NODE_SIZE == 64;
    hide *;
    Small(points, zones, meta, pc, est, fc);
    inMemory, onDisk := None, None;
    ghost var parts := PartsOf(points, zones, meta, pc, est, fc);
    var w := new Writer(room);
    ok := SaveV2(points, zones, meta, w, pc, est, fc);
    file := w.out;
    if !ok {
      return;
    }
    SavedWhole(file, points, zones, meta, pc, est, fc);
    var regions, countries := borders(OfKind(zones, REGION)), borders(OfKind(zones, COUNTRY));
    inMemory := FindInMemory(points, regions, countries, est, lat, lon, radius);
    onDisk := FindOnDisk(file, points, zones, meta, pc, borders, est, fc, lat, lon, radius);
    if AllPlain(points) {
      PickedPlain(points, Order(TreeRows(points, NODE_SIZE, est), NODE_SIZE, Disc(lon, lat, radius)));
    }
  }

  /** The in-memory geocoder over the points. */
  method FindInMemory(points: seq<Point<Info>>, regions: Borders, countries: Borders, est: Sampler, lat: real, lon: real, radius: real)
    returns (r: Option<Address>)
    requires SoundSampler(est)
    ensures NODE_SIZE == 64
    ensures var order := Order(TreeRows(points, NODE_SIZE, est), NODE_SIZE, Disc(lon, lat, radius));
      && InRange(order, |points|) && (radius >= 0.0 ==> ReportsExactly(order, points, Disc(lon, lat, radius)))
      && r == Answer(Pick(points, order), lon, lat, regions(lon, lat), countries(lon, lat))
      && (radius >= 0.0 ==> AnswersFrom(r, points, order, lon, lat, radius, regions(lon, lat), countries(lon, lat)))
    ensures Tree(TreeRows(points, NODE_SIZE, est), NODE_SIZE)
  {
    assert NODE_SIZE == 64;
    hide *;
    QuerySome(regions, lon, lat);
    QuerySome(countries, lon, lat);
    var bush := new KDBush(points, NODE_SIZE, est);
    ValidSays(bush);
    var memory := new RGeoCoder(bush, Some(regions), Some(countries));
    r := memory.FindInRadius(lat, lon, radius);
  }

  /** The disk geocoder over the file that was saved from the points. */
  method FindOnDisk<G(!new), M(!new)>(file: seq<byte>, ghost points: seq<Point<Info>>, ghost zones: seq<Zone<G>>, ghost meta: M, pc: Protos<G, M>,
                                      borders: TreeBuilder<G>, ghost est: Sampler, fc: FloatCodec, lat: real, lon: real, radius: real)
    returns (r: Option<Address>)
    requires SavedAs(file, points, zones, meta, pc, est, fc)
    ensures -1 <= NODE_SIZE
    ensures var order := Order(TreeRows(points, NODE_SIZE, est), NODE_SIZE, Disc(lon, lat, radius));
      && InRange(order, |points|)
      && r == Answer(ShortPoints(Pick(points, order)), lon, lat,
                     borders(OfKind(zones, REGION))(lon, lat), borders(OfKind(zones, COUNTRY))(lon, lat))
      && (Tree(TreeRows(points, NODE_SIZE, est), NODE_SIZE) && radius >= 0.0 ==>
           AnswersFrom(r, ShortPoints(points), order, lon, lat, radius,
                       borders(OfKind(zones, REGION))(lon, lat), borders(OfKind(zones, COUNTRY))(lon, lat)))
  {
    hide *;
    ghost var p, rows := SavedParts(file, points, zones, meta, pc, est, fc);
    ghost var d := SavedOpens(p, points, rows, fc, est);
    var loaded := LoadGeoCoderFromFileDisk(file, pc, borders, p, Section(zones), meta);
    var disk := loaded.value;
    ZonesSurvive(zones, REGION);
    ZonesSurvive(zones, COUNTRY);
    QuerySome(borders(OfKind(zones, REGION)), lon, lat);
    QuerySome(borders(OfKind(zones, COUNTRY)), lon, lat);
    SavedBacked(disk, p, points, rows, fc, est);
    r := disk.FindInRadius(lat, lon, radius, fc, points, rows, BlobsOf(NumberedAll(TableOf(points), points), PointCodec()).value);
  }

  lemma QuerySome(b: Borders, lon: real, lat: real)
    ensures QueryPoint(Some(b), lon, lat) == b(lon, lat)
  {
  }

  lemma Small<G(!new), M(!new)>(points: seq<Point<Info>>, zones: seq<Zone<G>>, meta: M, pc: Protos<G, M>, est: Sampler, fc: FloatCodec)
    requires Savable(points, zones, meta, pc, est, fc)
    ensures |Block(TableOf(points))| < TWO_TO_32 && -1 <= NODE_SIZE
  {
  }

  lemma SavedWhole<G(!new), M(!new)>(file: seq<byte>, points: seq<Point<Info>>, zones: seq<Zone<G>>, meta: M, pc: Protos<G, M>,
                                     est: Sampler, fc: FloatCodec)
    requires Savable(points, zones, meta, pc, est, fc) && Saved([], file, PartsOf(points, zones, meta, pc, est, fc), true)
    requires -1 <= NODE_SIZE && Indexed(TreeRows(points, NODE_SIZE, est), points)
    ensures SavedAs(file, points, zones, meta, pc, est, fc)
  {
    hide Savable, PartsOf, TreeRows, Indexed, FileOf;
  }

  /** The image in a saved file is what the streaming reader expects. */
  lemma SavedStreams(p: Parts, points: seq<Point<Info>>, rows: seq<Item>, fc: FloatCodec, est: Sampler)
    requires LaidOut(p, points, rows, fc, est)
    ensures CoversAll(TableOf(points), points) && BlobsOf(NumberedAll(TableOf(points), points), PointCodec()).Ok?
    ensures BushIs(p, rows, NODE_SIZE, BlobsOf(NumberedAll(TableOf(points), points), PointCodec()).value, fc)
    ensures PayloadsAre(points, BlobsOf(NumberedAll(TableOf(points), points), PointCodec()).value)
  {
    var d := SavedOpens(p, points, rows, fc, est);
    var table := TableOf(points);
    var filled := NumberedAll(table, points);
    var blobs := BlobsOf(filled, PointCodec()).value;
    StoredHolds(d, rows, filled, blobs, fc, PointCodec());
    hide Image, FileOf, OpenDisk, Stored, TableOf, BlobsOf, Indexed, Fits, CoordsSurvive, TreeRows, Record;
    forall i | 0 <= i < |points| ensures blobs[i] == Record(Numbered(table, points[i].data)) {
      assert PointCodec().marshal(filled[i].data) == Ok(blobs[i]);
    }
  }

  /** Reads a saved file in one pass: the points' data in their original order, each string up to
      its first NUL, until the consumer stops; the zones and the metadata. */
  method StreamBack<G(!new), M(!new)>(file: seq<byte>, ghost points: seq<Point<Info>>, ghost zones: seq<Zone<G>>, ghost meta: M, pc: Protos<G, M>,
                                      ghost est: Sampler, ghost fc: FloatCodec, consumer: Handler<Info>)
    returns (ok: bool, calls: seq<Point<Info>>, stream: Option<Stream<G, M>>)
    requires SavedAs(file, points, zones, meta, pc, est, fc)
    ensures ok && Delivered(consumer, Streamed(points), calls)
    ensures stream.Some? && stream.value.zones == ParseZones(Section(zones)) && stream.value.metadata == meta
  {
    hide *;
    ghost var p, rows := SavedParts(file, points, zones, meta, pc, est, fc);
    SavedStreams(p, points, rows, fc, est);
    ghost var blobs := BlobsOf(NumberedAll(TableOf(points), points), PointCodec()).value;
    var r := new Reader(file, 8);
    var res := Load(r, pc, p, Section(zones), meta, rows, NODE_SIZE, blobs, fc);
    var s := res.value;
    stream := Some(s);
    ReadyFrom(r, s, p, points, rows, blobs, fc, est);
    ok, calls := Points(r, s, consumer, BushAt(p), points, rows, NODE_SIZE, blobs, fc);
  }

  lemma ReadyFrom<G, M>(r: Reader, s: Stream<G, M>, p: Parts, points: seq<Point<Info>>, rows: seq<Item>, blobs: seq<seq<byte>>,
                        fc: FloatCodec, est: Sampler)
    requires r.data == FileOf(p) && LaidOut(p, points, rows, fc, est) && BushIs(p, rows, NODE_SIZE, blobs, fc) && PayloadsAre(points, blobs)
    requires s.stringsIndex == Starts(p.table) && s.stringsData == Block(p.table) && s.numPoints == |rows|
    ensures Ready(r, BushAt(p), s, points, rows, NODE_SIZE, blobs, fc)
  {
    hide FileOf, At, Image, TableOf, Starts, Block, Fits, Record, Indexed, BlobsOf, NumberedAll, CoordsSurvive, PayloadsAre, TreeRows;
    FileParts(p);
  }

  /** Saves a cache and reads it back in one pass. */
  method SaveAndStream<G(!new), M(!new)>(points: seq<Point<Info>>, zones: seq<Zone<G>>, meta: M, room: nat, pc: Protos<G, M>,
                                         est: Sampler, fc: FloatCodec, consumer: Handler<Info>)
    returns (ok: bool, file: seq<byte>, calls: seq<Point<Info>>, stream: Option<Stream<G, M>>)
    requires SoundSampler(est) && Savable(points, zones, meta, pc, est, fc)
    ensures Saved([], file, PartsOf(points, zones, meta, pc, est, fc), ok)
    ensures ok ==> Delivered(consumer, Streamed(points), calls)
    ensures ok ==> stream.Some? && stream.value.zones == ParseZones(Section(zones)) && stream.value.metadata == meta
  {
    hide *;
    Small(points, zones, meta, pc, est, fc);
    calls, stream := [], None;
    var w := new Writer(room);
    ok := SaveV2(points, zones, meta, w, pc, est, fc);
    file := w.out;
    if ok {
      SavedWhole(file, points, zones, meta, pc, est, fc);
      var read;
      read, calls, stream := StreamBack(file, points, zones, meta, pc, est, fc, consumer);
    }
  }
}
