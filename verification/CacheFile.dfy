/** The v2 cache file: `SaveV2` and `Save` lay it out section by section (cachesaver/save.go,
    cachesaver/save/v2/save.go), and `LoadMmap` walks it (cachesaver/save/v2/load.go,
    geocoder/loading_disk.go). */
module CacheFile {
  import opened Seqs
  import opened Bytes
  import opened Blobs
  import opened KDTree
  import opened KDQuery
  import opened Sampling
  import opened Bush
  import opened DiskFormat
  import opened DiskBuild
  import opened Interning
  import opened CachePoints
  import opened CacheZones

  /** "RGEO" */
  const CACHE_MAGIC: seq<byte> := [82, 71, 69, 79]
  const COMPATIBILITY_LEVEL: nat := 2
  const NODE_SIZE := 64

  /** `V2Header`. */
  datatype V2Header = V2Header(metadataSize: nat, stringsIndexSize: nat, stringsDataSize: nat, zonesSize: nat)

  /** A protobuf message type: encoding may fail; what was encoded decodes to itself. */
  datatype Wire<!T> = Wire(encode: T -> Result<seq<byte>>, decode: seq<byte> -> Result<T>)

  ghost predicate Inverts<T(!new)>(w: Wire<T>) {
    forall t :: w.encode(t).Ok? ==> w.decode(w.encode(t).value) == Ok(t)
  }

  datatype Protos<!G, !M> = Protos(header: Wire<V2Header>, metadata: Wire<M>, zones: Wire<seq<ZoneBlob<G>>>)

  ghost predicate Faithful<G(!new), M(!new)>(pc: Protos<G, M>) {
    Inverts(pc.header) && Inverts(pc.metadata) && Inverts(pc.zones)
  }

  // ---------------------------------------------------------------------------
  // Layout

  /** The variable parts of a file. */
  datatype Parts = Parts(header: seq<byte>, metadata: seq<byte>, table: seq<Str>, zones: seq<byte>, bush: seq<byte>)

  /** What `Save` writes. */
  function BodyOf(p: Parts): seq<byte> {
    Le(|p.header| % TWO_TO_32, 4)
    + (p.header + (p.metadata + (Words(Starts(p.table), 4) + (Block(p.table) + (p.zones + p.bush)))))
  }

  /** What `SaveV2` writes. */
  function FileOf(p: Parts): seq<byte> {
    CACHE_MAGIC + (Le(COMPATIBILITY_LEVEL, 4) + BodyOf(p))
  }

  function MetadataAt(p: Parts): nat { 12 + |p.header| }

  function IndexAt(p: Parts): nat { MetadataAt(p) + |p.metadata| }

  function DataAt(p: Parts): nat { IndexAt(p) + 4 * |p.table| }

  function ZonesAt(p: Parts): nat { DataAt(p) + |Block(p.table)| }

  function BushAt(p: Parts): nat { ZonesAt(p) + |p.zones| }

  lemma AtSelf(b: seq<byte>)
    ensures At(b, 0, b)
  {
  }

  lemma LevelBytes()
    ensures Le(COMPATIBILITY_LEVEL, 4) == [2, 0, 0, 0]
  {
    assert Le(2, 4) == [2] + Le(0, 3);
    assert Le(0, 3) == [0] + Le(0, 2);
    assert Le(0, 2) == [0] + Le(0, 1);
  }

  lemma FileParts(p: Parts)
    ensures At(FileOf(p), 0, [82, 71, 69, 79]) && At(FileOf(p), 4, [2, 0, 0, 0])
    ensures var f := FileOf(p);
      && At(f, 0, CACHE_MAGIC) && At(f, 4, Le(COMPATIBILITY_LEVEL, 4)) && At(f, 8, Le(|p.header| % TWO_TO_32, 4))
      && At(f, 12, p.header) && At(f, MetadataAt(p), p.metadata) && At(f, IndexAt(p), Words(Starts(p.table), 4))
      && At(f, DataAt(p), Block(p.table)) && At(f, ZonesAt(p), p.zones) && At(f, BushAt(p), p.bush)
  {
    hide At, Words, Starts, Block, Le;
    LevelBytes();
    NineParts(CACHE_MAGIC, Le(COMPATIBILITY_LEVEL, 4), Le(|p.header| % TWO_TO_32, 4), p.header, p.metadata,
              Words(Starts(p.table), 4), Block(p.table), p.zones, p.bush);
  }

  lemma NineParts(a: seq<byte>, b: seq<byte>, c: seq<byte>, d: seq<byte>, e: seq<byte>, g: seq<byte>, h: seq<byte>, i: seq<byte>, j: seq<byte>)
    requires |a| == |b| == |c| == 4
    ensures var f := a + (b + (c + (d + (e + (g + (h + (i + j)))))));
      && At(f, 0, a) && At(f, 4, b) && At(f, 8, c) && At(f, 12, d) && At(f, 12 + |d|, e)
      && At(f, 12 + |d| + |e|, g) && At(f, 12 + |d| + |e| + |g|, h) && At(f, 12 + |d| + |e| + |g| + |h|, i)
      && At(f, 12 + |d| + |e| + |g| + |h| + |i|, j)
  {
    hide At;
    var tail := e + (g + (h + (i + j)));
    var f := a + (b + (c + (d + tail)));
    AtSelf(f);
    FiveParts(f, 0, a, b, c, d, tail);
    FiveParts(f, 12 + |d|, e, g, h, i, j);
  }

  // ---------------------------------------------------------------------------
  // Saving

  /** The image went out whole when ok, and a proper front of it otherwise. */
  ghost predicate Sent(b0: seq<byte>, b1: seq<byte>, image: seq<byte>, ok: bool) {
    if ok then b1 == b0 + image else exists k :: 0 <= k < |image| && b1 == b0 + image[..k]
  }

  /** The image has gone out up to k; or, when not ok, writing has ended short of its end. */
  ghost predicate Reached(b0: seq<byte>, b1: seq<byte>, image: seq<byte>, k: nat, ok: bool) {
    if ok then k <= |image| && b1 == b0 + image[..k] else Sent(b0, b1, image, false)
  }

  /** Writes the next section of the image, unless an earlier one has failed. */
  method WriteSection(w: Writer, part: seq<byte>, ghost b0: seq<byte>, ghost image: seq<byte>, ghost k: nat) returns (ok: bool)
    requires Reached(b0, w.out, image, k, true) && At(image, k, part)
    modifies w
    ensures Reached(b0, w.out, image, k + |part|, ok)
  {
    hide *;
    ghost var b1 := w.out;
    var n;
    n, ok := w.Write(part);
    SectionOut(b0, b1, w.out, image, k, part, n, ok);
  }

  lemma SectionOut(b0: seq<byte>, b1: seq<byte>, b2: seq<byte>, image: seq<byte>, k: nat, part: seq<byte>, n: int, ok: bool)
    requires Reached(b0, b1, image, k, true) && At(image, k, part)
    requires 0 <= n <= |part| && b2 == b1 + part[..n] && (ok <==> n == |part|)
    ensures Reached(b0, b2, image, k + |part|, ok)
  {
    assert image[..k] + part[..n] == image[..k + n] by {
      assert part[..n] == image[k..k + |part|][..n];
    }
    assert b2 == b0 + image[..k + n];
  }

  lemma ReachedStart(b0: seq<byte>, image: seq<byte>)
    ensures Reached(b0, b0, image, 0, true)
  {
  }

  lemma ReachedEnd(b0: seq<byte>, b1: seq<byte>, image: seq<byte>, k: nat, ok: bool)
    requires Reached(b0, b1, image, k, ok) && k >= |image|
    ensures Sent(b0, b1, image, ok)
  {
    assert image[..|image|] == image;
  }

  /** Every message encoded and the index laid out; the first that cannot be encoded is an error. */
  ghost function PartsOf<G, M>(points: seq<Point<Info>>, zones: seq<Zone<G>>, meta: M, pc: Protos<G, M>, est: Sampler,
                               fc: FloatCodec): Result<Parts> {
    TableIs(points);
    var table := TableOf(points);
    var filled := NumberedAll(table, points);
    var zonesBytes :- pc.zones.encode(Section(zones));
    var metadataBytes :- pc.metadata.encode(meta);
    var headerBytes :- pc.header.encode(HeaderOf(metadataBytes, table, zonesBytes));
    var blobs :- BlobsOf(filled, PointCodec());
    Ok(Parts(headerBytes, metadataBytes, table, zonesBytes, Image(TreeRows(filled, NODE_SIZE, est), NODE_SIZE, blobs, fc)))
  }

  function HeaderOf(metadataBytes: seq<byte>, table: seq<Str>, zonesBytes: seq<byte>): V2Header {
    V2Header(|metadataBytes| % TWO_TO_32, 4 * |table| % TWO_TO_32, |Block(table)| % TWO_TO_32, |zonesBytes| % TWO_TO_32)
  }

  lemma {:induction false} RecordsMarshal(points: seq<Point<PointData>>)
    ensures BlobsOf(points, PointCodec()).Ok?
    ensures |Concat(BlobsOf(points, PointCodec()).value)| == POINT_DATA_SIZE * |points|
  {
    if points != [] {
      RecordsMarshal(points[..|points| - 1]);
      ConcatAppend(BlobsOf(points[..|points| - 1], PointCodec()).value, Record(points[|points| - 1].data));
    }
  }

  function Front(): seq<byte> { CACHE_MAGIC + Le(COMPATIBILITY_LEVEL, 4) }

  function ImageOf(parts: Result<Parts>): seq<byte> {
    if parts.Ok? then FileOf(parts.value) else Front()
  }

  /** What saving leaves behind: the file whole or cut short; or, when a message cannot be encoded,
      no more than its first eight bytes. */
  ghost predicate Saved(b0: seq<byte>, b1: seq<byte>, parts: Result<Parts>, ok: bool) {
    match parts
    case Ok(p) => Sent(b0, b1, FileOf(p), ok)
    case Err => !ok && (Sent(b0, b1, Front(), true) || Sent(b0, b1, Front(), false))
  }

  /** `SaveV2`. String ids and string offsets have 32 bits, so the string block must stay below 4 GiB. */
  method SaveV2<G, M>(points: seq<Point<Info>>, zones: seq<Zone<G>>, meta: M, w: Writer, pc: Protos<G, M>, est: Sampler, fc: FloatCodec)
    returns (ok: bool)
    requires SoundSampler(est) && |Block(TableOf(points))| < TWO_TO_32
    modifies w
    ensures Saved(old(w.out), w.out, PartsOf(points, zones, meta, pc, est, fc), ok)
    ensures -1 <= NODE_SIZE && (ok ==> Indexed(TreeRows(points, NODE_SIZE, est), points))
  {
    hide *;
    SmallTable(points);
    ghost var b0 := w.out;
    ghost var parts := PartsOf(points, zones, meta, pc, est, fc);
    ghost var image := ImageFor(parts);
    ReachedStart(b0, image);
    ok := WriteSection(w, CACHE_MAGIC, b0, image, 0);
    if !ok {
      StoppedEarly(b0, w.out, parts, 4);
      return;
    }
    ok := WriteSection(w, Le(COMPATIBILITY_LEVEL, 4), b0, image, 4);
    if !ok {
      StoppedEarly(b0, w.out, parts, 8);
      return;
    }
    ok := Save(points, zones, meta, w, pc, est, fc, b0);
  }

  lemma ImageFor(parts: Result<Parts>) returns (image: seq<byte>)
    ensures image == ImageOf(parts)
    ensures At(image, 0, CACHE_MAGIC) && At(image, 4, Le(COMPATIBILITY_LEVEL, 4)) && |CACHE_MAGIC| == 4
  {
    image := ImageOf(parts);
    hide FileOf, Le, At;
    if parts.Ok? {
      FileParts(parts.value);
    } else {
      AtSelf(image);
      AtParts(image, 0, CACHE_MAGIC, Le(COMPATIBILITY_LEVEL, 4));
    }
  }

  lemma StoppedEarly(b0: seq<byte>, b1: seq<byte>, parts: Result<Parts>, k: nat)
    requires Reached(b0, b1, ImageOf(parts), k, false)
    ensures Saved(b0, b1, parts, false)
  {
  }

  /** `Save`, after the first eight bytes have gone out. */
  method Save<G, M>(points: seq<Point<Info>>, zones: seq<Zone<G>>, meta: M, w: Writer, pc: Protos<G, M>, est: Sampler, fc: FloatCodec,
                    ghost b0: seq<byte>)
    returns (ok: bool)
    requires SoundSampler(est) && |Block(TableOf(points))| < TWO_TO_32
    requires Reached(b0, w.out, ImageOf(PartsOf(points, zones, meta, pc, est, fc)), 8, true)
    modifies w
    ensures Saved(b0, w.out, PartsOf(points, zones, meta, pc, est, fc), ok)
    ensures -1 <= NODE_SIZE && (ok ==> Indexed(TreeRows(points, NODE_SIZE, est), points))
  {
    hide *;
    ghost var parts := PartsOf(points, zones, meta, pc, est, fc);
    ghost var table := TableOf(points);
    var dedup := new StringsDedup();
    SmallTable(points);
    Register(dedup, points);
    var offsetIndex, stringData := BuildStringIndex(dedup.names);
    var v2points := Fill(dedup, points);
    var section := BuildZonesSection(zones);
    var zonesBytes := pc.zones.encode(section);
    var metadataBytes := pc.metadata.encode(meta);
    PartsUpTo(points, zones, meta, pc, est, fc);
    if zonesBytes.Err? || metadataBytes.Err? {
      NothingEncoded(b0, w.out, parts);
      return false;
    }
    HeaderIs(metadataBytes.value, table, zonesBytes.value, offsetIndex.Length, stringData.Length);
    var headerBytes := pc.header.encode(V2Header(|metadataBytes.value| % TWO_TO_32, offsetIndex.Length * 4 % TWO_TO_32,
                                                 stringData.Length % TWO_TO_32, |zonesBytes.value| % TWO_TO_32));
    if headerBytes.Err? {
      NothingEncoded(b0, w.out, parts);
      return false;
    }
    ghost var p := parts.value;
    ok := WriteParts(w, headerBytes.value, metadataBytes.value, offsetIndex[..], stringData[..], zonesBytes.value, b0, p);
    if !ok {
      StoppedEarly(b0, w.out, parts, BushAt(p));
      return;
    }
    ghost var b1 := w.out;
    var written;
    written, ok := BuildDisk(v2points[..], NODE_SIZE, w, est, fc, PointCodec());
    BushOut(b0, b1, w.out, p, written, ok);
    SameRows(points, table, est);
    SameIndexed(TreeRows(points, NODE_SIZE, est), NumberedAll(table, points), points);
  }

  /** Numbering the strings of points does not move them. */
  lemma SameRows(points: seq<Point<Info>>, table: seq<Str>, est: Sampler)
    requires CoversAll(table, points)
    ensures -1 <= NODE_SIZE && Initial(NumberedAll(table, points)) == Initial(points)
    ensures TreeRows(NumberedAll(table, points), NODE_SIZE, est) == TreeRows(points, NODE_SIZE, est)
  {
  }

  lemma SameIndexed<A, B>(rows: seq<Item>, a: seq<Point<A>>, b: seq<Point<B>>)
    requires Indexed(rows, a) && Initial(a) == Initial(b)
    ensures Indexed(rows, b)
  {
  }

  lemma SmallTable(points: seq<Point<Info>>)
    requires |Block(TableOf(points))| < TWO_TO_32
    ensures |TableOf(points)| <= TWO_TO_32 && -1 <= NODE_SIZE
  {
    var table := TableOf(points);
    hide Block, TableOf;
    BlockGrows(table, |table|);
    assert table[..|table|] == table;
  }

  /** The steps of `PartsOf`, one by one. */
  lemma PartsUpTo<G, M>(points: seq<Point<Info>>, zones: seq<Zone<G>>, meta: M, pc: Protos<G, M>, est: Sampler, fc: FloatCodec)
    ensures CoversAll(TableOf(points), points)
    ensures var parts := PartsOf(points, zones, meta, pc, est, fc); parts.Ok? ==> ImageOf(parts) == FileOf(parts.value)
    ensures var parts, table := PartsOf(points, zones, meta, pc, est, fc), TableOf(points);
      var filled, z, m := NumberedAll(table, points), pc.zones.encode(Section(zones)), pc.metadata.encode(meta);
      && (z.Err? || m.Err? ==> parts.Err?)
      && (z.Ok? && m.Ok? ==>
            var h := pc.header.encode(HeaderOf(m.value, table, z.value));
            && (h.Err? ==> parts.Err?)
            && -1 <= NODE_SIZE && BlobsOf(filled, PointCodec()).Ok?
            && var image := Image(TreeRows(filled, NODE_SIZE, est), NODE_SIZE, BlobsOf(filled, PointCodec()).value, fc);
            && (h.Ok? ==> parts == Ok(Parts(h.value, m.value, table, z.value, image))))
  {
    TableIs(points);
    hide BlobsOf, TableOf, Image, TreeRows, HeaderOf, PointCodec, CoversAll, Section;
    RecordsMarshal(NumberedAll(TableOf(points), points));
  }

  lemma HeaderIs(metadataBytes: seq<byte>, table: seq<Str>, zonesBytes: seq<byte>, n: nat, size: nat)
    requires n == |Starts(table)| && size == |Block(table)|
    ensures HeaderOf(metadataBytes, table, zonesBytes)
         == V2Header(|metadataBytes| % TWO_TO_32, n * 4 % TWO_TO_32, size % TWO_TO_32, |zonesBytes| % TWO_TO_32)
  {
  }

  lemma NothingEncoded(b0: seq<byte>, b1: seq<byte>, parts: Result<Parts>)
    requires parts.Err? && Reached(b0, b1, ImageOf(parts), 8, true)
    ensures Saved(b0, b1, parts, false)
  {
    ReachedEnd(b0, b1, Front(), 8, true);
  }

  /** Every section but the last. */
  method WriteParts(w: Writer, headerBytes: seq<byte>, metadataBytes: seq<byte>, offsetIndex: seq<nat>, stringData: seq<byte>, zonesBytes: seq<byte>,
                    ghost b0: seq<byte>, ghost p: Parts)
    returns (ok: bool)
    requires headerBytes == p.header && metadataBytes == p.metadata && zonesBytes == p.zones
    requires offsetIndex == Starts(p.table) && stringData == Block(p.table)
    requires Reached(b0, w.out, FileOf(p), 8, true)
    modifies w
    ensures Reached(b0, w.out, FileOf(p), BushAt(p), ok)
  {
    hide Reached, FileOf, Words, Starts, Block, Le, At;
    ghost var f := FileOf(p);
    FileParts(p);
    ok := WriteSection(w, Le(|headerBytes| % TWO_TO_32, 4), b0, f, 8);
    if !ok {
      StillCut(b0, w.out, f, 12, BushAt(p));
      return;
    }
    ok := WriteSection(w, headerBytes, b0, f, 12);
    if !ok {
      StillCut(b0, w.out, f, MetadataAt(p), BushAt(p));
      return;
    }
    ok := WriteSection(w, metadataBytes, b0, f, MetadataAt(p));
    if !ok {
      StillCut(b0, w.out, f, IndexAt(p), BushAt(p));
      return;
    }
    ok := WriteSection(w, Words(offsetIndex, 4), b0, f, IndexAt(p));
    if !ok {
      StillCut(b0, w.out, f, DataAt(p), BushAt(p));
      return;
    }
    ok := WriteSection(w, stringData, b0, f, DataAt(p));
    if !ok {
      StillCut(b0, w.out, f, ZonesAt(p), BushAt(p));
      return;
    }
    ok := WriteSection(w, zonesBytes, b0, f, ZonesAt(p));
  }

  lemma StillCut(b0: seq<byte>, b1: seq<byte>, image: seq<byte>, k: nat, k': nat)
    requires Reached(b0, b1, image, k, false)
    ensures Reached(b0, b1, image, k', false)
  {
  }

  /** The index, the last section, ends the file. */
  lemma BushOut(b0: seq<byte>, b1: seq<byte>, b2: seq<byte>, p: Parts, written: int, ok: bool)
    requires Reached(b0, b1, FileOf(p), BushAt(p), true) && Wrote(b1, b2, p.bush, written, ok)
    ensures Saved(b0, b2, Ok(p), ok)
  {
    hide Reached, FileOf, At, Sent;
    FileParts(p);
    SectionOut(b0, b1, b2, FileOf(p), BushAt(p), p.bush, written, ok);
    FileSize(p);
    ReachedEnd(b0, b2, FileOf(p), BushAt(p) + |p.bush|, ok);
  }

  lemma FileSize(p: Parts)
    ensures |FileOf(p)| == BushAt(p) + |p.bush|
  {
    hide Words, Starts, Block, Le;
  }

  // ---------------------------------------------------------------------------
  // Loading

  /** `LoadMmapResult`. */
  datatype Loaded<G, M> = Loaded(diskBush: Disk, stringsIndex: seq<nat>, stringsDataOffset: int, zones: seq<Zone<G>>, metadata: M)

  /** A file with these parts, its sizes within the 32 bits the format has for them. */
  ghost predicate Readable<G, M>(file: seq<byte>, p: Parts, section: seq<ZoneBlob<G>>, meta: M, pc: Protos<G, M>) {
    && file == FileOf(p)
    && |p.header| < TWO_TO_32 && |Block(p.table)| < TWO_TO_32
    && pc.header.decode(p.header) == Ok(V2Header(|p.metadata|, 4 * |p.table|, |Block(p.table)|, |p.zones|))
    && pc.metadata.decode(p.metadata) == Ok(meta) && pc.zones.decode(p.zones) == Ok(section)
  }

  /** `LoadMmap`: walks the sections by the sizes the header gives, and finds every one where it is. */
  method LoadMmap<G, M>(file: seq<byte>, pc: Protos<G, M>, ghost p: Parts, ghost section: seq<ZoneBlob<G>>, ghost meta: M)
    returns (r: Result<Loaded<G, M>>)
    ensures Readable(file, p, section, meta, pc) ==>
      r == match OpenDisk(file, BushAt(p))
           case Err => Err
           case Ok(d) => Ok(Loaded(d, Starts(p.table), DataAt(p), ParseZones(section), meta))
  {
    hide *;
    ghost var good := Readable(file, p, section, meta, pc);
    if good {
      ReadableParts(file, p, section, meta, pc);
    }
    var offset := 8;
    var sizeBuf := ReadAt(file, offset, 4);
    if sizeBuf.Err? {
      return Err;
    }
    var headerSize := UnLe(sizeBuf.value);
    offset := offset + 4;
    var headerBytes := ReadAt(file, offset, headerSize);
    if headerBytes.Err? {
      return Err;
    }
    offset := offset + headerSize;
    var header := pc.header.decode(headerBytes.value);
    if header.Err? {
      return Err;
    }
    var metadataBytes := ReadAt(file, offset, header.value.metadataSize);
    if metadataBytes.Err? {
      return Err;
    }
    offset := offset + header.value.metadataSize;
    var metadata := pc.metadata.decode(metadataBytes.value);
    if metadata.Err? {
      return Err;
    }
    var indexBytes := ReadAt(file, offset, header.value.stringsIndexSize);
    if indexBytes.Err? {
      return Err;
    }
    ReadSize(file, offset, header.value.stringsIndexSize);
    var stringsIndex := DecodeIndex(indexBytes.value, if good then p.table else []);
    offset := offset + header.value.stringsIndexSize;
    var stringsDataOffset := offset;
    offset := offset + header.value.stringsDataSize;
    var zonesBytes := ReadAt(file, offset, header.value.zonesSize);
    if zonesBytes.Err? {
      return Err;
    }
    offset := offset + header.value.zonesSize;
    var section' := pc.zones.decode(zonesBytes.value);
    if section'.Err? {
      return Err;
    }
    var diskBush := OpenDisk(file, offset);
    if diskBush.Err? {
      return Err;
    }
    return Ok(Loaded(diskBush.value, stringsIndex[..], stringsDataOffset, ParseZones(section'.value), metadata.value));
  }

  lemma ReadSize(file: seq<byte>, off: int, n: nat)
    ensures ReadAt(file, off, n).Ok? ==> |ReadAt(file, off, n).value| == n
  {
  }

  /** The decoding loop of the offset index. */
  method DecodeIndex(indexBytes: seq<byte>, ghost table: seq<Str>) returns (stringsIndex: array<nat>)
    ensures indexBytes == Words(Starts(table), 4) && |Block(table)| < TWO_TO_32 ==> stringsIndex[..] == Starts(table)
  {
    hide Words, Starts, Block, UnLe;
    ghost var good := indexBytes == Words(Starts(table), 4) && |Block(table)| < TWO_TO_32;
    var numStrings := |indexBytes| / 4;
    stringsIndex := new nat[numStrings];
    for i := 0 to numStrings
      invariant good ==> numStrings == |table| && forall k :: 0 <= k < i ==> stringsIndex[k] == Starts(table)[k]
    {
      if good {
        IndexWord(table, i, i * 4);
      }
      stringsIndex[i] := UnLe(indexBytes[i * 4..i * 4 + 4]);
    }
  }

  lemma IndexWord(table: seq<Str>, i: nat, at: nat)
    requires i < |table| && |Block(table)| < TWO_TO_32 && at == i * 4
    ensures var b := Words(Starts(table), 4); at + 4 <= |b| && UnLe(b[at..at + 4]) == Starts(table)[i]
  {
    hide *;
    IndexBytes(Starts(table), i, at);
    EntryAt(table, i);
    LeHalfWord(Starts(table)[i]);
  }

  lemma IndexBytes(us: seq<nat>, i: nat, at: nat)
    requires i < |us| && at == i * 4
    ensures at + 4 <= |Words(us, 4)| && Words(us, 4)[at..at + 4] == Le(us[i], 4)
  {
    hide *;
    var lo, hi := 4 * i, 4 * i + 4;
    WordAt(us, 4, i);
    assert lo == at && hi == at + 4;
  }

  lemma ReadableParts<G, M>(file: seq<byte>, p: Parts, section: seq<ZoneBlob<G>>, meta: M, pc: Protos<G, M>)
    requires Readable(file, p, section, meta, pc)
    ensures exists size :: ReadAt(file, 8, 4) == Ok(size) && UnLe(size) == |p.header|
    ensures ReadAt(file, 12, |p.header|) == Ok(p.header) && ReadAt(file, 12 + |p.header|, |p.metadata|) == Ok(p.metadata)
    ensures ReadAt(file, IndexAt(p), 4 * |p.table|) == Ok(Words(Starts(p.table), 4)) && ReadAt(file, ZonesAt(p), |p.zones|) == Ok(p.zones)
    ensures MetadataAt(p) == 12 + |p.header| && IndexAt(p) == MetadataAt(p) + |p.metadata| && DataAt(p) == IndexAt(p) + 4 * |p.table|
    ensures ZonesAt(p) == DataAt(p) + |Block(p.table)| && BushAt(p) == ZonesAt(p) + |p.zones| && |Block(p.table)| < TWO_TO_32
    ensures pc.header.decode(p.header) == Ok(V2Header(|p.metadata|, 4 * |p.table|, |Block(p.table)|, |p.zones|))
    ensures pc.metadata.decode(p.metadata) == Ok(meta) && pc.zones.decode(p.zones) == Ok(section)
  {
    hide FileOf, Block, Starts, Words, ReadAt;
    SectionsRead(p);
  }

  lemma SectionsRead(p: Parts)
    ensures var f := FileOf(p);
      && ReadAt(f, 12, |p.header|) == Ok(p.header) && ReadAt(f, MetadataAt(p), |p.metadata|) == Ok(p.metadata)
      && ReadAt(f, IndexAt(p), 4 * |p.table|) == Ok(Words(Starts(p.table), 4)) && ReadAt(f, ZonesAt(p), |p.zones|) == Ok(p.zones)
    ensures |p.header| < TWO_TO_32 ==> exists size :: ReadAt(FileOf(p), 8, 4) == Ok(size) && UnLe(size) == |p.header|
  {
    var f, size, index := FileOf(p), Le(|p.header| % TWO_TO_32, 4), Words(Starts(p.table), 4);
    hide *;
    FileParts(p);
    ReadWhole(f, 8, size);
    ReadWhole(f, 12, p.header);
    ReadWhole(f, MetadataAt(p), p.metadata);
    ReadWhole(f, IndexAt(p), index);
    ReadWhole(f, ZonesAt(p), p.zones);
    if |p.header| < TWO_TO_32 {
      SmallWord(|p.header|);
    }
  }

  lemma ReadWhole(file: seq<byte>, off: int, part: seq<byte>)
    requires At(file, off, part)
    ensures ReadAt(file, off, |part|) == Ok(part)
  {
  }

  lemma SmallWord(n: nat)
    requires n < TWO_TO_32
    ensures UnLe(Le(n % TWO_TO_32, 4)) == n
  {
    LeHalfWord(n);
  }
}
