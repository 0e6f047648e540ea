/** The streaming reader of the v2 cache, `Load` of cachesaver/save/v2/load.go: one pass over the
    same sections. Its points have no coordinates, so what is stated is their data. */
module CacheStream {
  import opened Seqs
  import opened Bytes
  import opened Blobs
  import opened KDTree
  import opened KDQuery
  import opened Bush
  import opened DiskFormat
  import opened Interning
  import opened CachePoints
  import opened CacheZones
  import opened CacheFile

  /** An io.Reader over some bytes. */
  class Reader {
    const data: seq<byte>
    var pos: nat

    constructor (data: seq<byte>, pos: nat)
      ensures this.data == data && this.pos == pos
    {
      this.data, this.pos := data, pos;
    }

    /** io.ReadFull: the next n bytes, or an error and nothing is left. */
    method ReadFull(n: nat) returns (r: Result<seq<byte>>)
      modifies this
      ensures r == ReadAt(data, old(pos), n)
      ensures r.Ok? ==> pos == old(pos) + n && |r.value| == n
    {
      r := ReadAt(data, pos, n);
      pos := if r.Ok? then pos + n else |data|;
    }

    /** io.CopyN to io.Discard; a negative count copies nothing. */
    method Skip(n: int) returns (ok: bool)
      modifies this
      ensures ok <==> n <= 0 || old(pos) + n <= |data|
      ensures ok ==> pos == old(pos) + if n <= 0 then 0 else n
    {
      ok := n <= 0 || pos + n <= |data|;
      pos := if n <= 0 then pos else if ok then pos + n else |data|;
    }
  }

  /** What `Load` keeps for its iterators. */
  datatype Stream<G, M> = Stream(stringsIndex: seq<nat>, stringsData: seq<byte>, numPoints: int, zones: seq<Zone<G>>, metadata: M)

  /** The file's last section is the image of these rows and payloads. */
  ghost predicate BushIs(p: Parts, rows: seq<Item>, nodeSize: int, blobs: seq<seq<byte>>, fc: FloatCodec) {
    && p.bush == Image(rows, nodeSize, blobs, fc) && |rows| == |blobs| && Fits(rows, blobs, fc)
    && -TWO_TO_63 <= nodeSize < TWO_TO_63
  }

  /** `Load`, after the first eight bytes. */
  method Load<G, M>(r: Reader, pc: Protos<G, M>, ghost p: Parts, ghost section: seq<ZoneBlob<G>>, ghost meta: M,
                    ghost rows: seq<Item>, ghost nodeSize: int, ghost blobs: seq<seq<byte>>, ghost fc: FloatCodec)
    returns (res: Result<Stream<G, M>>)
    modifies r
    ensures Readable(r.data, p, section, meta, pc) && BushIs(p, rows, nodeSize, blobs, fc) && old(r.pos) == 8 ==>
      res == Ok(Stream(Starts(p.table), Block(p.table), |rows|, ParseZones(section), meta)) && r.pos == BushAt(p) + 32
  {
    hide *;
    ghost var good := Readable(r.data, p, section, meta, pc) && BushIs(p, rows, nodeSize, blobs, fc) && r.pos == 8;
    if good {
      RestRead(r.data, p, section, meta, pc, rows, nodeSize, blobs, fc);
    }
    var front := LoadFront(r, pc, p, section, meta);
    if front.Err? {
      return Err;
    }
    var (header, metadata) := front.value;
    var strings := LoadStrings(r, header, p);
    if strings.Err? {
      return Err;
    }
    var zonesBytes := r.ReadFull(header.zonesSize);
    if zonesBytes.Err? {
      return Err;
    }
    var section' := pc.zones.decode(zonesBytes.value);
    if section'.Err? {
      return Err;
    }
    var kdbhHeader := r.ReadFull(32);
    if kdbhHeader.Err? {
      return Err;
    }
    var numPoints := FromWord(UnLe(kdbhHeader.value[16..24]));
    return Ok(Stream(strings.value.0, strings.value.1, numPoints, ParseZones(section'.value), metadata));
  }

  /** The header and the metadata. */
  method LoadFront<G, M>(r: Reader, pc: Protos<G, M>, ghost p: Parts, ghost section: seq<ZoneBlob<G>>, ghost meta: M)
    returns (res: Result<(V2Header, M)>)
    modifies r
    ensures Readable(r.data, p, section, meta, pc) && old(r.pos) == 8 ==>
      res == Ok((V2Header(|p.metadata|, 4 * |p.table|, |Block(p.table)|, |p.zones|), meta)) && r.pos == IndexAt(p)
  {
    hide *;
    if Readable(r.data, p, section, meta, pc) {
      ReadableParts(r.data, p, section, meta, pc);
    }
    var sizeBuf := r.ReadFull(4);
    if sizeBuf.Err? {
      return Err;
    }
    var headerBytes := r.ReadFull(UnLe(sizeBuf.value));
    if headerBytes.Err? {
      return Err;
    }
    var header := pc.header.decode(headerBytes.value);
    if header.Err? {
      return Err;
    }
    var metadataBytes := r.ReadFull(header.value.metadataSize);
    if metadataBytes.Err? {
      return Err;
    }
    var metadata := pc.metadata.decode(metadataBytes.value);
    if metadata.Err? {
      return Err;
    }
    return Ok((header.value, metadata.value));
  }

  ghost predicate StringsHere(file: seq<byte>, at: nat, header: V2Header, p: Parts) {
    && header.stringsIndexSize == 4 * |p.table| && header.stringsDataSize == |Block(p.table)| < TWO_TO_32 && at == IndexAt(p)
    && ReadAt(file, at, 4 * |p.table|) == Ok(Words(Starts(p.table), 4))
    && ReadAt(file, at + 4 * |p.table|, |Block(p.table)|) == Ok(Block(p.table))
  }

  lemma StringsSay(file: seq<byte>, at: nat, header: V2Header, p: Parts)
    requires StringsHere(file, at, header, p)
    ensures header.stringsIndexSize / 4 * 4 == 4 * |p.table| && header.stringsDataSize == |Block(p.table)| < TWO_TO_32
    ensures ReadAt(file, at, 4 * |p.table|) == Ok(Words(Starts(p.table), 4))
    ensures ReadAt(file, at + 4 * |p.table|, |Block(p.table)|) == Ok(Block(p.table))
    ensures ZonesAt(p) == at + 4 * |p.table| + |Block(p.table)|
  {
    hide ReadAt, Words, Starts, Block;
  }

  /** The string index, of which only whole words are read, and the string block. */
  method LoadStrings(r: Reader, header: V2Header, ghost p: Parts) returns (res: Result<(seq<nat>, seq<byte>)>)
    modifies r
    ensures StringsHere(r.data, old(r.pos), header, p) ==> res == Ok((Starts(p.table), Block(p.table))) && r.pos == ZonesAt(p)
  {
    hide *;
    if StringsHere(r.data, r.pos, header, p) {
      StringsSay(r.data, r.pos, header, p);
    }
    var numStrings := header.stringsIndexSize / 4;
    var indexBytes := r.ReadFull(numStrings * 4);
    if indexBytes.Err? {
      return Err;
    }
    var stringsIndex := DecodeIndex(indexBytes.value, p.table);
    var stringsData := r.ReadFull(header.stringsDataSize);
    if stringsData.Err? {
      return Err;
    }
    return Ok((stringsIndex[..], stringsData.value));
  }

  lemma RestRead<G, M>(file: seq<byte>, p: Parts, section: seq<ZoneBlob<G>>, meta: M, pc: Protos<G, M>,
                       rows: seq<Item>, nodeSize: int, blobs: seq<seq<byte>>, fc: FloatCodec)
    requires Readable(file, p, section, meta, pc) && BushIs(p, rows, nodeSize, blobs, fc)
    ensures var header := V2Header(|p.metadata|, 4 * |p.table|, |Block(p.table)|, |p.zones|); StringsHere(file, IndexAt(p), header, p)
    ensures ReadAt(file, ZonesAt(p), |p.zones|) == Ok(p.zones) && pc.zones.decode(p.zones) == Ok(section)
    ensures BushAt(p) == ZonesAt(p) + |p.zones|
    ensures exists h :: ReadAt(file, BushAt(p), 32) == Ok(h) && |h| == 32 && FromWord(UnLe(h[16..24])) == |rows|
  {
    hide FileOf, Block, Starts, Words, At, ReadAt, Image, Fits, Header, UnLe, FromWord;
    ReadableParts(file, p, section, meta, pc);
    FileParts(p);
    ReadWhole(file, DataAt(p), Block(p.table));
    ImageParts(file, BushAt(p), rows, nodeSize, blobs, fc);
    ReadWhole(file, BushAt(p), Header(nodeSize, |rows|));
    HeaderFields(nodeSize, |rows|, rows, blobs, fc);
  }

  // ---------------------------------------------------------------------------
  // The points iterator

  function NulCut(info: Info): Info {
    Info(UpToNul(info.name), UpToNul(info.street), UpToNul(info.houseNumber), UpToNul(info.city), UpToNul(info.region), info.weight)
  }

  /** The points as they come out: without coordinates, each string up to its first NUL. */
  function Streamed(points: seq<Point<Info>>): (r: seq<Point<Info>>)
    ensures |r| == |points| && forall i :: 0 <= i < |points| ==> r[i] == Point(0.0, 0.0, NulCut(points[i].data))
  {
    seq(|points|, i requires 0 <= i < |points| => Point(0.0, 0.0, NulCut(points[i].data)))
  }

  lemma NulCutWhole(info: Info)
    ensures NulCut(info) == info <==> AllNulFree(info)
  {
    hide UpToNul, NulFree;
    UpToNulWhole(info.name);
    UpToNulWhole(info.street);
    UpToNulWhole(info.houseNumber);
    UpToNulWhole(info.city);
    UpToNulWhole(info.region);
  }

  /** Each payload is the record of its point. */
  ghost predicate PayloadsAre(points: seq<Point<Info>>, blobs: seq<seq<byte>>) {
    && |blobs| == |points| && CoversAll(TableOf(points), points)
    && forall i :: 0 <= i < |points| ==> blobs[i] == Record(Numbered(TableOf(points), points[i].data))
  }

  /** The reader stands after the header of an image of these payloads, over the table of the points. */
  ghost predicate Ready<G, M>(r: Reader, at: nat, s: Stream<G, M>, points: seq<Point<Info>>, rows: seq<Item>, nodeSize: int,
                              blobs: seq<seq<byte>>, fc: FloatCodec) {
    && At(r.data, at, Image(rows, nodeSize, blobs, fc)) && |rows| == |blobs| == |points| == s.numPoints && Fits(rows, blobs, fc)
    && s.stringsIndex == Starts(TableOf(points)) && s.stringsData == Block(TableOf(points))
    && |TableOf(points)| <= TWO_TO_32 && PayloadsAre(points, blobs)
  }

  /** The points iterator: skips the tree, reads the offset table and then the payloads one by one,
      handing over resolved points until the consumer stops. */
  method Points<G, M>(r: Reader, s: Stream<G, M>, consumer: Handler<Info>, ghost at: nat, ghost points: seq<Point<Info>>,
                      ghost rows: seq<Item>, ghost nodeSize: int, ghost blobs: seq<seq<byte>>, ghost fc: FloatCodec)
    returns (ok: bool, calls: seq<Point<Info>>)
    modifies r
    ensures Ready(r, at, s, points, rows, nodeSize, blobs, fc) && old(r.pos) == at + 32 ==>
      ok && Delivered(consumer, Streamed(points), calls)
  {
    hide *;
    ghost var good := Ready(r, at, s, points, rows, nodeSize, blobs, fc) && r.pos == at + 32;
    ghost var n := |points|;
    ghost var pts := Streamed(points);
    calls := [];
    if good {
      ReadySays(r, at, s, points, rows, nodeSize, blobs, fc);
      GoingStart(consumer, pts);
    }
    var skipped := r.Skip(s.numPoints * 8 + s.numPoints * 16);
    if !skipped {
      return false, calls;
    }
    var read, offsetTable := ReadOffsets(r, s.numPoints, blobs);
    if !read {
      return false, calls;
    }
    ghost var base := r.pos;
    NoOffset(blobs);
    for i := 0 to s.numPoints
      invariant offsetTable.Length == s.numPoints + 1 && fresh(offsetTable)
      invariant good ==> offsetTable[..] == Offsets(blobs)
      invariant good ==> Going(consumer, pts, calls) && |calls| == i && r.pos == base + Offsets(blobs)[i]
    {
      if good {
        PointBack(r, at, s, points, rows, nodeSize, blobs, fc, i);
        BlobRead(r.data, base, blobs, i);
        assert offsetTable[..][i] == offsetTable[i] && offsetTable[..][i + 1] == offsetTable[i + 1];
      }
      var blobLen := offsetTable[i + 1] - offsetTable[i];
      var data := ZERO;
      if blobLen > 0 {
        var blobBuf := r.ReadFull(blobLen);
        if blobBuf.Err? {
          return false, calls;
        }
        var d := Unmarshal(blobBuf.value);
        if d.Err? {
          return false, calls;
        }
        data := d.value;
      }
      if !Known(data, |s.stringsIndex|) {
        return false, calls;
      }
      if good {
        GoingStep(consumer, pts, calls);
      }
      calls := calls + [ResolvePointFromIndex(s.stringsIndex, s.stringsData, data)];
      if !consumer(calls) {
        return true, calls;
      }
    }
    if good {
      GoingEnd(consumer, pts, calls);
    }
    return true, calls;
  }

  lemma ReadySays<G, M>(r: Reader, at: nat, s: Stream<G, M>, points: seq<Point<Info>>, rows: seq<Item>, nodeSize: int,
                        blobs: seq<seq<byte>>, fc: FloatCodec)
    requires Ready(r, at, s, points, rows, nodeSize, blobs, fc)
    ensures s.numPoints == |points| == |blobs| && |Streamed(points)| == |points| && |Concat(blobs)| < TWO_TO_63
    ensures at + 32 + 24 * |points| <= |r.data|
    ensures var n := |points|;
      && At(r.data, at + 32 + 24 * n, Words(Offsets(blobs), 8)) && At(r.data, at + 32 + 24 * n + 8 * (n + 1), Concat(blobs))
  {
    hide *;
    ReadyImage(r, at, s, points, rows, nodeSize, blobs, fc);
    ImageParts(r.data, at, rows, nodeSize, blobs, fc);
    StartsInside(r.data, at + 32 + 24 * |points|, Words(Offsets(blobs), 8));
  }

  lemma ReadyImage<G, M>(r: Reader, at: nat, s: Stream<G, M>, points: seq<Point<Info>>, rows: seq<Item>, nodeSize: int,
                         blobs: seq<seq<byte>>, fc: FloatCodec)
    requires Ready(r, at, s, points, rows, nodeSize, blobs, fc)
    ensures s.numPoints == |points| == |blobs| == |rows| && |Streamed(points)| == |points| && |Concat(blobs)| < TWO_TO_63
    ensures At(r.data, at, Image(rows, nodeSize, blobs, fc))
  {
    hide Image, Concat, TableOf, Record, CoversAll, Starts, Block, Streamed, At;
  }

  lemma StartsInside(file: seq<byte>, off: int, part: seq<byte>)
    requires At(file, off, part)
    ensures off <= |file|
  {
  }

  /** The offset table, word by word. A negative count, which makes the source panic, is refused. */
  method ReadOffsets(r: Reader, numPoints: int, ghost blobs: seq<seq<byte>>) returns (ok: bool, offsetTable: array<int>)
    modifies r
    ensures fresh(offsetTable) && (ok ==> numPoints >= 0 && offsetTable.Length == numPoints + 1)
    ensures numPoints == |blobs| && |Concat(blobs)| < TWO_TO_63 && At(r.data, old(r.pos), Words(Offsets(blobs), 8)) ==>
      ok && offsetTable[..] == Offsets(blobs) && r.pos == old(r.pos) + 8 * (numPoints + 1)
  {
    hide *;
    if numPoints < 0 {
      offsetTable := new int[0];
      return false, offsetTable;
    }
    ghost var us := Offsets(blobs);
    ghost var start := r.pos;
    ghost var good := numPoints == |blobs| && |Concat(blobs)| < TWO_TO_63 && At(r.data, start, Words(us, 8));
    offsetTable := new int[numPoints + 1];
    for i := 0 to numPoints + 1
      invariant good ==> r.pos == start + 8 * i && forall k :: 0 <= k < i ==> offsetTable[k] == us[k]
    {
      if good {
        OffsetWord(r.data, start, blobs, i, 8 * i);
      }
      var buf := r.ReadFull(8);
      if buf.Err? {
        return false, offsetTable;
      }
      offsetTable[i] := FromWord(UnLe(buf.value));
    }
    ok := true;
  }

  lemma OffsetWord(file: seq<byte>, start: nat, blobs: seq<seq<byte>>, i: nat, k: nat)
    requires At(file, start, Words(Offsets(blobs), 8)) && |Concat(blobs)| < TWO_TO_63 && i <= |blobs| && k == 8 * i
    ensures var r := ReadAt(file, start + k, 8); r.Ok? && FromWord(UnLe(r.value)) == Offsets(blobs)[i]
  {
    hide At, Words, Concat, Offsets, ReadAt, UnLe, FromWord;
    OffsetSmall(blobs, i);
    ReadWord(file, start, Offsets(blobs), i, k);
    FromSmall(Offsets(blobs)[i]);
  }

  lemma NoOffset(blobs: seq<seq<byte>>)
    ensures Offsets(blobs)[0] == 0
  {
    OffsetsAre(blobs, 0);
  }

  lemma OffsetSmall(blobs: seq<seq<byte>>, i: nat)
    requires i <= |blobs|
    ensures Offsets(blobs)[i] <= |Concat(blobs)|
  {
    OffsetsAre(blobs, i);
    if i < |blobs| {
      ConcatSlice(blobs, i);
    } else {
      assert blobs[..i] == blobs;
    }
  }

  lemma BlobRead(file: seq<byte>, base: nat, blobs: seq<seq<byte>>, i: nat)
    requires At(file, base, Concat(blobs)) && i < |blobs|
    ensures Offsets(blobs)[i + 1] == Offsets(blobs)[i] + |blobs[i]|
    ensures ReadAt(file, base + Offsets(blobs)[i], |blobs[i]|) == Ok(blobs[i])
  {
    hide At, Concat, Offsets, ReadAt;
    OffsetsAre(blobs, i);
    OffsetsAre(blobs, i + 1);
    ConcatSlice(blobs, i);
    ReadPart(file, base, Concat(blobs), Offsets(blobs)[i], blobs[i]);
  }

  lemma PointBack<G, M>(r: Reader, at: nat, s: Stream<G, M>, points: seq<Point<Info>>, rows: seq<Item>, nodeSize: int,
                        blobs: seq<seq<byte>>, fc: FloatCodec, i: nat)
    requires Ready(r, at, s, points, rows, nodeSize, blobs, fc) && i < |points|
    ensures var d := Unmarshal(blobs[i]);
      && |blobs[i]| > 0 && d.Ok? && Known(d.value, |s.stringsIndex|)
      && ResolvePointFromIndex(s.stringsIndex, s.stringsData, d.value) == Streamed(points)[i]
  {
    var table, info := TableOf(points), points[i].data;
    hide *;
    ReadyPoint(r, at, s, points, rows, nodeSize, blobs, fc, i);
    NumberedKnown(table, info);
    NumberedNarrow(table, info);
    var d := Numbered(table, info);
    RecordRoundTrip(d, [], 0);
    assert Record(d) + [] == Record(d);
    StringsBack(table, info, d);
  }

  lemma ReadyPoint<G, M>(r: Reader, at: nat, s: Stream<G, M>, points: seq<Point<Info>>, rows: seq<Item>, nodeSize: int,
                         blobs: seq<seq<byte>>, fc: FloatCodec, i: nat)
    requires Ready(r, at, s, points, rows, nodeSize, blobs, fc) && i < |points|
    ensures var table := TableOf(points);
      && s.stringsIndex == Starts(table) && s.stringsData == Block(table) && |table| <= TWO_TO_32 && ById(table)
      && i < |blobs| && Covers(table, points[i].data) && blobs[i] == Record(Numbered(table, points[i].data))
  {
    hide At, Image, TableOf, ById, Starts, Block, Record, Fits, Numbered, Covers;
    TableIs(points);
  }

  lemma NumberedNarrow(table: seq<Str>, info: Info)
    requires Covers(table, info) && |table| <= TWO_TO_32
    ensures Narrow(Numbered(table, info)) && |Record(Numbered(table, info))| > 0
  {
    hide Record, Covers;
    NumberedKnown(table, info);
  }

  lemma StringsBack(table: seq<Str>, info: Info, d: PointData)
    requires ById(table) && Covers(table, info) && d == Numbered(table, info)
    ensures Known(d, |table|)
    ensures ResolvePointFromIndex(Starts(table), Block(table), d) == Point(0.0, 0.0, NulCut(info))
  {
    hide ById, ReadStrByID, Starts, Block, UpToNul, Covers, Numbered;
    NumberedKnown(table, info);
    ReadBackById(table, d.name);
    ReadBackById(table, d.street);
    ReadBackById(table, d.houseNumber);
    ReadBackById(table, d.city);
    ReadBackById(table, d.region);
  }

}
