/** The byte layout of kdbush/kdbush_disk.go and its readers: whatever was laid out is read back,
    index by index, coordinate by coordinate, leaf by leaf and payload by payload. */
module DiskFormat {
  import opened Seqs
  import opened Bytes
  import opened Blobs
  import opened KDTree

  const HEADER_SIZE := 32
  const VERSION: nat := 1

  /** "KDBH" */
  const MAGIC: seq<byte> := [75, 68, 66, 72]

  /** Float64bits and Float64frombits. */
  datatype FloatCodec = FloatCodec(bits: real -> nat, fromBits: nat -> real)

  /** c survives the trip through its 64 bits. */
  predicate Exactly(fc: FloatCodec, c: real) {
    fc.bits(c) < TWO_TO_64 && fc.fromBits(fc.bits(c)) == c
  }

  /** MarshalBinary, UnmarshalBinary and the zero value of a payload type. */
  datatype Codec<!V> = Codec(marshal: V -> Result<seq<byte>>, unmarshal: seq<byte> -> Result<V>, zero: V)

  // ---------------------------------------------------------------------------
  // Layout

  function Header(nodeSize: int, n: nat): (h: seq<byte>)
    ensures |h| == HEADER_SIZE
  {
    MAGIC + Le(VERSION, 4) + Le(ToWord(nodeSize), 8) + Le(ToWord(n), 8) + Le(0, 8)
  }

  function IdxWords(rows: seq<Item>): (us: seq<nat>)
    ensures |us| == |rows|
  {
    seq(|rows|, i requires 0 <= i < |rows| => ToWord(rows[i].idx))
  }

  /** x and y of every row, alternating. */
  function CoordWords(rows: seq<Item>, fc: FloatCodec): (us: seq<nat>)
    ensures |us| == 2 * |rows|
    ensures forall i :: 0 <= i < |rows| ==> us[2 * i] == fc.bits(rows[i].x) && us[2 * i + 1] == fc.bits(rows[i].y)
  {
    if rows == [] then [] else
    var last := rows[|rows| - 1];
    CoordWords(rows[..|rows| - 1], fc) + [fc.bits(last.x), fc.bits(last.y)]
  }

  /** The whole file section. */
  function Image(rows: seq<Item>, nodeSize: int, blobs: seq<seq<byte>>, fc: FloatCodec): seq<byte> {
    Header(nodeSize, |rows|)
    + (Words(IdxWords(rows), 8) + (Words(CoordWords(rows, fc), 8) + (Words(Offsets(blobs), 8) + Concat(blobs))))
  }

  lemma ImageSize(rows: seq<Item>, nodeSize: int, blobs: seq<seq<byte>>, fc: FloatCodec)
    ensures |Image(rows, nodeSize, blobs, fc)| == 32 + 24 * |rows| + 8 * (|blobs| + 1) + |Concat(blobs)|
  {
  }

  // ---------------------------------------------------------------------------
  // Opening

  /** What `OpenDisk` keeps: the file and where the four sections begin. */
  datatype Disk = Disk(file: seq<byte>, nodeSize: int, numPoints: int,
                       idxsOffset: int, coordsOffset: int, dataOffsetsOff: int, dataBlobsOff: int)

  /** `OpenDisk`. */
  function OpenDisk(file: seq<byte>, offset: int): Result<Disk> {
    var header :- ReadAt(file, offset, HEADER_SIZE);
    if header[0..4] != MAGIC then Err
    else if UnLe(header[4..8]) != VERSION then Err
    else
      var nodeSize := FromWord(UnLe(header[8..16]));
      var numPoints := FromWord(UnLe(header[16..24]));
      var idxsOff := offset + HEADER_SIZE;
      var coordsOff := idxsOff + numPoints * 8;
      var dataOffsetsOff := coordsOff + numPoints * 16;
      var dataBlobsOff := dataOffsetsOff + (numPoints + 1) * 8;
      Ok(Disk(file, nodeSize, numPoints, idxsOff, coordsOff, dataOffsetsOff, dataBlobsOff))
  }

  /** The handle's sections hold these rows and payloads. */
  ghost predicate Holds(d: Disk, rows: seq<Item>, nodeSize: int, blobs: seq<seq<byte>>, fc: FloatCodec) {
    && d.nodeSize == nodeSize && d.numPoints == |rows| == |blobs|
    && At(d.file, d.idxsOffset, Words(IdxWords(rows), 8))
    && At(d.file, d.coordsOffset, Words(CoordWords(rows, fc), 8))
    && At(d.file, d.dataOffsetsOff, Words(Offsets(blobs), 8))
    && At(d.file, d.dataBlobsOff, Concat(blobs))
    && Fits(rows, blobs, fc)
  }

  /** Everything that is written fits its 64-bit field. */
  ghost predicate Fits(rows: seq<Item>, blobs: seq<seq<byte>>, fc: FloatCodec) {
    && |Concat(blobs)| < TWO_TO_63 && |rows| < TWO_TO_63
    && (forall i :: 0 <= i < |rows| ==>
          -TWO_TO_63 <= rows[i].idx < TWO_TO_63 && Exactly(fc, rows[i].x) && Exactly(fc, rows[i].y))
  }

  lemma HeaderParts(nodeSize: int, n: nat)
    ensures var h := Header(nodeSize, n);
      h[0..4] == MAGIC && h[4..8] == Le(VERSION, 4) && h[8..16] == Le(ToWord(nodeSize), 8) && h[16..24] == Le(ToWord(n), 8)
  {
    FieldsOf(MAGIC, Le(VERSION, 4), Le(ToWord(nodeSize), 8), Le(ToWord(n), 8), Le(0, 8));
  }

  lemma FieldsOf(a: seq<byte>, b: seq<byte>, c: seq<byte>, d: seq<byte>, e: seq<byte>)
    requires |a| == |b| == 4 && |c| == |d| == 8
    ensures var h := a + b + c + d + e; h[0..4] == a && h[4..8] == b && h[8..16] == c && h[16..24] == d
  {
  }

  lemma ImageParts(file: seq<byte>, off: int, rows: seq<Item>, nodeSize: int, blobs: seq<seq<byte>>, fc: FloatCodec)
    requires At(file, off, Image(rows, nodeSize, blobs, fc)) && |blobs| == |rows|
    ensures var n := |rows|;
      && At(file, off, Header(nodeSize, n))
      && At(file, off + 32, Words(IdxWords(rows), 8))
      && At(file, off + 32 + 8 * n, Words(CoordWords(rows, fc), 8))
      && At(file, off + 32 + 24 * n, Words(Offsets(blobs), 8))
      && At(file, off + 32 + 24 * n + 8 * (n + 1), Concat(blobs))
  {
    hide At, Header, Words, IdxWords, CoordWords, Offsets, Concat;
    FiveParts(file, off, Header(nodeSize, |rows|), Words(IdxWords(rows), 8), Words(CoordWords(rows, fc), 8),
              Words(Offsets(blobs), 8), Concat(blobs));
  }

  lemma FiveParts(file: seq<byte>, off: int, h: seq<byte>, a: seq<byte>, b: seq<byte>, c: seq<byte>, d: seq<byte>)
    requires At(file, off, h + (a + (b + (c + d))))
    ensures At(file, off, h) && At(file, off + |h|, a) && At(file, off + |h| + |a|, b)
    ensures At(file, off + |h| + |a| + |b|, c) && At(file, off + |h| + |a| + |b| + |c|, d)
  {
    hide At;
    AtParts(file, off, h, a + (b + (c + d)));
    AtParts(file, off + |h|, a, b + (c + d));
    AtParts(file, off + |h| + |a|, b, c + d);
    AtParts(file, off + |h| + |a| + |b|, c, d);
  }

  /** Opening a file where an image was written succeeds, and the handle holds what was laid out. */
  lemma OpenBuilt(file: seq<byte>, off: int, rows: seq<Item>, nodeSize: int, blobs: seq<seq<byte>>, fc: FloatCodec)
    requires At(file, off, Image(rows, nodeSize, blobs, fc))
    requires |blobs| == |rows| && Fits(rows, blobs, fc) && -TWO_TO_63 <= nodeSize < TWO_TO_63
    ensures OpenDisk(file, off).Ok? && Holds(OpenDisk(file, off).value, rows, nodeSize, blobs, fc)
    ensures var d := OpenDisk(file, off).value; d.file == file && d.nodeSize == nodeSize && d.numPoints == |rows|
  {
    hide At, Image, Fits, OpenDisk, Words, IdxWords, CoordWords, Offsets, Concat, Header;
    ImageParts(file, off, rows, nodeSize, blobs, fc);
    HeaderOpens(file, off, nodeSize, |rows|, rows, blobs, fc);
  }

  /** The header alone decides what the handle says. */
  lemma HeaderOpens(file: seq<byte>, off: int, nodeSize: int, n: nat, rows: seq<Item>, blobs: seq<seq<byte>>, fc: FloatCodec)
    requires At(file, off, Header(nodeSize, n)) && -TWO_TO_63 <= nodeSize < TWO_TO_63
    requires n == |rows| && Fits(rows, blobs, fc)
    ensures OpenDisk(file, off)
         == Ok(Disk(file, nodeSize, n, off + 32, off + 32 + 8 * n, off + 32 + 24 * n, off + 32 + 24 * n + 8 * (n + 1)))
  {
    var h := Header(nodeSize, n);
    hide At, Header, Fits, Le, UnLe, ToWord, FromWord;
    assert ReadAt(file, off, HEADER_SIZE) == Ok(h) by {
      AtSlice(file, off, h, 0, 32);
      assert h[0..32] == h;
    }
    hide ReadAt;
    HeaderFields(nodeSize, n, rows, blobs, fc);
  }

  lemma HeaderFields(nodeSize: int, n: nat, rows: seq<Item>, blobs: seq<seq<byte>>, fc: FloatCodec)
    requires -TWO_TO_63 <= nodeSize < TWO_TO_63 && n == |rows| && Fits(rows, blobs, fc)
    ensures var h := Header(nodeSize, n);
      && h[0..4] == MAGIC && UnLe(h[4..8]) == VERSION
      && FromWord(UnLe(h[8..16])) == nodeSize && FromWord(UnLe(h[16..24])) == n
  {
    assert n < TWO_TO_63;
    hide Header, Fits, Le, UnLe, ToWord, FromWord;
    HeaderParts(nodeSize, n);
    LeHalfWord(VERSION);
    LeWord(ToWord(nodeSize));
    LeWord(ToWord(n));
    WordRoundTrip(nodeSize);
    WordRoundTrip(n);
  }

  /** The header, byte for byte. */
  lemma HeaderBytes(nodeSize: int, n: nat)
    ensures Header(nodeSize, n)
         == [75, 68, 66, 72, 1, 0, 0, 0] + Le(ToWord(nodeSize), 8) + Le(ToWord(n), 8) + [0, 0, 0, 0, 0, 0, 0, 0]
  {
    LeOne(3);
    LeZero(8);
    hide Le, ToWord;
    assert [1] + Zeros(3) == [1, 0, 0, 0] && Zeros(8) == [0, 0, 0, 0, 0, 0, 0, 0];
    assert MAGIC + [1, 0, 0, 0] == [75, 68, 66, 72, 1, 0, 0, 0];
  }

  lemma LeOne(w: nat)
    ensures Le(1, w + 1) == [1] + Zeros(w)
  {
    LeZero(w);
  }

  function Zeros(w: nat): (b: seq<byte>)
    ensures |b| == w && forall i :: 0 <= i < w ==> b[i] == 0
  {
    seq(w, _ => 0)
  }

  lemma {:induction false} LeZero(w: nat)
    ensures Le(0, w) == Zeros(w)
  {
    if w > 0 {
      LeZero(w - 1);
    }
  }

  /** Which files open, and what the handle says of them. */
  lemma OpenIff(file: seq<byte>, off: int)
    ensures OpenDisk(file, off).Ok? <==> 0 <= off && off + 32 <= |file| && file[off..off + 8] == [75, 68, 66, 72, 1, 0, 0, 0]
    ensures OpenDisk(file, off).Ok? ==>
      var d := OpenDisk(file, off).value;
      && d.file == file
      && Le(ToWord(d.nodeSize), 8) == file[off + 8..off + 16] && Le(ToWord(d.numPoints), 8) == file[off + 16..off + 24]
      && d.idxsOffset == off + 32 && d.coordsOffset == off + 32 + 8 * d.numPoints && d.dataOffsetsOff == off + 32 + 24 * d.numPoints
      && d.dataBlobsOff == off + 32 + 24 * d.numPoints + 8 * (d.numPoints + 1)
  {
    if 0 <= off && off + 32 <= |file| {
      var h := file[off..off + 32];
      hide Le, UnLe, ToWord, FromWord;
      HeaderWords(file, off, h);
      FrontBytes(h[0..4], h[4..8]);
      WordBack(h[8..16]);
      WordBack(h[16..24]);
    }
  }

  lemma HeaderWords(file: seq<byte>, off: nat, h: seq<byte>)
    requires off + 32 <= |file| && h == file[off..off + 32]
    ensures file[off..off + 8] == h[0..4] + h[4..8] && h[8..16] == file[off + 8..off + 16] && h[16..24] == file[off + 16..off + 24]
  {
    SubSlice(file, off, h, 0, 8);
    SubSlice(file, off, h, 8, 16);
    SubSlice(file, off, h, 16, 24);
    assert h[0..8] == h[0..4] + h[4..8];
  }

  lemma SubSlice(file: seq<byte>, off: nat, h: seq<byte>, i: nat, j: nat)
    requires i <= j <= |h| && off + |h| <= |file| && h == file[off..off + |h|]
    ensures file[off + i..off + j] == h[i..j]
  {
    forall k | 0 <= k < j - i ensures file[off + i..off + j][k] == h[i..j][k] {
      assert h[i + k] == file[off + (i + k)];
    }
  }

  lemma FrontBytes(a: seq<byte>, b: seq<byte>)
    requires |a| == |b| == 4
    ensures a == MAGIC && UnLe(b) == VERSION <==> a + b == [75, 68, 66, 72, 1, 0, 0, 0]
  {
    VersionBytes(b);
    hide UnLe;
    var m: seq<byte> := [75, 68, 66, 72];
    assert m + [1, 0, 0, 0] == [75, 68, 66, 72, 1, 0, 0, 0];
    if a + b == m + [1, 0, 0, 0] {
      assert a == (a + b)[..4] && b == (a + b)[4..];
    }
  }

  lemma VersionBytes(b: seq<byte>)
    requires |b| == 4
    ensures UnLe(b) == VERSION <==> b == [1, 0, 0, 0]
  {
    LeOfUnLe(b);
    LeOne(3);
    LeHalfWord(1);
    hide Le, UnLe;
    assert [1] + Zeros(3) == [1, 0, 0, 0];
  }

  lemma WordBack(b: seq<byte>)
    requires |b| == 8
    ensures Le(ToWord(FromWord(UnLe(b))), 8) == b
  {
    LeOfUnLe(b);
    WordSize(b);
    SameWord(UnLe(b));
    hide Le, UnLe, ToWord, FromWord;
  }

  lemma SameWord(u: nat)
    requires u < TWO_TO_64
    ensures ToWord(FromWord(u)) == u
  {
  }

  lemma WordSize(b: seq<byte>)
    requires |b| == 8
    ensures UnLe(b) < TWO_TO_64
  {
    UnLeBound(b);
    Powers();
  }

  // ---------------------------------------------------------------------------
  // Reading

  /** `readIdx`. */
  function ReadIdx(d: Disk, i: int): Result<int> {
    var buf :- ReadAt(d.file, d.idxsOffset + i * 8, 8);
    Ok(FromWord(UnLe(buf)))
  }

  /** `readCoord`. */
  function ReadCoord(d: Disk, fc: FloatCodec, i: int): Result<(real, real)> {
    var buf :- ReadAt(d.file, d.coordsOffset + i * 16, 16);
    Ok((fc.fromBits(UnLe(buf[0..8])), fc.fromBits(UnLe(buf[8..16]))))
  }

  /** `readPointData`: an empty blob stands for the zero value. */
  function ReadPointData<V>(d: Disk, codec: Codec<V>, origIdx: int): Result<V> {
    var obuf :- ReadAt(d.file, d.dataOffsetsOff + origIdx * 8, 16);
    var blobStart := FromWord(UnLe(obuf[0..8]));
    var blobEnd := FromWord(UnLe(obuf[8..16]));
    if blobEnd - blobStart == 0 then Ok(codec.zero)
    else if blobEnd - blobStart < 0 then Err
    else
      var buf :- ReadAt(d.file, d.dataBlobsOff + blobStart, blobEnd - blobStart);
      codec.unmarshal(buf)
  }

  lemma ReadIdxBack(d: Disk, rows: seq<Item>, nodeSize: int, blobs: seq<seq<byte>>, fc: FloatCodec, i: nat)
    requires Holds(d, rows, nodeSize, blobs, fc) && i < |rows|
    ensures ReadIdx(d, i) == Ok(rows[i].idx)
  {
    hide Words, Le, UnLe, ReadAt, At, CoordWords, Offsets, Concat, Exactly, ToWord, FromWord;
    ReadWord(d.file, d.idxsOffset, IdxWords(rows), i, i * 8);
    WordRoundTrip(rows[i].idx);
  }

  lemma ReadCoordBack(d: Disk, rows: seq<Item>, nodeSize: int, blobs: seq<seq<byte>>, fc: FloatCodec, i: nat)
    requires Holds(d, rows, nodeSize, blobs, fc) && i < |rows|
    ensures ReadCoord(d, fc, i) == Ok((rows[i].x, rows[i].y))
  {
    hide Words, Le, UnLe, ReadAt, At, CoordWords, Offsets, Concat, IdxWords;
    assert Exactly(fc, rows[i].x) && Exactly(fc, rows[i].y);
    ReadTwoWords(d.file, d.coordsOffset, CoordWords(rows, fc), 2 * i, i * 16);
  }

  /** Word k of a run of words, at byte i, read on its own. */
  lemma ReadWord(file: seq<byte>, off: int, us: seq<nat>, k: nat, i: nat)
    requires At(file, off, Words(us, 8)) && k < |us| && us[k] < TWO_TO_64 && i == k * 8
    ensures var r := ReadAt(file, off + i, 8); r.Ok? && |r.value| == 8 && UnLe(r.value) == us[k]
  {
    hide *;
    WordBytes(us, k, i);
    ReadPart(file, off, Words(us, 8), i, Le(us[k], 8));
    LeWord(us[k]);
  }

  /** Two neighbouring words, read together. */
  lemma ReadTwoWords(file: seq<byte>, off: int, us: seq<nat>, k: nat, i: nat)
    requires At(file, off, Words(us, 8)) && k + 1 < |us| && us[k] < TWO_TO_64 && us[k + 1] < TWO_TO_64 && i == k * 8
    ensures var r := ReadAt(file, off + i, 16);
      r.Ok? && |r.value| == 16 && UnLe(r.value[0..8]) == us[k] && UnLe(r.value[8..16]) == us[k + 1]
  {
    hide *;
    TwoWordBytes(us, k, i);
    var a, b := Le(us[k], 8), Le(us[k + 1], 8);
    ReadPart(file, off, Words(us, 8), i, a + b);
    Halves(a, b);
    LeWord(us[k]);
    LeWord(us[k + 1]);
  }

  lemma Halves(a: seq<byte>, b: seq<byte>)
    requires |a| == |b| == 8
    ensures (a + b)[0..8] == a && (a + b)[8..16] == b
  {
  }

  lemma WordBytes(us: seq<nat>, k: nat, i: nat)
    requires k < |us| && i == k * 8
    ensures i + 8 <= |Words(us, 8)| && Words(us, 8)[i..i + 8] == Le(us[k], 8)
  {
    hide *;
    var lo, hi := 8 * k, 8 * k + 8;
    WordAt(us, 8, k);
    assert lo == i && hi == i + 8;
  }

  lemma TwoWordBytes(us: seq<nat>, k: nat, i: nat)
    requires k + 1 < |us| && i == k * 8
    ensures i + 16 <= |Words(us, 8)| && Words(us, 8)[i..i + 16] == Le(us[k], 8) + Le(us[k + 1], 8)
  {
    hide *;
    WordBytes(us, k, i);
    WordBytes(us, k + 1, i + 8);
    JoinSlices(Words(us, 8), i, i + 8, i + 16);
  }

  lemma JoinSlices<A>(b: seq<A>, i: nat, j: nat, k: nat)
    requires i <= j <= k <= |b|
    ensures b[i..k] == b[i..j] + b[j..k]
  {
  }

  lemma ReadPart(file: seq<byte>, off: int, b: seq<byte>, i: nat, part: seq<byte>)
    requires At(file, off, b) && i + |part| <= |b| && b[i..i + |part|] == part
    ensures ReadAt(file, off + i, |part|) == Ok(part)
  {
    AtSlice(file, off, b, i, i + |part|);
    assert i + |part| - i == |part|;
  }

  /** What a payload reads back as. */
  function ReadBack<V>(codec: Codec<V>, blob: seq<byte>): Result<V> {
    if blob == [] then Ok(codec.zero) else codec.unmarshal(blob)
  }

  /** `readPointData` finds the blob of the point with that original index. */
  lemma ReadPointDataBack<V>(d: Disk, rows: seq<Item>, nodeSize: int, blobs: seq<seq<byte>>, fc: FloatCodec, codec: Codec<V>, i: nat)
    requires Holds(d, rows, nodeSize, blobs, fc) && i < |blobs|
    ensures ReadPointData(d, codec, i) == ReadBack(codec, blobs[i])
  {
    hide Words, Le, UnLe, ReadAt, At, Offsets, Concat, IdxWords, CoordWords, ToWord, FromWord, Exactly;
    var us := Offsets(blobs);
    OffsetsAre(blobs, i);
    OffsetsAre(blobs, i + 1);
    ConcatSlice(blobs, i);
    ReadTwoWords(d.file, d.dataOffsetsOff, us, i, i * 8);
    FromSmall(us[i]);
    FromSmall(us[i + 1]);
    AtSlice(d.file, d.dataBlobsOff, Concat(blobs), us[i], us[i + 1]);
  }

  lemma FromSmall(u: nat)
    requires u < TWO_TO_63
    ensures FromWord(u) == u
  {
  }

  /** Word k of a buffer. */
  function WordIn(b: seq<byte>, k: nat): nat
    requires k * 8 + 8 <= |b|
  {
    UnLe(b[k * 8..k * 8 + 8])
  }

  /** `readLeaf`: rows left..right by two batch reads. */
  method ReadLeaf(d: Disk, fc: FloatCodec, left: int, right: int) returns (r: Result<(seq<int>, seq<real>)>)
    requires left <= right + 1
    ensures r.Ok? ==> |r.value.0| == right - left + 1 && |r.value.1| == 2 * (right - left + 1)
    ensures r == LeafOf(d, fc, left, right)
  {
    var count := right - left + 1;
    if count <= 0 {
      return Ok(([], []));
    }
    var ibuf :- ReadAt(d.file, d.idxsOffset + left * 8, count * 8);
    var idxs := [];
    for i := 0 to count
      invariant idxs == seq(i, k requires 0 <= k < i => FromWord(WordIn(ibuf, k)))
    {
      idxs := idxs + [FromWord(WordIn(ibuf, i))];
    }
    var cbuf :- ReadAt(d.file, d.coordsOffset + left * 16, count * 16);
    var coords := [];
    for i := 0 to count * 2
      invariant coords == seq(i, k requires 0 <= k < i => fc.fromBits(WordIn(cbuf, k)))
    {
      coords := coords + [fc.fromBits(WordIn(cbuf, i))];
    }
    return Ok((idxs, coords));
  }

  /** The batches `readLeaf` decodes. */
  function LeafOf(d: Disk, fc: FloatCodec, left: int, right: int): Result<(seq<int>, seq<real>)>
    requires left <= right + 1
  {
    var count := right - left + 1;
    if count == 0 then Ok(([], [])) else
    var ibuf :- ReadAt(d.file, d.idxsOffset + left * 8, count * 8);
    var cbuf :- ReadAt(d.file, d.coordsOffset + left * 16, count * 16);
    Ok((seq(count, k requires 0 <= k < count => FromWord(WordIn(ibuf, k))),
        seq(2 * count, k requires 0 <= k < 2 * count => fc.fromBits(WordIn(cbuf, k)))))
  }
}
