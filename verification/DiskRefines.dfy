/** The disk index refines the in-memory index: built from the same points with the same node
    size, both report the same points in the same order, early stops included. */
module DiskRefines {
  import opened Seqs
  import opened Bytes
  import opened Blobs
  import opened KDTree
  import opened KDQuery
  import opened Sampling
  import opened Bush
  import opened DiskFormat
  import opened DiskBuild
  import opened DiskQuery

  /** Every payload survives marshalling and reading back. */
  ghost predicate PayloadsSurvive<V>(points: seq<Point<V>>, codec: Codec<V>) {
    forall i :: 0 <= i < |points| ==>
      var b := codec.marshal(points[i].data);
      b.Ok? && ReadBack(codec, b.value) == Ok(points[i].data)
  }

  ghost predicate CoordsSurvive<V>(points: seq<Point<V>>, fc: FloatCodec) {
    forall i :: 0 <= i < |points| ==> Exactly(fc, points[i].x) && Exactly(fc, points[i].y)
  }

  /** Sizes stay within the 64-bit fields of the format. */
  ghost predicate SizesFit<V>(points: seq<Point<V>>, nodeSize: int, codec: Codec<V>) {
    && |points| < TWO_TO_63 && nodeSize < TWO_TO_63
    && (BlobsOf(points, codec).Ok? ==> |Concat(BlobsOf(points, codec).value)| < TWO_TO_63)
  }

  lemma {:induction false} AllMarshal<V>(points: seq<Point<V>>, codec: Codec<V>)
    requires forall i :: 0 <= i < |points| ==> codec.marshal(points[i].data).Ok?
    ensures BlobsOf(points, codec).Ok?
  {
    if points != [] {
      AllMarshal(points[..|points| - 1], codec);
    }
  }

  /** An image of the sorted rows, anywhere in a file, opens to a handle that stores the points. */
  lemma BuiltIsStored<V>(points: seq<Point<V>>, rows: seq<Item>, nodeSize: int, fc: FloatCodec, codec: Codec<V>, file: seq<byte>, off: int)
    requires -1 <= nodeSize && Indexed(rows, points)
    requires PayloadsSurvive(points, codec) && CoordsSurvive(points, fc) && SizesFit(points, nodeSize, codec)
    requires BlobsOf(points, codec).Ok? && At(file, off, Image(rows, nodeSize, BlobsOf(points, codec).value, fc))
    ensures OpenDisk(file, off).Ok?
    ensures var d := OpenDisk(file, off).value;
      && d.file == file && d.nodeSize == nodeSize && d.numPoints == |points|
      && Stored(d, rows, points, BlobsOf(points, codec).value, fc, codec)
  {
    var blobs := BlobsOf(points, codec).value;
    SameSize(rows, Initial(points));
    forall p | 0 <= p < |rows|
      ensures -TWO_TO_63 <= rows[p].idx < TWO_TO_63 && Exactly(fc, rows[p].x) && Exactly(fc, rows[p].y)
    {
      RowIsPoint(rows, points, p);
    }
    assert Fits(rows, blobs, fc);
    forall i | 0 <= i < |points| ensures ReadBack(codec, blobs[i]) == Ok(points[i].data) {
      assert codec.marshal(points[i].data) == Ok(blobs[i]);
    }
    hide At, Image, Fits, Exactly, ReadBack, BlobsOf, Indexed, OpenDisk;
    OpenBuilt(file, off, rows, nodeSize, blobs, fc);
  }

  /** Builds both indexes over the same points, the disk one after some other content of a file,
      and asks both the same box. */
  method RangeAgrees<V>(points: seq<Point<V>>, nodeSize: int, est: Sampler, fc: FloatCodec, codec: Codec<V>, w: Writer,
                        minX: real, minY: real, maxX: real, maxY: real)
    returns (ok: bool, inMemory: seq<int>, onDisk: Result<seq<Point<V>>>)
    requires -1 <= nodeSize && SoundSampler(est)
    requires PayloadsSurvive(points, codec) && CoordsSurvive(points, fc) && SizesFit(points, nodeSize, codec)
    modifies w
    ensures BlobsOf(points, codec).Ok?
    ensures ok <==> w.out == old(w.out) + Image(TreeRows(points, nodeSize, est), nodeSize, BlobsOf(points, codec).value, fc)
    ensures ok ==> ReportsExactly(inMemory, points, Box(minX, minY, maxX, maxY)) && NoDuplicates(inMemory)
    ensures ok ==> forall i :: i in inMemory <==> 0 <= i < |points| && minX <= points[i].x <= maxX && minY <= points[i].y <= maxY
    ensures ok ==> InRange(inMemory, |points|) && onDisk == Ok(Pick(points, inMemory))
  {
    hide *;
    ghost var rows;
    var d;
    ok, d, rows := BuildAndOpen(points, nodeSize, est, fc, codec, w);
    if !ok {
      return false, [], Err;
    }
    var bush := new KDBush(points, nodeSize, est);
    inMemory := bush.Range(minX, minY, maxX, maxY);
    onDisk := Range(d, fc, codec, minX, minY, maxX, maxY, rows, points, BlobsOf(points, codec).value);
  }

  /** The same for a disc: the same handler is given the same points. */
  method WithinAgrees<V>(points: seq<Point<V>>, nodeSize: int, est: Sampler, fc: FloatCodec, codec: Codec<V>, w: Writer,
                         qx: real, qy: real, radius: real, h: Handler<V>)
    returns (ok: bool, inMemory: seq<Point<V>>, onDisk: seq<Point<V>>)
    requires -1 <= nodeSize && SoundSampler(est)
    requires PayloadsSurvive(points, codec) && CoordsSurvive(points, fc) && SizesFit(points, nodeSize, codec)
    modifies w
    ensures BlobsOf(points, codec).Ok?
    ensures ok <==> w.out == old(w.out) + Image(TreeRows(points, nodeSize, est), nodeSize, BlobsOf(points, codec).value, fc)
    ensures ok ==>
      var order := Order(TreeRows(points, nodeSize, est), nodeSize, Disc(qx, qy, radius));
      && InRange(order, |points|) && Delivered(h, Pick(points, order), inMemory) && inMemory == onDisk
      && (radius >= 0.0 ==> NoDuplicates(order) && forall i :: i in order <==>
           0 <= i < |points| && (points[i].x - qx) * (points[i].x - qx) + (points[i].y - qy) * (points[i].y - qy) <= radius * radius)
  {
    hide *;
    ghost var rows;
    var d;
    ok, d, rows := BuildAndOpen(points, nodeSize, est, fc, codec, w);
    if !ok {
      return false, [], [];
    }
    var bush := new KDBush(points, nodeSize, est);
    inMemory := bush.Within(qx, qy, radius, h);
    var read;
    read, onDisk := Within(d, fc, codec, qx, qy, radius, h, rows, points, BlobsOf(points, codec).value);
    DeliveredUnique(h, Pick(points, Order(rows, nodeSize, Disc(qx, qy, radius))), inMemory, onDisk);
  }

  /** Writing fails only when the sink is full; a complete file opens to the stored points. */
  method BuildAndOpen<V>(points: seq<Point<V>>, nodeSize: int, est: Sampler, fc: FloatCodec, codec: Codec<V>, w: Writer)
    returns (ok: bool, d: Disk, ghost rows: seq<Item>)
    requires -1 <= nodeSize && SoundSampler(est)
    requires PayloadsSurvive(points, codec) && CoordsSurvive(points, fc) && SizesFit(points, nodeSize, codec)
    modifies w
    ensures BlobsOf(points, codec).Ok?
    ensures ok <==> w.out == old(w.out) + Image(TreeRows(points, nodeSize, est), nodeSize, BlobsOf(points, codec).value, fc)
    ensures rows == TreeRows(points, nodeSize, est)
    ensures ok ==> Stored(d, rows, points, BlobsOf(points, codec).value, fc, codec)
    ensures ok ==> d.nodeSize == nodeSize && d.numPoints == |points|
  {
    hide *;
    rows := TreeRows(points, nodeSize, est);
    SurvivorsMarshal(points, codec);
    var off := |w.out|;
    ghost var before := w.out;
    var written;
    written, ok := BuildDisk(points, nodeSize, w, est, fc, codec);
    d := Disk([], 0, 0, 0, 0, 0, 0);
    WroteAll(before, w.out, Image(rows, nodeSize, BlobsOf(points, codec).value, fc), written, ok);
    if ok {
      BuiltIsStored(points, rows, nodeSize, fc, codec, w.out, off);
      d := OpenDisk(w.out, off).value;
    }
  }

  lemma SurvivorsMarshal<V>(points: seq<Point<V>>, codec: Codec<V>)
    requires PayloadsSurvive(points, codec)
    ensures BlobsOf(points, codec).Ok?
  {
    hide BlobsOf;
    AllMarshal(points, codec);
  }

  lemma WroteAll(before: seq<byte>, after: seq<byte>, image: seq<byte>, written: int, ok: bool)
    requires Wrote(before, after, image, written, ok)
    ensures ok <==> after == before + image
    ensures ok ==> At(after, |before|, image)
  {
    assert image[..|image|] == image;
    if !ok {
      assert |after| < |before + image|;
    }
  }
}
