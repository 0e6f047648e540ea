/** `BuildDisk` of kdbush/kdbush_disk.go: sorting, marshalling and the chunked and buffered
    writers, proved to write one image whatever the sink does. */
module DiskBuild {
  import opened Seqs
  import opened Bytes
  import opened Blobs
  import opened KDTree
  import opened KDQuery
  import opened Sampling
  import opened Select
  import opened Bush
  import opened DiskFormat

  const CHUNK := 4096
  const FLUSH_AT := 64 * 1024

  /** `diskWriteInts`, `diskWriteFloat64s` and `diskWriteInt64s`: words in chunks, through one
      reused buffer. */
  method WriteWords(w: Writer, us: seq<nat>) returns (written: int, ok: bool)
    modifies w
    ensures Wrote(old(w.out), w.out, Words(us, 8), written, ok)
  {
    hide Wrote, Words, ChunksDone;
    written, ok := 0, true;
    ghost var b0 := w.out;
    ChunksStart(b0, us);
    if |us| == 0 {
      return;
    }
    var chunkLen: nat := if |us| <= CHUNK then |us| else CHUNK;
    var buf := new byte[chunkLen * 8];
    var i: nat := 0;
    while i < |us|
      invariant i <= |us| && ok && fresh(buf) && buf.Length == chunkLen * 8
      invariant ChunksDone(b0, w.out, us, i, written)
      decreases |us| - i
    {
      var n: nat := if |us| - i <= CHUNK then |us| - i else CHUNK;
      var chunk := us[i..i + n];
      ghost var b1 := w.out;
      var nn;
      nn, ok := WriteChunk(w, buf, chunk, chunkLen);
      ChunkNext(b0, b1, w.out, us, i, n, chunk, written, nn, ok);
      written := written + nn;
      if !ok {
        return;
      }
      i := i + n;
    }
    ChunksEnd(b0, w.out, us, i, written);
  }

  /** The first i words have been written. */
  ghost predicate ChunksDone(b0: seq<byte>, b1: seq<byte>, us: seq<nat>, i: nat, written: int) {
    i <= |us| && Wrote(b0, b1, Words(us[..i], 8), written, true)
  }

  lemma ChunksStart(b0: seq<byte>, us: seq<nat>)
    ensures ChunksDone(b0, b0, us, 0, 0)
    ensures us == [] ==> Wrote(b0, b0, Words(us, 8), 0, true)
  {
  }

  lemma ChunksEnd(b0: seq<byte>, b1: seq<byte>, us: seq<nat>, i: nat, written: int)
    requires ChunksDone(b0, b1, us, i, written) && i >= |us|
    ensures Wrote(b0, b1, Words(us, 8), written, true)
  {
    hide Wrote, Words;
    assert us[..i] == us;
  }

  method WriteChunk(w: Writer, buf: array<byte>, chunk: seq<nat>, ghost cap: nat) returns (nn: int, ok: bool)
    requires buf.Length == cap * 8 && |chunk| <= cap
    modifies w, buf
    ensures Wrote(old(w.out), w.out, Words(chunk, 8), nn, ok)
  {
    hide *;
    var size := FillBuffer(buf, chunk);
    ghost var b1 := w.out;
    nn, ok := w.Write(buf[..size]);
    WroteIs(b1, w.out, Words(chunk, 8), nn, ok);
  }

  /** One chunk goes out: the words up to it are written, or writing has ended within it. */
  lemma ChunkNext(b0: seq<byte>, b1: seq<byte>, b2: seq<byte>, us: seq<nat>, i: nat, n: nat, chunk: seq<nat>, written: int, nn: int, ok: bool)
    requires ChunksDone(b0, b1, us, i, written) && i + n <= |us| && chunk == us[i..i + n]
    requires Wrote(b1, b2, Words(chunk, 8), nn, ok)
    ensures if ok then ChunksDone(b0, b2, us, i + n, written + nn) else Wrote(b0, b2, Words(us, 8), written + nn, false)
  {
    hide Wrote, Words;
    var a, q := us[..i], us[i + n..];
    assert a + chunk == us[..i + n];
    WordsConcat(a, chunk, 8);
    WroteNext(b0, b1, b2, Words(a, 8), Words(chunk, 8), written, nn, ok);
    if !ok {
      assert us[..i + n] + q == us;
      WordsConcat(us[..i + n], q, 8);
      WroteStop(b0, b2, Words(us[..i + n], 8), Words(q, 8), written + nn);
    }
  }

  /** The words of one chunk into the front of the buffer. */
  method FillBuffer(buf: array<byte>, us: seq<nat>) returns (at: nat)
    requires |us| * 8 <= buf.Length
    modifies buf
    ensures at == |us| * 8 && buf[..at] == Words(us, 8)
  {
    hide *;
    NoWords(8);
    at := 0;
    assert us[..0] == [];
    for j := 0 to |us|
      invariant at == j * 8 && at <= buf.Length && buf[..at] == Words(us[..j], 8)
    {
      ghost var front := buf[..at];
      Put(buf, at, us[j], 8);
      WordsAppend(us[..j], us[j], 8);
      assert us[..j + 1] == us[..j] + [us[j]];
      FrontGrows(buf[..], front, at, at + 8);
      at := at + 8;
    }
    assert us[..|us|] == us;
  }

  lemma FrontGrows(b: seq<byte>, front: seq<byte>, i: nat, j: nat)
    requires i <= j <= |b| && b[..i] == front
    ensures b[..j] == front + b[i..j]
  {
  }

  lemma WroteIs(b1: seq<byte>, b2: seq<byte>, p: seq<byte>, n: nat, ok: bool)
    requires n <= |p| && b2 == b1 + p[..n] && (ok <==> n == |p|)
    ensures Wrote(b1, b2, p, n, ok)
  {
  }

  /** `diskWriteBlobs`: blobs are gathered and flushed once the buffer is big enough. */
  method WriteBlobs(w: Writer, blobs: seq<seq<byte>>) returns (written: int, ok: bool)
    modifies w
    ensures Wrote(old(w.out), w.out, Concat(blobs), written, ok)
  {
    hide *;
    written, ok := 0, true;
    ghost var b0 := w.out;
    ghost var flushed: seq<byte> := [];
    var buf: seq<byte> := [];
    WroteNothing(b0);
    NoBlobs();
    assert blobs[..0] == [];
    for i := 0 to |blobs|
      invariant ok && Wrote(b0, w.out, flushed, written, true)
      invariant flushed + buf == Concat(blobs[..i])
    {
      ConcatAppend(blobs[..i], blobs[i]);
      assert blobs[..i] + [blobs[i]] == blobs[..i + 1];
      assert flushed + (buf + blobs[i]) == flushed + buf + blobs[i];
      buf := buf + blobs[i];
      if |buf| >= FLUSH_AT {
        ghost var b1 := w.out;
        var nn;
        nn, ok := w.Write(buf);
        WroteIs(b1, w.out, buf, nn, ok);
        WroteNext(b0, b1, w.out, flushed, buf, written, nn, ok);
        written := written + nn;
        flushed := flushed + buf;
        if !ok {
          ConcatConcat(blobs[..i + 1], blobs[i + 1..]);
          assert blobs[..i + 1] + blobs[i + 1..] == blobs;
          WroteStop(b0, w.out, flushed, Concat(blobs[i + 1..]), written);
          return;
        }
        buf := [];
        assert flushed + buf == flushed;
      }
    }
    assert blobs[..|blobs|] == blobs;
    if |buf| > 0 {
      ghost var b1 := w.out;
      var nn;
      nn, ok := w.Write(buf);
      WroteIs(b1, w.out, buf, nn, ok);
      WroteNext(b0, b1, w.out, flushed, buf, written, nn, ok);
      written := written + nn;
    } else {
      assert flushed + buf == flushed;
    }
  }

  /** Every point's payload, marshalled, in original order; or the error of the first that fails. */
  function BlobsOf<V>(points: seq<Point<V>>, codec: Codec<V>): (r: Result<seq<seq<byte>>>)
    ensures r.Ok? ==> |r.value| == |points|
    ensures r.Ok? ==> forall i :: 0 <= i < |points| ==> codec.marshal(points[i].data) == Ok(r.value[i])
  {
    if points == [] then Ok([]) else
    var rest :- BlobsOf(points[..|points| - 1], codec);
    var b :- codec.marshal(points[|points| - 1].data);
    Ok(rest + [b])
  }

  lemma {:induction false} BlobsFail<V>(points: seq<Point<V>>, codec: Codec<V>, i: nat)
    requires i < |points| && codec.marshal(points[i].data).Err?
    ensures BlobsOf(points, codec).Err?
  {
    if i < |points| - 1 {
      BlobsFail(points[..|points| - 1], codec, i);
    }
  }

  lemma BlobsNext<V>(points: seq<Point<V>>, codec: Codec<V>, i: nat)
    requires i < |points| && BlobsOf(points[..i], codec).Ok? && codec.marshal(points[i].data).Ok?
    ensures BlobsOf(points[..i + 1], codec) == Ok(BlobsOf(points[..i], codec).value + [codec.marshal(points[i].data).value])
  {
    assert points[..i + 1][..i] == points[..i];
  }

  /** The marshalling loop, with the running offset. */
  method MarshalAll<V>(points: seq<Point<V>>, codec: Codec<V>) returns (ok: bool, blobs: seq<seq<byte>>, offsets: seq<nat>)
    ensures ok <==> BlobsOf(points, codec).Ok?
    ensures ok ==> blobs == BlobsOf(points, codec).value && offsets == Offsets(blobs)
  {
    blobs, offsets := [], [];
    var cumOffset := 0;
    for i := 0 to |points|
      invariant BlobsOf(points[..i], codec) == Ok(blobs)
      invariant cumOffset == |Concat(blobs)| && offsets + [cumOffset] == Offsets(blobs)
    {
      var data := codec.marshal(points[i].data);
      if data.Err? {
        BlobsFail(points, codec, i);
        return false, [], [];
      }
      BlobsNext(points, codec, i);
      OffsetsAppend(blobs, data.value);
      blobs := blobs + [data.value];
      offsets := offsets + [cumOffset];
      cumOffset := cumOffset + |data.value|;
    }
    assert points[..|points|] == points;
    offsets := offsets + [cumOffset];
    ok := true;
  }

  /** `BuildDisk`. A payload that cannot be marshalled stops it before anything is written;
      otherwise the image of the sorted rows goes out, as far as the sink takes it. */
  method BuildDisk<V>(points: seq<Point<V>>, nodeSize: int, w: Writer, est: Sampler, fc: FloatCodec, codec: Codec<V>)
    returns (written: int, ok: bool)
    requires -1 <= nodeSize && SoundSampler(est)
    modifies w
    ensures var blobs := BlobsOf(points, codec);
      if blobs.Err? then !ok && written == 0 && w.out == old(w.out)
      else Wrote(old(w.out), w.out, Image(TreeRows(points, nodeSize, est), nodeSize, blobs.value, fc), written, ok)
    ensures Tree(TreeRows(points, nodeSize, est), nodeSize) && Indexed(TreeRows(points, nodeSize, est), points)
  {
    hide *;
    ghost var b0 := w.out;
    var idxs, coords := BuildArrays(points, nodeSize, est);
    ghost var rows := Rows(idxs, coords);
    assert |rows| == |points|;
    var marshalled, blobs, offsets := MarshalAll(points, codec);
    if !marshalled {
      return 0, false;
    }
    var idxWords := seq(idxs.Length, i requires 0 <= i < idxs.Length reads idxs => ToWord(idxs[i]));
    var coordWords := seq(coords.Length, i requires 0 <= i < coords.Length reads coords => fc.bits(coords[i]));
    ArrayWords(idxs, coords, fc, idxWords, coordWords);
    written, ok := WriteSections(w, Header(nodeSize, |points|), idxWords, coordWords, offsets, blobs);
    ImageIs(rows, nodeSize, blobs, fc);
  }

  lemma ImageIs(rows: seq<Item>, nodeSize: int, blobs: seq<seq<byte>>, fc: FloatCodec)
    ensures Image(rows, nodeSize, blobs, fc)
         == Header(nodeSize, |rows|) + (Words(IdxWords(rows), 8) + (Words(CoordWords(rows, fc), 8) + (Words(Offsets(blobs), 8) + Concat(blobs))))
  {
  }

  lemma ArrayWords(idxs: array<int>, coords: array<real>, fc: FloatCodec, idxWords: seq<nat>, coordWords: seq<nat>)
    requires coords.Length == 2 * idxs.Length && |idxWords| == idxs.Length && |coordWords| == coords.Length
    requires forall i :: 0 <= i < idxs.Length ==> idxWords[i] == ToWord(idxs[i])
    requires forall i :: 0 <= i < coords.Length ==> coordWords[i] == fc.bits(coords[i])
    ensures idxWords == IdxWords(Rows(idxs, coords)) && coordWords == CoordWords(Rows(idxs, coords), fc)
  {
    var rows := Rows(idxs, coords);
    var us := CoordWords(rows, fc);
    forall i | 0 <= i < coords.Length ensures coordWords[i] == us[i] {
      var k := i / 2;
      assert rows[k] == Item(idxs[k], coords[2 * k], coords[2 * k + 1]);
      assert us[2 * k] == fc.bits(rows[k].x) && us[2 * k + 1] == fc.bits(rows[k].y);
    }
  }

  /** The five sections, one after the other; the first that cannot be written ends it. */
  method WriteSections(w: Writer, header: seq<byte>, idxWords: seq<nat>, coordWords: seq<nat>, offsets: seq<nat>, blobs: seq<seq<byte>>)
    returns (written: int, ok: bool)
    modifies w
    ensures Wrote(old(w.out), w.out,
                  header + (Words(idxWords, 8) + (Words(coordWords, 8) + (Words(offsets, 8) + Concat(blobs)))), written, ok)
  {
    hide *;
    ghost var b0 := w.out;
    ghost var a, b, c, d := Words(idxWords, 8), Words(coordWords, 8), Words(offsets, 8), Concat(blobs);
    var nn;
    nn, ok := w.Write(header);
    WroteIs(b0, w.out, header, nn, ok);
    written := nn;
    if !ok {
      WroteStop(b0, w.out, header, a + (b + (c + d)), written);
      return;
    }
    ghost var b1 := w.out;
    var n64;
    n64, ok := WriteWords(w, idxWords);
    WroteNext(b0, b1, w.out, header, a, written, n64, ok);
    written := written + n64;
    assert header + a + (b + (c + d)) == header + (a + (b + (c + d)));
    if !ok {
      WroteStop(b0, w.out, header + a, b + (c + d), written);
      return;
    }
    b1 := w.out;
    n64, ok := WriteWords(w, coordWords);
    WroteNext(b0, b1, w.out, header + a, b, written, n64, ok);
    written := written + n64;
    assert header + a + b + (c + d) == header + a + (b + (c + d));
    if !ok {
      WroteStop(b0, w.out, header + a + b, c + d, written);
      return;
    }
    b1 := w.out;
    n64, ok := WriteWords(w, offsets);
    WroteNext(b0, b1, w.out, header + a + b, c, written, n64, ok);
    written := written + n64;
    assert header + a + b + c + d == header + a + b + (c + d);
    if !ok {
      WroteStop(b0, w.out, header + a + b + c, d, written);
      return;
    }
    b1 := w.out;
    n64, ok := WriteBlobs(w, blobs);
    WroteNext(b0, b1, w.out, header + a + b + c, d, written, n64, ok);
    written := written + n64;
  }
}
