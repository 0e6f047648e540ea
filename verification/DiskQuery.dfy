/** The queries of kdbush/kdbush_disk.go. They run on any handle; on one that holds a tree they
    give the same points in the same order as the in-memory queries on the same rows. */
module DiskQuery {
  import opened Seqs
  import opened Bytes
  import opened KDTree
  import opened KDQuery
  import opened Bush
  import opened DiskFormat

  /** The handle holds rows that index these points, and every payload reads back. */
  ghost predicate Stored<V>(d: Disk, rows: seq<Item>, points: seq<Point<V>>, blobs: seq<seq<byte>>, fc: FloatCodec, codec: Codec<V>) {
    && -1 <= d.nodeSize && Holds(d, rows, d.nodeSize, blobs, fc) && Indexed(rows, points)
    && |points| == |rows|
    && forall i :: 0 <= i < |points| ==> ReadBack(codec, blobs[i]) == Ok(points[i].data)
  }

  lemma StoredHolds<V>(d: Disk, rows: seq<Item>, points: seq<Point<V>>, blobs: seq<seq<byte>>, fc: FloatCodec, codec: Codec<V>)
    requires Stored(d, rows, points, blobs, fc, codec)
    ensures -1 <= d.nodeSize && Holds(d, rows, d.nodeSize, blobs, fc) && d.numPoints == |rows| == |points| == |blobs|
    ensures Indexed(rows, points) && Fits(rows, blobs, fc)
  {
  }

  // ---------------------------------------------------------------------------
  // Reading rows

  /** The rows a leaf read yields. */
  function LeafRows(leaf: (seq<int>, seq<real>)): (s: seq<Item>)
    requires |leaf.1| == 2 * |leaf.0|
    ensures |s| == |leaf.0|
    ensures forall k :: 0 <= k < |s| ==> s[k] == Item(leaf.0[k], leaf.1[2 * k], leaf.1[2 * k + 1])
  {
    seq(|leaf.0|, k requires 0 <= k < |leaf.0| => Item(leaf.0[k], leaf.1[2 * k], leaf.1[2 * k + 1]))
  }

  /** Reading n words, from word k of a run on. */
  lemma ReadRun(file: seq<byte>, off: int, us: seq<nat>, k: nat, n: nat, i: nat, size: nat, all: seq<byte>, part: seq<byte>)
    requires k + n <= |us| && i == k * 8 && size == n * 8 && all == Words(us, 8) && part == Words(us[k..k + n], 8)
    requires At(file, off, all)
    ensures ReadAt(file, off + i, size) == Ok(part)
  {
    hide *;
    RunBytes(us, k, n, i, size);
    ReadPart(file, off, all, i, part);
  }

  lemma RunBytes(us: seq<nat>, k: nat, n: nat, i: nat, size: nat)
    requires k + n <= |us| && i == k * 8 && size == n * 8
    ensures |Words(us[k..k + n], 8)| == size
    ensures i + size <= |Words(us, 8)| && Words(us, 8)[i..i + size] == Words(us[k..k + n], 8)
  {
    hide Words;
    var lo, hi := 8 * k, 8 * (k + n);
    WordsSlice(us, 8, k, k + n);
    assert lo == i && hi == i + size;
  }

  /** Word j of the bytes of words is word j. */
  lemma WordInWords(us: seq<nat>, j: nat)
    requires j < |us| && us[j] < TWO_TO_64
    ensures j * 8 + 8 <= |Words(us, 8)| && WordIn(Words(us, 8), j) == us[j]
  {
    hide UnLe, Words, Le;
    WordBytes(us, j, j * 8);
    LeWord(us[j]);
  }

  /** `readLeaf` reads back the rows left..right. */
  lemma LeafBack(d: Disk, rows: seq<Item>, nodeSize: int, blobs: seq<seq<byte>>, fc: FloatCodec, left: nat, right: int)
    requires Holds(d, rows, nodeSize, blobs, fc) && left <= right + 1 <= |rows|
    ensures var leaf := LeafOf(d, fc, left, right);
      leaf.Ok? && |leaf.value.1| == 2 * |leaf.value.0| && LeafRows(leaf.value) == rows[left..right + 1]
  {
    if right + 1 == left {
      LeafNone(d, fc, rows, left, right);
    } else {
      hide *;
      var count := right - left + 1;
      var us, vs := IdxWords(rows)[left..left + count], CoordWords(rows, fc)[2 * left..2 * left + 2 * count];
      LeafReads(d, rows, nodeSize, blobs, fc, left, count);
      LeafIs(d, fc, left, right, Words(us, 8), Words(vs, 8));
      LeafDecoded(rows, fc, left, count, LeafOf(d, fc, left, right).value, Words(us, 8), Words(vs, 8));
    }
  }

  /** What was decoded from the bytes of the rows are the rows. */
  lemma LeafDecoded(rows: seq<Item>, fc: FloatCodec, left: nat, count: nat, leaf: (seq<int>, seq<real>), ib: seq<byte>, cb: seq<byte>)
    requires left + count <= |rows| && |leaf.0| == count && |leaf.1| == 2 * count && |ib| == count * 8 && |cb| == count * 16
    requires ib == Words(IdxWords(rows)[left..left + count], 8)
    requires cb == Words(CoordWords(rows, fc)[2 * left..2 * left + 2 * count], 8)
    requires forall k :: 0 <= k < count ==> leaf.0[k] == FromWord(WordIn(ib, k))
    requires forall k :: 0 <= k < 2 * count ==> leaf.1[k] == fc.fromBits(WordIn(cb, k))
    requires forall p :: 0 <= p < |rows| ==> -TWO_TO_63 <= rows[p].idx < TWO_TO_63 && Exactly(fc, rows[p].x) && Exactly(fc, rows[p].y)
    ensures LeafRows(leaf) == rows[left..left + count]
  {
    hide *;
    forall k | 0 <= k < count ensures LeafRows(leaf)[k] == rows[left + k] {
      LeafRowBack(rows, fc, left, count, k);
    }
    SliceIs(rows, left, count, LeafRows(leaf));
  }

  lemma SliceIs<A>(s: seq<A>, left: nat, count: nat, t: seq<A>)
    requires left + count <= |s| && |t| == count && forall k :: 0 <= k < count ==> t[k] == s[left + k]
    ensures t == s[left..left + count]
  {
  }

  lemma LeafNone(d: Disk, fc: FloatCodec, rows: seq<Item>, left: nat, right: int)
    requires right + 1 == left <= |rows|
    ensures var leaf := LeafOf(d, fc, left, right);
      leaf.Ok? && |leaf.value.1| == 2 * |leaf.value.0| && LeafRows(leaf.value) == rows[left..right + 1]
  {
  }

  lemma LeafReads(d: Disk, rows: seq<Item>, nodeSize: int, blobs: seq<seq<byte>>, fc: FloatCodec, left: nat, count: nat)
    requires Holds(d, rows, nodeSize, blobs, fc) && left + count <= |rows|
    ensures ReadAt(d.file, d.idxsOffset + left * 8, count * 8) == Ok(Words(IdxWords(rows)[left..left + count], 8))
    ensures ReadAt(d.file, d.coordsOffset + left * 16, count * 16)
         == Ok(Words(CoordWords(rows, fc)[2 * left..2 * left + 2 * count], 8))
    ensures forall p :: 0 <= p < |rows| ==> -TWO_TO_63 <= rows[p].idx < TWO_TO_63 && Exactly(fc, rows[p].x) && Exactly(fc, rows[p].y)
  {
    hide Words, ReadAt, At, CoordWords, IdxWords;
    ReadRun(d.file, d.idxsOffset, IdxWords(rows), left, count, left * 8, count * 8,
            Words(IdxWords(rows), 8), Words(IdxWords(rows)[left..left + count], 8));
    ReadRun(d.file, d.coordsOffset, CoordWords(rows, fc), 2 * left, 2 * count, left * 16, count * 16,
            Words(CoordWords(rows, fc), 8), Words(CoordWords(rows, fc)[2 * left..2 * left + 2 * count], 8));
  }

  /** What a leaf read decodes, from the bytes it got. */
  lemma LeafIs(d: Disk, fc: FloatCodec, left: int, right: int, ib: seq<byte>, cb: seq<byte>)
    requires left <= right
    requires ReadAt(d.file, d.idxsOffset + left * 8, (right - left + 1) * 8) == Ok(ib) && |ib| == (right - left + 1) * 8
    requires ReadAt(d.file, d.coordsOffset + left * 16, (right - left + 1) * 16) == Ok(cb) && |cb| == (right - left + 1) * 16
    ensures var leaf := LeafOf(d, fc, left, right);
      && leaf.Ok? && |leaf.value.0| == right - left + 1 && |leaf.value.1| == 2 * |leaf.value.0|
      && (forall k :: 0 <= k < |leaf.value.0| ==> leaf.value.0[k] == FromWord(WordIn(ib, k)))
      && (forall k :: 0 <= k < |leaf.value.1| ==> leaf.value.1[k] == fc.fromBits(WordIn(cb, k)))
  {
    hide WordIn, FromWord, ReadAt;
  }

  lemma LeafRowBack(rows: seq<Item>, fc: FloatCodec, left: nat, count: nat, k: nat)
    requires k < count && left + count <= |rows|
    requires var r := rows[left + k]; -TWO_TO_63 <= r.idx < TWO_TO_63 && Exactly(fc, r.x) && Exactly(fc, r.y)
    ensures var us, vs, r := IdxWords(rows)[left..left + count], CoordWords(rows, fc)[2 * left..2 * left + 2 * count], rows[left + k];
      && |Words(us, 8)| == count * 8 && |Words(vs, 8)| == count * 16
      && FromWord(WordIn(Words(us, 8), k)) == r.idx
      && fc.fromBits(WordIn(Words(vs, 8), 2 * k)) == r.x
      && fc.fromBits(WordIn(Words(vs, 8), 2 * k + 1)) == r.y
  {
    var r := rows[left + k];
    hide *;
    IdxRowBack(rows, left, count, k);
    CoordRowBack(rows, fc, left, count, k);
  }

  lemma IdxRowBack(rows: seq<Item>, left: nat, count: nat, k: nat)
    requires k < count && left + count <= |rows| && -TWO_TO_63 <= rows[left + k].idx < TWO_TO_63
    ensures var us := IdxWords(rows)[left..left + count];
      |Words(us, 8)| == count * 8 && FromWord(WordIn(Words(us, 8), k)) == rows[left + k].idx
  {
    var us, idx := IdxWords(rows)[left..left + count], rows[left + k].idx;
    IdxSlice(rows, left, count, k);
    WordRoundTrip(idx);
    hide *;
    WordInWords(us, k);
  }

  lemma IdxSlice(rows: seq<Item>, left: nat, count: nat, k: nat)
    requires k < count && left + count <= |rows|
    ensures IdxWords(rows)[left..left + count][k] == ToWord(rows[left + k].idx)
  {
  }

  lemma CoordRowBack(rows: seq<Item>, fc: FloatCodec, left: nat, count: nat, k: nat)
    requires k < count && left + count <= |rows| && Exactly(fc, rows[left + k].x) && Exactly(fc, rows[left + k].y)
    ensures var vs, r := CoordWords(rows, fc)[2 * left..2 * left + 2 * count], rows[left + k];
      && |Words(vs, 8)| == count * 16
      && fc.fromBits(WordIn(Words(vs, 8), 2 * k)) == r.x && fc.fromBits(WordIn(Words(vs, 8), 2 * k + 1)) == r.y
  {
    var vs := CoordWords(rows, fc)[2 * left..2 * left + 2 * count];
    hide Words, WordIn, CoordWords;
    CoordSlice(rows, fc, left, count, k);
    WordInWords(vs, 2 * k);
    WordInWords(vs, 2 * k + 1);
  }

  lemma CoordSlice(rows: seq<Item>, fc: FloatCodec, left: nat, count: nat, k: nat)
    requires k < count && left + count <= |rows|
    ensures var vs := CoordWords(rows, fc)[2 * left..2 * left + 2 * count];
      vs[2 * k] == fc.bits(rows[left + k].x) && vs[2 * k + 1] == fc.bits(rows[left + k].y)
  {
    hide *;
    var lo, hi, p := 2 * left, 2 * left + 2 * count, 2 * k;
    CoordPair(rows, fc, left + k, lo + p);
    SliceAt(CoordWords(rows, fc), lo, hi, p);
    SliceAt(CoordWords(rows, fc), lo, hi, p + 1);
  }

  lemma CoordPair(rows: seq<Item>, fc: FloatCodec, i: nat, p: nat)
    requires i < |rows| && p == 2 * i
    ensures CoordWords(rows, fc)[p] == fc.bits(rows[i].x) && CoordWords(rows, fc)[p + 1] == fc.bits(rows[i].y)
  {
  }

  lemma SliceAt<A>(s: seq<A>, lo: nat, hi: nat, j: nat)
    requires lo <= hi <= |s| && j < hi - lo
    ensures s[lo..hi][j] == s[lo + j]
  {
  }

  // ---------------------------------------------------------------------------
  // The stack, whatever the file says

  lemma WeightAppend(stack: seq<Frame>, n: nat, f: Frame, go: bool)
    requires Frames(stack, n) && FrameIn(f, n)
    ensures var pushed := stack + If(go, [f]);
      Frames(pushed, n) && Weight(pushed, n) <= 2 * (f.right - f.left + 1) + 1 + Weight(stack, n)
  {
    if go {
      assert (stack + [f])[..|stack|] == stack;
    } else {
      assert stack + [] == stack;
    }
  }

  /** Pushing the halves of a popped slice leaves less work than the slice was. */
  lemma PushShrinks(stack: seq<Frame>, n: nat, q: Query, m: int, x: real, y: real)
    requires Frames(stack, n) && stack != []
    requires var f := stack[|stack| - 1]; f.left <= m <= f.right
    ensures var f, rest := stack[|stack| - 1], stack[..|stack| - 1];
      && 0 <= f.left <= f.right < n
      && Frames(Push(rest, q, f, m, x, y), n) && Weight(Push(rest, q, f, m, x, y), n) < Weight(stack, n)
  {
    var f, rest := stack[|stack| - 1], stack[..|stack| - 1];
    var lf, rf := Frame(f.left, m - 1, 1 - f.axis), Frame(m + 1, f.right, 1 - f.axis);
    assert FrameIn(f, n) && FrameIn(lf, n) && FrameIn(rf, n) && Frames(rest, n);
    assert Weight(stack, n) == 2 * (f.right - f.left + 1) + 1 + Weight(rest, n);
    hide Weight, Frames, FrameIn, GoLeft, GoRight;
    WeightAppend(rest, n, lf, GoLeft(q, f.axis, x, y));
    WeightAppend(rest + If(GoLeft(q, f.axis, x, y), [lf]), n, rf, GoRight(q, f.axis, x, y));
  }

  lemma PopShrinks(stack: seq<Frame>, n: nat)
    requires Frames(stack, n) && stack != []
    ensures var f, rest := stack[|stack| - 1], stack[..|stack| - 1];
      0 <= f.left <= f.right + 1 <= n && Frames(rest, n) && Weight(rest, n) < Weight(stack, n)
  {
    assert FrameIn(stack[|stack| - 1], n);
  }

  lemma StartFrames(n: nat)
    ensures Frames([Frame(0, n - 1, 0)], n)
  {
  }

  /** An empty slice on the stack is skipped; nothing was to come from it. */
  lemma SkipStep(s: seq<Item>, nodeSize: int, q: Query, stack: seq<Frame>, done: seq<int>, order: seq<int>)
    requires OnTrack(s, nodeSize, q, stack, done, order) && stack != []
    requires var f := stack[|stack| - 1]; f.left > f.right
    ensures OnTrack(s, nodeSize, q, stack[..|stack| - 1], done, order)
  {
    var f := stack[|stack| - 1];
    assert FrameIn(f, |s|);
    hide Visit, Pending, Hits;
    LeafStep(s, nodeSize, q, stack, done, order);
    NoRows(s, q, f.left);
    assert done + [] == done;
  }

  lemma EmptyOrder(nodeSize: int, q: Query)
    requires -1 <= nodeSize
    ensures Order([], nodeSize, q) == []
  {
  }

  // ---------------------------------------------------------------------------
  // Range

  /** The matching rows of a leaf. */
  method LeafMatches(d: Disk, fc: FloatCodec, left: int, right: int, q: Query, ghost rows: seq<Item>, ghost blobs: seq<seq<byte>>)
    returns (r: Result<seq<Item>>)
    requires 0 <= left <= right + 1
    ensures Holds(d, rows, d.nodeSize, blobs, fc) && right + 1 <= |rows| ==> r == Ok(Hits(rows[left..right + 1], q))
  {
    hide *;
    if Holds(d, rows, d.nodeSize, blobs, fc) && right + 1 <= |rows| {
      LeafBack(d, rows, d.nodeSize, blobs, fc, left, right);
    }
    var read := ReadLeaf(d, fc, left, right);
    if read.Err? {
      return Err;
    }
    var leaf := read.value;
    ghost var s := LeafRows(leaf);
    var found := [];
    assert s[..0] == [];
    HitsNone(q);
    for i := 0 to right - left + 1
      invariant found == Hits(s[..i], q)
    {
      HitsNext(s, q, i);
      var it := Item(leaf.0[i], leaf.1[2 * i], leaf.1[2 * i + 1]);
      if Match(q, it.x, it.y) {
        found := found + [it];
      }
    }
    assert s[..right - left + 1] == s;
    return Ok(found);
  }

  lemma HitsNext(s: seq<Item>, q: Query, i: nat)
    requires i < |s|
    ensures Hits(s[..i + 1], q) == if Match(q, s[i].x, s[i].y) then Hits(s[..i], q) + [s[i]] else Hits(s[..i], q)
  {
    assert s[..i + 1][..i] == s[..i];
  }

  /** The traversal of `Range`: the rows it matches, or a read error. */
  method Matches(d: Disk, fc: FloatCodec, q: Query, ghost rows: seq<Item>, ghost blobs: seq<seq<byte>>) returns (r: Result<seq<Item>>)
    requires d.numPoints > 0
    ensures Holds(d, rows, d.nodeSize, blobs, fc) && -1 <= d.nodeSize ==>
      r.Ok? && Idxs(r.value) == Order(rows, d.nodeSize, q) && AllIn(r.value, rows)
  {
    hide *;
    ghost var good := Holds(d, rows, d.nodeSize, blobs, fc) && -1 <= d.nodeSize;
    ghost var order := if good then Order(rows, d.nodeSize, q) else [];
    var n := d.numPoints;
    HoldsCount(d, rows, blobs, fc);
    if good {
      StartStack(rows, d.nodeSize, q);
    }
    StartFrames(n);
    NoneFound(rows);
    var matches := [];
    var stack := [Frame(0, n - 1, 0)];
    while |stack| > 0
      invariant Frames(stack, n)
      invariant good ==> OnTrack(rows, d.nodeSize, q, stack, Idxs(matches), order)
      invariant good ==> AllIn(matches, rows)
      decreases Weight(stack, n)
    {
      PopShrinks(stack, n);
      var f := stack[|stack| - 1];
      if f.left > f.right {
        if good {
          SkipStep(rows, d.nodeSize, q, stack, Idxs(matches), order);
        }
        stack := stack[..|stack| - 1];
      } else if f.right - f.left <= d.nodeSize {
        if good {
          LeafStep(rows, d.nodeSize, q, stack, Idxs(matches), order);
          LeafFound(rows, q, f.left, f.right, matches);
        }
        stack := stack[..|stack| - 1];
        var found := LeafMatches(d, fc, f.left, f.right, q, rows, blobs);
        if found.Err? {
          return Err;
        }
        matches := matches + found.value;
      } else {
        var m := Mid(f.left, f.right);
        if good {
          InnerStep(rows, d.nodeSize, q, stack, Idxs(matches), order);
          ReadCoordBack(d, rows, d.nodeSize, blobs, fc, m);
          ReadIdxBack(d, rows, d.nodeSize, blobs, fc, m);
          OneFound(rows, m, matches);
        }
        var c := ReadCoord(d, fc, m);
        if c.Err? {
          return Err;
        }
        var (x, y) := c.value;
        PushShrinks(stack, n, q, m, x, y);
        if Match(q, x, y) {
          var idx := ReadIdx(d, m);
          if idx.Err? {
            return Err;
          }
          matches := matches + [Item(idx.value, x, y)];
        }
        stack := Push(stack[..|stack| - 1], q, f, m, x, y);
      }
    }
    if good {
      EmptyStack(rows, d.nodeSize, q, Idxs(matches), order);
    }
    return Ok(matches);
  }

  lemma HoldsCount(d: Disk, rows: seq<Item>, blobs: seq<seq<byte>>, fc: FloatCodec)
    ensures Holds(d, rows, d.nodeSize, blobs, fc) ==> d.numPoints == |rows|
  {
  }

  ghost predicate AllIn(found: seq<Item>, rows: seq<Item>) {
    forall k :: 0 <= k < |found| ==> found[k] in rows
  }

  lemma NoneFound(rows: seq<Item>)
    ensures Idxs([]) == [] && AllIn([], rows)
  {
  }

  lemma OneFound(rows: seq<Item>, m: nat, found: seq<Item>)
    requires m < |rows|
    ensures Idxs(found + [rows[m]]) == Idxs(found) + [rows[m].idx]
    ensures AllIn(found, rows) ==> AllIn(found + [rows[m]], rows)
  {
  }

  lemma LeafFound(rows: seq<Item>, q: Query, left: int, right: int, found: seq<Item>)
    requires 0 <= left <= right + 1 <= |rows|
    ensures Idxs(found + Hits(rows[left..right + 1], q)) == Idxs(found) + Idxs(Hits(rows[left..right + 1], q))
    ensures AllIn(found, rows) ==> AllIn(found + Hits(rows[left..right + 1], q), rows)
  {
    var hits := Hits(rows[left..right + 1], q);
    forall k | 0 <= k < |hits| ensures hits[k] in rows {
      HitsCount(rows[left..right + 1], q, hits[k]);
      assert hits[k] in multiset(hits);
      assert hits[k] in multiset(rows[left..right + 1]);
      assert hits[k] in rows[left..right + 1];
    }
  }

  /** `Range` on disk: over a tree, the points in the closed box, each once. */
  method Range<V>(d: Disk, fc: FloatCodec, codec: Codec<V>, minX: real, minY: real, maxX: real, maxY: real,
                  ghost rows: seq<Item>, ghost points: seq<Point<V>>, ghost blobs: seq<seq<byte>>)
    returns (r: Result<seq<Point<V>>>)
    requires d.numPoints >= 0
    ensures Stored(d, rows, points, blobs, fc, codec) ==>
      && InRange(Order(rows, d.nodeSize, Box(minX, minY, maxX, maxY)), |points|)
      && r == Ok(Pick(points, Order(rows, d.nodeSize, Box(minX, minY, maxX, maxY))))
    ensures Stored(d, rows, points, blobs, fc, codec) && Tree(rows, d.nodeSize) ==>
      var order := Order(rows, d.nodeSize, Box(minX, minY, maxX, maxY));
      NoDuplicates(order) && forall i :: i in order <==> 0 <= i < |points| && minX <= points[i].x <= maxX && minY <= points[i].y <= maxY
  {
    hide *;
    var q := Box(minX, minY, maxX, maxY);
    ghost var good := Stored(d, rows, points, blobs, fc, codec);
    if good {
      StoredHolds(d, rows, points, blobs, fc, codec);
      OrderInRange(rows, points, d.nodeSize, q);
      if Tree(rows, d.nodeSize) {
        OrderInBox(rows, points, d.nodeSize, minX, minY, maxX, maxY);
      }
    }
    if d.numPoints == 0 {
      if good {
        EmptyOrder(d.nodeSize, q);
        assert rows == [];
        PickNone(points);
      }
      return Ok([]);
    }
    var found := Matches(d, fc, q, rows, blobs);
    if found.Err? {
      return Err;
    }
    var matches := found.value;
    var result := [];
    for i := 0 to |matches|
      invariant |result| == i
      invariant good ==> forall k :: 0 <= k < i ==> PointOf(points, matches[k].idx) == Some(result[k])
    {
      var it := matches[i];
      if good {
        FoundIn(matches, rows, i);
        RowReadsBack(d, rows, points, blobs, fc, codec, it);
      }
      var data := ReadPointData(d, codec, it.idx);
      if data.Err? {
        return Err;
      }
      result := result + [Point(it.x, it.y, data.value)];
    }
    if good {
      PickIs(points, matches, result);
    }
    return Ok(result);
  }

  lemma FoundIn(found: seq<Item>, rows: seq<Item>, i: nat)
    requires AllIn(found, rows) && i < |found|
    ensures found[i] in rows
  {
  }

  function PointOf<V>(points: seq<Point<V>>, idx: int): Option<Point<V>> {
    if 0 <= idx < |points| then Some(points[idx]) else None
  }

  lemma PickNone<V>(points: seq<Point<V>>)
    ensures InRange([], |points|) && Pick(points, []) == []
  {
  }

  lemma PickIs<V>(points: seq<Point<V>>, items: seq<Item>, result: seq<Point<V>>)
    requires |items| == |result| && forall k :: 0 <= k < |items| ==> PointOf(points, items[k].idx) == Some(result[k])
    ensures InRange(Idxs(items), |points|) && result == Pick(points, Idxs(items))
  {
  }

  /** A stored row, with its payload read, is the point it stands for. */
  lemma RowReadsBack<V>(d: Disk, rows: seq<Item>, points: seq<Point<V>>, blobs: seq<seq<byte>>, fc: FloatCodec, codec: Codec<V>, it: Item)
    requires Stored(d, rows, points, blobs, fc, codec) && it in rows
    ensures 0 <= it.idx < |points|
    ensures var data := ReadPointData(d, codec, it.idx);
      data.Ok? && PointOf(points, it.idx) == Some(Point(it.x, it.y, data.value))
  {
    hide Holds, Indexed, ReadBack, ReadPointData;
    var p :| 0 <= p < |rows| && rows[p] == it;
    RowIsPoint(rows, points, p);
    StoredHolds(d, rows, points, blobs, fc, codec);
    ReadPointDataBack(d, rows, d.nodeSize, blobs, fc, codec, it.idx);
  }

  // ---------------------------------------------------------------------------
  // Within

  /** `Within` on disk; not ok means a read error ended it. Over a tree, with a radius that is not
      negative, it hands over the points of the disc, each once, as long as the handler goes on. */
  method Within<V>(d: Disk, fc: FloatCodec, codec: Codec<V>, qx: real, qy: real, radius: real, h: Handler<V>,
                   ghost rows: seq<Item>, ghost points: seq<Point<V>>, ghost blobs: seq<seq<byte>>)
    returns (ok: bool, calls: seq<Point<V>>)
    requires d.numPoints >= 0
    ensures Stored(d, rows, points, blobs, fc, codec) ==>
      && InRange(Order(rows, d.nodeSize, Disc(qx, qy, radius)), |points|)
      && ok && Delivered(h, Pick(points, Order(rows, d.nodeSize, Disc(qx, qy, radius))), calls)
    ensures Stored(d, rows, points, blobs, fc, codec) && Tree(rows, d.nodeSize) && radius >= 0.0 ==>
      var order := Order(rows, d.nodeSize, Disc(qx, qy, radius));
      NoDuplicates(order) && forall i :: i in order <==>
        0 <= i < |points| && (points[i].x - qx) * (points[i].x - qx) + (points[i].y - qy) * (points[i].y - qy) <= radius * radius
  {
    hide *;
    var q := Disc(qx, qy, radius);
    ghost var good := Stored(d, rows, points, blobs, fc, codec);
    ghost var order: seq<int> := [];
    var n := d.numPoints;
    PickNone(points);
    if good {
      StoredHolds(d, rows, points, blobs, fc, codec);
      OrderInRange(rows, points, d.nodeSize, q);
      order := Order(rows, d.nodeSize, q);
      StartStack(rows, d.nodeSize, q);
      if Tree(rows, d.nodeSize) && radius >= 0.0 {
        OrderInDisc(rows, points, d.nodeSize, qx, qy, radius);
      }
    }
    ghost var pts := Pick(points, order);
    GoingStart(h, pts);
    calls := [];
    if n == 0 {
      if good {
        EmptyOrder(d.nodeSize, q);
        assert rows == [];
        GoingEnd(h, pts, calls);
      }
      return true, calls;
    }
    StartFrames(n);
    var stack := [Frame(0, n - 1, 0)];
    ghost var done: seq<int> := [];
    while |stack| > 0
      invariant Frames(stack, n)
      invariant good ==> OnTrack(rows, d.nodeSize, q, stack, done, order)
      invariant good ==> Going(h, pts, calls) && |calls| == |done|
      decreases Weight(stack, n)
    {
      PopShrinks(stack, n);
      var f := stack[|stack| - 1];
      if f.left > f.right {
        if good {
          SkipStep(rows, d.nodeSize, q, stack, done, order);
        }
        stack := stack[..|stack| - 1];
      } else if f.right - f.left <= d.nodeSize {
        ghost var found, rest: seq<int> := [], [];
        if good {
          LeafStep(rows, d.nodeSize, q, stack, done, order);
          found := Idxs(Hits(rows[f.left..f.right + 1], q));
          rest := Idxs(Pending(rows, d.nodeSize, q, stack[..|stack| - 1]));
          TrackTail(rows, d.nodeSize, q, stack[..|stack| - 1], done + found, order);
        }
        stack := stack[..|stack| - 1];
        var go;
        ok, calls, go := LeafWithin(d, fc, codec, f.left, f.right, q, h, calls, rows, points, blobs, order, done, rest);
        if !ok || !go {
          return;
        }
        done := done + found;
      } else {
        var m := Mid(f.left, f.right);
        if good {
          InnerStep(rows, d.nodeSize, q, stack, done, order);
          ReadCoordBack(d, rows, d.nodeSize, blobs, fc, m);
          ReadIdxBack(d, rows, d.nodeSize, blobs, fc, m);
          RowReadsBack(d, rows, points, blobs, fc, codec, rows[m]);
        }
        var c := ReadCoord(d, fc, m);
        if c.Err? {
          return false, calls;
        }
        var (x, y) := c.value;
        PushShrinks(stack, n, q, m, x, y);
        stack := Push(stack[..|stack| - 1], q, f, m, x, y);
        if Match(q, x, y) {
          var idx := ReadIdx(d, m);
          if idx.Err? {
            return false, calls;
          }
          var data := ReadPointData(d, codec, idx.value);
          if data.Err? {
            return false, calls;
          }
          ghost var before := calls;
          calls := calls + [Point(x, y, data.value)];
          if good {
            TrackNext(rows, d.nodeSize, q, stack, done, rows[m].idx, order);
            OfferStep(h, points, order, before, done, rows[m].idx, Point(x, y, data.value));
            done := done + [rows[m].idx];
          }
          if !h(calls) {
            return true, calls;
          }
        }
      }
    }
    if good {
      EmptyStack(rows, d.nodeSize, q, done, order);
      GoingEnd(h, pts, calls);
    }
    return true, calls;
  }

  /** Handing over the next point of the order. */
  lemma OfferStep<V>(h: Handler<V>, points: seq<Point<V>>, order: seq<int>, calls: seq<Point<V>>, done: seq<int>, id: int, p: Point<V>)
    requires InRange(order, |points|) && Going(h, Pick(points, order), calls) && |calls| == |done|
    requires |done| < |order| && order[|done|] == id && PointOf(points, id) == Some(p)
    ensures if h(calls + [p]) then Going(h, Pick(points, order), calls + [p]) else Delivered(h, Pick(points, order), calls + [p])
  {
    NextPick(points, order, |done|);
    GoingStep(h, Pick(points, order), calls);
    hide Going, Delivered;
  }

  /** The points of a leaf, handed over one by one. */
  method LeafWithin<V>(d: Disk, fc: FloatCodec, codec: Codec<V>, left: int, right: int, q: Query, h: Handler<V>, before: seq<Point<V>>,
                       ghost rows: seq<Item>, ghost points: seq<Point<V>>, ghost blobs: seq<seq<byte>>,
                       ghost order: seq<int>, ghost done0: seq<int>, ghost rest: seq<int>)
    returns (ok: bool, calls: seq<Point<V>>, go: bool)
    requires 0 <= left <= right + 1 && InRange(order, |points|)
    ensures Stored(d, rows, points, blobs, fc, codec) && right + 1 <= |rows|
      && order == done0 + Idxs(Hits(rows[left..right + 1], q)) + rest
      && Going(h, Pick(points, order), before) && |before| == |done0|
      ==> ok && (if go then Going(h, Pick(points, order), calls) && |calls| == |done0 + Idxs(Hits(rows[left..right + 1], q))|
                 else Delivered(h, Pick(points, order), calls))
  {
    hide *;
    ghost var pts := Pick(points, order);
    ghost var good := Stored(d, rows, points, blobs, fc, codec) && right + 1 <= |rows|
      && order == done0 + Idxs(Hits(rows[left..right + 1], q)) + rest
      && Going(h, pts, before) && |before| == |done0|;
    ghost var upTo: seq<int> := [];
    if good {
      upTo := done0 + Idxs(Hits(rows[left..right + 1], q));
      StoredHolds(d, rows, points, blobs, fc, codec);
      LeafBack(d, rows, d.nodeSize, blobs, fc, left, right);
    }
    calls, go := before, true;
    var r := ReadLeaf(d, fc, left, right);
    if r.Err? {
      return false, calls, go;
    }
    var leaf := r.value;
    ghost var done := done0;
    for i := 0 to right - left + 1
      invariant good ==> upTo == done + Idxs(Hits(rows[left + i..right + 1], q))
      invariant good ==> Going(h, pts, calls) && |calls| == |done|
    {
      var x, y := leaf.1[2 * i], leaf.1[2 * i + 1];
      if good {
        ghost var it := rows[left + i];
        assert it == rows[left..right + 1][i];
        ScanStep(rows, q, left + i, right, done, upTo);
        RowReadsBack(d, rows, points, blobs, fc, codec, it);
      }
      if Match(q, x, y) {
        var data := ReadPointData(d, codec, leaf.0[i]);
        if data.Err? {
          return false, calls, go;
        }
        ghost var had := calls;
        calls := calls + [Point(x, y, data.value)];
        if good {
          ghost var it := rows[left + i];
          NextInOrder(order, upTo, rest, done, it.idx, Idxs(Hits(rows[left + i + 1..right + 1], q)));
          OfferStep(h, points, order, had, done, it.idx, Point(x, y, data.value));
          done := done + [it.idx];
        }
        if !h(calls) {
          return true, calls, false;
        }
      }
    }
    if good {
      NoRows(rows, q, right + 1);
    }
    return true, calls, true;
  }

}
