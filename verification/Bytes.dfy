/** Little-endian words and the reader and writer the disk formats are built on. */
module Bytes {
  import opened Seqs

  type byte = b: int | 0 <= b < 256

  const TWO_TO_32: int := 0x1_0000_0000
  const TWO_TO_63: int := 0x8000_0000_0000_0000
  const TWO_TO_64: int := 0x1_0000_0000_0000_0000

  function Pow256(w: nat): (p: nat)
    ensures p > 0
  {
    if w == 0 then 1 else 256 * Pow256(w - 1)
  }

  lemma Powers()
    ensures Pow256(4) == TWO_TO_32 && Pow256(8) == TWO_TO_64
  {
    assert Pow256(2) == 0x1_0000;
    assert Pow256(4) == TWO_TO_32;
    assert Pow256(6) == 0x1_0000_0000_0000;
  }

  /** The w low bytes of x, least significant first. */
  function Le(x: nat, w: nat): (b: seq<byte>)
    ensures |b| == w
  {
    if w == 0 then [] else [x % 256] + Le(x / 256, w - 1)
  }

  function UnLe(b: seq<byte>): nat {
    if b == [] then 0 else b[0] + 256 * UnLe(b[1..])
  }

  lemma {:induction false} LeRoundTrip(x: nat, w: nat)
    requires x < Pow256(w)
    ensures UnLe(Le(x, w)) == x
  {
    if w > 0 {
      LeRoundTrip(x / 256, w - 1);
      assert Le(x, w)[1..] == Le(x / 256, w - 1);
    }
  }

  lemma {:induction false} LeOfUnLe(b: seq<byte>)
    ensures Le(UnLe(b), |b|) == b
  {
    if b != [] {
      LeOfUnLe(b[1..]);
      assert UnLe(b) % 256 == b[0] && UnLe(b) / 256 == UnLe(b[1..]);
    }
  }

  lemma {:induction false} UnLeBound(b: seq<byte>)
    ensures UnLe(b) < Pow256(|b|)
  {
    if b != [] {
      UnLeBound(b[1..]);
    }
  }

  /** uint64(x): two's complement. */
  function ToWord(x: int): (u: nat)
    ensures u < TWO_TO_64
  {
    x % TWO_TO_64
  }

  /** int64(u). */
  function FromWord(u: nat): int {
    if u < TWO_TO_63 then u else u - TWO_TO_64
  }

  lemma WordRoundTrip(x: int)
    requires -TWO_TO_63 <= x < TWO_TO_63
    ensures FromWord(ToWord(x)) == x
    ensures x >= 0 ==> ToWord(x) == x
  {
  }

  lemma LeWord(u: nat)
    requires u < TWO_TO_64
    ensures UnLe(Le(u, 8)) == u
  {
    Powers();
    LeRoundTrip(u, 8);
  }

  lemma LeHalfWord(u: nat)
    requires u < TWO_TO_32
    ensures UnLe(Le(u, 4)) == u
  {
    Powers();
    LeRoundTrip(u, 4);
  }

  /** Words of w bytes, one after the other. */
  function Words(us: seq<nat>, w: nat): (b: seq<byte>)
    ensures |b| == w * |us|
  {
    if us == [] then [] else Words(us[..|us| - 1], w) + Le(us[|us| - 1], w)
  }

  lemma {:induction false} WordsConcat(a: seq<nat>, b: seq<nat>, w: nat)
    ensures Words(a + b, w) == Words(a, w) + Words(b, w)
    decreases |b|
  {
    hide Words;
    if b == [] {
      assert a + b == a;
      NoWords(w);
    } else {
      var b', u := b[..|b| - 1], b[|b| - 1];
      WordsConcat(a, b', w);
      WordsAppend(b', u, w);
      WordsAppend(a + b', u, w);
      assert b == b' + [u] && a + b == a + b' + [u];
      assert Words(a, w) + Words(b', w) + Le(u, w) == Words(a, w) + (Words(b', w) + Le(u, w));
    }
  }

  lemma NoWords(w: nat)
    ensures Words([], w) == []
  {
  }

  lemma WordsAppend(us: seq<nat>, u: nat, w: nat)
    ensures Words(us + [u], w) == Words(us, w) + Le(u, w)
  {
    assert (us + [u])[..|us|] == us;
  }

  lemma MulSplit(w: nat, i: nat, j: nat)
    requires i <= j
    ensures w * i <= w * j && w * j - w * i == w * (j - i)
  {
  }

  /** Cutting the bytes at word boundaries is cutting the words. */
  lemma WordsSlice(us: seq<nat>, w: nat, i: nat, j: nat)
    requires i <= j <= |us|
    ensures w * i <= w * j <= w * |us| && Words(us, w)[w * i..w * j] == Words(us[i..j], w)
  {
    var a, b, c := us[..i], us[i..j], us[j..];
    MulSplit(w, i, j);
    MulSplit(w, j, |us|);
    assert us == a + (b + c) && |a| == i && |b| == j - i;
    WordsConcat(a, b + c, w);
    WordsConcat(b, c, w);
    hide Words;
    SliceMiddle(Words(a, w), Words(b, w), Words(c, w), w * i, w * j);
  }

  lemma SliceMiddle<A>(a: seq<A>, b: seq<A>, c: seq<A>, lo: nat, hi: nat)
    requires lo == |a| && hi == lo + |b|
    ensures (a + (b + c))[lo..hi] == b
  {
  }

  lemma WordAt(us: seq<nat>, w: nat, i: nat)
    requires i < |us|
    ensures w * i <= w * i + w <= w * |us| && Words(us, w)[w * i..w * i + w] == Le(us[i], w)
  {
    WordsSlice(us, w, i, i + 1);
    assert us[i..i + 1] == [us[i]];
    assert [us[i]][..0] == [];
    assert w * (i + 1) == w * i + w;
  }

  // ---------------------------------------------------------------------------
  // Reading

  /** A read of n bytes at an offset, as the memory-mapped reader answers it: the offset must lie
      in the file, and fewer bytes than asked for is an error. */
  function ReadAt(file: seq<byte>, off: int, n: nat): Result<seq<byte>> {
    if 0 <= off && off + n <= |file| then Ok(file[off..off + n]) else Err
  }

  /** part lies in the file at this offset. */
  ghost predicate At(file: seq<byte>, off: int, part: seq<byte>) {
    0 <= off && off + |part| <= |file| && file[off..off + |part|] == part
  }

  lemma AtParts(file: seq<byte>, off: int, a: seq<byte>, b: seq<byte>)
    requires At(file, off, a + b)
    ensures At(file, off, a) && At(file, off + |a|, b)
  {
    var p := file[off..off + |a + b|];
    assert p[..|a|] == a && p[|a|..] == b;
    assert file[off..off + |a|] == p[..|a|];
    assert file[off + |a|..off + |a| + |b|] == p[|a|..];
  }

  lemma AtSlice(file: seq<byte>, off: int, part: seq<byte>, i: nat, j: nat)
    requires At(file, off, part) && i <= j <= |part|
    ensures ReadAt(file, off + i, j - i) == Ok(part[i..j])
  {
    forall k | i <= k < j ensures file[off + k] == part[k] {
      assert file[off..off + |part|][k] == file[off + k];
    }
    assert off + i + (j - i) == off + j;
    assert file[off + i..off + j] == part[i..j];
  }

  // ---------------------------------------------------------------------------
  // Writing

  /** A sink that may fill up: it takes what still fits and reports whether that was all. */
  class Writer {
    var out: seq<byte>
    const room: nat

    constructor (room: nat)
      ensures out == [] && this.room == room
    {
      out := [];
      this.room := room;
    }

    method Write(p: seq<byte>) returns (n: nat, ok: bool)
      modifies this
      ensures n <= |p| && out == old(out) + p[..n] && (ok <==> n == |p|)
    {
      n := if |out| + |p| <= room then |p| else if |out| < room then room - |out| else 0;
      out := out + p[..n];
      ok := n == |p|;
    }
  }

  /** Writing stopped after `written` bytes of `image`; ok when that was all of it. */
  ghost predicate Wrote(before: seq<byte>, after: seq<byte>, image: seq<byte>, written: int, ok: bool) {
    && 0 <= written <= |image| && after == before + image[..written]
    && (ok <==> written == |image|)
  }

  /** Parts written one after the other write the whole. */
  lemma WroteNext(b0: seq<byte>, b1: seq<byte>, b2: seq<byte>, p: seq<byte>, q: seq<byte>, m: int, n: int, ok: bool)
    requires Wrote(b0, b1, p, m, true) && Wrote(b1, b2, q, n, ok)
    ensures Wrote(b0, b2, p + q, m + n, ok)
  {
    assert (p + q)[..m + n] == p + q[..n];
  }

  /** A part that fails ends the whole there. */
  lemma WroteStop(b0: seq<byte>, b1: seq<byte>, p: seq<byte>, q: seq<byte>, m: int)
    requires Wrote(b0, b1, p, m, false)
    ensures Wrote(b0, b1, p + q, m, false)
  {
    assert (p + q)[..m] == p[..m];
  }

  lemma WroteNothing(b: seq<byte>)
    ensures Wrote(b, b, [], 0, true)
  {
  }

  /** PutUint64 / PutUint32: w bytes of v into the buffer. */
  method Put(buf: array<byte>, at: nat, v: nat, w: nat)
    requires at + w <= buf.Length
    modifies buf
    ensures buf[..at] == old(buf[..at]) && buf[at..at + w] == Le(v, w) && buf[at + w..] == old(buf[at + w..])
    decreases w
  {
    if w > 0 {
      buf[at] := v % 256;
      Put(buf, at + 1, v / 256, w - 1);
      assert buf[at] == buf[..at + 1][at];
      assert buf[..at] == buf[..at + 1][..at];
    }
  }
}
