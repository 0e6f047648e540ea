/** Byte strings of varying length laid out one after the other, and where each begins. */
module Blobs {
  import opened Bytes

  function Concat(blobs: seq<seq<byte>>): seq<byte> {
    if blobs == [] then [] else Concat(blobs[..|blobs| - 1]) + blobs[|blobs| - 1]
  }

  /** Where blob i begins, for every i up to the number of blobs. */
  function Offsets(blobs: seq<seq<byte>>): (us: seq<nat>)
    ensures |us| == |blobs| + 1
  {
    if blobs == [] then [0] else
    Offsets(blobs[..|blobs| - 1]) + [|Concat(blobs)|]
  }

  lemma NoBlobs()
    ensures Concat([]) == []
  {
  }

  lemma ConcatAppend(blobs: seq<seq<byte>>, b: seq<byte>)
    ensures Concat(blobs + [b]) == Concat(blobs) + b
  {
    assert (blobs + [b])[..|blobs|] == blobs;
  }

  lemma {:induction false} ConcatConcat(a: seq<seq<byte>>, b: seq<seq<byte>>)
    ensures Concat(a + b) == Concat(a) + Concat(b)
    decreases |b|
  {
    hide Concat;
    if b == [] {
      assert a + b == a;
      NoBlobs();
    } else {
      var b', x := b[..|b| - 1], b[|b| - 1];
      ConcatConcat(a, b');
      ConcatAppend(b', x);
      ConcatAppend(a + b', x);
      assert b == b' + [x] && a + b == a + b' + [x];
      assert Concat(a) + Concat(b') + x == Concat(a) + (Concat(b') + x);
    }
  }

  lemma OffsetsAppend(blobs: seq<seq<byte>>, b: seq<byte>)
    ensures Concat(blobs + [b]) == Concat(blobs) + b
    ensures Offsets(blobs + [b]) == Offsets(blobs) + [|Concat(blobs)| + |b|]
  {
    assert (blobs + [b])[..|blobs|] == blobs;
  }

  lemma {:induction false} OffsetsAre(blobs: seq<seq<byte>>, i: nat)
    requires i <= |blobs|
    ensures Offsets(blobs)[i] == |Concat(blobs[..i])|
  {
    if i == |blobs| {
      assert blobs[..i] == blobs;
    } else {
      var rest := blobs[..|blobs| - 1];
      OffsetsAre(rest, i);
      assert rest[..i] == blobs[..i];
    }
  }

  lemma {:induction false} ConcatSlice(blobs: seq<seq<byte>>, i: nat)
    requires i < |blobs|
    ensures var a, b := |Concat(blobs[..i])|, |Concat(blobs[..i + 1])|;
      a + |blobs[i]| == b <= |Concat(blobs)| && Concat(blobs)[a..b] == blobs[i]
  {
    assert blobs[..i + 1][..i] == blobs[..i];
    if i == |blobs| - 1 {
      assert blobs[..i + 1] == blobs;
    } else {
      var rest := blobs[..|blobs| - 1];
      ConcatSlice(rest, i);
      assert rest[..i] == blobs[..i] && rest[..i + 1] == blobs[..i + 1];
    }
  }
}
