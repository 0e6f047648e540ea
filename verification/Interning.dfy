/** The string table of the v2 cache (cachesaver/save/v2/strings.go): interning strings, laying
    them out as a NUL-terminated block behind an offset index, and reading them back by id. */
module Interning {
  import opened Seqs
  import opened Bytes
  import opened Blobs

  /** A Go string: any bytes. */
  type Str = seq<byte>

  // ---------------------------------------------------------------------------
  // What is interned

  /** The strings by id: the empty one first, none twice. */
  ghost predicate ById(table: seq<Str>) {
    table != [] && table[0] == [] && NoDuplicates(table)
  }

  function Interned(table: seq<Str>, val: Str): seq<Str> {
    if val in table then table else table + [val]
  }

  function InternAll(table: seq<Str>, vals: seq<Str>): seq<Str> {
    if vals == [] then table else Interned(InternAll(table, vals[..|vals| - 1]), vals[|vals| - 1])
  }

  function IdIn(table: seq<Str>, val: Str): (id: nat)
    requires val in table
    ensures id < |table| && table[id] == val
  {
    if table[|table| - 1] == val then |table| - 1 else IdIn(table[..|table| - 1], val)
  }

  /** No other id stands for the string. */
  lemma IdUnique(table: seq<Str>, id: nat)
    requires ById(table) && id < |table|
    ensures IdIn(table, table[id]) == id
  {
  }

  /** Interning any strings gives each exactly one id, keeps the ids handed out before, and leaves
      the empty string at 0. */
  lemma {:induction false} InternAllById(table: seq<Str>, vals: seq<Str>)
    requires ById(table)
    ensures ById(InternAll(table, vals)) && table <= InternAll(table, vals)
    ensures forall s :: s in InternAll(table, vals) <==> s in table || s in vals
  {
    if vals != [] {
      InternAllById(table, vals[..|vals| - 1]);
      assert vals == vals[..|vals| - 1] + [vals[|vals| - 1]];
    }
  }

  /** The second pass changes nothing: whatever has been interned is found again, with its id. */
  lemma {:induction false} InternAgain(table: seq<Str>, vals: seq<Str>)
    requires forall s :: s in vals ==> s in table
    ensures InternAll(table, vals) == table
  {
    if vals != [] {
      InternAgain(table, vals[..|vals| - 1]);
    }
  }

  lemma {:induction false} InternConcat(table: seq<Str>, a: seq<Str>, b: seq<Str>)
    ensures InternAll(table, a + b) == InternAll(InternAll(table, a), b)
    decreases |b|
  {
    if b == [] {
      assert a + b == a;
    } else {
      InternConcat(table, a, b[..|b| - 1]);
      assert (a + b)[..|a + b| - 1] == a + b[..|b| - 1];
    }
  }

  /** `dedupMap`, shared by all five categories of `stringsDedup`. */
  class DedupMap {
    var m: map<Str, nat>
    var nextID: nat
    ghost var table: seq<Str>

    /** The map is the bijection between the strings and 0..n-1. */
    ghost predicate Valid()
      reads this
    {
      && ById(table) && |table| <= TWO_TO_32 && nextID == |table| % TWO_TO_32
      && (forall s :: s in m <==> s in table)
      && (forall i :: 0 <= i < |table| ==> m[table[i]] == i)
    }

    constructor ()
      ensures Valid() && table == [[]]
    {
      m := map[[] := 0];
      nextID := 1;
      table := [[]];
    }

    /** `Add`. The id counter has 32 bits; only a string more than they can number breaks the
        bijection, by giving it the id of the empty string. */
    method Add(val: Str) returns (id: nat)
      requires Valid()
      modifies this
      ensures table == Interned(old(table), val) && id == IdIn(table, val) % TWO_TO_32
      ensures Valid() <==> |table| <= TWO_TO_32
      ensures |table| > TWO_TO_32 ==> id == 0 && val != []
    {
      if val in m {
        IdUnique(table, m[val]);
        return m[val];
      }
      id := nextID;
      m := m[val := id];
      nextID := (nextID + 1) % TWO_TO_32;
      table := table + [val];
    }

    /** `Len`. */
    method Len() returns (n: nat)
      requires Valid()
      ensures n == |table|
    {
      Count(m, table);
      n := |m|;
    }
  }

  lemma {:induction false} Count(m: map<Str, nat>, table: seq<Str>)
    requires NoDuplicates(table) && forall s :: s in m <==> s in table
    ensures |m| == |table|
  {
    var keys := set s | s in table;
    assert m.Keys == keys;
    SetSize(table);
  }

  lemma {:induction false} SetSize(table: seq<Str>)
    requires NoDuplicates(table)
    ensures |set s | s in table| == |table|
  {
    if table != [] {
      var rest, last := table[..|table| - 1], table[|table| - 1];
      SetSize(rest);
      assert (set s | s in table) == (set s | s in rest) + {last};
      assert last !in rest;
    }
  }

  // ---------------------------------------------------------------------------
  // The block and its index

  function Terminated(s: Str): Str { s + [0] }

  function Block(table: seq<Str>): seq<byte> { Concat(Map(Terminated, table)) }

  function Starts(table: seq<Str>): (us: seq<nat>)
    ensures |us| == |table|
  {
    Offsets(Map(Terminated, table))[..|table|]
  }

  /** Entry id lies at its offset, up to and including its terminator. */
  lemma EntryAt(table: seq<Str>, id: nat)
    requires id < |table|
    ensures var lo := Starts(table)[id];
      lo + |table[id]| < |Block(table)| && Block(table)[lo..lo + |table[id]| + 1] == table[id] + [0]
  {
    var blobs := Map(Terminated, table);
    OffsetsAre(blobs, id);
    ConcatSlice(blobs, id);
    assert blobs[id] == table[id] + [0];
  }

  lemma BlockNext(table: seq<Str>, id: nat)
    requires id < |table|
    ensures Block(table[..id + 1]) == Block(table[..id]) + table[id] + [0]
    ensures Starts(table)[id] == |Block(table[..id])|
  {
    hide Concat, Offsets, Map;
    var blobs := Map(Terminated, table);
    assert Map(Terminated, table[..id]) == blobs[..id];
    assert Map(Terminated, table[..id + 1]) == blobs[..id] + [Terminated(table[id])];
    ConcatAppend(blobs[..id], Terminated(table[id]));
    OffsetsAre(blobs, id);
    Regroup(Concat(blobs[..id]), table[id], [0]);
  }

  lemma Regroup<A>(a: seq<A>, b: seq<A>, c: seq<A>)
    ensures a + (b + c) == a + b + c
  {
  }

  /** A front of the table takes no more room than the whole. */
  lemma {:induction false} BlockGrows(table: seq<Str>, id: nat)
    requires id <= |table|
    ensures |Block(table[..id])| <= |Block(table)| && id <= |Block(table[..id])|
    decreases |table| + id
  {
    hide Block, Starts;
    if id < |table| {
      BlockGrows(table[..|table| - 1], id);
      BlockNext(table, |table| - 1);
      assert table[..|table|] == table && table[..|table| - 1][..id] == table[..id];
    } else if id > 0 {
      BlockGrows(table, id - 1);
      BlockNext(table, id - 1);
      assert table[..id - 1 + 1] == table[..id] == table;
    } else {
      assert table[..0] == table;
    }
  }

  /** `buildStringIndex`. The Go map is walked in any order. With 32-bit offsets the block must
      stay below 4 GiB. */
  method BuildStringIndex(d: DedupMap) returns (offsetIndex: array<nat>, dataBlock: array<byte>)
    requires d.Valid() && |Block(d.table)| < TWO_TO_32
    ensures fresh(offsetIndex) && fresh(dataBlock)
    ensures offsetIndex[..] == Starts(d.table) && dataBlock[..] == Block(d.table)
  {
    hide Concat, Offsets, Block, Starts;
    ghost var table := d.table;
    var n := d.Len();
    var byID := Reverse(d, n);
    offsetIndex := new nat[n];
    var pos := 0;
    NoEntries(table);
    for id := 0 to n
      invariant byID[..] == table && pos == |Block(table[..id])|
      invariant forall k :: 0 <= k < id ==> offsetIndex[k] == Starts(table)[k]
    {
      BlockNext(table, id);
      BlockGrows(table, id + 1);
      offsetIndex[id] := pos;
      assert byID[id] == table[id];
      pos := (pos + |byID[id]| % TWO_TO_32 + 1) % TWO_TO_32;
    }
    assert table[..n] == table;
    dataBlock := FillBlock(byID, offsetIndex, pos, table);
  }

  lemma NoEntries(table: seq<Str>)
    ensures Block(table[..0]) == []
  {
  }

  /** The strings by id. */
  method Reverse(d: DedupMap, n: nat) returns (byID: array<Str>)
    requires d.Valid() && n == |d.table|
    ensures fresh(byID) && byID[..] == d.table
  {
    byID := new Str[n](_ => []);
    var rest := d.m.Keys;
    while rest != {}
      invariant rest <= d.m.Keys
      invariant forall i :: 0 <= i < n && d.table[i] !in rest ==> byID[i] == d.table[i]
      decreases |rest|
    {
      var s :| s in rest;
      ghost var k := IdIn(d.table, s);
      assert d.m[d.table[k]] == k;
      byID[d.m[s]] := s;
      rest := rest - {s};
    }
  }

  method FillBlock(byID: array<Str>, offsetIndex: array<nat>, pos: nat, ghost table: seq<Str>) returns (dataBlock: array<byte>)
    requires byID[..] == table && offsetIndex[..] == Starts(table) && pos == |Block(table)| < TWO_TO_32
    ensures fresh(dataBlock) && dataBlock[..] == Block(table)
  {
    hide *;
    dataBlock := new byte[pos];
    NoEntries(table);
    for id := 0 to byID.Length
      invariant |Block(table[..id])| <= pos && dataBlock[..|Block(table[..id])|] == Block(table[..id])
    {
      BlockNext(table, id);
      BlockGrows(table, id + 1);
      assert byID[..][id] == byID[id] && offsetIndex[..][id] == offsetIndex[id];
      WriteEntry(dataBlock, offsetIndex[id], byID[id], Block(table[..id]));
    }
    assert table[..byID.Length] == table;
  }

  /** One string and its terminator, at its offset. */
  method WriteEntry(dataBlock: array<byte>, at: nat, s: Str, ghost front: seq<byte>)
    requires at == |front| && at + |s| < dataBlock.Length < TWO_TO_32 && dataBlock[..at] == front
    modifies dataBlock
    ensures dataBlock[..at + |s| + 1] == front + s + [0]
  {
    Copy(dataBlock, at, s);
    dataBlock[(at + |s| % TWO_TO_32) % TWO_TO_32] := 0;
    EntryWritten(dataBlock[..], at, s, front);
  }

  lemma EntryWritten(b: seq<byte>, at: nat, s: Str, front: seq<byte>)
    requires at + |s| < |b| && b[..at] == front && b[at..at + |s|] == s && b[at + |s|] == 0
    ensures b[..at + |s| + 1] == front + s + [0]
  {
  }

  /** `copy`, when there is room. */
  method Copy(buf: array<byte>, at: nat, s: seq<byte>)
    requires at + |s| <= buf.Length
    modifies buf
    ensures buf[..at] == old(buf[..at]) && buf[at..at + |s|] == s && buf[at + |s|..] == old(buf[at + |s|..])
  {
    for i := 0 to |s|
      invariant buf[..at] == old(buf[..at]) && buf[at + i..] == old(buf[at + i..])
      invariant buf[at..at + i] == s[..i]
    {
      buf[at + i] := s[i];
    }
  }

  // ---------------------------------------------------------------------------
  // Reading back

  /** The bytes before the first NUL, or all of them. */
  function UpToNul(b: seq<byte>): seq<byte> {
    if b == [] || b[0] == 0 then [] else [b[0]] + UpToNul(b[1..])
  }

  predicate NulFree(s: Str) { 0 !in s }

  lemma {:induction false} UpToNulStops(s: Str, rest: seq<byte>)
    ensures UpToNul(s + [0] + rest) == UpToNul(s)
  {
    var b := s + [0] + rest;
    if s != [] {
      UpToNulStops(s[1..], rest);
      assert b[1..] == s[1..] + [0] + rest && b[0] == s[0];
    }
  }

  lemma {:induction false} UpToNulWhole(s: Str)
    ensures UpToNul(s) == s <==> NulFree(s)
    ensures |UpToNul(s)| <= |s|
  {
    if s != [] {
      UpToNulWhole(s[1..]);
      assert s == [s[0]] + s[1..];
      if s[0] != 0 {
        assert UpToNul(s)[1..] == UpToNul(s[1..]);
      }
    }
  }

  /** `readStrByID`. An id beyond the index is a panic in the source. */
  function ReadStrByID(index: seq<nat>, dataBlock: seq<byte>, id: nat): Str
    requires id == 0 || id < |index|
  {
    if id == 0 then [] else
    var start := index[id];
    if start >= |dataBlock| then [] else UpToNul(dataBlock[start..])
  }

  /** Whatever the index and the block, what is read has no NUL in it and is empty for id 0 and past
      the block; otherwise it is what lies at the offset up to a NUL or the end. */
  lemma ReadStrAny(index: seq<nat>, dataBlock: seq<byte>, id: nat)
    requires id == 0 || id < |index|
    ensures var r := ReadStrByID(index, dataBlock, id);
      && NulFree(r)
      && (id == 0 || index[id] >= |dataBlock| ==> r == [])
      && (id > 0 && index[id] < |dataBlock| ==>
           var rest := dataBlock[index[id]..]; r <= rest && (|r| < |rest| ==> rest[|r|] == 0))
  {
    if id > 0 && index[id] < |dataBlock| {
      UpToNulIs(dataBlock[index[id]..]);
    }
  }

  lemma {:induction false} UpToNulIs(b: seq<byte>)
    ensures var r := UpToNul(b); NulFree(r) && r <= b && (|r| < |b| ==> b[|r|] == 0)
  {
    if b != [] && b[0] != 0 {
      UpToNulIs(b[1..]);
    }
  }

  /** Reading by id gives the string up to its first NUL: the string itself exactly when it has none. */
  lemma ReadBackById(table: seq<Str>, id: nat)
    requires ById(table) && id < |table|
    ensures var r := ReadStrByID(Starts(table), Block(table), id);
      r == UpToNul(table[id]) && (r == table[id] <==> NulFree(table[id]))
  {
    hide Block, Starts, NulFree;
    UpToNulWhole(table[id]);
    if id > 0 {
      var s, lo, b := table[id], Starts(table)[id], Block(table);
      EntryAt(table, id);
      assert b[lo..] == b[lo..lo + |s| + 1] + b[lo + |s| + 1..];
      UpToNulStops(s, b[lo + |s| + 1..]);
    }
  }

  const MAX_READ := 512

  /** What `readStr` looks at: at most 512 bytes from an offset on. An offset past the end is an error. */
  function ReadUpTo(file: seq<byte>, off: int, n: nat): Result<seq<byte>> {
    if off < 0 || off > |file| then Err
    else Ok(file[off..if off + n <= |file| then off + n else |file|])
  }

  /** `readStr` of the disk geocoder. */
  method ReadStr(file: seq<byte>, stringsIndex: seq<nat>, stringsDataOffset: int, id: nat, ghost table: seq<Str>) returns (s: Str)
    requires id == 0 || id < |stringsIndex|
    ensures ById(table) && id < |table| && stringsIndex == Starts(table) && At(file, stringsDataOffset, Block(table))
      ==> s == Shortened(table[id])
  {
    hide Block, Starts, At, ById, UpToNul;
    if ById(table) && id < |table| && stringsIndex == Starts(table) && At(file, stringsDataOffset, Block(table)) {
      WindowShows(file, stringsDataOffset, table, id);
    }
    if id == 0 {
      return [];
    }
    var start := stringsIndex[id];
    var read := ReadUpTo(file, stringsDataOffset + start, MAX_READ);
    if read.Err? {
      return [];
    }
    var buf := read.value;
    var n := |buf|;
    var end := n;
    for i := 0 to n
      invariant end == n && forall k :: 0 <= k < i ==> buf[k] != 0
    {
      if buf[i] == 0 {
        end := i;
        break;
      }
    }
    FirstNul(buf, end);
    return buf[..end];
  }

  lemma {:induction false} FirstNul(buf: seq<byte>, end: nat)
    requires end <= |buf| && (forall k :: 0 <= k < end ==> buf[k] != 0) && (end < |buf| ==> buf[end] == 0)
    ensures UpToNul(buf) == buf[..end]
  {
    if end > 0 {
      FirstNul(buf[1..], end - 1);
      assert buf[..end] == [buf[0]] + buf[1..][..end - 1];
    }
  }

  /** What is left of a string after a trip through the disk geocoder. */
  function Shortened(s: Str): Str {
    UpToNul(if |s| <= 512 then s else s[..512])
  }

  /** Nothing is lost exactly when the string has no NUL and fits the buffer. */
  lemma ShortenedWhole(s: Str)
    ensures Shortened(s) == s <==> NulFree(s) && |s| <= 512
  {
    hide NulFree, UpToNul;
    UpToNulWhole(if |s| <= 512 then s else s[..512]);
  }

  /** The window read for an id shows its string, cut at 512 bytes, and its terminator if that fits. */
  lemma WindowShows(file: seq<byte>, off: int, table: seq<Str>, id: nat)
    requires ById(table) && id < |table| && At(file, off, Block(table))
    ensures id == 0 ==> Shortened(table[id]) == []
    ensures var r := ReadUpTo(file, off + Starts(table)[id], MAX_READ);
      r.Ok? && UpToNul(r.value) == Shortened(table[id])
  {
    hide Block, Starts;
    var s, lo := table[id], Starts(table)[id];
    EntryAt(table, id);
    EntryInFile(file, off, Block(table), lo, s);
    var r := ReadUpTo(file, off + lo, MAX_READ).value;
    if |s| < MAX_READ {
      assert r == s + [0] + r[|s| + 1..];
      UpToNulStops(s, r[|s| + 1..]);
    } else {
      var entry := file[off + lo..off + lo + |s| + 1];
      assert entry[..MAX_READ] == s[..MAX_READ];
      assert r == entry[..MAX_READ];
    }
  }

  lemma EntryInFile(file: seq<byte>, off: int, block: seq<byte>, lo: nat, s: Str)
    requires At(file, off, block) && lo + |s| < |block| && block[lo..lo + |s| + 1] == s + [0]
    ensures off >= 0 && off + lo + |s| < |file| && file[off + lo..off + lo + |s| + 1] == s + [0]
  {
    AtSlice(file, off, block, lo, lo + |s| + 1);
  }
}
