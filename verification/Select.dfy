/** `sselect` and `sort` of kdbush/kdbush.go: in-place Floyd-Rivest selection over the
    parallel arrays, and the recursion that turns them into an implicit KD-tree. */
module Select {
  import opened KDTree
  import opened Sampling
  import opened SortSpec

  // ---------------------------------------------------------------------------

  ghost function Rows(idxs: array<int>, coords: array<real>): (s: seq<Item>)
    requires coords.Length == 2 * idxs.Length
    reads idxs, coords
    ensures |s| == idxs.Length
    ensures forall p :: 0 <= p < |s| ==> s[p] == Item(idxs[p], coords[2 * p], coords[2 * p + 1])
  {
    seq(idxs.Length, p requires 0 <= p < idxs.Length reads idxs, coords => Item(idxs[p], coords[2 * p], coords[2 * p + 1]))
  }

  method SwapItem(idxs: array<int>, coords: array<real>, i: int, j: int)
    requires coords.Length == 2 * idxs.Length
    requires 0 <= i < idxs.Length && 0 <= j < idxs.Length
    modifies idxs, coords
    ensures Rows(idxs, coords) == Swapped(old(Rows(idxs, coords)), i, j)
  {
    idxs[i], idxs[j] := idxs[j], idxs[i];
    coords[2 * i], coords[2 * j] := coords[2 * j], coords[2 * i];
    coords[2 * i + 1], coords[2 * j + 1] := coords[2 * j + 1], coords[2 * i + 1];
  }

  // ---------------------------------------------------------------------------
  // One partition pass

  /** Where the sweep stands: rows before i are <= t, rows after j are >= t, the rows at i and j
      are ready to be exchanged, and one end of the slice holds t itself. */
  ghost predicate Sweep(s: seq<Item>, left: int, i: int, j: int, right: int, inc: nat, t: real) {
    && 0 <= left < right < |s|
    && ((i == left && j == right) || (left < i <= right && left <= j < right && i <= j + 1))
    && (forall p :: left <= p < i ==> Key(s[p], inc) <= t)
    && (forall p :: j < p <= right ==> Key(s[p], inc) >= t)
    && Key(s[j], inc) <= t <= Key(s[i], inc)
    && (Key(s[left], inc) == t || Key(s[right], inc) == t)
  }

  /** The exchanges before the loop: t = the value at k sits at `left`, or at `right` if the row
      that was at `right` is bigger. */
  lemma SweepStart(s0: seq<Item>, left: int, k: int, right: int, inc: nat)
    requires 0 <= left <= k <= right < |s0| && left < right
    ensures var t, s := Key(s0[k], inc), Swapped(s0, left, k);
      if Key(s[right], inc) > t then Sweep(Swapped(s, left, right), left, left, right, right, inc, t)
      else Sweep(s, left, left, right, right, inc, t)
  {
  }

  /** Before the exchange of i and j: both are in the slice and will stop the scans. */
  lemma SweepReady(s: seq<Item>, left: int, i: int, j: int, right: int, inc: nat, t: real)
    requires Sweep(s, left, i, j, right, inc, t) && i < j
    ensures 0 <= left <= i < j <= right < |s|
    ensures Key(Swapped(s, i, j)[i], inc) <= t <= Key(Swapped(s, i, j)[j], inc)
  {
  }

  /** Exchanging the two stopped rows and scanning inwards from both keeps the sweep going. */
  lemma SweepStep(s: seq<Item>, left: int, i: int, j: int, right: int, inc: nat, t: real, i': int, j': int)
    requires Sweep(s, left, i, j, right, inc, t) && i < j
    requires i' <= j && i <= j'
    requires StopsUp(Swapped(s, i, j), i + 1, i', inc, t) && StopsDown(Swapped(s, i, j), j - 1, j', inc, t)
    ensures Sweep(Swapped(s, i, j), left, i', j', right, inc, t)
  {
    var u := Swapped(s, i, j);
    assert Key(u[i], inc) <= t <= Key(u[j], inc);
    assert j' + 1 < j ==> Key(u[j' + 1], inc) > t;
  }

  /** The last exchange puts t at its final place. */
  lemma SweepEnd(s: seq<Item>, left: int, i: int, j: int, right: int, inc: nat, t: real)
    requires Sweep(s, left, i, j, right, inc, t) && i >= j
    ensures 0 <= left <= j <= right < |s|
    ensures Key(s[left], inc) == t ==>
      var u := Swapped(s, left, j); Splits(u, left, j, right, inc) && Key(u[j], inc) == t
    ensures Key(s[left], inc) != t ==>
      j < right && var u := Swapped(s, j + 1, right); Splits(u, left, j + 1, right, inc) && Key(u[j + 1], inc) == t
  {
  }

  lemma PermSwapped(s0: seq<Item>, s: seq<Item>, i: nat, j: nat, lo: int, hi: int)
    requires PermIn(s0, s, lo, hi)
    requires 0 <= lo <= i <= hi < |s| && lo <= j <= hi
    ensures PermIn(s0, Swapped(s, i, j), lo, hi)
  {
    PermSwap(s, i, j, lo, hi);
  }

  function RowAt(idxs: array<int>, coords: array<real>, p: int): (it: Item)
    requires coords.Length == 2 * idxs.Length && 0 <= p < idxs.Length
    reads idxs, coords
    ensures it == Rows(idxs, coords)[p]
  {
    Item(idxs[p], coords[2 * p], coords[2 * p + 1])
  }

  function At(idxs: array<int>, coords: array<real>, p: int, inc: nat): (v: real)
    requires coords.Length == 2 * idxs.Length && inc < 2 && 0 <= p < idxs.Length
    reads idxs, coords
    ensures v == Key(Rows(idxs, coords)[p], inc)
  {
    coords[2 * p + inc]
  }

  /** Moves i up past every row below t; the row at `stop` keeps it inside the slice. */
  method ScanUp(idxs: array<int>, coords: array<real>, from: int, stop: int, inc: nat, t: real, ghost s: seq<Item>) returns (i: int)
    requires coords.Length == 2 * idxs.Length && inc < 2 && s == Rows(idxs, coords)
    requires 0 <= from <= stop < |s| && Key(s[stop], inc) >= t
    ensures i <= stop && StopsUp(s, from, i, inc, t)
  {
    i := from;
    while At(idxs, coords, i, inc) < t
      invariant from <= i <= stop
      invariant forall p :: from <= p < i ==> Key(s[p], inc) < t
      decreases stop - i
    {
      i := i + 1;
    }
  }

  /** Moves j down past every row above t; the row at `stop` keeps it inside the slice. */
  method ScanDown(idxs: array<int>, coords: array<real>, from: int, stop: int, inc: nat, t: real, ghost s: seq<Item>) returns (j: int)
    requires coords.Length == 2 * idxs.Length && inc < 2 && s == Rows(idxs, coords)
    requires 0 <= stop <= from < |s| && Key(s[stop], inc) <= t
    ensures stop <= j && StopsDown(s, from, j, inc, t)
  {
    j := from;
    while At(idxs, coords, j, inc) > t
      invariant stop <= j <= from
      invariant forall p :: j < p <= from ==> Key(s[p], inc) > t
      decreases j
    {
      j := j - 1;
    }
  }

  /** The inner loop of a pass: exchanges and scans inwards until i and j have met. */
  method Meet(idxs: array<int>, coords: array<real>, left: int, right: int, inc: nat, t: real) returns (j: int)
    requires coords.Length == 2 * idxs.Length && inc < 2
    requires Sweep(Rows(idxs, coords), left, left, right, right, inc, t)
    modifies idxs, coords
    ensures PermIn(old(Rows(idxs, coords)), Rows(idxs, coords), left, right)
    ensures exists i :: i >= j && Sweep(Rows(idxs, coords), left, i, j, right, inc, t)
    ensures (Rows(idxs, coords), j) == Met(old(Rows(idxs, coords)), left, right, inc, t)
  {
    hide *;
    ghost var s0 := Rows(idxs, coords);
    ghost var s := s0;
    var i := left;
    j := right;
    SweepBounds(s, left, i, j, right, inc, t);
    PermSame(s, left, right);
    while i < j
      invariant s == Rows(idxs, coords) && |s| == |s0|
      invariant PermIn(s0, s, left, right)
      invariant Sweep(s, left, i, j, right, inc, t)
      invariant Met(s, i, j, inc, t) == Met(s0, left, right, inc, t)
      decreases j - i
    {
      SweepReady(s, left, i, j, right, inc, t);
      SwapItem(idxs, coords, i, j);
      PermSwapped(s0, s, i, j, left, right);
      ghost var u := Swapped(s, i, j);
      var i' := ScanUp(idxs, coords, i + 1, j, inc, t, u);
      var j' := ScanDown(idxs, coords, j - 1, i, inc, t, u);
      SweepStep(s, left, i, j, right, inc, t, i', j');
      MetStep(s, i, j, inc, t, i', j');
      s := u;
      i, j := i', j';
    }
    SweepBounds(s, left, i, j, right, inc, t);
    MetEnd(s, i, j, inc, t);
  }

  lemma SweepBounds(s: seq<Item>, left: int, i: int, j: int, right: int, inc: nat, t: real)
    requires Sweep(s, left, i, j, right, inc, t)
    ensures 0 <= left <= i <= right < |s| && left <= j <= right && left < right
  {
  }

  lemma PermTrans(s: seq<Item>, t: seq<Item>, u: seq<Item>, lo: int, hi: int)
    requires PermIn(s, t, lo, hi) && PermIn(t, u, lo, hi)
    ensures PermIn(s, u, lo, hi)
  {
  }

  lemma SeatedIs(s: seq<Item>, k: int, left: int, right: int, inc: nat)
    requires 0 <= left <= k <= right < |s|
    ensures var u := Swapped(s, left, k);
      Seated(s, k, left, right, inc) == if Key(u[right], inc) > Key(s[k], inc) then Swapped(u, left, right) else u
  {
  }

  lemma PartitionedIs(s: seq<Item>, k: int, left: int, right: int, inc: nat, v: seq<Item>, j: int)
    requires 0 <= left <= k <= right < |s| && 0 <= j < |s| && |v| == |s|
    requires (v, j) == Met(Seated(s, k, left, right, inc), left, right, inc, Key(s[k], inc))
    ensures Key(v[left], inc) == Key(s[k], inc) ==> Partitioned(s, k, left, right, inc) == (Swapped(v, left, j), j)
    ensures Key(v[left], inc) != Key(s[k], inc) && j + 1 < |v| ==>
      Partitioned(s, k, left, right, inc) == (Swapped(v, j + 1, right), j + 1)
  {
  }

  /** The exchanges before the inner loop: the value t that was at k moves to one end. */
  method SeatPivot(idxs: array<int>, coords: array<real>, k: int, left: int, right: int, inc: nat) returns (t: real)
    requires coords.Length == 2 * idxs.Length && inc < 2
    requires 0 <= left <= k <= right < idxs.Length && left < right
    modifies idxs, coords
    ensures t == old(At(idxs, coords, k, inc))
    ensures PermIn(old(Rows(idxs, coords)), Rows(idxs, coords), left, right)
    ensures Sweep(Rows(idxs, coords), left, left, right, right, inc, t)
    ensures Rows(idxs, coords) == Seated(old(Rows(idxs, coords)), k, left, right, inc)
  {
    hide *;
    ghost var s0 := Rows(idxs, coords);
    t := At(idxs, coords, k, inc);
    SwapItem(idxs, coords, left, k);
    PermSwap(s0, left, k, left, right);
    SweepStart(s0, left, k, right, inc);
    SeatedIs(s0, k, left, right, inc);
    if At(idxs, coords, right, inc) > t {
      PermSwapped(s0, Rows(idxs, coords), left, right, left, right);
      SwapItem(idxs, coords, left, right);
    }
  }

  /** The body of the selection loop after sampling: partitions left..right around the
      value that was at k and returns where that value ends up. */
  method Partition(idxs: array<int>, coords: array<real>, k: int, left: int, right: int, inc: nat) returns (j: int)
    requires coords.Length == 2 * idxs.Length && inc < 2
    requires 0 <= left <= k <= right < idxs.Length && left < right
    modifies idxs, coords
    ensures left <= j <= right
    ensures PermIn(old(Rows(idxs, coords)), Rows(idxs, coords), left, right)
    ensures Splits(Rows(idxs, coords), left, j, right, inc)
    ensures At(idxs, coords, j, inc) == old(At(idxs, coords, k, inc))
    ensures (Rows(idxs, coords), j) == Partitioned(old(Rows(idxs, coords)), k, left, right, inc)
  {
    hide *;
    ghost var s0 := Rows(idxs, coords);
    var t := SeatPivot(idxs, coords, k, left, right, inc);
    ghost var s1 := Rows(idxs, coords);
    j := Meet(idxs, coords, left, right, inc, t);
    ghost var s := Rows(idxs, coords);
    PermTrans(s0, s1, s, left, right);

    ghost var i :| i >= j && Sweep(s, left, i, j, right, inc, t);
    SweepEnd(s, left, i, j, right, inc, t);
    PartitionedIs(s0, k, left, right, inc, s, j);
    if At(idxs, coords, left, inc) == t {
      SwapItem(idxs, coords, left, j);
      PermSwapped(s0, s, left, j, left, right);
    } else {
      j := j + 1;
      SwapItem(idxs, coords, j, right);
      PermSwapped(s0, s, j, right, left, right);
    }
  }

  // ---------------------------------------------------------------------------
  // Selection and sorting

  /** Rows already put left of `left` are below the rest, rows put right of `right` above it. */
  ghost predicate Narrowed(s: seq<Item>, lo: int, left: int, right: int, hi: int, inc: nat) {
    && 0 <= lo <= left <= hi + 1 && lo - 1 <= right <= hi < |s|
    && (forall p, q :: lo <= p < left <= q <= hi ==> Key(s[p], inc) <= Key(s[q], inc))
    && (forall p, q :: lo <= p <= right < q <= hi ==> Key(s[p], inc) <= Key(s[q], inc))
  }

  /** Rearranging the rows still in play keeps what has been narrowed down. */
  lemma NarrowedKept(s: seq<Item>, t: seq<Item>, lo: int, left: int, right: int, hi: int, inc: nat, a: int, b: int)
    requires Narrowed(s, lo, left, right, hi, inc)
    requires PermIn(s, t, a, b) && left <= a && b <= right
    ensures Narrowed(t, lo, left, right, hi, inc)
  {
    forall p, q | lo <= p < q <= hi && (p < left <= q || p <= right < q)
      ensures Key(t[p], inc) <= Key(t[q], inc)
    {
      var p0 := SourceOf(s, t, a, b, p);
      var q0 := SourceOf(s, t, a, b, q);
      assert Key(s[p0], inc) <= Key(s[q0], inc);
    }
  }

  /** The row at p came from p itself, or from within the rearranged slice if p is in it. */
  lemma SourceOf(s: seq<Item>, t: seq<Item>, a: int, b: int, p: int) returns (q: int)
    requires PermIn(s, t, a, b) && 0 <= p < |s|
    ensures 0 <= q < |s| && t[p] == s[q]
    ensures if a <= p <= b then a <= q <= b else q == p
  {
    if a <= p <= b {
      q := PermSource(s, t, a, b, p);
    } else {
      q := p;
      PermOutside(s, t, a, b, p);
    }
  }

  /** A partition around j narrows the slice from whichever side does not hold k. */
  lemma NarrowedBy(s: seq<Item>, lo: int, left: int, j: int, right: int, hi: int, inc: nat)
    requires Narrowed(s, lo, left, right, hi, inc)
    requires lo <= left <= j <= right <= hi && Splits(s, left, j, right, inc)
    ensures Narrowed(s, lo, j + 1, right, hi, inc)
    ensures Narrowed(s, lo, left, j - 1, hi, inc)
    ensures Narrowed(s, lo, j + 1, j - 1, hi, inc)
  {
    forall p, q | lo <= p <= j <= q <= hi
      ensures Key(s[p], inc) <= Key(s[q], inc)
    {
      assert Key(s[p], inc) <= Key(s[j], inc) <= Key(s[q], inc);
    }
  }

  /** Once at most k is left in play, k is in its final place. */
  lemma NarrowedSplits(s: seq<Item>, lo: int, left: int, k: int, right: int, hi: int, inc: nat)
    requires Narrowed(s, lo, left, right, hi, inc) && lo <= k <= hi
    requires left == k == right || (left == k + 1 && right == k - 1)
    ensures Splits(s, lo, k, hi, inc)
  {
  }

  /** `sselect`: puts at k the row that belongs there in the order of one axis. */
  method Select(idxs: array<int>, coords: array<real>, k: int, lo: int, hi: int, inc: nat, est: Sampler)
    requires coords.Length == 2 * idxs.Length && inc < 2
    requires 0 <= lo <= k <= hi < idxs.Length
    requires SoundSampler(est)
    modifies idxs, coords
    ensures PermIn(old(Rows(idxs, coords)), Rows(idxs, coords), lo, hi)
    ensures Splits(Rows(idxs, coords), lo, k, hi, inc)
    ensures Rows(idxs, coords) == Selected(old(Rows(idxs, coords)), k, lo, hi, inc, est)
    decreases hi - lo, 1
  {
    hide *;
    ghost var s0 := Rows(idxs, coords);
    ghost var s := s0;
    var left, right := lo, hi;
    NarrowedStart(s0, lo, hi, inc);
    while right > left
      invariant lo <= left && right <= hi
      invariant left <= k <= right || (left == k + 1 && right == k - 1)
      invariant s == Rows(idxs, coords) && |s| == |s0|
      invariant PermIn(s0, s, lo, hi) && Narrowed(s, lo, left, right, hi, inc)
      invariant Selected(s, k, left, right, inc, est) == Selected(s0, k, lo, hi, inc, est)
      decreases right - left
    {
      var j := SelectPass(idxs, coords, k, left, right, inc, est, s);
      ghost var u := Rows(idxs, coords);
      SelectedStep(s, k, left, right, inc, est, u, j);
      StepKept(s0, s, u, lo, left, right, hi, inc, left, right);
      NarrowedBy(u, lo, left, j, right, hi, inc);
      s := u;
      if j <= k {
        left := j + 1;
      }
      if k <= j {
        right := j - 1;
      }
    }
    NarrowedSplits(s, lo, left, k, right, hi, inc);
    SelectedEnd(s, k, left, right, inc, est);
  }

  /** One turn of the selection loop: sampling first if the slice is long, then a partition. */
  method SelectPass(idxs: array<int>, coords: array<real>, k: int, left: int, right: int, inc: nat, est: Sampler, ghost s: seq<Item>)
    returns (j: int)
    requires coords.Length == 2 * idxs.Length && inc < 2 && s == Rows(idxs, coords)
    requires 0 <= left <= k <= right < |s| && left < right
    requires SoundSampler(est)
    modifies idxs, coords
    ensures left <= j <= right && |Rows(idxs, coords)| == |s|
    ensures PermIn(s, Rows(idxs, coords), left, right)
    ensures Splits(Rows(idxs, coords), left, j, right, inc)
    ensures (Rows(idxs, coords), j) == Partitioned(Sampled(s, k, left, right, inc, est), k, left, right, inc)
    decreases right - left, 0
  {
    hide *;
    ghost var u := s;
    PermSame(s, left, right);
    SampledStep(s, k, left, right, inc, est);
    if right - left > 600 {
      var e := est(right - left + 1);
      SampleIsSound(est, right - left + 1);
      WindowSound(k, left, right, e);
      var (newLeft, newRight) := Window(k, left, right, e);
      Select(idxs, coords, k, newLeft, newRight, inc, est);
      u := Rows(idxs, coords);
      PermWiden(s, u, newLeft, newRight, left, right);
    }
    j := Partition(idxs, coords, k, left, right, inc);
    PermTrans(s, u, Rows(idxs, coords), left, right);
  }

  lemma PermSame(s: seq<Item>, lo: int, hi: int)
    requires 0 <= lo <= hi + 1 <= |s|
    ensures PermIn(s, s, lo, hi)
  {
  }

  lemma NarrowedStart(s: seq<Item>, lo: int, hi: int, inc: nat)
    requires 0 <= lo <= hi < |s|
    ensures PermIn(s, s, lo, hi) && Narrowed(s, lo, lo, hi, hi, inc)
  {
  }

  lemma StepKept(s0: seq<Item>, s: seq<Item>, t: seq<Item>, lo: int, left: int, right: int, hi: int, inc: nat, a: int, b: int)
    requires Narrowed(s, lo, left, right, hi, inc) && PermIn(s0, s, lo, hi)
    requires PermIn(s, t, a, b) && left <= a && b <= right
    ensures Narrowed(t, lo, left, right, hi, inc) && PermIn(s0, t, lo, hi)
  {
    NarrowedKept(s, t, lo, left, right, hi, inc, a, b);
    PermWiden(s, t, a, b, lo, hi);
    PermTrans(s0, s, t, lo, hi);
  }

  /** `sort`: the median of the slice goes to the middle, then both halves on the other axis. */
  method Sort(idxs: array<int>, coords: array<real>, nodeSize: int, left: int, right: int, depth: nat, est: Sampler)
    requires coords.Length == 2 * idxs.Length
    requires -1 <= nodeSize && 0 <= left <= right + 1 <= idxs.Length
    requires SoundSampler(est)
    modifies idxs, coords
    ensures PermIn(old(Rows(idxs, coords)), Rows(idxs, coords), left, right)
    ensures KD(Rows(idxs, coords), nodeSize, left, right, depth % 2)
    ensures Rows(idxs, coords) == SortedRows(old(Rows(idxs, coords)), nodeSize, left, right, depth, est)
    decreases right - left + 1
  {
    hide *;
    ghost var s0 := Rows(idxs, coords);
    SortedStep(s0, nodeSize, left, right, depth, est);
    if right - left <= nodeSize {
      KDLeaf(s0, nodeSize, left, right, depth % 2);
      return;
    }
    var m := Mid(left, right);
    Alternate(depth);
    Select(idxs, coords, m, left, right, depth % 2, est);
    ghost var s1 := Rows(idxs, coords);
    Sort(idxs, coords, nodeSize, left, m - 1, depth + 1, est);
    ghost var s2 := Rows(idxs, coords);
    Sort(idxs, coords, nodeSize, m + 1, right, depth + 1, est);
    SortedHalves(s0, s1, s2, Rows(idxs, coords), nodeSize, left, m, right, depth % 2);
  }

  /** Sorting one half disturbs neither the median's split nor the other half. */
  lemma SortedHalves(s0: seq<Item>, s1: seq<Item>, s2: seq<Item>, s3: seq<Item>, nodeSize: int, left: int, m: int, right: int, axis: Axis)
    requires -1 <= nodeSize < right - left && 0 <= left && right < |s0| && m == Mid(left, right)
    requires PermIn(s0, s1, left, right) && Splits(s1, left, m, right, axis)
    requires PermIn(s1, s2, left, m - 1) && KD(s2, nodeSize, left, m - 1, 1 - axis)
    requires PermIn(s2, s3, m + 1, right) && KD(s3, nodeSize, m + 1, right, 1 - axis)
    ensures PermIn(s0, s3, left, right)
    ensures KD(s3, nodeSize, left, right, axis)
  {
    hide Mid, Splits;
    SplitsKept(s1, s2, left, m, right, axis, left, m - 1);
    SplitsKept(s2, s3, left, m, right, axis, m + 1, right);
    forall p | left <= p <= m - 1 ensures s2[p] == s3[p] {
      PermOutside(s2, s3, m + 1, right, p);
    }
    KDFrame(s2, s3, nodeSize, left, m - 1, 1 - axis);
    PermWiden(s1, s2, left, m - 1, left, right);
    PermWiden(s2, s3, m + 1, right, left, right);
  }
}
