/** Which arrangement of the rows `sselect` and `sort` end in: the same exchanges as functions on
    row sequences. The in-place methods are proved to compute these, so two sorts of the same
    points leave the same rows. */
module SortSpec {
  import opened KDTree
  import opened Sampling

  /** The first position from i on whose row is not below t. */
  ghost function ScannedUp(s: seq<Item>, i: int, inc: nat, t: real): (r: int)
    ensures r >= i
    decreases |s| - i
  {
    if !(0 <= i < |s|) || Key(s[i], inc) >= t then i else ScannedUp(s, i + 1, inc, t)
  }

  /** The last position up to j whose row is not above t. */
  ghost function ScannedDown(s: seq<Item>, j: int, inc: nat, t: real): (r: int)
    ensures r <= j
    decreases j + 1
  {
    if !(0 <= j < |s|) || Key(s[j], inc) <= t then j else ScannedDown(s, j - 1, inc, t)
  }

  /** Exchange, scan inwards, until the two positions have met. */
  ghost function Met(s: seq<Item>, i: int, j: int, inc: nat, t: real): (r: (seq<Item>, int))
    ensures |r.0| == |s|
    decreases j - i
  {
    if !(0 <= i < j < |s|) then (s, j) else
    var u := Swapped(s, i, j);
    Met(u, ScannedUp(u, i + 1, inc, t), ScannedDown(u, j - 1, inc, t), inc, t)
  }

  ghost function Seated(s: seq<Item>, k: int, left: int, right: int, inc: nat): (r: seq<Item>)
    requires 0 <= left <= k <= right < |s|
    ensures |r| == |s|
  {
    var u := Swapped(s, left, k);
    if Key(u[right], inc) > Key(s[k], inc) then Swapped(u, left, right) else u
  }

  /** One pass over left..right around the value at k, and where that value ends up. */
  ghost function Partitioned(s: seq<Item>, k: int, left: int, right: int, inc: nat): (r: (seq<Item>, int))
    requires 0 <= left <= k <= right < |s|
    ensures |r.0| == |s|
  {
    var t := Key(s[k], inc);
    var (v, j) := Met(Seated(s, k, left, right, inc), left, right, inc, t);
    if Key(v[left], inc) == t then (if 0 <= j < |v| then Swapped(v, left, j) else v, j)
    else (if 0 <= j + 1 < |v| then Swapped(v, j + 1, right) else v, j + 1)
  }

  /** Passes, each after sampling if the slice is long, until only k is left. */
  ghost function Selected(s: seq<Item>, k: int, left: int, right: int, inc: nat, est: Sampler): (r: seq<Item>)
    requires 0 <= left && right < |s|
    ensures |r| == |s|
    decreases right - left
  {
    if !(left <= k <= right && left < right) then s else
    var u := Sampled(s, k, left, right, inc, est);
    var (v, j) := Partitioned(u, k, left, right, inc);
    if !(left <= j <= right) then v else
    Selected(v, k, if j <= k then j + 1 else left, if k <= j then j - 1 else right, inc, est)
  }

  ghost function Sampled(s: seq<Item>, k: int, left: int, right: int, inc: nat, est: Sampler): (r: seq<Item>)
    requires 0 <= left <= k <= right < |s|
    ensures |r| == |s|
    decreases right - left, 0
  {
    if right - left <= 600 then s else
    var (nl, nr) := Window(k, left, right, est(right - left + 1));
    if left <= nl && nr <= right && nr - nl < right - left then Selected(s, k, nl, nr, inc, est) else s
  }

  /** The rows of a slice after sorting it from this depth on. */
  ghost function SortedRows(s: seq<Item>, nodeSize: int, left: int, right: int, depth: nat, est: Sampler): (r: seq<Item>)
    requires -1 <= nodeSize && 0 <= left <= right + 1 <= |s|
    ensures |r| == |s|
    decreases right - left + 1
  {
    if right - left <= nodeSize then s else
    var m := Mid(left, right);
    var u := Selected(s, m, left, right, depth % 2, est);
    SortedRows(SortedRows(u, nodeSize, left, m - 1, depth + 1, est), nodeSize, m + 1, right, depth + 1, est)
  }

  /** i is the first position from `from` on whose row is not below t. */
  ghost predicate StopsUp(s: seq<Item>, from: int, i: int, inc: nat, t: real) {
    0 <= from <= i < |s| && Key(s[i], inc) >= t && forall p :: from <= p < i ==> Key(s[p], inc) < t
  }

  /** j is the last position up to `from` whose row is not above t. */
  ghost predicate StopsDown(s: seq<Item>, from: int, j: int, inc: nat, t: real) {
    0 <= j <= from < |s| && Key(s[j], inc) <= t && forall p :: j < p <= from ==> Key(s[p], inc) > t
  }

  lemma {:induction false} ScannedUpIs(s: seq<Item>, from: int, i: int, inc: nat, t: real)
    requires StopsUp(s, from, i, inc, t)
    ensures ScannedUp(s, from, inc, t) == i
    decreases i - from
  {
    if from < i {
      ScannedUpIs(s, from + 1, i, inc, t);
    }
  }

  lemma {:induction false} ScannedDownIs(s: seq<Item>, from: int, j: int, inc: nat, t: real)
    requires StopsDown(s, from, j, inc, t)
    ensures ScannedDown(s, from, inc, t) == j
    decreases from - j
  {
    if j < from {
      ScannedDownIs(s, from - 1, j, inc, t);
    }
  }

  lemma MetStep(s: seq<Item>, i: int, j: int, inc: nat, t: real, i': int, j': int)
    requires 0 <= i < j < |s|
    requires StopsUp(Swapped(s, i, j), i + 1, i', inc, t) && StopsDown(Swapped(s, i, j), j - 1, j', inc, t)
    ensures Met(s, i, j, inc, t) == Met(Swapped(s, i, j), i', j', inc, t)
  {
    ScannedUpIs(Swapped(s, i, j), i + 1, i', inc, t);
    ScannedDownIs(Swapped(s, i, j), j - 1, j', inc, t);
    hide StopsUp, StopsDown, ScannedUp, ScannedDown;
  }

  lemma MetEnd(s: seq<Item>, i: int, j: int, inc: nat, t: real)
    requires i >= j
    ensures Met(s, i, j, inc, t) == (s, j)
  {
  }

  lemma SelectedStep(s: seq<Item>, k: int, left: int, right: int, inc: nat, est: Sampler, v: seq<Item>, j: int)
    requires 0 <= left <= k <= right < |s| && left < right && left <= j <= right && |v| == |s|
    requires (v, j) == Partitioned(Sampled(s, k, left, right, inc, est), k, left, right, inc)
    ensures Selected(s, k, left, right, inc, est)
         == Selected(v, k, if j <= k then j + 1 else left, if k <= j then j - 1 else right, inc, est)
  {
  }

  lemma SelectedEnd(s: seq<Item>, k: int, left: int, right: int, inc: nat, est: Sampler)
    requires 0 <= left && right < |s| && left >= right
    ensures Selected(s, k, left, right, inc, est) == s
  {
  }

  lemma SampledStep(s: seq<Item>, k: int, left: int, right: int, inc: nat, est: Sampler)
    requires 0 <= left <= k <= right < |s|
    ensures right - left <= 600 ==> Sampled(s, k, left, right, inc, est) == s
    ensures right - left > 600 ==>
      var (nl, nr) := Window(k, left, right, est(right - left + 1));
      left <= nl && nr <= right && nr - nl < right - left ==>
        Sampled(s, k, left, right, inc, est) == Selected(s, k, nl, nr, inc, est)
  {
  }

  lemma SortedStep(s: seq<Item>, nodeSize: int, left: int, right: int, depth: nat, est: Sampler)
    requires -1 <= nodeSize && 0 <= left <= right + 1 <= |s|
    ensures right - left <= nodeSize ==> SortedRows(s, nodeSize, left, right, depth, est) == s
    ensures right - left > nodeSize ==>
      var m := Mid(left, right);
      var u := Selected(s, m, left, right, depth % 2, est);
      SortedRows(s, nodeSize, left, right, depth, est)
      == SortedRows(SortedRows(u, nodeSize, left, m - 1, depth + 1, est), nodeSize, m + 1, right, depth + 1, est)
  {
  }
}
