/** The sampling step of `sselect`: the window around k to which Floyd-Rivest selection is applied
    first, and why it is always sound and strictly narrower. */
module Sampling {

  /** What the sampling step computes from n: z = ln n, s = e^(2z/3)/2, and the unsigned sd. */
  datatype Sample = Sample(z: real, s: real, sd: real)

  type Sampler = nat -> Sample

  /** The only facts about logarithm, exponential and square root the window needs. */
  ghost predicate SoundSample(n: nat, e: Sample) {
    && 0.0 <= e.z <= e.s < n as real - 2.0
    && 0.0 <= e.sd
    && 4.0 * e.sd * e.sd * n as real == e.z * e.s * (n as real - e.s)
  }

  ghost predicate SoundSampler(est: Sampler) {
    forall n: nat :: n > 600 ==> SoundSample(n, est(n))
  }

  lemma SampleIsSound(est: Sampler, n: nat)
    requires SoundSampler(est) && n > 600
    ensures SoundSample(n, est(n))
  {
  }

  function IMax(a: int, b: int): int { if a > b then a else b }

  function IMin(a: int, b: int): int { if a < b then a else b }

  /** part/n of s, with its sign turned or not by the caller. */
  function Share(part: int, n: int, s: real): real
    requires n > 0
  {
    part as real * s / n as real
  }

  /** The unsigned deviation gets the sign of the side on which k lies. */
  function Deviation(m: int, n: int, e: Sample): real {
    if m as real - n as real / 2.0 < 0.0 then -e.sd else e.sd
  }

  /** newLeft and newRight of the sampling step, before the recursive call. */
  function Window(k: int, left: int, right: int, e: Sample): (int, int)
    requires left <= k <= right
  {
    var n := right - left + 1;
    var m := k - left + 1;
    var sd := Deviation(m, n, e);
    (IMax(left, (k as real - Share(m, n, e.s) + sd).Floor),
     IMin(right, (k as real + Share(n - m, n, e.s) + sd).Floor))
  }

  lemma Cancel(a: real, b: real, n: real)
    requires n > 0.0 && a * n <= b * n
    ensures a <= b
  {
    assert (b - a) * n >= 0.0;
  }

  /** sd never exceeds s/2. */
  lemma DeviationBound(n: nat, e: Sample)
    requires n > 600 && SoundSample(n, e)
    ensures e.sd <= e.s / 2.0
  {
    var r := n as real;
    MulMono(e.z, e.s, e.s);
    MulMono(e.z * e.s, e.s * e.s, r - e.s);
    MulMono(r - e.s, r, e.s * e.s);
    Cancel(4.0 * e.sd * e.sd, e.s * e.s, r);
    SquareOrder(2.0 * e.sd, e.s);
  }

  lemma SquareOrder(a: real, b: real)
    requires 0.0 <= a && 0.0 <= b && a * a <= b * b
    ensures a <= b
  {
    if a + b > 0.0 {
      Cancel(a, b, a + b);
    }
  }

  lemma MulMono(a: real, b: real, c: real)
    requires a <= b && 0.0 <= c
    ensures a * c <= b * c
  {
  }

  lemma DivMul(x: real, n: real)
    requires n > 0.0
    ensures x / n * n == x
  {
  }

  /** A share of s is not negative, and is at least half of s once part is half of n. */
  lemma ShareBounds(part: int, n: int, s: real)
    requires n > 0 && 0 <= part <= n && 0.0 <= s
    ensures 0.0 <= Share(part, n, s)
    ensures 2 * part >= n ==> Share(part, n, s) >= s / 2.0
  {
    var p, r := part as real, n as real;
    DivMul(p * s, r);
    MulMono(0.0, p, s);
    Cancel(0.0, Share(part, n, s), r);
    if 2 * part >= n {
      MulMono(r / 2.0, p, s);
      Cancel(s / 2.0, Share(part, n, s), r);
    }
  }

  /** Two complementary shares of s add up to s. */
  lemma ShareSum(m: int, n: int, s: real)
    requires n > 0
    ensures Share(m, n, s) + Share(n - m, n, s) == s
  {
    var u, v, r := Share(m, n, s), Share(n - m, n, s), n as real;
    DivMul(m as real * s, r);
    DivMul((n - m) as real * s, r);
    assert (u + v) * r == s * r;
    Cancel(u + v, s, r);
    Cancel(s, u + v, r);
  }

  /** The deviation never carries k out of its window. */
  lemma DeviationBetween(m: int, n: int, e: Sample)
    requires 1 <= m <= n && n > 600 && SoundSample(n, e)
    ensures var sd := Deviation(m, n, e); sd - Share(m, n, e.s) <= 0.0 <= Share(n - m, n, e.s) + sd
  {
    DeviationBound(n, e);
    ShareBounds(m, n, e.s);
    ShareBounds(n - m, n, e.s);
  }

  /** The rounding argument, free of products: lower and upper are the two shares of s. */
  lemma FloorWindow(k: int, width: int, s: real, sd: real, lower: real, upper: real)
    requires lower + upper == s && s < width as real - 1.0
    requires sd - lower <= 0.0 <= upper + sd
    ensures (k as real - lower + sd).Floor <= k <= (k as real + upper + sd).Floor
    ensures (k as real + upper + sd).Floor - (k as real - lower + sd).Floor < width
  {
  }

  /** The clamped window holds k, stays inside [left,right] and is strictly narrower. */
  lemma WindowSound(k: int, left: int, right: int, e: Sample)
    requires left <= k <= right && right - left > 600
    requires SoundSample(right - left + 1, e)
    ensures var (nl, nr) := Window(k, left, right, e);
            left <= nl <= k <= nr <= right && nr - nl < right - left
  {
    var n := right - left + 1;
    var m := k - left + 1;
    DeviationBetween(m, n, e);
    ShareSum(m, n, e.s);
    FloorWindow(k, right - left, e.s, Deviation(m, n, e), Share(m, n, e.s), Share(n - m, n, e.s));
  }

  /** Unclamped, the window is s wide; k divides it as it divides the slice, but for the deviation,
      which shifts it down when k lies in the lower half and up otherwise. */
  lemma WindowPlace(k: int, left: int, right: int, e: Sample) returns (lower: real, upper: real)
    requires left <= k <= right
    ensures lower + upper == e.s && lower * (right - left + 1) as real == (k - left + 1) as real * e.s
    ensures var (nl, nr) := Window(k, left, right, e);
      var sd := if 2 * (k - left + 1) < right - left + 1 then -e.sd else e.sd;
      var lo, hi := (k as real - lower + sd).Floor, (k as real + upper + sd).Floor;
      nl == (if lo < left then left else lo) && nr == (if hi > right then right else hi)
  {
    var n, m := right - left + 1, k - left + 1;
    ShareSum(m, n, e.s);
    DivMul(m as real * e.s, n as real);
    lower, upper := Share(m, n, e.s), Share(n - m, n, e.s);
  }
}
