/** Which of the visited points `FindInRadius` settles on (geocoder/locator.go and
    geocoder/locator_disk.go): the fold over the matches in visiting order, and how far it is
    from "the closest one". */
module Nearest {

  /** A match, as the fold sees it. */
  datatype Candidate = Candidate(dist: real, weight: int)

  /** c displaces the best one so far: by being closer, or by being heavier. */
  predicate Displaces(c: Candidate, best: Candidate) {
    c.dist < best.dist || c.weight > best.weight
  }

  /** The index the fold ends with, -1 when there was nothing. */
  function Winner(cs: seq<Candidate>): (w: int)
    ensures if cs == [] then w == -1 else 0 <= w < |cs|
  {
    if cs == [] then -1 else
    var w, last := Winner(cs[..|cs| - 1]), |cs| - 1;
    if w < 0 || Displaces(cs[last], cs[w]) then last else w
  }

  /** k displaced everything that was best when it was visited, and nothing displaced k. */
  predicate Settled(cs: seq<Candidate>, k: int) {
    && 0 <= k < |cs|
    && (k == 0 || Displaces(cs[k], cs[Winner(cs[..k])]))
    && forall j :: k < j < |cs| ==> cs[j].dist >= cs[k].dist && cs[j].weight <= cs[k].weight
  }

  lemma {:induction false} WinnerUpTo(cs: seq<Candidate>, k: nat)
    requires Settled(cs, k)
    ensures Winner(cs) == k
  {
    var front := cs[..|cs| - 1];
    if k < |cs| - 1 {
      assert front[..k] == cs[..k];
      WinnerUpTo(front, k);
    }
  }

  /** The winner is the one match that is neither further nor lighter than any visited after it, and
      that displaced the best of those before it. */
  lemma {:induction false} WinnerIffSettled(cs: seq<Candidate>, k: int)
    requires cs != []
    ensures k == Winner(cs) <==> Settled(cs, k)
  {
    if Settled(cs, k) {
      WinnerUpTo(cs, k);
    }
    if k == Winner(cs) {
      WinnerSettled(cs);
    }
  }

  lemma {:induction false} WinnerSettled(cs: seq<Candidate>)
    requires cs != []
    ensures Settled(cs, Winner(cs))
  {
    var front, last := cs[..|cs| - 1], |cs| - 1;
    if front != [] {
      WinnerSettled(front);
      var w := Winner(front);
      assert front[..w] == cs[..w];
    }
  }

  // ---------------------------------------------------------------------------
  // Closest

  predicate Closest(cs: seq<Candidate>, k: int) {
    0 <= k < |cs| && forall j :: 0 <= j < |cs| ==> cs[k].dist <= cs[j].dist
  }

  predicate SameWeight(cs: seq<Candidate>) {
    forall i, j :: 0 <= i < j < |cs| ==> cs[i].weight == cs[j].weight
  }

  predicate NonIncreasing(weights: seq<int>) {
    forall i :: 0 <= i < |weights| - 1 ==> weights[i] >= weights[i + 1]
  }

  function Weights(cs: seq<Candidate>): (ws: seq<int>)
    ensures |ws| == |cs|
  {
    seq(|cs|, i requires 0 <= i < |cs| => cs[i].weight)
  }

  lemma {:induction false} Falls(ws: seq<int>, i: nat, j: nat)
    requires NonIncreasing(ws) && i <= j < |ws|
    ensures ws[i] >= ws[j]
    decreases j - i
  {
    if i < j {
      Falls(ws, i, j - 1);
    }
  }

  /** While no match is heavier than one before it, the fold is the search for the minimum. */
  lemma {:induction false} FallingWeights(cs: seq<Candidate>)
    requires cs != [] && NonIncreasing(Weights(cs))
    ensures Closest(cs, Winner(cs))
    ensures forall j :: 0 <= j < Winner(cs) ==> cs[j].dist > cs[Winner(cs)].dist
  {
    var front, last := cs[..|cs| - 1], |cs| - 1;
    if front != [] {
      assert Weights(front) == Weights(cs)[..last];
      FallingWeights(front);
      Falls(Weights(cs), Winner(front), last);
    }
  }

  /** With one weight for all, whatever the visiting order, a closest match is picked: the first. */
  lemma {:induction false} SameWeightClosest(cs: seq<Candidate>)
    requires cs != [] && SameWeight(cs)
    ensures Closest(cs, Winner(cs)) && forall j :: 0 <= j < Winner(cs) ==> cs[j].dist > cs[Winner(cs)].dist
  {
    FallingWeights(cs);
  }

  /** A match that is both a closest and a heaviest one cannot be displaced for good: the pick is
      as close and as heavy. */
  lemma {:induction false} ClosestAndHeaviest(cs: seq<Candidate>, d: nat)
    requires d < |cs| && forall j :: 0 <= j < |cs| ==> cs[d].dist <= cs[j].dist && cs[j].weight <= cs[d].weight
    ensures cs[Winner(cs)].dist == cs[d].dist && cs[Winner(cs)].weight == cs[d].weight
  {
    var front, last := cs[..|cs| - 1], |cs| - 1;
    if d < last {
      ClosestAndHeaviest(front, d);
    }
  }

  lemma {:induction false} SomeClosest(cs: seq<Candidate>) returns (k: nat)
    requires cs != []
    ensures Closest(cs, k)
  {
    k := 0;
    if |cs| > 1 {
      var j := SomeClosest(cs[1..]);
      assert forall i :: 1 <= i < |cs| ==> cs[1..][i - 1] == cs[i];
      k := if cs[0].dist <= cs[j + 1].dist then 0 else j + 1;
    }
  }

  /** The documentation says "closest". It is so for every choice of distances exactly when the
      weights never rise in visiting order. */
  lemma ClosestIffNonIncreasing(ws: seq<int>)
    ensures NonIncreasing(ws) <==> forall cs: seq<Candidate> :: Weights(cs) == ws && cs != [] ==> Closest(cs, Winner(cs))
  {
    if NonIncreasing(ws) {
      forall cs: seq<Candidate> | Weights(cs) == ws && cs != [] ensures Closest(cs, Winner(cs)) {
        FallingWeights(cs);
      }
    } else {
      var i :| 0 <= i < |ws| - 1 && ws[i] < ws[i + 1];
      var cs := Misled(ws, i);
      NotClosest(ws, i);
    }
  }

  /** Distance 0 just before a heavier match, 1 there, and 2 everywhere else. */
  function Misled(ws: seq<int>, i: nat): (cs: seq<Candidate>)
    ensures |cs| == |ws| && Weights(cs) == ws
  {
    seq(|ws|, k requires 0 <= k < |ws| => Candidate(if k == i then 0.0 else if k == i + 1 then 1.0 else 2.0, ws[k]))
  }

  lemma NotClosest(ws: seq<int>, i: nat)
    requires i + 1 < |ws| && ws[i] < ws[i + 1]
    ensures !Closest(Misled(ws, i), Winner(Misled(ws, i)))
  {
    var cs := Misled(ws, i);
    assert cs[..|cs|] == cs;
    Overtaken(cs, i, |cs|);
    assert cs[i].dist == 0.0 && cs[Winner(cs)].dist > 0.0;
  }

  lemma {:induction false} Overtaken(cs: seq<Candidate>, i: nat, n: nat)
    requires i + 2 <= n <= |cs| && cs[i].weight < cs[i + 1].weight
    requires cs[i + 1].dist == 1.0 && forall k :: 0 <= k < i ==> cs[k].dist == 2.0
    ensures Winner(cs[..n]) > i
  {
    assert cs[..n][..n - 1] == cs[..n - 1];
    if n > i + 2 {
      Overtaken(cs, i, n - 1);
    }
  }

  /** Two matches are enough: one at the very place asked for, then a heavier one further off. */
  lemma HeavierWins()
    ensures var cs := [Candidate(0.0, 0), Candidate(1.0, 1)]; Winner(cs) == 1 && !Closest(cs, Winner(cs))
  {
    var cs := [Candidate(0.0, 0), Candidate(1.0, 1)];
    assert cs[..1] == [cs[0]];
    assert cs[..1][..0] == [];
  }
}
