/**
 Which sending leg carries the next packet, under the round-robin policy: plain rotation when all
 weights are equal, smooth weighted round robin otherwise. Weights and credits are exact reals.
 */
module Striping {
  import opened Sequences

  /** Sum of the first n numbers of s. */
  function RealSumTo(s: seq<real>, n: nat): (r: real)
    requires n <= |s|
  {
    if n == 0 then 0.0 else RealSumTo(s, n - 1) + s[n - 1]
  }

  function Sum(s: seq<real>): real { RealSumTo(s, |s|) }

  /** What striping is configured with: at least two legs, non-negative weights that sum to 1. */
  ghost predicate Weights(w: seq<real>) {
    |w| >= 2 && (forall i :: 0 <= i < |w| ==> w[i] >= 0.0) && Sum(w) == 1.0
  }

  function Topped(credits: seq<real>, w: seq<real>): (r: seq<real>)
    requires |credits| == |w|
    ensures |r| == |w|
  {
    seq<real>(|w|, i requires 0 <= i < |w| => credits[i] + w[i])
  }

  /** The first leg with the highest credit. */
  ghost predicate IsBest(credits: seq<real>, best: int) {
    && 0 <= best < |credits|
    && (forall i :: 0 <= i < |credits| ==> credits[i] <= credits[best])
    && (forall i :: 0 <= i < best ==> credits[i] < credits[best])
  }

  function BestOf(credits: seq<real>): (best: nat)
    requires |credits| > 0
    ensures IsBest(credits, best)
  {
    if |credits| == 1 then 0
    else
      var best := BestOf(credits[..|credits| - 1]);
      if credits[|credits| - 1] > credits[best] then |credits| - 1 else best
  }

  lemma BestUnique(credits: seq<real>, a: int, b: int)
    requires IsBest(credits, a) && IsBest(credits, b)
    ensures a == b
  {
    assert credits[a] <= credits[b] <= credits[a];
    if a < b { assert false; }
  }

  function After(credits: seq<real>, w: seq<real>): (r: seq<real>)
    requires |credits| == |w| > 0
    ensures |r| == |w|
  {
    var topped := Topped(credits, w);
    topped[BestOf(topped) := topped[BestOf(topped)] - 1.0]
  }

  function NextLeg(k: nat, leg: nat): (next: nat)
    requires leg < k
    ensures next == if leg + 1 < k then leg + 1 else 0
  {
    (leg + 1) % k
  }

  class Striper {
    const weights: seq<real>
    const equalWeights: bool
    var credit: seq<real>
    var rrNext: nat

    ghost predicate Valid()
      reads this
    {
      |weights| == |credit| > 0 && rrNext < |weights|
    }

    constructor (weights: seq<real>, equalWeights: bool)
      requires |weights| > 0
      ensures Valid() && this.weights == weights && this.equalWeights == equalWeights
      ensures credit == seq(|weights|, _ => 0.0) && rrNext == 0
    {
      this.weights, this.equalWeights := weights, equalWeights;
      credit, rrNext := seq(|weights|, _ => 0.0), 0;
    }

    /** A single leg takes everything; equal weights rotate; otherwise credits decide. */
    method StripePickLeg() returns (leg: nat)
      requires Valid()
      modifies this
      ensures Valid() && leg < |weights|
      ensures if |weights| == 1 then leg == 0 && credit == old(credit) && rrNext == old(rrNext)
              else if equalWeights then leg == old(rrNext) && rrNext == NextLeg(|weights|, leg) && credit == old(credit)
              else leg == BestOf(Topped(old(credit), weights)) && credit == After(old(credit), weights) && rrNext
                   == old(rrNext)
    {
      if |weights| == 1 { return 0; }
      if equalWeights {
        leg := rrNext;
        rrNext := (leg + 1) % |weights|;
      } else {
        leg := PickByCredit();
      }
    }

    /** Tops up every credit, keeping track of the best so far, and charges the best. */
    method PickByCredit() returns (leg: nat)
      requires Valid()
      modifies this
      ensures Valid() && leg == BestOf(Topped(old(credit), weights)) && credit == After(old(credit), weights)
      ensures rrNext == old(rrNext)
    {
      leg := 0;
      for i := 0 to |weights|
        invariant |credit| == |weights| && leg < |weights| && (leg < i || i == leg == 0) && rrNext == old(rrNext)
        invariant forall j :: 0 <= j < i ==> credit[j] == old(credit)[j] + weights[j]
        invariant forall j :: i <= j < |weights| ==> credit[j] == old(credit)[j]
        invariant forall j :: 0 <= j < i ==> credit[j] <= credit[leg]
        invariant forall j :: 0 <= j < leg ==> credit[j] < credit[leg]
      {
        credit := credit[i := credit[i] + weights[i]];
        if credit[i] > credit[leg] { leg := i; }
      }
      assert credit == Topped(old(credit), weights);
      BestUnique(credit, leg, BestOf(credit));
      credit := credit[leg := credit[leg] - 1.0];
    }
  }

  // ---------------------------------------------------------------- smooth weighted round robin

  datatype Tally = Tally(credits: seq<real>, counts: seq<nat>)

  /** Credits and pick counts after n picks. */
  function Picks(w: seq<real>, n: nat): (t: Tally)
    requires |w| > 0
    ensures |t.credits| == |t.counts| == |w|
  {
    if n == 0 then Tally(seq<real>(|w|, _ => 0.0), seq<nat>(|w|, _ => 0))
    else PickOnce(w, Picks(w, n - 1))
  }

  function PickOnce(w: seq<real>, t: Tally): (r: Tally)
    requires |t.credits| == |t.counts| == |w| > 0
    ensures |r.credits| == |r.counts| == |w|
  {
    var leg := BestOf(Topped(t.credits, w));
    Tally(After(t.credits, w), t.counts[leg := t.counts[leg] + 1])
  }

  lemma {:induction false} SumTopped(credits: seq<real>, w: seq<real>, n: nat)
    requires |credits| == |w| && n <= |w|
    ensures RealSumTo(Topped(credits, w), n) == RealSumTo(credits, n) + RealSumTo(w, n)
  {
    if n > 0 { SumTopped(credits, w, n - 1); }
  }

  lemma {:induction false} SumUpdate(s: seq<real>, i: nat, v: real, n: nat)
    requires i < |s| && n <= |s|
    ensures RealSumTo(s[i := v], n) == RealSumTo(s, n) + if i < n then v - s[i] else 0.0
  {
    if n > 0 { SumUpdate(s, i, v, n - 1); }
  }

  lemma {:induction false} RealSumZero(s: seq<real>, n: nat)
    requires n <= |s| && forall i :: 0 <= i < n ==> s[i] == 0.0
    ensures RealSumTo(s, n) == 0.0
  {
    if n > 0 { RealSumZero(s, n - 1); }
  }

  /** n times x, by addition. */
  function Times(n: nat, x: real): real {
    if n == 0 then 0.0 else Times(n - 1, x) + x
  }

  lemma {:induction false} TimesIsProduct(n: nat, x: real)
    ensures Times(n, x) == n as real * x
  {
    if n > 0 { TimesIsProduct(n - 1, x); }
  }

  /** If every number is over -1, the sum of n of them is over -n, also with one of them singled out. */
  lemma {:induction false} SumAbove(s: seq<real>, i: nat, n: nat)
    requires n <= |s| && i < |s| && forall j :: 0 <= j < |s| ==> s[j] > -1.0
    ensures n > 0 ==> RealSumTo(s, n) > -(n as real)
    ensures i < n && n > 1 ==> RealSumTo(s, n) > s[i] - (n - 1) as real
  {
    if n > 0 { SumAbove(s, i, n - 1); }
  }

  lemma {:induction false} SumNotPositive(s: seq<real>, n: nat)
    requires n <= |s| && forall j :: 0 <= j < |s| ==> s[j] <= 0.0
    ensures RealSumTo(s, n) <= 0.0
  {
    if n > 0 { SumNotPositive(s, n - 1); }
  }

  /** Credits sum to 0, and none is as low as -1: a leg is charged 1 when its credit is the highest, hence positive. */
  ghost predicate CreditsOk(w: seq<real>, credits: seq<real>) {
    |credits| == |w| > 0 && Sum(credits) == 0.0 && forall i :: 0 <= i < |w| ==> credits[i] > -1.0
  }

  lemma BestIsPositive(w: seq<real>, credits: seq<real>)
    requires Weights(w) && CreditsOk(w, credits)
    ensures Topped(credits, w)[BestOf(Topped(credits, w))] > 0.0
  {
    var topped := Topped(credits, w);
    SumTopped(credits, w, |w|);
    if topped[BestOf(topped)] <= 0.0 { SumNotPositive(topped, |w|); }
  }

  lemma PickKeepsCredits(w: seq<real>, credits: seq<real>)
    requires Weights(w) && CreditsOk(w, credits)
    ensures CreditsOk(w, After(credits, w))
  {
    var topped := Topped(credits, w);
    var best := BestOf(topped);
    BestIsPositive(w, credits);
    SumTopped(credits, w, |w|);
    SumUpdate(topped, best, topped[best] - 1.0, |w|);
  }

  lemma {:induction false} CreditsAlwaysOk(w: seq<real>, n: nat)
    requires Weights(w)
    ensures CreditsOk(w, Picks(w, n).credits)
  {
    if n == 0 {
      RealSumZero(Picks(w, 0).credits, |w|);
    } else {
      CreditsAlwaysOk(w, n - 1);
      PickKeepsCredits(w, Picks(w, n - 1).credits);
    }
  }

  /** A leg's credit is exactly how far it is behind its share. */
  lemma {:induction false} CreditIsDeficit(w: seq<real>, n: nat, i: nat)
    requires |w| > 0 && i < |w|
    ensures Picks(w, n).credits[i] == Times(n, w[i]) - Picks(w, n).counts[i] as real
  {
    if n > 0 { CreditIsDeficit(w, n - 1, i); }
  }

  /**
   Fairness: credits always sum to 0, and after any number of picks every leg has been picked less
   than one more than its share (n times its weight), and more than its share less k - 1.
   */
  lemma RoundRobinIsFair(w: seq<real>, n: nat, i: nat)
    requires Weights(w) && i < |w|
    ensures Sum(Picks(w, n).credits) == 0.0
    ensures Times(n, w[i]) - (|w| - 1) as real < Picks(w, n).counts[i] as real < Times(n, w[i]) + 1.0
  {
    CreditsAlwaysOk(w, n);
    CreditIsDeficit(w, n, i);
    SumAbove(Picks(w, n).credits, i, |w|);
  }

  /** Every pick goes to exactly one leg. */
  lemma {:induction false} EveryPickCounted(w: seq<real>, n: nat)
    requires |w| > 0
    ensures SumTo(Picks(w, n).counts, |w|) == n
  {
    if n == 0 {
      SumZero(Picks(w, 0).counts, |w|);
    } else {
      EveryPickCounted(w, n - 1);
      PickBumps(w, n);
    }
  }

  lemma PickBumps(w: seq<real>, n: nat)
    requires |w| > 0 && n > 0
    ensures |Picks(w, n).counts| == |Picks(w, n - 1).counts| == |w|
    ensures SumTo(Picks(w, n).counts, |w|) == SumTo(Picks(w, n - 1).counts, |w|) + 1
  {
    var t := Picks(w, n - 1);
    SumBump(t.counts, BestOf(Topped(t.credits, w)), |w|);
  }

  /** Counts that stay at or below shares with the same sum are those shares. */
  lemma {:induction false} NoneBelow(counts: seq<nat>, shares: seq<nat>, n: nat)
    requires n <= |counts| == |shares| && forall i :: 0 <= i < |counts| ==> counts[i] <= shares[i]
    ensures SumTo(counts, n) <= SumTo(shares, n)
    ensures SumTo(counts, n) == SumTo(shares, n) ==> forall i :: 0 <= i < n ==> counts[i] == shares[i]
  {
    if n > 0 { NoneBelow(counts, shares, n - 1); }
  }

  lemma {:induction false} TimesOfSum(m: nat, x: real, y: real)
    ensures Times(m, x + y) == Times(m, x) + Times(m, y)
  {
    if m > 0 { TimesOfSum(m - 1, x, y); }
  }

  lemma {:induction false} SharesSum(w: seq<real>, m: nat, shares: seq<nat>, n: nat)
    requires n <= |w| == |shares| && forall i :: 0 <= i < |w| ==> shares[i] as real == Times(m, w[i])
    ensures SumTo(shares, n) as real == Times(m, RealSumTo(w, n))
  {
    if n > 0 {
      SharesSum(w, m, shares, n - 1);
      TimesOfSum(m, RealSumTo(w, n - 1), w[n - 1]);
    } else {
      TimesIsProduct(m, 0.0);
    }
  }

  /** Whenever all shares are whole numbers, every leg has been picked exactly its share. */
  lemma ExactOnWholeShares(w: seq<real>, m: nat, shares: seq<nat>)
    requires Weights(w) && |shares| == |w| && forall i :: 0 <= i < |w| ==> shares[i] as real == Times(m, w[i])
    ensures Picks(w, m).counts == shares
  {
    var counts := Picks(w, m).counts;
    forall i | 0 <= i < |w| ensures counts[i] <= shares[i] { RoundRobinIsFair(w, m, i); }
    EveryPickCounted(w, m);
    SharesSum(w, m, shares, |w|);
    TimesIsProduct(m, 1.0);
    NoneBelow(counts, shares, |w|);
  }

  /** A leg of weight zero is never picked. */
  lemma {:induction false} ZeroWeightIsIdle(w: seq<real>, n: nat, i: nat)
    requires Weights(w) && i < |w| && w[i] == 0.0
    ensures Picks(w, n).counts[i] == 0 && Picks(w, n).credits[i] == 0.0
  {
    if n > 0 {
      ZeroWeightIsIdle(w, n - 1, i);
      CreditsAlwaysOk(w, n - 1);
      ZeroStep(w, Picks(w, n - 1), i);
    }
  }

  lemma ZeroStep(w: seq<real>, t: Tally, i: nat)
    requires Weights(w) && |t.counts| == |w| && CreditsOk(w, t.credits) && i < |w| && w[i] == 0.0
    requires t.counts[i] == 0 && t.credits[i] == 0.0
    ensures PickOnce(w, t).counts[i] == 0 && PickOnce(w, t).credits[i] == 0.0
  {
    BestIsPositive(w, t.credits);
  }

  // ---------------------------------------------------------------- equal weights

  /** The leg whose turn is next, and the pick counts so far. */
  datatype Turns = Turns(next: nat, counts: seq<nat>)

  /** n picks of the rotation over k legs. */
  function Rotation(k: nat, n: nat): (t: Turns)
    requires k > 0
    ensures |t.counts| == k && t.next < k
  {
    if n == 0 then Turns(0, seq<nat>(k, _ => 0))
    else
      var t := Rotation(k, n - 1);
      Turns(NextLeg(k, t.next), t.counts[t.next := t.counts[t.next] + 1])
  }

  /** Legs before the one whose turn is next have been picked once more than the others. */
  lemma {:induction false} RotationShape(k: nat, n: nat, i: nat)
    requires i < k
    ensures var t := Rotation(k, n); t.counts[i] == t.counts[k - 1] + if i < t.next then 1 else 0
  {
    if n > 0 {
      RotationShape(k, n - 1, i);
      RotationShape(k, n - 1, Rotation(k, n - 1).next);
    }
  }

  /** Rotation keeps all legs within one pick of each other. */
  lemma RotationWithinOne(k: nat, n: nat, i: nat, j: nat)
    requires i < k && j < k
    ensures -1 <= Rotation(k, n).counts[i] as int - Rotation(k, n).counts[j] as int <= 1
  {
    RotationShape(k, n, i);
    RotationShape(k, n, j);
  }
}
