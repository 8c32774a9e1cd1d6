/** Sign vectors, their weighted sums, and the counting facts behind the exact tests. */
module Combinatorics {
  import opened Basics

  function Sum(xs: seq<nat>): nat {
    if xs == [] then 0 else Sum(xs[..|xs| - 1]) + xs[|xs| - 1]
  }

  /** The number of ways to choose k out of n, by Pascal's rule. */
  function Binomial(n: nat, k: nat): nat {
    if k == 0 then 1
    else if n == 0 then 0
    else Binomial(n - 1, k) + Binomial(n - 1, k - 1)
  }

  /** Every assignment of a sign (true for positive) to n observations. */
  function SignVectors(n: nat): (r: set<seq<bool>>)
    ensures forall b :: b in r <==> |b| == n
  {
    if n == 0 then {[]}
    else
      var shorter := SignVectors(n - 1);
      assert forall b: seq<bool> | |b| == n ::
          b in Extend(shorter, true) || b in Extend(shorter, false) by {
        forall b: seq<bool> | |b| == n
          ensures b in Extend(shorter, true) || b in Extend(shorter, false)
        {
          var init := b[..n - 1];
          assert init in shorter;
          assert if b[n - 1] then b == init + [true] else b == init + [false];
        }
      }
      Extend(shorter, true) + Extend(shorter, false)
  }

  function Extend(s: set<seq<bool>>, sign: bool): (r: set<seq<bool>>)
  {
    set b | b in s :: b + [sign]
  }

  lemma {:induction false} ExtendCard(s: set<seq<bool>>, sign: bool)
    ensures |Extend(s, sign)| == |s|
  {
    if s != {} {
      var b :| b in s;
      ExtendCard(s - {b}, sign);
      var rest := Extend(s - {b}, sign);
      forall c | c in s - {b} ensures c + [sign] != b + [sign] {
        assert (c + [sign])[..|c|] == c && (b + [sign])[..|b|] == b;
      }
      assert Extend(s, sign) == rest + {b + [sign]};
    }
  }

  lemma {:induction false} SignVectorsCard(n: nat)
    ensures |SignVectors(n)| == Pow2(n)
  {
    if n > 0 {
      SignVectorsCard(n - 1);
      ExtendUnionCard(SignVectors(n), SignVectors(n - 1), SignVectors(n - 1));
    }
  }

  lemma ExtendDisjoint(s: set<seq<bool>>, t: set<seq<bool>>)
    ensures Extend(s, true) !! Extend(t, false)
  {
    forall b | b in Extend(s, true) ensures b !in Extend(t, false) {
      assert b[|b| - 1];
    }
  }

  /** The rank sum W+ of the observations that b marks positive. */
  function PositiveSum(ranks: seq<nat>, b: seq<bool>): nat
    requires |b| == |ranks|
  {
    if ranks == [] then 0
    else
      var n := |ranks| - 1;
      PositiveSum(ranks[..n], b[..n]) + if b[n] then ranks[n] else 0
  }

  function Flip(b: seq<bool>): (r: seq<bool>)
    ensures |r| == |b| && forall i :: 0 <= i < |b| ==> r[i] == !b[i]
  {
    seq(|b|, i requires 0 <= i < |b| => !b[i])
  }

  lemma {:induction false} PositiveSumFlip(ranks: seq<nat>, b: seq<bool>)
    requires |b| == |ranks|
    ensures PositiveSum(ranks, b) + PositiveSum(ranks, Flip(b)) == Sum(ranks)
  {
    if ranks != [] {
      var n := |ranks| - 1;
      PositiveSumFlip(ranks[..n], b[..n]);
      assert Flip(b)[..n] == Flip(b[..n]);
    }
  }

  /** The sign vectors whose rank sum is exactly s, and those whose rank sum is at most t. */
  function WithSum(ranks: seq<nat>, s: int): set<seq<bool>> {
    set b | b in SignVectors(|ranks|) && PositiveSum(ranks, b) == s
  }

  function LowTail(ranks: seq<nat>, t: int): set<seq<bool>> {
    set b | b in SignVectors(|ranks|) && PositiveSum(ranks, b) <= t
  }

  function HighTail(ranks: seq<nat>, t: int): set<seq<bool>> {
    set b | b in SignVectors(|ranks|) && PositiveSum(ranks, b) >= Sum(ranks) - t
  }

  /** The knapsack recurrence: how many sub-collections of ranks add up to s. */
  function SubsetCount(ranks: seq<nat>, s: int): nat {
    if ranks == [] then if s == 0 then 1 else 0
    else
      var n := |ranks| - 1;
      SubsetCount(ranks[..n], s) + SubsetCount(ranks[..n], s - ranks[n])
  }

  lemma {:induction false} SubsetCountOutside(ranks: seq<nat>, s: int)
    requires s < 0 || s > Sum(ranks)
    ensures SubsetCount(ranks, s) == 0
  {
    if ranks != [] {
      var n := |ranks| - 1;
      SubsetCountOutside(ranks[..n], s);
      SubsetCountOutside(ranks[..n], s - ranks[n]);
    }
  }

  lemma WithSumOfNothing(s: int)
    ensures WithSum([], s) == if s == 0 then {[]} else {}
  {
    assert SignVectors(0) == {[]};
  }

  /** The recurrence counts sign vectors. */
  lemma {:induction false} SubsetCountIsCard(ranks: seq<nat>, s: int)
    ensures SubsetCount(ranks, s) == |WithSum(ranks, s)|
  {
    hide WithSum, PositiveSum, SignVectors, Extend;
    if ranks == [] {
      WithSumOfNothing(s);
    } else {
      var n := |ranks| - 1;
      SubsetCountIsCard(ranks[..n], s);
      SubsetCountIsCard(ranks[..n], s - ranks[n]);
      WithSumSplit(ranks, s);
      ExtendUnionCard(WithSum(ranks, s), WithSum(ranks[..n], s - ranks[n]), WithSum(ranks[..n], s));
    }
  }

  lemma ExtendUnionCard(whole: set<seq<bool>>, s: set<seq<bool>>, t: set<seq<bool>>)
    requires whole == Extend(s, true) + Extend(t, false)
    ensures |whole| == |s| + |t|
  {
    ExtendCard(s, true);
    ExtendCard(t, false);
    ExtendDisjoint(s, t);
  }

  lemma WithSumSplit(ranks: seq<nat>, s: int)
    requires ranks != []
    ensures var n := |ranks| - 1;
            WithSum(ranks, s) == Extend(WithSum(ranks[..n], s - ranks[n]), true) + Extend(WithSum(ranks[..n], s), false)
  {
    var n := |ranks| - 1;
    var split := Extend(WithSum(ranks[..n], s - ranks[n]), true) + Extend(WithSum(ranks[..n], s), false);
    forall b | b in WithSum(ranks, s) ensures b in split {
      assert b == b[..n] + [b[n]];
    }
    forall b | b in split ensures b in WithSum(ranks, s) {
      assert |b| == |ranks|;
    }
  }

  /** Accumulating the counts 0..t gives the size of the low tail. */
  function CumulativeCount(ranks: seq<nat>, t: int): nat
    decreases t + 1
  {
    if t < 0 then 0 else CumulativeCount(ranks, t - 1) + SubsetCount(ranks, t)
  }

  lemma {:induction false} CumulativeCountIsLowTail(ranks: seq<nat>, t: int)
    ensures CumulativeCount(ranks, t) == |LowTail(ranks, t)|
    decreases t + 1
  {
    if t < 0 {
      assert LowTail(ranks, t) == {};
    } else {
      CumulativeCountIsLowTail(ranks, t - 1);
      SubsetCountIsCard(ranks, t);
      assert LowTail(ranks, t) == LowTail(ranks, t - 1) + WithSum(ranks, t);
    }
  }

  function FlipAll(s: set<seq<bool>>): set<seq<bool>> {
    set b | b in s :: Flip(b)
  }

  lemma {:induction false} FlipAllCard(s: set<seq<bool>>)
    ensures |FlipAll(s)| == |s|
  {
    if s != {} {
      var b :| b in s;
      FlipAllCard(s - {b});
      forall c | c in s - {b} ensures Flip(c) != Flip(b) {
        assert Flip(Flip(c)) == c && Flip(Flip(b)) == b;
      }
      assert FlipAll(s) == FlipAll(s - {b}) + {Flip(b)};
    }
  }

  /** Flipping every sign exchanges sum s with total - s and the low tail with the high tail. */
  lemma FlipSymmetry(ranks: seq<nat>, t: int)
    ensures |HighTail(ranks, t)| == |LowTail(ranks, t)|
    ensures |WithSum(ranks, t)| == |WithSum(ranks, Sum(ranks) - t)|
  {
    FlippedTails(ranks, t);
    hide *;
    FlipAllCard(LowTail(ranks, t));
    FlipAllCard(WithSum(ranks, t));
  }

  lemma FlippedTails(ranks: seq<nat>, t: int)
    ensures HighTail(ranks, t) == FlipAll(LowTail(ranks, t))
    ensures WithSum(ranks, Sum(ranks) - t) == FlipAll(WithSum(ranks, t))
  {
    forall b: seq<bool> | |b| == |ranks|
      ensures PositiveSum(ranks, b) + PositiveSum(ranks, Flip(b)) == Sum(ranks) && Flip(Flip(b)) == b
    {
      PositiveSumFlip(ranks, b);
    }
  }

  /** All the counts together are the 2^n sign vectors. */
  lemma CountsTotal(ranks: seq<nat>)
    ensures CumulativeCount(ranks, Sum(ranks)) == Pow2(|ranks|)
  {
    CumulativeCountIsLowTail(ranks, Sum(ranks));
    SignVectorsCard(|ranks|);
    forall b | b in SignVectors(|ranks|) ensures PositiveSum(ranks, b) <= Sum(ranks) {
      PositiveSumFlip(ranks, b);
    }
    assert LowTail(ranks, Sum(ranks)) == SignVectors(|ranks|);
  }
}
