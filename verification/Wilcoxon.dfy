/** The two-sided Wilcoxon signed-rank test with its exact null distribution. */
module Wilcoxon {
  import opened Basics
  import opened Combinatorics
  import opened Ranks

  // NoData: every delta is zero. Approximate: more than 25 deltas, where the p-value is a
  // normal approximation that is not part of this model.
  datatype TestResult =
    | NoData
    | Exact(wPos: real, p: real, n: nat)
    | Approximate(wPos: real, n: nat)

  const EXACT_LIMIT := 25

  function Abs(x: real): (r: real)
    ensures r >= 0.0 && (r == x || r == -x)
  {
    if x < 0.0 then -x else x
  }

  function NonZero(deltas: seq<real>): (r: seq<real>)
    ensures forall k :: 0 <= k < |r| ==> r[k] != 0.0
  {
    if deltas == [] then []
    else
      var n := |deltas| - 1;
      NonZero(deltas[..n]) + if deltas[n] != 0.0 then [deltas[n]] else []
  }

  /** Exactly the zeros go: every other delta is kept as often as it occurs. */
  lemma {:induction false} NonZeroKeeps(deltas: seq<real>, x: real)
    ensures multiset(NonZero(deltas))[x] == if x == 0.0 then 0 else multiset(deltas)[x]
  {
    if deltas != [] {
      var n := |deltas| - 1;
      NonZeroKeeps(deltas[..n], x);
      assert deltas == deltas[..n] + [deltas[n]];
    }
  }

  lemma {:induction false} NonZeroSize(deltas: seq<real>)
    ensures |NonZero(deltas)| == |deltas| - multiset(deltas)[0.0]
    ensures NonZero(deltas) == [] <==> forall k :: 0 <= k < |deltas| ==> deltas[k] == 0.0
  {
    if deltas != [] {
      var n := |deltas| - 1;
      NonZeroSize(deltas[..n]);
      assert deltas == deltas[..n] + [deltas[n]];
    }
  }

  function Magnitudes(nz: seq<real>): (r: seq<real>)
    ensures |r| == |nz| && forall k :: 0 <= k < |nz| ==> r[k] == Abs(nz[k])
  {
    seq(|nz|, k requires 0 <= k < |nz| => Abs(nz[k]))
  }

  function Signs(nz: seq<real>): (r: seq<bool>)
    ensures |r| == |nz| && forall k :: 0 <= k < |nz| ==> r[k] == (nz[k] > 0.0)
  {
    seq(|nz|, k requires 0 <= k < |nz| => nz[k] > 0.0)
  }

  /** The test's statistic on doubled ranks: the smaller of W+ and W-. */
  function MinStat(ranks: seq<nat>, b: seq<bool>): (r: int)
    requires |b| == |ranks|
    ensures 2 * r <= Sum(ranks)
  {
    var w := PositiveSum(ranks, b);
    if w <= Sum(ranks) - w then w else Sum(ranks) - w
  }

  /** The sign assignments whose statistic is at least as extreme as t. */
  function AsExtreme(ranks: seq<nat>, t: int): set<seq<bool>> {
    set b | b in SignVectors(|ranks|) && MinStat(ranks, b) <= t
  }

  /** The exact two-sided p-value: the share of the equally likely sign assignments that are
      at least as extreme as b. */
  function PermutationP(ranks: seq<nat>, b: seq<bool>): real
    requires |b| == |ranks|
  {
    |AsExtreme(ranks, MinStat(ranks, b))| as real / Pow2(|ranks|) as real
  }

  /** Twice the lower tail, capped at one. */
  function DoubledTail(ranks: seq<nat>, t: int): real {
    Min(1.0, 2.0 * (CumulativeCount(ranks, t) as real / Pow2(|ranks|) as real))
  }

  // ----- the doubled, capped tail is the permutation p-value -----

  lemma ExtremeIsBothTails(ranks: seq<nat>, t: int)
    ensures AsExtreme(ranks, t) == LowTail(ranks, t) + HighTail(ranks, t)
    ensures 2 * t < Sum(ranks) ==> LowTail(ranks, t) !! HighTail(ranks, t)
    ensures 2 * t >= Sum(ranks) ==> AsExtreme(ranks, t) == SignVectors(|ranks|)
  {
  }

  lemma ExtremeCard(ranks: seq<nat>, t: int)
    ensures 2 * t < Sum(ranks) ==> |AsExtreme(ranks, t)| == 2 * CumulativeCount(ranks, t) <= Pow2(|ranks|)
    ensures 2 * t >= Sum(ranks) ==> |AsExtreme(ranks, t)| == Pow2(|ranks|) <= 2 * CumulativeCount(ranks, t)
  {
    ExtremeIsBothTails(ranks, t);
    CumulativeCountIsLowTail(ranks, t);
    FlipSymmetry(ranks, t);
    SignVectorsCard(|ranks|);
    var low, high, all := LowTail(ranks, t), HighTail(ranks, t), SignVectors(|ranks|);
    assert low + high <= all;
    hide *;
    UnionSize(low, high);
    SubsetSize(low + high, all);
  }

  /** Cap included, doubling the lower tail at the observed statistic gives the share of sign
      assignments at least as extreme, and away from the centre the cap is never reached. */
  lemma DoubledTailIsPermutationP(ranks: seq<nat>, b: seq<bool>)
    requires |b| == |ranks|
    ensures DoubledTail(ranks, MinStat(ranks, b)) == PermutationP(ranks, b)
    ensures 2 * MinStat(ranks, b) < Sum(ranks)
        ==> 2 * CumulativeCount(ranks, MinStat(ranks, b)) <= Pow2(|ranks|)
  {
    var t := MinStat(ranks, b);
    ExtremeCard(ranks, t);
    CapDoubled(CumulativeCount(ranks, t), |AsExtreme(ranks, t)|, Pow2(|ranks|));
  }

  lemma CapDoubled(c: nat, e: nat, n: nat)
    requires n > 0
    requires if 2 * c <= n then e == 2 * c || e == n == 2 * c else e == n
    ensures Min(1.0, 2.0 * (c as real / n as real)) == e as real / n as real
  {
    var x, y := c as real, n as real;
    var q := x / y;
    assert q * y == x;
    AtLeast(2.0 * q, 2.0 * x, y);
    if e == 2 * c {
      assert e as real == (2.0 * q) * y;
      QuotientIs(e as real, y, 2.0 * q);
    } else {
      QuotientIs(y, y, 1.0);
    }
  }

  lemma AtLeast(q: real, x: real, y: real)
    requires y > 0.0 && q * y == x
    ensures q >= 1.0 <==> x >= y
  {
    assert x - y == (q - 1.0) * y;
  }

  lemma QuotientIs(x: real, y: real, q: real)
    requires y > 0.0 && x == q * y
    ensures x / y == q
  {
    var r := x / y;
    assert r * y == x;
    assert (r - q) * y == 0.0;
  }

  // ----- the test has its nominal level -----

  /** The sign assignments that the test rejects at level alpha. */
  function Rejected(ranks: seq<nat>, alpha: real): set<seq<bool>> {
    set b | b in SignVectors(|ranks|) && PermutationP(ranks, b) <= alpha
  }

  lemma {:induction false} LargestStat(ranks: seq<nat>, s: set<seq<bool>>) returns (top: seq<bool>)
    requires s != {} && forall b | b in s :: |b| == |ranks|
    ensures top in s
    ensures forall b | b in s :: MinStat(ranks, b) <= MinStat(ranks, top)
    decreases |s|
  {
    hide MinStat;
    var b :| b in s;
    if s == {b} {
      top := b;
    } else {
      var rest := LargestStat(ranks, s - {b});
      top := if MinStat(ranks, b) <= MinStat(ranks, rest) then rest else b;
    }
  }

  /** count makes up at most the given share of total. */
  predicate AtMostShare(count: nat, share: real, total: nat) {
    count as real <= share * total as real
  }

  /** Under the null, where every sign assignment is equally likely, the exact test rejects
      at level alpha with probability at most alpha. */
  lemma ExactLevel(ranks: seq<nat>, alpha: real)
    requires alpha >= 0.0
    ensures AtMostShare(|Rejected(ranks, alpha)|, alpha, Pow2(|ranks|))
  {
    var extreme := CoveringTail(ranks, alpha);
    hide *;
    SubsetSize(Rejected(ranks, alpha), extreme);
    QuotientBound(|Rejected(ranks, alpha)|, |extreme|, Pow2(|ranks|), alpha);
  }

  /** A tail that holds every rejected assignment and is itself no larger than alpha. */
  lemma CoveringTail(ranks: seq<nat>, alpha: real) returns (extreme: set<seq<bool>>)
    requires alpha >= 0.0
    ensures Rejected(ranks, alpha) <= extreme
    ensures |extreme| as real / Pow2(|ranks|) as real <= alpha
  {
    if Rejected(ranks, alpha) == {} {
      extreme := {};
    } else {
      var top := LargestStat(ranks, Rejected(ranks, alpha));
      extreme := AsExtreme(ranks, MinStat(ranks, top));
      hide MinStat;
      assert PermutationP(ranks, top) <= alpha;
    }
  }

  lemma QuotientBound(r: nat, c: nat, n: nat, alpha: real)
    requires r <= c && n > 0 && c as real / n as real <= alpha
    ensures AtMostShare(r, alpha, n)
  {
    var q := c as real / n as real;
    assert c as real == q * n as real;
    assert q * n as real <= alpha * n as real;
  }

  // ----- the code -----

  /** The in-place 0/1 knapsack: after each rank, dp[v] counts the sub-collections adding up to v. */
  method SubsetSumCounts(scaled: seq<nat>) returns (counts: seq<nat>)
    ensures |counts| == Sum(scaled) + 1
    ensures forall v :: 0 <= v <= Sum(scaled) ==> counts[v] == |WithSum(scaled, v)|
  {
    var total := Sum(scaled);
    var dp := new nat[total + 1](_ => 0);
    dp[0] := 1;
    for i := 0 to |scaled|
      invariant forall v :: 0 <= v <= total ==> dp[v] == SubsetCount(scaled[..i], v)
    {
      var s := scaled[i];
      assert scaled[..i + 1][..i] == scaled[..i];
      label Before:
      var v := total;
      while v >= s
        invariant s - 1 <= v <= total || v == total
        invariant forall u :: 0 <= u <= v && u <= total ==> dp[u] == old@Before(dp[u])
        invariant forall u :: v < u <= total ==> dp[u] == SubsetCount(scaled[..i + 1], u)
      {
        dp[v] := dp[v] + dp[v - s];
        v := v - 1;
      }
      forall u | 0 <= u <= v && u <= total ensures dp[u] == SubsetCount(scaled[..i + 1], u) {
        SubsetCountOutside(scaled[..i], u - s);
      }
    }
    assert scaled[..|scaled|] == scaled;
    counts := dp[..];
    forall v | 0 <= v <= total ensures counts[v] == |WithSum(scaled, v)| {
      SubsetCountIsCard(scaled, v);
    }
  }

  /** The exact two-sided p-value, for any number of ranks. */
  method ExactPValue(scaled: seq<nat>, target: nat) returns (p: real)
    requires target <= Sum(scaled)
    ensures p == DoubledTail(scaled, target)
  {
    var dp := SubsetSumCounts(scaled);
    var leq := 0;
    for v := 0 to target + 1
      invariant leq == CumulativeCount(scaled, v - 1)
    {
      SubsetCountIsCard(scaled, v);
      leq := leq + dp[v];
    }
    p := Min(1.0, 2.0 * (leq as real / Pow2(|scaled|) as real));
  }

  /** sum(r for r, f in zip(ranks, flags) if f) */
  function SumWhere(ranks: seq<real>, flags: seq<bool>): real
    requires |ranks| == |flags|
  {
    if ranks == [] then 0.0
    else
      var n := |ranks| - 1;
      SumWhere(ranks[..n], flags[..n]) + if flags[n] then ranks[n] else 0.0
  }

  lemma {:induction false} SumWhereIsPositiveSum(ranks: seq<real>, doubled: seq<nat>, flags: seq<bool>)
    requires |ranks| == |doubled| == |flags|
    requires forall k :: 0 <= k < |ranks| ==> 2.0 * ranks[k] == doubled[k] as real
    ensures 2.0 * SumWhere(ranks, flags) == PositiveSum(doubled, flags) as real
  {
    if ranks != [] {
      var n := |ranks| - 1;
      SumWhereIsPositiveSum(ranks[..n], doubled[..n], flags[..n]);
    }
  }

  /** The observed rank sums and the rounded target, in terms of doubled ranks. */
  lemma StatisticsFromRanks(ranks: seq<real>, doubled: seq<nat>, signs: seq<bool>)
    requires |ranks| == |doubled| == |signs|
    requires forall k :: 0 <= k < |ranks| ==> 2.0 * ranks[k] == doubled[k] as real
    ensures 2.0 * SumWhere(ranks, signs) == PositiveSum(doubled, signs) as real
    ensures Round(2.0 * Min(SumWhere(ranks, signs), SumWhere(ranks, Flip(signs)))) == MinStat(doubled, signs)
  {
    hide SumWhere, PositiveSum, Sum, Round, Min, Flip;
    SumWhereIsPositiveSum(ranks, doubled, signs);
    SumWhereIsPositiveSum(ranks, doubled, Flip(signs));
    PositiveSumFlip(doubled, signs);
    var pos, neg := PositiveSum(doubled, signs), PositiveSum(doubled, Flip(signs));
    RoundedMin(SumWhere(ranks, signs), SumWhere(ranks, Flip(signs)), pos, neg);
    assert MinStat(doubled, signs) == if pos <= neg then pos else neg;
  }

  lemma MinStatNonNegative(ranks: seq<nat>, b: seq<bool>)
    requires |b| == |ranks|
    ensures 0 <= MinStat(ranks, b)
  {
    PositiveSumFlip(ranks, b);
  }

  lemma RoundedMin(x: real, y: real, m: int, k: int)
    requires 2.0 * x == m as real && 2.0 * y == k as real
    ensures Round(2.0 * Min(x, y)) == if m <= k then m else k
  {
    RoundWhole(2.0 * Min(x, y), if m <= k then m else k);
  }

  lemma RoundWhole(x: real, m: int)
    requires x == m as real
    ensures Round(x) == m
  {
    assert (m as real + 0.5).Floor == m;
  }

  /** The doubled ranks that a sample of nonzero deltas gives. */
  function RanksOf(nz: seq<real>): (r: seq<nat>)
    ensures |r| == |nz|
  {
    MidRanks2(Magnitudes(nz))
  }

  /** The exact branch: doubled ranks made whole, then the knapsack and its lower tail. */
  method ExactBranch(nz: seq<real>, ranks: seq<real>, wMin: real) returns (p: real)
    requires |ranks| == |nz|
    requires forall k :: 0 <= k < |ranks| ==> 2.0 * ranks[k] == RanksOf(nz)[k] as real
    requires 0 <= Round(2.0 * wMin) == MinStat(RanksOf(nz), Signs(nz))
    ensures p == PermutationP(RanksOf(nz), Signs(nz))
  {
    forall k | 0 <= k < |nz| ensures Round(2.0 * ranks[k]) == RanksOf(nz)[k] {
      RoundWhole(2.0 * ranks[k], RanksOf(nz)[k]);
    }
    hide RanksOf, Round, Sum, PositiveSum, DoubledTail, PermutationP;
    var scaled: seq<nat> :=
      seq(|nz|, k requires 0 <= k < |nz| && Round(2.0 * ranks[k]) >= 0 => Round(2.0 * ranks[k]));
    assert scaled == RanksOf(nz);
    p := ExactPValue(scaled, Round(2.0 * wMin));
    DoubledTailIsPermutationP(scaled, Signs(nz));
  }

  /** The statistic is the rank sum of the positive deltas, and up to 25 nonzero deltas p is the exact
      permutation p-value of the observed signs. */
  ghost predicate IsSignedRank(nz: seq<real>, r: TestResult) {
    if nz == [] then r == NoData
    else
      && !r.NoData? && r.n == |nz|
      && 2.0 * r.wPos == PositiveSum(RanksOf(nz), Signs(nz)) as real
      && if |nz| <= EXACT_LIMIT then r.Exact? && r.p == PermutationP(RanksOf(nz), Signs(nz)) else r.Approximate?
  }

  method RankedTest(nz: seq<real>) returns (r: TestResult)
    requires nz != [] && forall k :: 0 <= k < |nz| ==> nz[k] != 0.0
    ensures IsSignedRank(nz, r)
  {
    hide *;
    var n := |nz|;
    var ranks := RanksOfMagnitudes(nz);
    var negative := Negatives(nz);
    var wPos, wNeg := SumWhere(ranks, Signs(nz)), SumWhere(ranks, negative);
    StatisticsFromRanks(ranks, RanksOf(nz), Signs(nz));
    MinStatNonNegative(RanksOf(nz), Signs(nz));
    if n <= EXACT_LIMIT {
      var p := ExactBranch(nz, ranks, Min(wPos, wNeg));
      r := Exact(wPos, p, n);
    } else {
      r := Approximate(wPos, n);
    }
    SignedRankIs(nz, r);
  }

  lemma SignedRankIs(nz: seq<real>, r: TestResult)
    requires nz != [] && !r.NoData? && r.n == |nz|
    requires 2.0 * r.wPos == PositiveSum(RanksOf(nz), Signs(nz)) as real
    requires if |nz| <= EXACT_LIMIT then r.Exact? && r.p == PermutationP(RanksOf(nz), Signs(nz)) else r.Approximate?
    ensures IsSignedRank(nz, r)
  {
  }

  method RanksOfMagnitudes(nz: seq<real>) returns (ranks: seq<real>)
    ensures |ranks| == |nz| && forall k :: 0 <= k < |nz| ==> 2.0 * ranks[k] == RanksOf(nz)[k] as real
  {
    ranks := AverageRanks(Magnitudes(nz));
  }

  function Negatives(nz: seq<real>): (r: seq<bool>)
    requires forall k :: 0 <= k < |nz| ==> nz[k] != 0.0
    ensures r == Flip(Signs(nz))
  {
    seq(|nz|, k requires 0 <= k < |nz| => nz[k] < 0.0)
  }

  /** wilcoxon_signed_rank: no data exactly when every delta is zero; otherwise n counts the others,
      and up to 25 of them the p-value is exact. */
  method SignedRank(deltas: seq<real>) returns (r: TestResult)
    ensures IsSignedRank(NonZero(deltas), r)
    ensures r.NoData? <==> forall k :: 0 <= k < |deltas| ==> deltas[k] == 0.0
    ensures !r.NoData? ==> r.n == |deltas| - multiset(deltas)[0.0] && (r.Exact? <==> r.n <= 25)
  {
    NonZeroSize(deltas);
    var nz := NonZero(deltas);
    if |nz| < 1 {
      r := NoData;
    } else {
      r := RankedTest(nz);
    }
  }

  /** Three deltas and a zero: the rank sum of the two positive ones is 5, and two of the eight sign
      assignments are as low, two as high. */
  lemma ThreeDeltas(r: TestResult)
    requires IsSignedRank(NonZero([0.5, 0.0, 0.25, -0.125]), r)
    ensures r == Exact(5.0, 0.5, 3)
  {
    var nz := [0.5, 0.25, -0.125];
    NonZeroOfThree();
    RanksOfThree();
    assert Signs(nz) == [true, true, false];
    SumsOfThree();
    DoubledTailIsPermutationP([6, 4, 2], [true, true, false]);
    hide RanksOf, Signs, DoubledTail, PermutationP, NonZero, PositiveSum, MinStat;
  }

  lemma NonZeroOfThree()
    ensures NonZero([0.5, 0.0, 0.25, -0.125]) == [0.5, 0.25, -0.125]
  {
    var deltas := [0.5, 0.0, 0.25, -0.125];
    assert deltas[..3] == [0.5, 0.0, 0.25] && deltas[..3][..2] == [0.5, 0.0] && deltas[..3][..2][..1] == [0.5];
    assert NonZero([0.5]) == [0.5];
    assert NonZero([0.5, 0.0]) == [0.5];
    assert NonZero([0.5, 0.0, 0.25]) == [0.5, 0.25];
  }

  lemma RanksOfThree()
    ensures RanksOf([0.5, 0.25, -0.125]) == [6, 4, 2]
  {
    var m := Magnitudes([0.5, 0.25, -0.125]);
    assert m == [0.5, 0.25, 0.125];
    assert m[..2] == [0.5, 0.25] && m[..2][..1] == [0.5];
    forall v: real
      ensures CountBelow(m, v) == (if 0.5 < v then 1 else 0) + (if 0.25 < v then 1 else 0) + (if 0.125 < v then 1 else 0)
      ensures CountAt(m, v) == (if 0.5 == v then 1 else 0) + (if 0.25 == v then 1 else 0) + (if 0.125 == v then 1 else 0)
    {
      assert [0.5][..0] == [];
      assert CountBelow([0.5], v) == if 0.5 < v then 1 else 0;
      assert CountAt([0.5], v) == if 0.5 == v then 1 else 0;
    }
  }

  lemma SumsOfThree()
    ensures PositiveSum([6, 4, 2], [true, true, false]) == 10 && Sum([6, 4, 2]) == 12
    ensures MinStat([6, 4, 2], [true, true, false]) == 2 && DoubledTail([6, 4, 2], 2) == 0.5
  {
    var ranks, b := [6, 4, 2], [true, true, false];
    assert ranks[..2] == [6, 4] && ranks[..2][..1] == [6] && b[..2] == [true, true] && b[..2][..1] == [true];
    assert PositiveSum([6], [true]) == 6 && Sum([6]) == 6;
    assert PositiveSum([6, 4], [true, true]) == 10 && Sum([6, 4]) == 10;
    TailOfThree();
    hide CumulativeCount;
  }

  lemma TailOfThree()
    ensures CumulativeCount([6, 4, 2], 2) == 2 && Pow2(3) == 8
  {
    hide SubsetCount;
    LowCountsOfThree();
    var ranks := [6, 4, 2];
    assert CumulativeCount(ranks, -1) == 0 && CumulativeCount(ranks, 0) == 1 && CumulativeCount(ranks, 1) == 1;
  }

  /** Of the subsets of three ranks only the empty one and the last rank alone sum to at most two. */
  lemma LowCountsOfThree()
    ensures SubsetCount([6, 4, 2], 0) == 1 && SubsetCount([6, 4, 2], 1) == 0 && SubsetCount([6, 4, 2], 2) == 1
  {
    assert [6, 4, 2][..2] == [6, 4];
    forall s: int | s <= 2
      ensures SubsetCount([6, 4], s) == if s == 0 then 1 else 0
    {
      assert [6, 4][..1] == [6] && [6][..0] == [];
      assert SubsetCount([6], s) == if s == 0 then 1 else 0;
      assert SubsetCount([6], s - 4) == 0;
    }
  }

  // ----- consequences -----

  function Negated(xs: seq<real>): (r: seq<real>)
    ensures |r| == |xs| && forall k :: 0 <= k < |xs| ==> r[k] == -xs[k]
  {
    seq(|xs|, k requires 0 <= k < |xs| => -xs[k])
  }

  lemma {:induction false} NonZeroNegated(deltas: seq<real>)
    ensures NonZero(Negated(deltas)) == Negated(NonZero(deltas))
  {
    if deltas != [] {
      var n := |deltas| - 1;
      NonZeroNegated(deltas[..n]);
      assert Negated(deltas)[..n] == Negated(deltas[..n]);
    }
  }

  lemma NegatedRanks(nz: seq<real>)
    requires forall k :: 0 <= k < |nz| ==> nz[k] != 0.0
    ensures RanksOf(Negated(nz)) == RanksOf(nz)
    ensures Signs(Negated(nz)) == Flip(Signs(nz))
  {
    hide MidRanks2;
    assert Magnitudes(Negated(nz)) == Magnitudes(nz);
  }

  /** Swapping the two systems swaps W+ and W- and leaves the p-value alone; the two rank sums
      always share out n(n + 1) / 2. */
  lemma NegationInvariance(deltas: seq<real>)
    ensures var nz, gz := NonZero(deltas), NonZero(Negated(deltas));
      && |gz| == |nz|
      && PositiveSum(RanksOf(gz), Signs(gz)) + PositiveSum(RanksOf(nz), Signs(nz)) == RankTotal(|nz|)
      && PermutationP(RanksOf(gz), Signs(gz)) == PermutationP(RanksOf(nz), Signs(nz))
  {
    var nz := NonZero(deltas);
    NonZeroNegated(deltas);
    NegatedRanks(nz);
    MidRanksTotal(Magnitudes(nz));
    hide *;
    PermutationPFlip(RanksOf(nz), Signs(nz));
  }

  lemma PermutationPFlip(ranks: seq<nat>, b: seq<bool>)
    requires |b| == |ranks|
    ensures PermutationP(ranks, Flip(b)) == PermutationP(ranks, b)
    ensures PositiveSum(ranks, Flip(b)) + PositiveSum(ranks, b) == Sum(ranks)
  {
    PositiveSumFlip(ranks, b);
    assert MinStat(ranks, Flip(b)) == MinStat(ranks, b);
  }
}
