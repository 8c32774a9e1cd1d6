/** The exact McNemar test, and its agreement with the signed-rank test on equal magnitudes. */
module McNemar {
  import opened Basics
  import opened Combinatorics
  import opened Ranks
  import opened Wilcoxon

  function Const(n: nat, r: nat): (s: seq<nat>)
    ensures |s| == n && forall k :: 0 <= k < n ==> s[k] == r
  {
    seq(n, _ => r)
  }

  /** One rank of one per discordant pair: the rank sum is the number of positives. */
  function Ones(n: nat): (s: seq<nat>)
    ensures |s| == n && forall k :: 0 <= k < n ==> s[k] == 1
  {
    Const(n, 1)
  }

  function Least(b: nat, c: nat): nat { if b <= c then b else c }

  /** The share of the outcomes of b + c fair coin flips at least as lopsided as (b, c). */
  function SignTestP(b: nat, c: nat): real {
    |AsExtreme(Ones(b + c), Least(b, c))| as real / Pow2(b + c) as real
  }

  lemma {:induction false} ConstTotal(n: nat, r: nat)
    ensures Sum(Const(n, r)) == n * r
  {
    if n > 0 {
      ConstTotal(n - 1, r);
      assert Const(n, r)[..n - 1] == Const(n - 1, r);
      assert n * r == (n - 1) * r + r;
    }
  }

  /** With unit ranks the knapsack fills in Pascal's triangle. */
  lemma {:induction false} UnitCountsAreBinomial(n: nat, k: nat)
    ensures SubsetCount(Ones(n), k) == Binomial(n, k)
    ensures |WithSum(Ones(n), k)| == Binomial(n, k)
  {
    hide SubsetCount, Ones, WithSum;
    SubsetCountIsCard(Ones(n), k);
    UnitCountStep(n, k);
    if n > 0 {
      UnitCountsAreBinomial(n - 1, k);
      if k > 0 {
        UnitCountsAreBinomial(n - 1, k - 1);
      }
    }
  }

  lemma UnitCountStep(n: nat, k: nat)
    ensures SubsetCount(Ones(n), k) ==
            if n == 0 then if k == 0 then 1 else 0
            else SubsetCount(Ones(n - 1), k) + if k == 0 then 0 else SubsetCount(Ones(n - 1), k - 1)
  {
    if n > 0 {
      assert Ones(n)[..n - 1] == Ones(n - 1);
      SubsetCountOutside(Ones(n - 1), -1);
    }
  }

  /** mcnemar_exact, standard-library branch: the capped double tail is the exact two-sided
      sign-test p-value. */
  method McNemarExact(b: nat, c: nat) returns (p: real)
    ensures p == SignTestP(b, c)
  {
    var n := b + c;
    DoubledTailIsSignTestP(b, c);
    hide SignTestP, Ones, Pow2, Binomial, CumulativeCount;
    if n == 0 {
      NoDiscordantPairs();
      return 1.0;
    }
    var k := Least(b, c);
    var weight := 1.0 / Pow2(n) as real;
    var cdf := 0.0;
    CumulativeStart(n);
    for i := 0 to k + 1
      invariant cdf == CumulativeCount(Ones(n), i - 1) as real * weight
    {
      CumulativeStep(n, i);
      Distribute(CumulativeCount(Ones(n), i - 1), Binomial(n, i), weight);
      cdf := cdf + Binomial(n, i) as real * weight;
    }
    Reciprocal(CumulativeCount(Ones(n), k) as real, Pow2(n) as real);
    p := Min(1.0, 2.0 * cdf);
  }

  lemma CumulativeStart(n: nat)
    ensures CumulativeCount(Ones(n), -1) == 0
  {
  }

  lemma CumulativeStep(n: nat, i: nat)
    ensures CumulativeCount(Ones(n), i) == CumulativeCount(Ones(n), i - 1) + Binomial(n, i)
  {
    UnitCountsAreBinomial(n, i);
  }

  lemma Distribute(x: nat, y: nat, w: real)
    ensures (x + y) as real * w == x as real * w + y as real * w
  {
  }

  lemma Reciprocal(x: real, y: real)
    requires y > 0.0
    ensures x * (1.0 / y) == x / y
  {
    var r := 1.0 / y;
    assert r * y == 1.0;
    assert (x * r) * y == x * (r * y);
    QuotientIs(x, y, x * r);
  }

  lemma NoDiscordantPairs()
    ensures SignTestP(0, 0) == 1.0
  {
    DoubledTailIsSignTestP(0, 0);
    assert CumulativeCount(Ones(0), 0) == 1;
  }

  lemma DoubledTailIsSignTestP(b: nat, c: nat)
    ensures SignTestP(b, c) == DoubledTail(Ones(b + c), Least(b, c))
  {
    var v := Leading(b, c);
    LeadingSum(b, c);
    ConstTotal(b + c, 1);
    DoubledTailIsPermutationP(Ones(b + c), v);
  }

  /** b positives followed by c negatives. */
  function Leading(b: nat, c: nat): (v: seq<bool>)
    ensures |v| == b + c
  {
    seq(b + c, i => i < b)
  }

  lemma {:induction false} LeadingSum(b: nat, c: nat)
    ensures PositiveSum(Ones(b + c), Leading(b, c)) == b
    decreases b + c
  {
    if b + c > 0 {
      var n := b + c - 1;
      assert Ones(b + c)[..n] == Ones(n);
      if c > 0 {
        assert Leading(b, c)[..n] == Leading(b, c - 1);
        LeadingSum(b, c - 1);
      } else {
        assert Leading(b, c)[..n] == Leading(b - 1, c);
        LeadingSum(b - 1, c);
      }
    }
  }

  /** The cap at one matters exactly when the two discordant counts are equal. */
  lemma CapInactiveIffUnequal(b: nat, c: nat)
    ensures 2 * CumulativeCount(Ones(b + c), Least(b, c)) <= Pow2(b + c) <==> b != c
  {
    var ones, k := Ones(b + c), Least(b, c);
    ConstTotal(b + c, 1);
    assert 2 * k >= Sum(ones) <==> b == c;
    hide *;
    if b == c {
      BalancedTailOverflows(b);
    } else {
      ExtremeCard(ones, k);
    }
  }

  lemma BalancedTailOverflows(b: nat)
    ensures 2 * CumulativeCount(Ones(b + b), Least(b, b)) > Pow2(b + b)
  {
    var ones, k := Ones(b + b), Least(b, b);
    var low, high := LowTail(ones, k), HighTail(ones, k);
    ConstTotal(b + b, 1);
    LeadingSum(b, b);
    assert Leading(b, b) in low * high;
    ExtremeIsBothTails(ones, k);
    hide *;
    FlipSymmetry(ones, k);
    CumulativeCountIsLowTail(ones, k);
    SignVectorsCard(|ones|);
    OverlapCard(low, high, Leading(b, b));
  }

  lemma OverlapCard(s: set<seq<bool>>, t: set<seq<bool>>, v: seq<bool>)
    requires v in s * t
    ensures |s + t| < |s| + |t|
  {
    assert s + t == s + (t - {v});
    UnionSize(s, t - {v});
    assert |t - {v}| == |t| - 1;
  }

  // ----- agreement with the signed-rank test -----

  lemma {:induction false} PositiveSumScales(n: nat, r: nat, v: seq<bool>)
    requires |v| == n
    ensures PositiveSum(Const(n, r), v) == r * PositiveSum(Ones(n), v)
  {
    if n > 0 {
      assert Const(n, r)[..n - 1] == Const(n - 1, r);
      assert Ones(n)[..n - 1] == Ones(n - 1);
      PositiveSumScales(n - 1, r, v[..n - 1]);
    }
  }

  /** A common rank r > 0 rescales the statistic and changes no comparison. */
  lemma ExtremeScales(n: nat, r: nat, t: int)
    requires r > 0
    ensures AsExtreme(Const(n, r), r * t) == AsExtreme(Ones(n), t)
  {
    forall v: seq<bool> | |v| == n
      ensures MinStat(Const(n, r), v) <= r * t <==> MinStat(Ones(n), v) <= t
    {
      MinStatScales(n, r, v);
      MonotoneProduct(r, MinStat(Ones(n), v), t);
    }
  }

  /** Equal magnitudes give the common doubled rank n + 1, and the knapsack entry at k(n + 1) is
      the binomial coefficient. */
  lemma EqualMagnitudeCounts(n: nat, k: nat)
    ensures |WithSum(Const(n, n + 1), (n + 1) * k)| == Binomial(n, k)
  {
    forall v: seq<bool> | |v| == n
      ensures PositiveSum(Const(n, n + 1), v) == (n + 1) * k <==> PositiveSum(Ones(n), v) == k
    {
      PositiveSumScales(n, n + 1, v);
      MonotoneProduct(n + 1, PositiveSum(Ones(n), v), k);
      MonotoneProduct(n + 1, k, PositiveSum(Ones(n), v));
    }
    assert WithSum(Const(n, n + 1), (n + 1) * k) == WithSum(Ones(n), k);
    UnitCountsAreBinomial(n, k);
  }

  lemma MonotoneProduct(r: nat, x: int, y: int)
    requires r > 0
    ensures r * x <= r * y <==> x <= y
  {
    assert r * y - r * x == r * (y - x);
  }

  lemma MinStatScales(n: nat, r: nat, v: seq<bool>)
    requires |v| == n && r > 0
    ensures MinStat(Const(n, r), v) == r * MinStat(Ones(n), v)
  {
    hide PositiveSum, Sum;
    PositiveSumScales(n, r, v);
    ConstTotal(n, r);
    ConstTotal(n, 1);
    var w := PositiveSum(Ones(n), v);
    assert n * r - r * w == r * (n - w);
    MonotoneProduct(r, w, n - w);
  }

  lemma {:induction false} EqualCounts(xs: seq<real>, m: real)
    requires forall k :: 0 <= k < |xs| ==> xs[k] == m
    ensures CountBelow(xs, m) == 0 && CountAt(xs, m) == |xs|
  {
    if xs != [] {
      EqualCounts(xs[..|xs| - 1], m);
    }
  }

  function CountPositive(nz: seq<real>): nat {
    PositiveSum(Ones(|nz|), Signs(nz))
  }

  lemma UnitMinStat(n: nat, v: seq<bool>)
    requires |v| == n
    ensures PositiveSum(Ones(n), v) <= n
    ensures MinStat(Ones(n), v) == Least(PositiveSum(Ones(n), v), n - PositiveSum(Ones(n), v))
  {
    PositiveSumFlip(Ones(n), v);
    ConstTotal(n, 1);
  }

  lemma SameExtremes(n: nat, r: nat, v: seq<bool>)
    requires |v| == n && r > 0
    ensures AsExtreme(Const(n, r), MinStat(Const(n, r), v)) == AsExtreme(Ones(n), MinStat(Ones(n), v))
  {
    hide *;
    MinStatScales(n, r, v);
    ExtremeScales(n, r, MinStat(Ones(n), v));
  }

  lemma CommonRankP(n: nat, r: nat, v: seq<bool>)
    requires |v| == n && r > 0
    ensures PositiveSum(Ones(n), v) <= n
    ensures PermutationP(Const(n, r), v) == SignTestP(PositiveSum(Ones(n), v), n - PositiveSum(Ones(n), v))
  {
    hide MinStat, AsExtreme, Const, Ones, Pow2, PositiveSum, Least;
    UnitMinStat(n, v);
    SameExtremes(n, r, v);
  }

  /** When every nonzero delta has the same magnitude, the exact signed-rank p-value is the
      McNemar p-value of the numbers of positive and negative deltas. */
  lemma EqualMagnitudesAgree(nz: seq<real>, m: real)
    requires forall k :: 0 <= k < |nz| ==> Abs(nz[k]) == m
    ensures CountPositive(nz) <= |nz|
    ensures PermutationP(RanksOf(nz), Signs(nz)) == SignTestP(CountPositive(nz), |nz| - CountPositive(nz))
  {
    EqualCounts(Magnitudes(nz), m);
    assert RanksOf(nz) == Const(|nz|, |nz| + 1);
    assert CountPositive(nz) == PositiveSum(Ones(|nz|), Signs(nz));
    hide *;
    CommonRankP(|nz|, |nz| + 1, Signs(nz));
  }
}
