/** Holm's step-down adjustment of p-values. */
module Holm {
  import opened Basics
  import opened Ranks

  function Times(m: int, v: real): real { m as real * v }

  /** The q-th smallest p-value times the number of hypotheses from there on. */
  function Scaled(ps: seq<real>, order: seq<nat>, q: nat): real
    requires Ordered(ps, order) && q < |order|
  {
    Times(|ps| - q, ps[order[q]])
  }

  /** The largest scaled value among the r smallest p-values, and at least zero. */
  function RunningMax(ps: seq<real>, order: seq<nat>, r: nat): real
    requires Ordered(ps, order) && r <= |order|
  {
    if r == 0 then 0.0 else Max(RunningMax(ps, order, r - 1), Scaled(ps, order, r - 1))
  }

  /** adj holds the adjusted value of each p-value, along the sorted order. */
  ghost predicate IsHolm(ps: seq<real>, order: seq<nat>, adj: seq<real>) {
    && |adj| == |ps|
    && IsSortedOrder(ps, |ps|, order)
    && forall r :: 0 <= r < |ps| ==> adj[order[r]] == Min(1.0, RunningMax(ps, order, r + 1))
  }

  /** holm_bonferroni */
  method HolmBonferroni(ps: seq<real>) returns (adj: seq<real>)
    ensures IsHolm(ps, SortedOrder(ps, |ps|), adj)
  {
    if |ps| == 0 {
      return [];
    }
    hide SortedOrder, RunningMax;
    adj := AdjustAlong(ps, SortedOrder(ps, |ps|));
  }

  /** The loop of holm_bonferroni: prev carries the running maximum, capped at one. */
  method AdjustAlong(ps: seq<real>, order: seq<nat>) returns (adj: seq<real>)
    requires IsSortedOrder(ps, |ps|, order)
    ensures IsHolm(ps, order, adj)
  {
    hide Scaled, RunningMax, Min, Max;
    var n := |ps|;
    var a := new real[n](_ => 0.0);
    var prev := 0.0;
    NothingYet(ps, order);
    for rank := 0 to n
      invariant prev == Min(1.0, RunningMax(ps, order, rank))
      invariant forall r :: 0 <= r < rank ==> a[order[r]] == Min(1.0, RunningMax(ps, order, r + 1))
    {
      var i := order[rank];
      CappedStep(ps, order, rank, prev);
      prev := Min(1.0, Max(prev, Scaled(ps, order, rank)));
      a[i] := prev;
    }
    adj := a[..];
  }

  lemma NothingYet(ps: seq<real>, order: seq<nat>)
    requires Ordered(ps, order)
    ensures Min(1.0, RunningMax(ps, order, 0)) == 0.0
  {
  }

  /** Capping the running maximum at each step loses nothing. */
  lemma CappedStep(ps: seq<real>, order: seq<nat>, r: nat, prev: real)
    requires Ordered(ps, order) && r < |order|
    requires prev == Min(1.0, RunningMax(ps, order, r))
    ensures Min(1.0, Max(prev, Scaled(ps, order, r))) == Min(1.0, RunningMax(ps, order, r + 1))
  {
    hide Scaled;
    assert RunningMax(ps, order, r + 1) == Max(RunningMax(ps, order, r), Scaled(ps, order, r));
  }

  /** The sequential procedure: walk the p-values upwards and reject until one of them exceeds
      alpha over the number of hypotheses not yet rejected. */
  function StepDown(ps: seq<real>, order: seq<nat>, alpha: real, r: nat): set<nat>
    requires Ordered(ps, order) && |order| == |ps| && r <= |ps|
    decreases |ps| - r
  {
    if r == |ps| || ps[order[r]] > alpha / (|ps| - r) as real then {}
    else {order[r]} + StepDown(ps, order, alpha, r + 1)
  }

  lemma QuotientAtMost(p: real, alpha: real, m: nat)
    requires m > 0
    ensures p <= alpha / m as real <==> Times(m, p) <= alpha
  {
    var y := m as real;
    var q := alpha / y;
    assert q * y == alpha;
    assert alpha - y * p == (q - p) * y;
  }

  lemma StepDownGuard(ps: seq<real>, order: seq<nat>, alpha: real, r: nat)
    requires Ordered(ps, order) && |order| == |ps| && r < |ps|
    ensures StepDown(ps, order, alpha, r)
      == if Scaled(ps, order, r) > alpha then {} else {order[r]} + StepDown(ps, order, alpha, r + 1)
  {
    QuotientAtMost(ps[order[r]], alpha, |ps| - r);
  }

  lemma {:induction false} RunningMaxBound(ps: seq<real>, order: seq<nat>, r: nat, alpha: real)
    requires Ordered(ps, order) && r <= |order| && alpha >= 0.0
    ensures RunningMax(ps, order, r) >= 0.0
    ensures RunningMax(ps, order, r) <= alpha <==> forall q :: 0 <= q < r ==> Scaled(ps, order, q) <= alpha
  {
    hide Scaled;
    if r > 0 {
      RunningMaxBound(ps, order, r - 1, alpha);
    }
  }

  lemma {:induction false} StepDownMembers(ps: seq<real>, order: seq<nat>, alpha: real, r: nat, k: nat)
    requires Ordered(ps, order) && |order| == |ps| && r <= k < |ps|
    ensures (order[k] in StepDown(ps, order, alpha, r))
      <==> (forall q :: r <= q <= k ==> Scaled(ps, order, q) <= alpha)
    decreases k - r
  {
    hide StepDown, Scaled;
    StepDownGuard(ps, order, alpha, r);
    if r < k {
      StepDownMembers(ps, order, alpha, r + 1, k);
    } else {
      StepDownLater(ps, order, alpha, r + 1, k);
    }
  }

  lemma {:induction false} StepDownLater(ps: seq<real>, order: seq<nat>, alpha: real, r: nat, k: nat)
    requires Ordered(ps, order) && |order| == |ps| && k < r <= |ps|
    ensures order[k] !in StepDown(ps, order, alpha, r)
    decreases |ps| - r
  {
    if r < |ps| {
      StepDownLater(ps, order, alpha, r + 1, k);
    }
  }

  /** Below one, an adjusted value is at most alpha exactly when the sequential procedure at
      level alpha rejects that hypothesis. */
  lemma AdjustedIffStepDown(ps: seq<real>, order: seq<nat>, adj: seq<real>, alpha: real, i: nat)
    requires IsHolm(ps, order, adj) && 0.0 <= alpha < 1.0 && i < |ps|
    ensures adj[i] <= alpha <==> i in StepDown(ps, order, alpha, 0)
  {
    hide StepDown, Scaled, RunningMax;
    var k := PositionOf(order, |ps|, i);
    RunningMaxBound(ps, order, k + 1, alpha);
    StepDownMembers(ps, order, alpha, 0, k);
  }

  /** The number of p-values that are at least v, times v. */
  function Weighted(ps: seq<real>, v: real): real { Times(|ps| - CountBelow(ps, v), v) }

  lemma FirstOccurrence(ps: seq<real>, order: seq<nat>, k: nat) returns (q: nat)
    requires IsSortedOrder(ps, |ps|, order) && k < |ps|
    ensures q <= k && ps[order[q]] == ps[order[k]] && CountBelow(ps, ps[order[k]]) == q
    ensures q == 0 || ps[order[q - 1]] < ps[order[q]]
    ensures Weighted(ps, ps[order[k]]) == Scaled(ps, order, q)
  {
    q := k;
    while q > 0 && ps[order[q - 1]] == ps[order[k]]
      invariant q <= k && ps[order[q]] == ps[order[k]]
    {
      q := q - 1;
    }
    BelowRun(ps, order, q);
  }

  lemma ScaledAtMostWeighted(ps: seq<real>, order: seq<nat>, q: nat)
    requires IsSortedOrder(ps, |ps|, order) && q < |ps|
    ensures Scaled(ps, order, q) <= 0.0 || Scaled(ps, order, q) <= Weighted(ps, ps[order[q]])
  {
    hide CountBelow, Times, Weighted;
    var first := FirstOccurrence(ps, order, q);
    MoreTimes(|ps| - q, |ps| - first, ps[order[q]]);
  }

  lemma MoreTimes(m: nat, n: nat, v: real)
    requires m <= n
    ensures Times(m, v) <= 0.0 || Times(m, v) <= Times(n, v)
  {
    if v > 0.0 {
      assert n as real * v - m as real * v == (n - m) as real * v;
    } else {
      assert m as real * v <= 0.0;
    }
  }

  /** The adjustment depends on the p-values alone, not on how the sort breaks ties: i is
      rejected at alpha exactly when every p-value v up to its own satisfies
      #{p >= v} * v <= alpha. */
  lemma OrderFree(ps: seq<real>, order: seq<nat>, adj: seq<real>, alpha: real, i: nat)
    requires IsHolm(ps, order, adj) && 0.0 <= alpha < 1.0 && i < |ps|
    ensures (adj[i] <= alpha) <==> (forall k :: 0 <= k < |ps| && ps[k] <= ps[i] ==> Weighted(ps, ps[k]) <= alpha)
  {
    hide Scaled, RunningMax, Weighted, CountBelow;
    var r := PositionOf(order, |ps|, i);
    RunningMaxBound(ps, order, r + 1, alpha);
    if adj[i] <= alpha {
      forall k | 0 <= k < |ps| && ps[k] <= ps[i] ensures Weighted(ps, ps[k]) <= alpha {
        var p := PositionOf(order, |ps|, k);
        var q := FirstOccurrence(ps, order, p);
        assert q <= r;
      }
    } else {
      var q :| 0 <= q <= r && Scaled(ps, order, q) > alpha;
      ScaledAtMostWeighted(ps, order, q);
      assert ps[order[q]] <= ps[i];
    }
  }

  /** Adjusted values lie in [0, 1], never fall below their p-value, and keep its order. */
  lemma AdjustedBounds(ps: seq<real>, order: seq<nat>, adj: seq<real>, i: nat)
    requires IsHolm(ps, order, adj) && i < |ps|
    ensures 0.0 <= adj[i] <= 1.0
    ensures 0.0 <= ps[i] <= 1.0 ==> ps[i] <= adj[i]
  {
    var r := PositionOf(order, |ps|, i);
    RunningMaxBound(ps, order, r + 1, 0.0);
    LastScaled(ps, order, r);
    hide CountBelow, RunningMax, Scaled;
  }

  lemma LastScaled(ps: seq<real>, order: seq<nat>, r: nat)
    requires Ordered(ps, order) && r < |order| == |ps|
    ensures RunningMax(ps, order, r + 1) >= Scaled(ps, order, r)
    ensures ps[order[r]] >= 0.0 ==> Scaled(ps, order, r) >= ps[order[r]]
  {
    hide RunningMax;
    assert RunningMax(ps, order, r + 1) == Max(RunningMax(ps, order, r), Scaled(ps, order, r)) by {
      RunningMaxStep(ps, order, r);
    }
    var more, p := (|ps| - r - 1) as real, ps[order[r]];
    assert (more + 1.0) * p == more * p + p;
    if p >= 0.0 {
      NonNegativeProduct(more, p);
    }
    assert (|ps| - r) as real == more + 1.0;
  }

  lemma NonNegativeProduct(x: real, y: real)
    requires x >= 0.0 && y >= 0.0
    ensures x * y >= 0.0
  {
  }

  lemma RunningMaxStep(ps: seq<real>, order: seq<nat>, r: nat)
    requires Ordered(ps, order) && r < |order|
    ensures RunningMax(ps, order, r + 1) == Max(RunningMax(ps, order, r), Scaled(ps, order, r))
  {
  }

  lemma AdjustedMonotone(ps: seq<real>, order: seq<nat>, adj: seq<real>, i: nat, j: nat)
    requires IsHolm(ps, order, adj) && i < |ps| && j < |ps| && ps[i] <= ps[j]
    ensures adj[i] <= adj[j]
  {
    hide Scaled, RunningMax, Weighted;
    AdjustedBounds(ps, order, adj, i);
    AdjustedBounds(ps, order, adj, j);
    if adj[j] < 1.0 {
      OrderFree(ps, order, adj, adj[j], i);
      OrderFree(ps, order, adj, adj[j], j);
    }
  }

  // ----- the family-wise guarantee -----

  lemma {:induction false} SmallestIn(ps: seq<real>, t: set<nat>) returns (k: nat)
    requires t != {} && forall i | i in t :: i < |ps|
    ensures k in t && forall i | i in t :: ps[k] <= ps[i]
    decreases |t|
  {
    var i :| i in t;
    if t == {i} {
      k := i;
    } else {
      var rest := SmallestIn(ps, t - {i});
      k := if ps[i] <= ps[rest] then i else rest;
    }
  }

  /** At least |t| of the p-values are no smaller than v when none in t is. */
  lemma EnoughAbove(ps: seq<real>, order: seq<nat>, t: set<nat>, v: real)
    requires IsSortedOrder(ps, |ps|, order)
    requires forall i | i in t :: i < |ps| && v <= ps[i]
    ensures |t| <= |ps| - CountBelow(ps, v)
  {
    CountsAreCards(ps, v);
    DistinctCard(order);
    var all, below := (set k: nat | k in order), Below(ps, v);
    SubsetSize(t, all - below);
    assert all == (all - below) + below;
  }

  /** The deterministic core of the family-wise error bound: when every p-value of a set t (the
      true hypotheses) exceeds alpha / |t|, no member of t is rejected at alpha. */
  lemma NoFalseRejection(ps: seq<real>, order: seq<nat>, adj: seq<real>, alpha: real, t: set<nat>)
    requires IsHolm(ps, order, adj) && 0.0 <= alpha < 1.0
    requires forall i | i in t :: i < |ps| && ps[i] > alpha / |t| as real
    ensures forall i | i in t :: adj[i] > alpha
  {
    forall i | i in t ensures adj[i] > alpha {
      var k := SmallestIn(ps, t);
      SmallestIsHeavy(ps, order, alpha, t, k);
      hide CountBelow, RunningMax, Scaled, Weighted;
      OrderFree(ps, order, adj, alpha, i);
    }
  }

  lemma SmallestIsHeavy(ps: seq<real>, order: seq<nat>, alpha: real, t: set<nat>, k: nat)
    requires IsSortedOrder(ps, |ps|, order) && alpha >= 0.0
    requires k in t && k < |ps| && forall i | i in t :: i < |ps| && ps[k] <= ps[i]
    requires ps[k] > alpha / |t| as real
    ensures Weighted(ps, ps[k]) > alpha
  {
    EnoughAbove(ps, order, t, ps[k]);
    hide CountBelow, Ordered, Times;
    QuotientAtMost(ps[k], alpha, |t|);
    MoreTimes(|t|, |ps| - CountBelow(ps, ps[k]), ps[k]);
  }
}
