/** Stable sorting by key and tie-averaged ranks. */
module Ranks {
  import opened Combinatorics

  /** order holds distinct indices of keys, by non-decreasing key. */
  ghost predicate Ordered(keys: seq<real>, order: seq<nat>) {
    && (forall p :: 0 <= p < |order| ==> order[p] < |keys|)
    && (forall p, q :: 0 <= p < q < |order| ==> order[p] != order[q])
    && (forall p, q :: 0 <= p <= q < |order| ==> keys[order[p]] <= keys[order[q]])
  }

  /** order lists each of the first n indices of keys once, by non-decreasing key. */
  ghost predicate IsSortedOrder(keys: seq<real>, n: nat, order: seq<nat>) {
    && |order| == n && Ordered(keys, order)
    && (forall k: nat :: k < n <==> k in order)
  }

  /** Python's sorted(range(n), key=...): the stable order of the indices by key. */
  function SortedOrder(keys: seq<real>, n: nat): (order: seq<nat>)
    requires n <= |keys|
    ensures IsSortedOrder(keys, n, order)
  {
    if n == 0 then []
    else
      var order := SortedOrder(keys, n - 1);
      InsertOrdered(keys, order, n - 1);
      Insert(keys, order, n - 1)
  }

  function Insert(keys: seq<real>, order: seq<nat>, i: nat): (r: seq<nat>)
    requires i < |keys| && forall p :: 0 <= p < |order| ==> order[p] < |keys|
    ensures |r| == |order| + 1
    ensures forall k :: k in r <==> k in order || k == i
  {
    if order == [] || keys[order[|order| - 1]] <= keys[i] then order + [i]
    else
      var m := |order| - 1;
      assert order == order[..m] + [order[m]];
      Insert(keys, order[..m], i) + [order[m]]
  }

  /** Among equal keys the order is that of the indices. */
  ghost predicate Stable(keys: seq<real>, order: seq<nat>) {
    forall p, q :: 0 <= p < q < |order| && order[p] < |keys| && order[q] < |keys| && keys[order[p]] == keys[order[q]] ==>
      order[p] < order[q]
  }

  lemma {:induction false} InsertStable(keys: seq<real>, order: seq<nat>, i: nat)
    requires i < |keys| && Ordered(keys, order) && Stable(keys, order)
    requires forall p :: 0 <= p < |order| ==> order[p] < i
    ensures i !in order && Ordered(keys, Insert(keys, order, i)) && Stable(keys, Insert(keys, order, i))
  {
    InsertOrdered(keys, order, i);
    if order != [] && keys[order[|order| - 1]] > keys[i] {
      var m := |order| - 1;
      var last := order[m];
      InsertStable(keys, order[..m], i);
      var front := Insert(keys, order[..m], i);
      assert Insert(keys, order, i) == front + [last];
      forall p | 0 <= p < |front| && keys[front[p]] == keys[last]
        ensures front[p] < last
      {
        assert front[p] in front;
        EqualIsEarlier(keys, order, front[p]);
      }
      hide Insert, Ordered;
      StablePush(keys, front, last);
    }
  }

  lemma EqualIsEarlier(keys: seq<real>, order: seq<nat>, k: nat)
    requires order != [] && Ordered(keys, order) && Stable(keys, order)
    requires k in order[..|order| - 1] && k < |keys| && keys[k] == keys[order[|order| - 1]]
    ensures k < order[|order| - 1]
  {
  }

  lemma StablePush(keys: seq<real>, order: seq<nat>, last: nat)
    requires Ordered(keys, order) && Ordered(keys, order + [last]) && Stable(keys, order) && last < |keys|
    requires forall p :: 0 <= p < |order| && keys[order[p]] == keys[last] ==> order[p] < last
    ensures Stable(keys, order + [last])
  {
  }

  /** The sort is stable. */
  lemma {:induction false} SortedOrderIsStable(keys: seq<real>, n: nat)
    requires n <= |keys|
    ensures Stable(keys, SortedOrder(keys, n))
  {
    hide *;
    if n == 0 {
      NothingSorted(keys);
    } else {
      SortedOrderIsStable(keys, n - 1);
      SortedOrderSnoc(keys, n);
      InsertStable(keys, SortedOrder(keys, n - 1), n - 1);
    }
  }

  lemma NothingSorted(keys: seq<real>)
    ensures Stable(keys, SortedOrder(keys, 0))
  {
  }

  lemma SortedOrderSnoc(keys: seq<real>, n: nat)
    requires 0 < n <= |keys|
    ensures var order := SortedOrder(keys, n - 1);
      && Ordered(keys, order) && (forall p :: 0 <= p < |order| ==> order[p] < n - 1 < |keys|)
      && SortedOrder(keys, n) == Insert(keys, order, n - 1)
  {
    var order := SortedOrder(keys, n - 1);
    hide Ordered;
    forall p | 0 <= p < |order|
      ensures order[p] < n - 1
    {
      assert order[p] in order;
    }
  }

  lemma {:induction false} InsertOrdered(keys: seq<real>, order: seq<nat>, i: nat)
    requires i < |keys| && i !in order && Ordered(keys, order)
    ensures Ordered(keys, Insert(keys, order, i))
  {
    if order == [] || keys[order[|order| - 1]] <= keys[i] {
    } else {
      var m := |order| - 1;
      InsertOrdered(keys, order[..m], i);
      var front := Insert(keys, order[..m], i);
      forall p | 0 <= p < |front|
        ensures front[p] != order[m] && keys[front[p]] <= keys[order[m]]
      {
        assert front[p] in front;
      }
      hide Insert;
      OrderedPush(keys, front, order[m]);
    }
  }

  lemma OrderedPush(keys: seq<real>, order: seq<nat>, i: nat)
    requires Ordered(keys, order) && i < |keys|
    requires forall p :: 0 <= p < |order| ==> order[p] != i && keys[order[p]] <= keys[i]
    ensures Ordered(keys, order + [i])
  {
  }

  function CountBelow(xs: seq<real>, v: real): nat {
    if xs == [] then 0
    else CountBelow(xs[..|xs| - 1], v) + if xs[|xs| - 1] < v then 1 else 0
  }

  function CountAt(xs: seq<real>, v: real): nat {
    if xs == [] then 0
    else CountAt(xs[..|xs| - 1], v) + if xs[|xs| - 1] == v then 1 else 0
  }

  /** Twice the mid-rank of v among xs: every smaller value counts twice, every equal one once. */
  function MidRank2(xs: seq<real>, v: real): nat {
    2 * CountBelow(xs, v) + CountAt(xs, v) + 1
  }

  function MidRanks2(xs: seq<real>): (r: seq<nat>)
    ensures |r| == |xs|
  {
    seq(|xs|, k requires 0 <= k < |xs| => MidRank2(xs, xs[k]))
  }

  function Below(xs: seq<real>, v: real): set<nat> {
    set k: nat | k < |xs| && xs[k] < v
  }

  function At(xs: seq<real>, v: real): set<nat> {
    set k: nat | k < |xs| && xs[k] == v
  }

  lemma {:induction false} CountsAreCards(xs: seq<real>, v: real)
    ensures CountBelow(xs, v) == |Below(xs, v)|
    ensures CountAt(xs, v) == |At(xs, v)|
  {
    if xs != [] {
      var n := |xs| - 1;
      CountsAreCards(xs[..n], v);
      assert Below(xs, v) == Below(xs[..n], v) + if xs[n] < v then {n} else {};
      assert At(xs, v) == At(xs[..n], v) + if xs[n] == v then {n} else {};
    }
  }

  lemma {:induction false} DistinctCard(s: seq<nat>)
    requires forall p, q :: 0 <= p < q < |s| ==> s[p] != s[q]
    ensures |set x: nat | x in s| == |s|
  {
    if s != [] {
      var m := |s| - 1;
      DistinctCard(s[..m]);
      assert (set x: nat | x in s) == (set x: nat | x in s[..m]) + {s[m]};
    }
  }

  lemma PositionOf(order: seq<nat>, n: nat, k: nat) returns (p: nat)
    requires |order| == n && (forall k: nat :: k < n <==> k in order)
    requires k < n
    ensures p < n && order[p] == k
  {
    assert k in order;
    p :| 0 <= p < |order| && order[p] == k;
  }

  lemma BelowRun(xs: seq<real>, order: seq<nat>, i: nat)
    requires IsSortedOrder(xs, |xs|, order)
    requires i < |xs| && (i > 0 ==> xs[order[i - 1]] < xs[order[i]])
    ensures CountBelow(xs, xs[order[i]]) == i
  {
    var v, before := xs[order[i]], order[..i];
    CountsAreCards(xs, v);
    DistinctCard(before);
    hide CountBelow, CountAt;
    forall k | k in Below(xs, v) ensures k in before {
      var p := PositionOf(order, |xs|, k);
      assert p < i && before[p] == k;
    }
    assert Below(xs, v) == set x: nat | x in before;
  }

  lemma AtRun(xs: seq<real>, order: seq<nat>, i: nat, j: nat)
    requires IsSortedOrder(xs, |xs|, order)
    requires i <= j < |xs| && xs[order[i]] == xs[order[j]]
    requires i > 0 ==> xs[order[i - 1]] < xs[order[i]]
    requires j + 1 < |xs| ==> xs[order[j]] < xs[order[j + 1]]
    ensures CountAt(xs, xs[order[i]]) == j + 1 - i
  {
    var run := order[i..j + 1];
    CountsAreCards(xs, xs[order[i]]);
    DistinctCard(run);
    RunIsAt(xs, order, i, j, run);
    hide *;
  }

  lemma RunIsAt(xs: seq<real>, order: seq<nat>, i: nat, j: nat, run: seq<nat>)
    requires IsSortedOrder(xs, |xs|, order)
    requires i <= j < |xs| && run == order[i..j + 1] && xs[order[i]] == xs[order[j]]
    requires i > 0 ==> xs[order[i - 1]] < xs[order[i]]
    requires j + 1 < |xs| ==> xs[order[j]] < xs[order[j + 1]]
    ensures At(xs, xs[order[i]]) == set x: nat | x in run
  {
    var v := xs[order[i]];
    forall k: nat | k in At(xs, v)
      ensures k in run
    {
      InRun(xs, order, i, j, k);
    }
    forall k: nat | k in run
      ensures k in At(xs, v)
    {
      var p :| 0 <= p < |run| && run[p] == k;
      assert order[i + p] == k;
    }
    hide Ordered, IsSortedOrder;
  }

  lemma InRun(xs: seq<real>, order: seq<nat>, i: nat, j: nat, k: nat)
    requires IsSortedOrder(xs, |xs|, order)
    requires i <= j < |xs| && xs[order[i]] == xs[order[j]]
    requires i > 0 ==> xs[order[i - 1]] < xs[order[i]]
    requires j + 1 < |xs| ==> xs[order[j]] < xs[order[j + 1]]
    requires k < |xs| && xs[k] == xs[order[i]]
    ensures k in order[i..j + 1]
  {
    var p := PositionOf(order, |xs|, k);
    assert i <= p <= j;
    assert order[i..j + 1][p - i] == k;
  }

  /** A maximal run i..j of equal keys in sorted order has mid-rank (i + j) / 2 + 1. */
  lemma RunMidRank(xs: seq<real>, order: seq<nat>, i: nat, j: nat)
    requires IsSortedOrder(xs, |xs|, order)
    requires i <= j < |xs| && xs[order[i]] == xs[order[j]]
    requires i > 0 ==> xs[order[i - 1]] < xs[order[i]]
    requires j + 1 < |xs| ==> xs[order[j]] < xs[order[j + 1]]
    ensures MidRank2(xs, xs[order[i]]) == i + j + 2
  {
    BelowRun(xs, order, i);
    AtRun(xs, order, i, j);
  }

  /** The ranking loop: ties share the average of the ranks they occupy. */
  method AverageRanks(xs: seq<real>) returns (ranks: seq<real>)
    ensures |ranks| == |xs|
    ensures forall k :: 0 <= k < |xs| ==> 2.0 * ranks[k] == MidRank2(xs, xs[k]) as real
  {
    hide MidRank2, SortedOrder;
    var n := |xs|;
    var indexed := SortedOrder(xs, n);
    var r := new real[n](_ => 0.0);
    var i := 0;
    while i < n
      invariant 0 <= i <= n
      invariant 0 < i < n ==> xs[indexed[i - 1]] < xs[indexed[i]]
      invariant forall p :: 0 <= p < i ==> 2.0 * r[indexed[p]] == MidRank2(xs, xs[indexed[p]]) as real
    {
      var j := i;
      while j + 1 < n && xs[indexed[j + 1]] == xs[indexed[i]]
        invariant i <= j < n
        invariant forall p :: i <= p <= j ==> xs[indexed[p]] == xs[indexed[i]]
      {
        j := j + 1;
      }
      assert j + 1 < n ==> xs[indexed[j]] <= xs[indexed[j + 1]];
      RunMidRank(xs, indexed, i, j);
      var avg := (i + j) as real / 2.0 + 1.0;
      label Before:
      for k := i to j + 1
        invariant forall p :: 0 <= p < i ==> r[indexed[p]] == old@Before(r[indexed[p]])
        invariant forall p :: i <= p < k ==> r[indexed[p]] == avg
      {
        r[indexed[k]] := avg;
      }
      i := j + 1;
    }
    ranks := r[..];
    forall k | 0 <= k < n ensures 2.0 * ranks[k] == MidRank2(xs, xs[k]) as real {
      var p := PositionOf(indexed, n, k);
    }
  }

  lemma CountsSnoc(xs: seq<real>, v: real, w: real)
    ensures CountBelow(xs + [v], w) == CountBelow(xs, w) + if v < w then 1 else 0
    ensures CountAt(xs + [v], w) == CountAt(xs, w) + if v == w then 1 else 0
  {
    assert (xs + [v])[..|xs|] == xs;
  }

  lemma {:induction false} SumOfPrefix(ys: seq<real>, v: real, m: nat)
    requires m <= |ys|
    ensures Sum(MidRanks2(ys + [v])[..m]) + 2 * CountBelow(ys[..m], v) + CountAt(ys[..m], v)
         == Sum(MidRanks2(ys)[..m]) + 2 * m
  {
    if m > 0 {
      hide CountBelow, CountAt, Sum;
      var y := ys[m - 1];
      SumOfPrefix(ys, v, m - 1);
      SumSnoc(MidRanks2(ys + [v]), m);
      SumSnoc(MidRanks2(ys), m);
      assert ys[..m] == ys[..m - 1] + [y];
      CountsSnoc(ys[..m - 1], y, v);
      CountsSnoc(ys, v, y);
    } else {
      assert MidRanks2(ys + [v])[..0] == [] && MidRanks2(ys)[..0] == [];
    }
  }

  lemma SumSnoc(xs: seq<nat>, m: nat)
    requires 0 < m <= |xs|
    ensures Sum(xs[..m]) == Sum(xs[..m - 1]) + xs[m - 1]
  {
    assert xs[..m][..m - 1] == xs[..m - 1];
  }

  lemma TotalStep(ys: seq<real>, v: real)
    ensures Sum(MidRanks2(ys + [v])) == Sum(MidRanks2(ys)) + 2 * |ys| + 2
  {
    var n := |ys|;
    SumOfPrefix(ys, v, n);
    CountsSnoc(ys, v, v);
    hide CountBelow, CountAt;
    assert ys[..n] == ys && MidRanks2(ys)[..n] == MidRanks2(ys);
    assert MidRanks2(ys + [v])[n] == MidRank2(ys + [v], v);
  }

  /** Twice the sum of the ranks 1..n. */
  function RankTotal(n: nat): nat { n * (n + 1) }

  /** With or without ties, the doubled ranks add up to n(n + 1). */
  lemma {:induction false} MidRanksTotal(xs: seq<real>)
    ensures Sum(MidRanks2(xs)) == RankTotal(|xs|)
  {
    hide MidRanks2;
    if xs == [] {
      assert MidRanks2(xs) == [];
    } else {
      var n := |xs| - 1;
      assert xs == xs[..n] + [xs[n]];
      MidRanksTotal(xs[..n]);
      TotalStep(xs[..n], xs[n]);
    }
  }
}
