/** Choosing the k best-scored positions, with std::nth_element known only by its contract. */
module Selection {
  import opened Basics

  ghost predicate Distinct(s: seq<int>) {
    forall i, j :: 0 <= i < j < |s| ==> s[i] != s[j]
  }

  ghost predicate Indexes(s: seq<int>, key: seq<real>) {
    forall i :: 0 <= i < |s| ==> 0 <= s[i] < |key|
  }

  /** Every one of the first k entries scores at least as high as every later one. */
  ghost predicate Partitioned(s: seq<int>, key: seq<real>, k: nat)
    requires Indexes(s, key)
  {
    forall i, j :: 0 <= i < k <= j < |s| ==> key[s[i]] >= key[s[j]]
  }

  function Elements(s: seq<int>): set<int> { set i | i in s }

  /** chosen is a best k-subset of cand (all of it when it has no more than k members). */
  ghost predicate IsTop(chosen: set<int>, cand: set<int>, key: seq<real>, k: nat) {
    && chosen <= cand
    && |chosen| == (if k <= |cand| then k else |cand|)
    && forall a, b :: a in chosen && b in cand - chosen && 0 <= a < |key| && 0 <= b < |key| ==> key[a] >= key[b]
  }

  /** std::nth_element with the comparator "scores higher". */
  method NthElement(idx: seq<int>, key: seq<real>, k: nat) returns (r: seq<int>)
    requires Indexes(idx, key) && k <= |idx|
    ensures multiset(r) == multiset(idx) && |r| == |idx|
    ensures Indexes(r, key) && Partitioned(r, key, k)
  {
    r := idx;
    for a := 0 to k
      invariant |r| == |idx| && Indexes(r, key)
      invariant multiset(r) == multiset(idx)
      invariant forall i, j :: 0 <= i < a && i < j < |r| ==> key[r[i]] >= key[r[j]]
    {
      var m := BestFrom(r, key, a);
      r := r[a := r[m]][m := r[a]];
    }
  }

  method BestFrom(r: seq<int>, key: seq<real>, a: nat) returns (m: nat)
    requires Indexes(r, key) && a < |r|
    ensures a <= m < |r| && forall j :: a <= j < |r| ==> key[r[m]] >= key[r[j]]
  {
    m := a;
    for j := a to |r|
      invariant a <= m < |r| && forall i :: a <= i < j ==> key[r[m]] >= key[r[i]]
    {
      if key[r[j]] > key[r[m]] { m := j; }
    }
  }

  lemma {:induction false} DistinctMultiplicity(s: seq<int>, e: int)
    requires Distinct(s)
    ensures multiset(s)[e] <= 1
  {
    if s != [] {
      var n := |s| - 1;
      assert s == s[..n] + [s[n]];
      DistinctMultiplicity(s[..n], e);
      if e == s[n] {
        assert e !in s[..n];
        assert multiset(s[..n])[e] == 0;
      }
    }
  }

  lemma PermutationDistinct(s: seq<int>, t: seq<int>)
    requires Distinct(s) && multiset(s) == multiset(t)
    ensures Distinct(t)
  {
    forall i, j | 0 <= i < j < |t| ensures t[i] != t[j] {
      if t[i] == t[j] {
        assert t == t[..j] + t[j..];
        assert multiset(t)[t[i]] == multiset(t[..j])[t[i]] + multiset(t[j..])[t[i]];
        assert t[..j][i] == t[i] && t[j..][0] == t[i];
        DistinctMultiplicity(s, t[i]);
      }
    }
  }

  lemma {:induction false} DistinctSize(s: seq<int>)
    requires Distinct(s)
    ensures |Elements(s)| == |s|
  {
    if s != [] {
      var n := |s| - 1;
      DistinctSize(s[..n]);
      assert Elements(s) == Elements(s[..n]) + {s[n]};
    }
  }

  lemma PartitionIsTop(cand: seq<int>, r: seq<int>, key: seq<real>, k: nat)
    requires Distinct(cand) && multiset(r) == multiset(cand) && k <= |r|
    requires Indexes(r, key) && Partitioned(r, key, k)
    ensures IsTop(Elements(r[..k]), Elements(cand), key, k)
  {
    PermutationDistinct(cand, r);
    DistinctSize(r[..k]);
    DistinctSize(cand);
    assert |r| == |multiset(r)| == |multiset(cand)| == |cand|;
    forall e: int ensures e in r <==> e in cand {
      assert e in multiset(r) <==> e in multiset(cand);
    }
    forall a, b | a in Elements(r[..k]) && b in Elements(cand) - Elements(r[..k]) ensures key[a] >= key[b] {
      var i :| 0 <= i < k && r[i] == a;
      var j :| 0 <= j < |r| && r[j] == b;
      assert forall q :: 0 <= q < k ==> r[..k][q] == r[q] && r[q] in Elements(r[..k]);
      assert j >= k;
    }
  }

  /** Partition the candidates when there are more than k of them, then take the first k. */
  method TopOf(cand: seq<int>, key: seq<real>, k: nat) returns (chosen: seq<int>)
    requires Distinct(cand) && Indexes(cand, key)
    ensures IsTop(Elements(chosen), Elements(cand), key, k)
    ensures Indexes(chosen, key)
  {
    if k < |cand| {
      var r := NthElement(cand, key, k);
      PartitionIsTop(cand, r, key, k);
      DistinctSize(cand);
      chosen := r[..k];
    } else {
      DistinctSize(cand);
      chosen := cand;
    }
  }

  // ----- scores of sets of positions -----

  /** The total score of the positions of s below n. */
  function ScoreOf(key: seq<real>, s: set<int>, n: nat): real
    requires n <= |key|
  {
    if n == 0 then 0.0 else ScoreOf(key, s, n - 1) + if n - 1 in s then key[n - 1] else 0.0
  }

  lemma {:induction false} ScoreAdds(key: seq<real>, s: set<int>, t: set<int>, n: nat)
    requires n <= |key| && s !! t
    ensures ScoreOf(key, s + t, n) == ScoreOf(key, s, n) + ScoreOf(key, t, n)
  {
    if n > 0 {
      ScoreAdds(key, s, t, n - 1);
    }
  }

  lemma {:induction false} ScoreOfOne(key: seq<real>, a: int, n: nat)
    requires n <= |key| && 0 <= a < n
    ensures ScoreOf(key, {a}, n) == key[a]
  {
    if a < n - 1 {
      ScoreOfOne(key, a, n - 1);
    } else {
      ScoreOfNone(key, {a}, n - 1);
    }
  }

  lemma {:induction false} ScoreOfNone(key: seq<real>, s: set<int>, n: nat)
    requires n <= |key| && forall a | a in s :: a < 0 || n <= a
    ensures ScoreOf(key, s, n) == 0.0
  {
    if n > 0 {
      ScoreOfNone(key, s, n - 1);
    }
  }

  /** Trading one position for another changes the total by the difference of their scores. */
  lemma ScoreOfTrade(key: seq<real>, t: set<int>, b: int, a: int)
    requires b in t && a !in t && 0 <= a < |key| && 0 <= b < |key|
    ensures ScoreOf(key, t - {b} + {a}, |key|) == ScoreOf(key, t, |key|) - key[b] + key[a]
  {
    var rest, n := t - {b}, |key|;
    ScoreOfOne(key, a, n);
    ScoreOfOne(key, b, n);
    hide ScoreOf;
    ScoreAdds(key, rest, {a}, n);
    ScoreAdds(key, rest, {b}, n);
    assert rest + {b} == t;
  }

  lemma MemberOutside(s: set<int>, t: set<int>) returns (a: int)
    requires |s| == |t| && !(s <= t)
    ensures a in t - s
  {
    var b := AnyOutside(s, t);
    if t <= s {
      StrictSubsetSize(t, s, b);
      assert false;
    }
    a := AnyOutside(t, s);
  }

  /** A best k-subset has the largest total score among all subsets of its size. */
  lemma {:induction false} TopHasBestScore(chosen: set<int>, cand: set<int>, key: seq<real>, k: nat, t: set<int>)
    requires IsTop(chosen, cand, key, k) && (forall a | a in cand :: 0 <= a < |key|)
    requires t <= cand && |t| == |chosen|
    ensures ScoreOf(key, t, |key|) <= ScoreOf(key, chosen, |key|)
    decreases |t - chosen|
  {
    hide ScoreOf;
    if t <= chosen {
      SameSizeSubset(t, chosen);
    } else {
      var b := AnyOutside(t, chosen);
      var a := MemberOutside(t, chosen);
      var better := t - {b} + {a};
      ScoreOfTrade(key, t, b, a);
      assert key[a] >= key[b];
      assert better - chosen == (t - chosen) - {b};
      assert |better| == |t|;
      TopHasBestScore(chosen, cand, key, k, better);
    }
  }
}
