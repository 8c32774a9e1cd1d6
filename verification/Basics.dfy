/** What several modules share. */
module Basics {

  datatype Option<T> = None | Some(value: T)

  function Min(x: real, y: real): real { if x <= y then x else y }

  function Max(x: real, y: real): real { if x >= y then x else y }

  function MinInt(x: int, y: int): int { if x <= y then x else y }

  function MaxInt(x: int, y: int): int { if x >= y then x else y }

  /** To the nearest integer, halves upwards. */
  function Round(x: real): (n: int)
    ensures n as real - 0.5 <= x < n as real + 0.5
  {
    (x + 0.5).Floor
  }

  function Pow2(n: nat): (r: nat)
    ensures r >= 1
  {
    if n == 0 then 1 else 2 * Pow2(n - 1)
  }

  // ----- sizes of sets -----

  lemma DisjointSize<T>(s: set<T>, t: set<T>)
    requires s !! t
    ensures |s + t| == |s| + |t|
  {
  }

  lemma SubsetSize<T>(s: set<T>, t: set<T>)
    requires s <= t
    ensures |s| <= |t|
  {
    assert t == s + (t - s);
  }

  lemma StrictSubsetSize<T>(s: set<T>, t: set<T>, x: T)
    requires s <= t && x in t - s
    ensures |s| < |t|
  {
    SubsetSize(s, t - {x});
  }

  lemma SameSizeSubset<T>(s: set<T>, t: set<T>)
    requires s <= t && |s| == |t|
    ensures s == t
  {
    assert t == (t - s) + s;
    assert |t - s| == 0;
  }

  lemma ComplementSize<T>(s: set<T>, t: set<T>)
    requires t <= s
    ensures |s - t| == |s| - |t|
  {
    assert s == (s - t) + t;
  }

  lemma UnionSize<T>(s: set<T>, t: set<T>)
    ensures |s + t| <= |s| + |t|
    ensures s !! t ==> |s + t| == |s| + |t|
  {
    assert s + t == s + (t - s);
    SubsetSize(t - s, t);
  }

  lemma AnyOutside<T>(s: set<T>, t: set<T>) returns (x: T)
    requires !(s <= t)
    ensures x in s && x !in t
  {
    x :| x in s && x !in t;
  }
}
