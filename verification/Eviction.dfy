/** Turning keep sets into removals: apply_eviction and selective anchoring. */
module Eviction {
  import opened Basics
  import opened KvCache

  /** The positions of [0, |keep|) that the mask does not keep. */
  function DroppedBy(keep: seq<bool>): (r: set<int>)
    ensures forall p :: p in r <==> 0 <= p < |keep| && !keep[p]
  {
    if keep == [] then {}
    else
      var n := |keep| - 1;
      DroppedBy(keep[..n]) + if keep[n] then {} else {n}
  }

  /** The positions that some layer keeps; each keep set is given in its iteration order. */
  function Union(perLayerKeep: seq<seq<int>>): set<int> {
    if perLayerKeep == [] then {}
    else
      var n := |perLayerKeep| - 1;
      Union(perLayerKeep[..n]) + set p | p in perLayerKeep[n]
  }

  lemma DroppedKept(keep: seq<bool>, p: nat)
    requires p < |keep| && keep[p]
    ensures DroppedBy(keep[..p + 1]) == DroppedBy(keep[..p])
  {
    assert keep[..p + 1][..p] == keep[..p];
  }

  lemma DroppedRun(keep: seq<bool>, start: nat, end: nat)
    requires start <= end <= |keep| && forall q :: start <= q < end ==> !keep[q]
    ensures DroppedBy(keep[..end]) == DroppedBy(keep[..start]) + Range(start, end)
    ensures |DroppedBy(keep[..end])| == |DroppedBy(keep[..start])| + end - start
  {
    RangeSize(start, end);
    hide DroppedBy, Range;
    var before, run := DroppedBy(keep[..start]), Range(start, end);
    assert DroppedBy(keep[..end]) == before + run;
    DisjointSize(before, run);
  }

  /** One memory call per maximal run of positions that are not kept. Whatever the runs, the
      effect is a single filter, and the count is the number of positions named. */
  method RemoveRuns(cache: Cache, keep: seq<bool>) returns (evicted: nat)
    modifies cache
    ensures cache.cells == Without(old(cache.cells), DroppedBy(keep))
    ensures evicted == |DroppedBy(keep)|
  {
    var n := |keep|;
    var p := 0;
    evicted := 0;
    ghost var before := cache.cells;
    WithoutNone(before, {});
    while p < n
      invariant 0 <= p <= n
      invariant cache.cells == Without(before, DroppedBy(keep[..p]))
      invariant evicted == |DroppedBy(keep[..p])|
    {
      hide Without, DroppedBy, Range;
      if keep[p] {
        DroppedKept(keep, p);
        p := p + 1;
      } else {
        var start := p;
        while p < n && !keep[p]
          invariant start <= p <= n
          invariant forall q :: start <= q < p ==> !keep[q]
        {
          p := p + 1;
        }
        DroppedRun(keep, start, p);
        WithoutTwice(before, DroppedBy(keep[..start]), Range(start, p));
        cache.SeqRm(start, p);
        evicted := evicted + (p - start);
      }
    }
    assert keep[..n] == keep;
  }

  /** The positions of [0, nKv) that some layer keeps. */
  function KeptPositions(perLayerKeep: seq<seq<int>>, nKv: nat): set<int> {
    Union(perLayerKeep) * Range(0, nKv)
  }

  /** Marks every position below nKv that some layer keeps. */
  method KeepMask(perLayerKeep: seq<seq<int>>, nKv: nat) returns (keep: seq<bool>)
    ensures |keep| == nKv
    ensures forall p :: 0 <= p < nKv ==> (keep[p] <==> p in KeptPositions(perLayerKeep, nKv))
  {
    var mask := new bool[nKv](_ => false);
    for l := 0 to |perLayerKeep|
      invariant forall p :: 0 <= p < nKv ==> (mask[p] <==> p in Union(perLayerKeep[..l]))
    {
      assert perLayerKeep[..l + 1][..l] == perLayerKeep[..l];
      hide Union;
      MarkAll(mask, perLayerKeep[l]);
      UnionStep(perLayerKeep[..l + 1]);
    }
    assert perLayerKeep[..|perLayerKeep|] == perLayerKeep;
    keep := mask[..];
  }

  lemma UnionStep(perLayerKeep: seq<seq<int>>)
    requires perLayerKeep != []
    ensures var n := |perLayerKeep| - 1;
      forall p :: p in Union(perLayerKeep) <==> p in Union(perLayerKeep[..n]) || p in perLayerKeep[n]
  {
  }

  /** for (int p : kept) if (p >= 0 && p < n_kv) keep[p] = 1 */
  method MarkAll(mask: array<bool>, kept: seq<int>)
    modifies mask
    ensures forall p :: 0 <= p < mask.Length ==> (mask[p] <==> old(mask[p]) || p in kept)
  {
    for i := 0 to |kept|
      invariant forall p :: 0 <= p < mask.Length ==> (mask[p] <==> old(mask[p]) || p in kept[..i])
    {
      var p := kept[i];
      if p >= 0 && p < mask.Length { mask[p] := true; }
    }
  }

  /** apply_eviction: a position goes when no layer keeps it, and the count is the number of
      positions below nKv outside the union of the keep sets. */
  method ApplyEviction(cache: Cache, perLayerKeep: seq<seq<int>>, nKv: nat) returns (evicted: nat)
    modifies cache
    ensures perLayerKeep == [] ==> cache.cells == old(cache.cells) && evicted == 0
    ensures perLayerKeep != [] ==>
      && cache.cells == Without(old(cache.cells), Range(0, nKv) - KeptPositions(perLayerKeep, nKv))
      && evicted == nKv - |KeptPositions(perLayerKeep, nKv)|
  {
    if |perLayerKeep| == 0 {
      return 0;
    }
    var keep := KeepMask(perLayerKeep, nKv);
    DroppedIsComplement(keep, KeptPositions(perLayerKeep, nKv));
    evicted := RemoveRuns(cache, keep);
  }

  lemma DroppedIsComplement(keep: seq<bool>, kept: set<int>)
    requires kept <= Range(0, |keep|)
    requires forall p :: 0 <= p < |keep| ==> (keep[p] <==> p in kept)
    ensures DroppedBy(keep) == Range(0, |keep|) - kept
    ensures |DroppedBy(keep)| == |keep| - |kept|
  {
    hide DroppedBy, Range;
    assert DroppedBy(keep) == Range(0, |keep|) - kept;
    RangeSize(0, |keep|);
    ComplementSize(Range(0, |keep|), kept);
  }

  /** The count agrees with the cells that really went exactly when every position it names was
      live, as in a dense prefix. */
  lemma CountMatchesCells(cells: seq<Cell>, dropped: set<int>)
    requires Increasing(cells)
    ensures |dropped| == |cells| - |Without(cells, dropped)| <==> dropped <= Positions(cells)
  {
    WithoutLength(cells, dropped);
    var live := Positions(cells);
    assert dropped == dropped * live + (dropped - live);
    assert |dropped| == |dropped * live| + |dropped - live|;
    if |dropped - live| == 0 {
      assert dropped - live == {};
    }
  }
}
