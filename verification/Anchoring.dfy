/** Selective anchoring: after the spread gate, only the best-scored survivors stay. */
module Anchoring {
  import opened Basics
  import opened KvCache
  import opened Selection
  import opened Eviction

  // The score given to sink positions so that they always rank first.
  const SINK_SCORE: real := 1000000000000000000000000000000.0

  /** The ranking key: sinks first, everything else by its position score. */
  function RankKey(posScore: seq<real>, nSink: nat): (key: seq<real>)
    ensures |key| == |posScore|
    ensures forall p :: 0 <= p < |key| ==> key[p] == if p < nSink then SINK_SCORE else posScore[p]
  {
    seq(|posScore|, p requires 0 <= p < |posScore| => if p < nSink then SINK_SCORE else posScore[p])
  }

  /** The indices that the mask marks, in increasing order. */
  method Marked(mask: seq<bool>) returns (ranked: seq<int>)
    ensures Distinct(ranked)
    ensures forall p :: p in ranked <==> 0 <= p < |mask| && mask[p]
  {
    ranked := [];
    for p := 0 to |mask|
      invariant Distinct(ranked)
      invariant forall q :: q in ranked <==> 0 <= q < p && mask[q]
    {
      if mask[p] { ranked := ranked + [p]; }
    }
  }

  method MaskOf(chosen: seq<int>, n: nat) returns (keep: seq<bool>)
    requires forall i :: 0 <= i < |chosen| ==> 0 <= chosen[i] < n
    ensures |keep| == n && forall p :: 0 <= p < n ==> (keep[p] <==> p in chosen)
  {
    var mask := new bool[n](_ => false);
    for i := 0 to |chosen|
      invariant forall p :: 0 <= p < n ==> (mask[p] <==> p in chosen[..i])
    {
      mask[chosen[i]] := true;
    }
    assert chosen[..|chosen|] == chosen;
    keep := mask[..];
  }

  /** Each layer also keeps the first nSink positions of [0, nKv). */
  ghost predicate IsProtected(r: seq<seq<int>>, perLayerKeep: seq<seq<int>>, nSink: int, nKv: nat) {
    && |r| == |perLayerKeep|
    && forall l :: 0 <= l < |r| ==> forall p :: p in r[l] <==> p in perLayerKeep[l] || 0 <= p < MinInt(nSink, nKv)
  }

  /** kept.insert(p) for the sinks of one layer. */
  method InsertSinks(kept: seq<int>, nSink: int, nKv: nat) returns (r: seq<int>)
    ensures forall p :: p in r <==> p in kept || 0 <= p < MinInt(nSink, nKv)
  {
    r := kept;
    var p := 0;
    while p < MinInt(nSink, nKv)
      invariant p == 0 || 0 <= p <= MinInt(nSink, nKv)
      invariant forall q :: q in r <==> q in kept || 0 <= q < p
      decreases nKv - p
    {
      if p !in r {
        r := r + [p];
      }
      p := p + 1;
    }
  }

  /** protect_sink */
  method ProtectSink(perLayerKeep: seq<seq<int>>, nSink: int, nKv: nat) returns (r: seq<seq<int>>)
    ensures IsProtected(r, perLayerKeep, nSink, nKv)
  {
    r := [];
    for l := 0 to |perLayerKeep|
      invariant IsProtected(r, perLayerKeep[..l], nSink, nKv)
    {
      var kept := InsertSinks(perLayerKeep[l], nSink, nKv);
      r := r + [kept];
    }
    assert perLayerKeep[..|perLayerKeep|] == perLayerKeep;
  }

  lemma {:induction false} ProtectedUnion(r: seq<seq<int>>, perLayerKeep: seq<seq<int>>, nSink: int, nKv: nat, p: int)
    requires IsProtected(r, perLayerKeep, nSink, nKv) && perLayerKeep != []
    ensures p in Union(r) <==> p in Union(perLayerKeep) || 0 <= p < MinInt(nSink, nKv)
  {
    var n := |r| - 1;
    UnionStep(r);
    UnionStep(perLayerKeep);
    if n > 0 {
      ProtectedUnion(r[..n], perLayerKeep[..n], nSink, nKv, p);
    }
  }

  /** With the sinks protected, the gate's survivors are what it keeps and all the sinks. */
  function Survivors(perLayerKeep: seq<seq<int>>, nSink: nat, nKv: nat): set<int> {
    KeptPositions(perLayerKeep, nKv) + Range(0, MinInt(nSink, nKv))
  }

  lemma ProtectedSurvivors(r: seq<seq<int>>, perLayerKeep: seq<seq<int>>, nSink: nat, nKv: nat)
    requires IsProtected(r, perLayerKeep, nSink, nKv) && perLayerKeep != []
    ensures KeptPositions(r, nKv) == Survivors(perLayerKeep, nSink, nKv)
  {
    hide Union, Range, IsProtected;
    forall p
      ensures p in KeptPositions(r, nKv) <==> p in Survivors(perLayerKeep, nSink, nKv)
    {
      ProtectedUnion(r, perLayerKeep, nSink, nKv, p);
    }
  }

  /** How many survivors stay. */
  function AnchorCount(anchorTopK: nat, sinksExtra: bool, nSink: nat, survivors: nat): nat {
    MinInt(AnchorRoom(anchorTopK, sinksExtra, nSink), survivors)
  }

  function AnchorRoom(anchorTopK: nat, sinksExtra: bool, nSink: nat): nat { anchorTopK + if sinksExtra then nSink else 0 }

  /** The fixed top-k form: rank the survivors of the gate and remove all but the best. */
  method AnchorSurvivors(cache: Cache, perLayerKeep: seq<seq<int>>, posScore: seq<real>,
                         anchorTopK: nat, sinksExtra: bool, nSink: nat)
    returns (droppedExtra: nat, ghost chosen: set<int>)
    modifies cache
    ensures var survivors := KeptPositions(perLayerKeep, |posScore|);
      && IsTop(chosen, survivors, RankKey(posScore, nSink),
               AnchorCount(anchorTopK, sinksExtra, nSink, |survivors|))
      && cache.cells == (if chosen == survivors then old(cache.cells)
                         else Without(old(cache.cells), Range(0, |posScore|) - chosen))
      && droppedExtra == (if chosen == survivors then 0 else |posScore| - |chosen|)
  {
    var n := |posScore|;
    ghost var survivors := KeptPositions(perLayerKeep, n);
    var ranked := RankedSurvivors(perLayerKeep, n);
    var top := AnchorCount(anchorTopK, sinksExtra, nSink, |ranked|);
    var best := TopOf(ranked, RankKey(posScore, nSink), top);
    chosen := Elements(best);
    droppedExtra := 0;
    if top < |ranked| {
      droppedExtra := KeepOnly(cache, best, n);
    } else {
      SameSizeSubset(chosen, survivors);
    }
  }

  /** The gate's survivors, each once. */
  method RankedSurvivors(perLayerKeep: seq<seq<int>>, n: nat) returns (ranked: seq<int>)
    ensures Distinct(ranked) && forall i :: 0 <= i < |ranked| ==> 0 <= ranked[i] < n
    ensures Elements(ranked) == KeptPositions(perLayerKeep, n) && |Elements(ranked)| == |ranked|
  {
    var spreadKept := KeepMask(perLayerKeep, n);
    ranked := Marked(spreadKept);
    hide Union;
    forall p ensures p in Elements(ranked) <==> p in KeptPositions(perLayerKeep, n) {
      assert p in KeptPositions(perLayerKeep, n) <==> 0 <= p < n && spreadKept[p];
    }
    assert forall i :: 0 <= i < |ranked| ==> ranked[i] in ranked;
    DistinctSize(ranked);
  }

  /** Removes every position of [0, n) outside best. */
  method KeepOnly(cache: Cache, best: seq<int>, n: nat) returns (dropped: nat)
    requires forall i :: 0 <= i < |best| ==> 0 <= best[i] < n
    modifies cache
    ensures cache.cells == Without(old(cache.cells), Range(0, n) - Elements(best))
    ensures dropped == n - |Elements(best)|
  {
    var keep := MaskOf(best, n);
    DroppedIsComplement(keep, Elements(best));
    dropped := RemoveRuns(cache, keep);
  }

  /** The number reported after anchoring: what the gate dropped, and then every position outside the
      anchors once more if any survivor went. */
  function ReportedEvictions(n: nat, survivors: nat, anchors: nat): int {
    (n - survivors) + if anchors == survivors then 0 else n - anchors
  }

  /** The number reported is what went from a dense prompt exactly when the gate kept every position or
      the anchor budget has room for all its survivors. */
  lemma ReportedIsExact(perLayerKeep: seq<seq<int>>, posScore: seq<real>, anchorTopK: nat, sinksExtra: bool,
                        nSink: nat, chosen: set<int>)
    requires var survivors := Survivors(perLayerKeep, nSink, |posScore|);
      IsTop(chosen, survivors, RankKey(posScore, nSink), AnchorCount(anchorTopK, sinksExtra, nSink, |survivors|))
    ensures var n, survivors := |posScore|, Survivors(perLayerKeep, nSink, |posScore|);
      ReportedEvictions(n, |survivors|, |chosen|) == n - |chosen| <==>
      Range(0, n) <= survivors || AnchorRoom(anchorTopK, sinksExtra, nSink) >= |survivors|
  {
    var n, survivors := |posScore|, Survivors(perLayerKeep, nSink, |posScore|);
    SurvivorsBelow(perLayerKeep, nSink, n);
    hide Range, RankKey, Survivors;
    RangeSize(0, n);
    SubsetSize(survivors, Range(0, n));
    if Range(0, n) <= survivors {
      assert survivors == Range(0, n);
    } else {
      var p := AnyOutside(Range(0, n), survivors);
      StrictSubsetSize(survivors, Range(0, n), p);
    }
  }

  lemma SurvivorsBelow(perLayerKeep: seq<seq<int>>, nSink: nat, n: nat)
    ensures Survivors(perLayerKeep, nSink, n) <= Range(0, n)
  {
    hide Union;
  }

  /** Five positions, of which the gate keeps three and the anchor budget one: six evictions are reported. */
  lemma ReportedBeyondPrompt(posScore: seq<real>, chosen: set<int>)
    requires |posScore| == 5
    requires var survivors := Survivors([[0, 1, 2]], 1, 5);
      IsTop(chosen, survivors, RankKey(posScore, 1), AnchorCount(1, false, 1, |survivors|))
    ensures ReportedEvictions(5, |Survivors([[0, 1, 2]], 1, 5)|, |chosen|) == 6
  {
    UnionStep([[0, 1, 2]]);
    assert Union([]) == {};
    assert Survivors([[0, 1, 2]], 1, 5) == {0, 1, 2};
  }

  /** The spread gate with its sinks protected, followed by selective anchoring: of the prompt's
      positions exactly a best anchor set of the survivors is left, and every sink is in it as long
      as the anchor budget has room for them. */
  method GateThenAnchor(cache: Cache, perLayerKeep: seq<seq<int>>, posScore: seq<real>,
                        anchorTopK: nat, sinksExtra: bool, nSink: nat)
    returns (evictedPrefill: int, ghost chosen: set<int>)
    modifies cache
    ensures perLayerKeep == [] ==> cache.cells == old(cache.cells) && evictedPrefill == 0
    ensures perLayerKeep != [] ==>
      var survivors := Survivors(perLayerKeep, nSink, |posScore|);
      && IsTop(chosen, survivors, RankKey(posScore, nSink), AnchorCount(anchorTopK, sinksExtra, nSink, |survivors|))
      && evictedPrefill == ReportedEvictions(|posScore|, |survivors|, |chosen|)
      && cache.cells == Without(old(cache.cells), Range(0, |posScore|) - chosen)
    ensures perLayerKeep != [] && AllBelowSinks(posScore) && AnchorRoom(anchorTopK, sinksExtra, nSink) >= nSink ==>
      Range(0, MinInt(nSink, |posScore|)) <= chosen
  {
    ghost var n, survivors := |posScore|, Survivors(perLayerKeep, nSink, |posScore|);
    hide Without, Union, Range, KeptPositions, Survivors, IsTop, IsProtected, AnchorCount, RankKey, AllBelowSinks;
    var keep := ProtectSink(perLayerKeep, nSink, |posScore|);
    ProtectedIsThere(keep, perLayerKeep, nSink, n);
    evictedPrefill := ApplyEviction(cache, keep, |posScore|);
    var droppedExtra;
    droppedExtra, chosen := AnchorSurvivors(cache, keep, posScore, anchorTopK, sinksExtra, nSink);
    evictedPrefill := evictedPrefill + droppedExtra;
    TopIsWithin(chosen, KeptPositions(keep, n), RankKey(posScore, nSink),
                AnchorCount(anchorTopK, sinksExtra, nSink, |KeptPositions(keep, n)|));
    if keep == [] {
      NothingKept(n);
    } else {
      ProtectedSurvivors(keep, perLayerKeep, nSink, n);
      WithoutTwice(old(cache.cells), Range(0, n) - survivors, Range(0, n) - chosen);
      assert (Range(0, n) - survivors) + (Range(0, n) - chosen) == Range(0, n) - chosen;
      if AllBelowSinks(posScore) && AnchorRoom(anchorTopK, sinksExtra, nSink) >= nSink {
        SinksAreAnchors(chosen, perLayerKeep, posScore, anchorTopK, sinksExtra, nSink);
      }
    }
  }

  lemma NothingKept(n: nat)
    ensures KeptPositions([], n) == {}
  {
  }

  lemma ProtectedIsThere(r: seq<seq<int>>, perLayerKeep: seq<seq<int>>, nSink: nat, nKv: nat)
    requires IsProtected(r, perLayerKeep, nSink, nKv)
    ensures r == [] <==> perLayerKeep == []
  {
  }

  lemma TopIsWithin(chosen: set<int>, survivors: set<int>, key: seq<real>, k: nat)
    requires IsTop(chosen, survivors, key, k)
    ensures chosen <= survivors && (chosen == survivors <==> |chosen| == |survivors|)
  {
    if |chosen| == |survivors| {
      SameSizeSubset(chosen, survivors);
    }
  }

  /** The averaged attention that scores a position is far below the score that marks a sink. */
  ghost predicate AllBelowSinks(posScore: seq<real>) {
    forall p :: 0 <= p < |posScore| ==> posScore[p] < SINK_SCORE
  }

  /** Averaged attention is at most one. */
  lemma AttentionIsBelowSinks(posScore: seq<real>)
    requires forall p :: 0 <= p < |posScore| ==> posScore[p] <= 1.0
    ensures AllBelowSinks(posScore)
  {
  }

  /** Sinks that are extra take no room from the others: next to all the sinks, anchorTopK of the other
      survivors stay, or all of them. Sinks that are not extra are counted in anchorTopK. */
  lemma ExtraSinks(chosen: set<int>, perLayerKeep: seq<seq<int>>, posScore: seq<real>,
                   anchorTopK: nat, sinksExtra: bool, nSink: nat)
    requires AllBelowSinks(posScore) && nSink <= |posScore|
    requires var survivors := Survivors(perLayerKeep, nSink, |posScore|);
      IsTop(chosen, survivors, RankKey(posScore, nSink), AnchorCount(anchorTopK, sinksExtra, nSink, |survivors|))
    ensures var sinks, survivors := Range(0, nSink), Survivors(perLayerKeep, nSink, |posScore|);
      && (sinksExtra ==> sinks <= chosen && |chosen - sinks| == MinInt(anchorTopK, |survivors - sinks|))
      && (!sinksExtra ==> |chosen| == MinInt(anchorTopK, |survivors|))
  {
    var sinks, survivors := Range(0, nSink), Survivors(perLayerKeep, nSink, |posScore|);
    RangeSize(0, nSink);
    assert |chosen| == MinInt(AnchorRoom(anchorTopK, sinksExtra, nSink), |survivors|);
    if sinksExtra {
      SinksAreAnchors(chosen, perLayerKeep, posScore, anchorTopK, sinksExtra, nSink);
      hide Range, Survivors, IsTop, RankKey;
      SinksSurvive(perLayerKeep, nSink, |posScore|);
      ComplementSize(chosen, sinks);
      ComplementSize(survivors, sinks);
    }
  }

  lemma SinksSurvive(perLayerKeep: seq<seq<int>>, nSink: nat, nKv: nat)
    requires nSink <= nKv
    ensures Range(0, nSink) <= Survivors(perLayerKeep, nSink, nKv)
  {
  }

  lemma SinksAreAnchors(chosen: set<int>, perLayerKeep: seq<seq<int>>, posScore: seq<real>,
                        anchorTopK: nat, sinksExtra: bool, nSink: nat)
    requires AllBelowSinks(posScore) && AnchorRoom(anchorTopK, sinksExtra, nSink) >= nSink
    requires var survivors := Survivors(perLayerKeep, nSink, |posScore|);
      IsTop(chosen, survivors, RankKey(posScore, nSink), AnchorCount(anchorTopK, sinksExtra, nSink, |survivors|))
    ensures Range(0, MinInt(nSink, |posScore|)) <= chosen
  {
    var n, survivors := |posScore|, Survivors(perLayerKeep, nSink, |posScore|);
    var sinks := Range(0, MinInt(nSink, n));
    RangeSize(0, MinInt(nSink, n));
    SubsetSize(sinks, survivors);
    hide Union;
    assert forall p :: p in survivors ==> 0 <= p < n;
    assert (set p | p in survivors && p < nSink) == sinks;
    hide Range, RankKey, IsTop, KeptPositions;
    AnchorGuarantees(chosen, survivors, posScore, nSink, AnchorCount(anchorTopK, sinksExtra, nSink, |survivors|));
  }

  lemma {:induction false} PositionsWithout(cells: seq<Cell>, dropped: set<int>)
    ensures Positions(Without(cells, dropped)) == Positions(cells) - dropped
  {
    forall c ensures c in Without(cells, dropped) <==> c in cells && c.pos !in dropped {
      WithoutMembers(cells, dropped, c);
    }
  }

  /** The positions of [0, n) left are the anchors that were live, all of them on a dense prompt. */
  lemma LiveAnchors(cells: seq<Cell>, chosen: set<int>, n: nat)
    requires chosen <= Range(0, n)
    ensures Positions(Without(cells, Range(0, n) - chosen)) * Range(0, n) == chosen * Positions(cells)
    ensures Range(0, n) <= Positions(cells) ==> Positions(Without(cells, Range(0, n) - chosen)) * Range(0, n) == chosen
  {
    hide Range, Positions, Without;
    PositionsWithout(cells, Range(0, n) - chosen);
  }

  /** What an anchor set guarantees: its size, every surviving sink when there is room for them
      all, and no dropped non-sink outscoring a kept one. */
  lemma AnchorGuarantees(chosen: set<int>, survivors: set<int>, posScore: seq<real>, nSink: nat, top: nat)
    requires IsTop(chosen, survivors, RankKey(posScore, nSink), top)
    requires forall p | p in survivors :: 0 <= p < |posScore|
    requires forall p :: 0 <= p < |posScore| ==> posScore[p] < SINK_SCORE
    ensures |chosen| == if top <= |survivors| then top else |survivors|
    ensures top >= |set p | p in survivors && p < nSink|
      ==> forall p | p in survivors && p < nSink :: p in chosen
    ensures forall p, q | p in chosen && q in survivors - chosen && p >= nSink && q >= nSink ::
      posScore[p] >= posScore[q]
  {
    var sinks := set p | p in survivors && p < nSink;
    if s :| s in sinks && s !in chosen {
      if top >= |sinks| {
        forall a | a in chosen ensures a in sinks - {s} {
          assert s in survivors - chosen;
          assert RankKey(posScore, nSink)[a] >= RankKey(posScore, nSink)[s];
        }
        SubsetSize(chosen, sinks - {s});
        StrictSubsetSize(chosen, survivors, s);
        assert false;
      }
    }
  }
}
