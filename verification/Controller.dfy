/** The budgeted controller: which positions it removes and how the caller removes them. */
module Controller {
  import opened Basics
  import opened KvCache
  import opened Selection

  // ----- how many positions to keep -----

  function Clamp01(x: real): real { if x < 0.0 then 0.0 else if x > 1.0 then 1.0 else x }

  function Budgets(kBudget: int, times: real): real { kBudget as real * times }

  /** The spread gate: a sharper largest score keeps fewer positions. */
  function SpreadGate(kBudget: int, maxScore: real): int {
    var norm := Clamp01((maxScore - 0.4) / 0.4);
    var kt := Round(Budgets(kBudget, 1.3 - 0.6 * norm));
    if kt < 1 then 1 else kt
  }

  /** A larger best score never widens the gate, which runs from 1.3 budgets down to 0.7. */
  lemma SpreadGateNarrows(kBudget: nat, a: real, b: real)
    requires a <= b
    ensures SpreadGate(kBudget, b) <= SpreadGate(kBudget, a)
    ensures a <= 0.4 ==> SpreadGate(kBudget, a) == MaxInt(1, Round(Budgets(kBudget, 1.3)))
    ensures b >= 0.8 ==> SpreadGate(kBudget, b) == MaxInt(1, Round(Budgets(kBudget, 0.7)))
  {
    hide Budgets, Round;
    var x, y := Clamp01((a - 0.4) / 0.4), Clamp01((b - 0.4) / 0.4);
    BudgetsOrder(kBudget, 1.3 - 0.6 * y, 1.3 - 0.6 * x);
    RoundOrder(Budgets(kBudget, 1.3 - 0.6 * y), Budgets(kBudget, 1.3 - 0.6 * x));
  }

  /** In between it falls in a straight line: at a largest score of 0.6 it is the budget itself. */
  lemma SpreadGateIsLinear(kBudget: int, maxScore: real)
    requires 0.4 <= maxScore <= 0.8
    ensures SpreadGate(kBudget, maxScore) == MaxInt(1, Round(kBudget as real * (1.9 - 1.5 * maxScore)))
    ensures kBudget >= 1 ==> SpreadGate(kBudget, 0.6) == kBudget
  {
    hide Round;
    var norm := (maxScore - 0.4) / 0.4;
    assert 1.3 - 0.6 * norm == 1.9 - 1.5 * maxScore;
    assert Round(kBudget as real * 1.0) == kBudget;
  }

  lemma BudgetsOrder(kBudget: nat, x: real, y: real)
    requires x <= y
    ensures Budgets(kBudget, x) <= Budgets(kBudget, y)
  {
    assert kBudget as real * (y - x) >= 0.0;
  }

  lemma RoundOrder(x: real, y: real)
    requires x <= y
    ensures Round(x) <= Round(y)
  {
  }

  /** How many sinks and recent positions are protected. With kt >= 1 the second form is never
      taken: two quarters of kt stay below kt. */
  function ProtectCounts(kt: nat, protectSink: nat, protectRecent: nat): (int, int) {
    var nSink, nRecent := MinInt(protectSink, kt / 4), MinInt(protectRecent, kt / 4);
    if nSink + nRecent >= kt then (MaxInt(0, kt / 4), MaxInt(0, kt - MaxInt(0, kt / 4) - 1))
    else (nSink, nRecent)
  }

  /** The protected positions: the first nSink and the last nRecent of nKv. */
  function Protected(nKv: nat, nSink: int, nRecent: int): set<int> {
    Range(0, nSink) + Range(MaxInt(nSink, nKv - nRecent), nKv)
  }

  /** kept has the largest total score among the sets of its size that hold the protected ones. */
  ghost predicate IsBestKept(kept: set<int>, key: seq<real>, protect: set<int>) {
    && protect <= kept <= Range(0, |key|)
    && forall s: set<int> | protect <= s <= Range(0, |key|) && |s| == |kept| ::
         ScoreOf(key, s, |key|) <= ScoreOf(key, kept, |key|)
  }

  lemma TopAndProtectedIsBest(chosen: set<int>, protect: set<int>, key: seq<real>, k: nat)
    requires protect <= Range(0, |key|)
    requires IsTop(chosen, Range(0, |key|) - protect, key, k)
    ensures IsBestKept(protect + chosen, key, protect)
  {
    var all, kept := Range(0, |key|), protect + chosen;
    hide Range, ScoreOf;
    DisjointSize(protect, chosen);
    forall s: set<int> | protect <= s <= all && |s| == |kept|
      ensures ScoreOf(key, s, |key|) <= ScoreOf(key, kept, |key|)
    {
      assert s == protect + (s - protect);
      DisjointSize(protect, s - protect);
      TopHasBestScore(chosen, all - protect, key, k, s - protect);
      ScoreAdds(key, protect, s - protect, |key|);
      ScoreAdds(key, protect, chosen, |key|);
    }
  }

  // ----- the selection -----

  ghost predicate Descending(s: seq<int>) {
    forall i, j :: 0 <= i < j < |s| ==> s[i] > s[j]
  }

  /** The scores per layer and head. */
  function Normalised(sumScores: seq<real>, nKv: nat, denom: real): (key: seq<real>)
    requires nKv <= |sumScores| && denom > 0.0
    ensures |key| == nKv
  {
    seq(nKv, i requires 0 <= i < nKv => sumScores[i] / denom)
  }

  /** The largest score, and at least zero. */
  function Largest(key: seq<real>): (r: real)
    ensures r >= 0.0 && (r == 0.0 || r in key) && forall i :: 0 <= i < |key| ==> key[i] <= r
  {
    if key == [] then 0.0
    else
      var n := |key| - 1;
      var rest := Largest(key[..n]);
      if key[n] > rest then key[n] else rest
  }

  method Normalise(sumScores: seq<real>, nKv: nat, denom: real) returns (key: seq<real>, maxScore: real)
    requires nKv <= |sumScores| && denom > 0.0
    ensures key == Normalised(sumScores, nKv, denom) && maxScore == Largest(key)
  {
    key := [];
    maxScore := 0.0;
    for i := 0 to nKv
      invariant |key| == i && forall j :: 0 <= j < i ==> key[j] == sumScores[j] / denom
      invariant maxScore == Largest(key)
    {
      var s := sumScores[i] / denom;
      assert (key + [s])[..i] == key;
      key := key + [s];
      if s > maxScore { maxScore := s; }
    }
  }

  /** keep[] with the protected positions set. */
  method ProtectMask(nKv: nat, nSink: nat, nRecent: nat) returns (keep: array<bool>)
    requires nSink + nRecent <= nKv
    ensures fresh(keep) && keep.Length == nKv
    ensures forall p :: 0 <= p < nKv ==> (keep[p] <==> p in Protected(nKv, nSink, nRecent))
  {
    keep := new bool[nKv](_ => false);
    for i := 0 to nSink
      invariant forall p :: 0 <= p < nKv ==> (keep[p] <==> p < i)
    {
      keep[i] := true;
    }
    var start := MaxInt(nSink, nKv - nRecent);
    for i := start to nKv
      invariant forall p :: 0 <= p < nKv ==> (keep[p] <==> p < nSink || start <= p < i)
    {
      keep[i] := true;
    }
  }

  /** The indices not kept, in increasing order. */
  method Unmarked(keep: array<bool>) returns (cand: seq<int>)
    ensures Distinct(cand) && forall p :: p in cand <==> 0 <= p < keep.Length && !keep[p]
  {
    cand := [];
    for i := 0 to keep.Length
      invariant Distinct(cand) && forall p :: p in cand <==> 0 <= p < i && !keep[p]
    {
      if !keep[i] { cand := cand + [i]; }
    }
  }

  /** The removal list, largest position first. */
  method RemovalList(keep: array<bool>) returns (toRemove: seq<int>)
    ensures Descending(toRemove)
    ensures forall p :: p in toRemove <==> 0 <= p < keep.Length && !keep[p]
  {
    toRemove := [];
    var i := keep.Length - 1;
    while i >= 0
      invariant -1 <= i < keep.Length
      invariant Descending(toRemove) && forall x :: 0 <= x < |toRemove| ==> toRemove[x] > i
      invariant forall p :: p in toRemove <==> i < p < keep.Length && !keep[p]
    {
      if !keep[i] { toRemove := toRemove + [i]; }
      i := i - 1;
    }
  }

  method MarkAll(keep: array<bool>, chosen: seq<int>)
    requires forall i :: 0 <= i < |chosen| ==> 0 <= chosen[i] < keep.Length
    modifies keep
    ensures forall p :: 0 <= p < keep.Length ==> (keep[p] <==> old(keep[p]) || p in chosen)
  {
    for i := 0 to |chosen|
      invariant forall p :: 0 <= p < keep.Length ==> (keep[p] <==> old(keep[p]) || p in chosen[..i])
    {
      keep[chosen[i]] := true;
    }
  }

  /** Protects the ends, fills up to kt with the best scores, and lists the rest. */
  method KeepBest(key: seq<real>, kt: nat, nSink: nat, nRecent: nat) returns (toRemove: seq<int>)
    requires nSink + nRecent <= kt < |key|
    ensures Descending(toRemove) && |toRemove| == |key| - kt
    ensures Elements(toRemove) <= Range(0, |key|)
    ensures IsBestKept(Range(0, |key|) - Elements(toRemove), key, Protected(|key|, nSink, nRecent))
  {
    hide IsTop, Distinct, Descending, IsBestKept, Protected;
    var nKv := |key|;
    ghost var protect := Protected(nKv, nSink, nRecent);
    var keep := ProtectMask(nKv, nSink, nRecent);
    var cand := Unmarked(keep);
    var alreadyKept := nKv - |cand|;
    CandidateCount(cand, nKv, nSink, nRecent);
    assert forall i :: 0 <= i < |cand| ==> cand[i] in cand;
    var chosen := TopOf(cand, key, MaxInt(0, kt - alreadyKept));
    MarkAll(keep, chosen);
    toRemove := RemovalList(keep);
    RestIsRemoved(key, kt, protect, Elements(chosen), toRemove);
  }

  lemma ProtectedIs(nKv: nat, nSink: nat, nRecent: nat)
    requires nSink + nRecent <= nKv
    ensures Protected(nKv, nSink, nRecent) == Range(0, nSink) + Range(nKv - nRecent, nKv)
  {
    hide Range;
  }

  lemma ProtectedSize(nKv: nat, nSink: nat, nRecent: nat)
    requires nSink + nRecent <= nKv
    ensures |Protected(nKv, nSink, nRecent)| == nSink + nRecent && Protected(nKv, nSink, nRecent) <= Range(0, nKv)
  {
    hide Range, Protected;
    RangeSize(0, nSink);
    RangeSize(nKv - nRecent, nKv);
    ProtectedIs(nKv, nSink, nRecent);
    DisjointSize(Range(0, nSink), Range(nKv - nRecent, nKv));
  }

  lemma CandidateCount(cand: seq<int>, nKv: nat, nSink: nat, nRecent: nat)
    requires nSink + nRecent <= nKv && Distinct(cand)
    requires forall p :: p in cand <==> p in Range(0, nKv) - Protected(nKv, nSink, nRecent)
    ensures Elements(cand) == Range(0, nKv) - Protected(nKv, nSink, nRecent)
    ensures |Protected(nKv, nSink, nRecent)| == nSink + nRecent && Protected(nKv, nSink, nRecent) <= Range(0, nKv)
    ensures |cand| == nKv - nSink - nRecent
  {
    hide Range, Protected, Distinct;
    DistinctSize(cand);
    RangeSize(0, nKv);
    ProtectedSize(nKv, nSink, nRecent);
    var protect := Protected(nKv, nSink, nRecent);
    assert Elements(cand) == Range(0, nKv) - protect;
    DisjointSize(Range(0, nKv) - protect, protect);
    assert (Range(0, nKv) - protect) + protect == Range(0, nKv);
  }

  lemma RestIsRemoved(key: seq<real>, kt: nat, protect: set<int>, chosen: set<int>, toRemove: seq<int>)
    requires protect <= Range(0, |key|) && |protect| <= kt < |key|
    requires IsTop(chosen, Range(0, |key|) - protect, key, kt - |protect|)
    requires Descending(toRemove)
    requires forall p :: p in toRemove <==> p in Range(0, |key|) && p !in protect && p !in chosen
    ensures Elements(toRemove) <= Range(0, |key|) && |toRemove| == |key| - kt
    ensures IsBestKept(Range(0, |key|) - Elements(toRemove), key, protect)
  {
    var all, removed := Range(0, |key|), Elements(toRemove);
    TopAndProtectedIsBest(chosen, protect, key, kt - |protect|);
    RangeSize(0, |key|);
    DistinctSize(toRemove);
    hide Range, IsBestKept;
    ThreeParts(all, protect, chosen);
    hide IsTop;
    assert removed == all - (protect + chosen);
  }

  lemma ThreeParts(all: set<int>, protect: set<int>, chosen: set<int>)
    requires protect <= all && chosen <= all - protect
    ensures |all - protect| == |all| - |protect|
    ensures all - (all - (protect + chosen)) == protect + chosen
    ensures |all - (protect + chosen)| == |all| - |protect| - |chosen|
  {
    assert (all - protect) + protect == all;
    DisjointSize(all - protect, protect);
    DisjointSize(protect, chosen);
    assert (all - (protect + chosen)) + (protect + chosen) == all;
    DisjointSize(all - (protect + chosen), protect + chosen);
  }

  function Denominator(nLayersSeen: nat, nHead: nat): (d: real)
    ensures d > 0.0
  {
    if nLayersSeen * nHead <= 0 then 1.0 else (nLayersSeen * nHead) as real
  }

  /** The score compared with the gate's thresholds is the mean over the heads of the layers seen, and the
      sum itself when none was seen. */
  lemma ScoresAreMeans(sumScores: seq<real>, nKv: nat, nLayersSeen: nat, nHead: nat, i: nat)
    requires i < nKv <= |sumScores|
    ensures var key := Normalised(sumScores, nKv, Denominator(nLayersSeen, nHead));
      key[i] * (if nLayersSeen > 0 && nHead > 0 then (nLayersSeen * nHead) as real else 1.0) == sumScores[i]
  {
    if nLayersSeen > 0 && nHead > 0 {
      assert nLayersSeen * nHead > 0;
    }
  }

  /** What a removal list promises about the positions it leaves. */
  ghost predicate IsSelection(toRemove: seq<int>, key: seq<real>, kt: int, protectSink: nat, protectRecent: nat)
    requires kt >= 1
  {
    && Descending(toRemove) && Elements(toRemove) <= Range(0, |key|)
    && |Elements(toRemove)| == |toRemove| == |key| - kt
    && IsBestKept(Range(0, |key|) - Elements(toRemove), key,
                  Protected(|key|, MinInt(protectSink, kt / 4), MinInt(protectRecent, kt / 4)))
  }

  /** What is never removed, whatever its score: the first protectSink and the last protectRecent positions,
      as far as a quarter of kt reaches. */
  lemma EndsAreProtected(toRemove: seq<int>, key: seq<real>, kt: int, protectSink: nat, protectRecent: nat, p: int)
    requires 1 <= kt < |key| && IsSelection(toRemove, key, kt, protectSink, protectRecent) && 0 <= p < |key|
    requires (p < protectSink && 4 * (p + 1) <= kt) || (|key| - p <= protectRecent && 4 * (|key| - p) <= kt)
    ensures p !in toRemove
  {
    hide ScoreOf;
    var nSink, nRecent := MinInt(protectSink, kt / 4), MinInt(protectRecent, kt / 4);
    assert p in Protected(|key|, nSink, nRecent);
    assert p !in Elements(toRemove);
  }

  /** All other positions stay by their scores: none that stays has a lower one than one that goes. */
  lemma OthersStayByScore(toRemove: seq<int>, key: seq<real>, kt: int, protectSink: nat, protectRecent: nat, p: int, q: int)
    requires 1 <= kt < |key| && IsSelection(toRemove, key, kt, protectSink, protectRecent)
    requires 0 <= p < |key| && p !in toRemove && q in toRemove
    requires p >= protectSink || 4 * (p + 1) > kt
    requires |key| - p > protectRecent || 4 * (|key| - p) > kt
    ensures 0 <= q < |key| && key[q] <= key[p]
  {
    hide IsBestKept;
    assert p !in Elements(toRemove) && q in Elements(toRemove);
    var protect := Protected(|key|, MinInt(protectSink, kt / 4), MinInt(protectRecent, kt / 4));
    assert p !in protect;
    BestKeptRanks(Range(0, |key|) - Elements(toRemove), key, protect, p, q);
  }

  lemma BestKeptRanks(kept: set<int>, key: seq<real>, protect: set<int>, p: int, q: int)
    requires IsBestKept(kept, key, protect) && p in kept - protect && q in Range(0, |key|) - kept
    ensures 0 <= p < |key| && 0 <= q < |key| && key[q] <= key[p]
  {
    hide ScoreOf;
    var other := kept - {p} + {q};
    assert |other| == |kept|;
    ScoreOfTrade(key, kept, p, q);
    assert ScoreOf(key, other, |key|) <= ScoreOf(key, kept, |key|);
  }

  /** select_positions_to_remove: exactly kt positions stay, the protected ends among them, and no
      other set of kt positions with those ends has a larger total score. */
  method SelectPositions(sumScores: seq<real>, nKv: nat, kBudget: int, nLayersSeen: nat, nHead: nat,
                         protectRecent: nat, protectSink: nat)
    returns (toRemove: seq<int>)
    requires sumScores == [] || nKv <= |sumScores|
    ensures nKv <= kBudget || sumScores == [] ==> toRemove == []
    ensures !(nKv <= kBudget || sumScores == []) ==>
      var key := Normalised(sumScores, nKv, Denominator(nLayersSeen, nHead));
      var kt := SpreadGate(kBudget, Largest(key));
      if kt >= nKv then toRemove == []
      else IsSelection(toRemove, key, kt, protectSink, protectRecent)
  {
    toRemove := [];
    if !(nKv <= kBudget || |sumScores| == 0) {
      var key, maxScore := Normalise(sumScores, nKv, Denominator(nLayersSeen, nHead));
      var kt := SpreadGate(kBudget, maxScore);
      if kt < nKv {
        var (nSink, nRecent) := ProtectCounts(kt, protectSink, protectRecent);
        toRemove := KeepBest(key, kt, nSink, nRecent);
        DistinctSize(toRemove);
      }
    }
  }

  // ----- the caller's removal -----

  /** The last index of the run of consecutive positions that starts at i. */
  method RunEnd(s: seq<int>, i: nat) returns (j: nat)
    requires i < |s|
    ensures i <= j < |s| && forall k :: i <= k <= j ==> s[k] == s[i] - (k - i)
    ensures j + 1 < |s| ==> s[j + 1] != s[j] - 1
  {
    j := i;
    while j + 1 < |s| && s[j + 1] == s[j] - 1
      invariant i <= j < |s|
      invariant forall k :: i <= k <= j ==> s[k] == s[i] - (k - i)
    {
      j := j + 1;
    }
  }

  /** Groups the descending list into maximal runs, one memory call per run. Together the calls
      remove exactly the listed positions, each in one run. */
  method RemoveGrouped(cache: Cache, toRemove: seq<int>) returns (nEvicted: nat)
    requires Descending(toRemove) && forall i :: 0 <= i < |toRemove| ==> toRemove[i] >= 0
    modifies cache
    ensures cache.cells == Without(old(cache.cells), Elements(toRemove))
    ensures nEvicted == |toRemove|
  {
    ghost var before := cache.cells;
    ghost var named := 0;
    assert Elements(toRemove[..0]) == {};
    WithoutNone(before, {});
    var i := 0;
    while i < |toRemove|
      invariant 0 <= i <= |toRemove| && named == i
      invariant cache.cells == Without(before, Elements(toRemove[..i]))
    {
      hide Without, Range, Elements, Descending;
      var j := RunEnd(toRemove, i);
      var p0, p1 := toRemove[j], toRemove[i] + 1;
      RunElements(toRemove, i, j);
      WithoutTwice(before, Elements(toRemove[..i]), Range(p0, p1));
      cache.SeqRm(p0, p1);
      named := named + (p1 - p0);
      i := j + 1;
    }
    assert toRemove[..|toRemove|] == toRemove;
    nEvicted := |toRemove|;
  }

  lemma RunElements(s: seq<int>, i: nat, j: nat)
    requires i <= j < |s| && forall k :: i <= k <= j ==> s[k] == s[i] - (k - i)
    ensures Elements(s[..j + 1]) == Elements(s[..i]) + Range(s[j], s[i] + 1)
  {
    hide Range;
    var run := s[i..j + 1];
    assert s[..j + 1] == s[..i] + run;
    forall p ensures p in run <==> p in Range(s[j], s[i] + 1) {
      if p in Range(s[j], s[i] + 1) {
        assert run[s[i] - p] == p;
      }
    }
  }

  /** On a dense cache the caller leaves exactly kt cells, at the positions selected to stay. */
  lemma DenseCacheKeepsKt(cells: seq<Cell>, toRemove: seq<int>, key: seq<real>, kt: int,
                          protectSink: nat, protectRecent: nat)
    requires 1 <= kt < |key| && IsSelection(toRemove, key, kt, protectSink, protectRecent)
    requires Increasing(cells) && Positions(cells) == Range(0, |key|)
    ensures |Without(cells, Elements(toRemove))| == kt
  {
    hide Range, IsBestKept, Positions;
    WithoutLength(cells, Elements(toRemove));
    WithoutLength(cells, Range(0, |key|));
    assert Elements(toRemove) * Range(0, |key|) == Elements(toRemove);
    LiveCount(cells);
    RangeSize(0, |key|);
  }

  lemma LiveCount(cells: seq<Cell>)
    requires Increasing(cells)
    ensures |Positions(cells)| == |cells|
  {
    WithoutLength(cells, Positions(cells));
    forall c | c in cells ensures c.pos in Positions(cells) {
    }
    WithoutAll(cells, Positions(cells));
    assert Positions(cells) * Positions(cells) == Positions(cells);
  }
}
