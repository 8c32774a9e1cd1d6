/** StreamingLLM: the prefill keep set and the rolling window of the decode loop. */
module SllmWindow {
  import opened Basics
  import opened KvCache
  import opened Eviction
  import opened Sliding

  /** First nSink tokens, then the newest k - nSink of the rest. */
  function Window(stream: seq<int>, k: nat, nSink: nat): (r: seq<int>)
    requires nSink < k
  {
    if |stream| <= k then stream else stream[..nSink] + stream[|stream| - (k - nSink)..]
  }

  /** How many of the newest positions the keep set holds. */
  function RecentWindow(k: int, nSink: int): (r: int)
    ensures r >= 1
  {
    if k - nSink < 1 then MaxInt(1, k - 1) else k - nSink
  }

  /** Where the recency window of the keep set starts. */
  function RecentStart(nKv: int, k: int, nSink: int): int {
    MaxInt(MaxInt(nSink, 0), nKv - RecentWindow(k, nSink))
  }

  /** Every layer keeps exactly the sinks and the recency window. */
  ghost predicate KeepsEnds(perLayerKeep: seq<seq<int>>, nKv: nat, k: int, nSink: int) {
    forall l :: 0 <= l < |perLayerKeep| ==> forall p :: p in perLayerKeep[l] <==>
      0 <= p < MinInt(MaxInt(nSink, 0), nKv) || RecentStart(nKv, k, nSink) <= p < nKv
  }

  /** policy_streamingllm: every layer keeps the sinks and the recency window. */
  method Policy(nLayers: nat, nKv: nat, k: int, nSink: int) returns (perLayerKeep: seq<seq<int>>)
    ensures |perLayerKeep| == nLayers && KeepsEnds(perLayerKeep, nKv, k, nSink)
  {
    var keep := [];
    var sinks := MinInt(MaxInt(nSink, 0), nKv);
    for p := 0 to sinks
      invariant forall q :: q in keep <==> 0 <= q < p
    {
      keep := keep + [p];
    }
    var start := RecentStart(nKv, k, nSink);
    var p := start;
    while p < nKv
      invariant p == start || start <= p <= nKv
      invariant forall q :: q in keep <==> 0 <= q < sinks || start <= q < p
      decreases nKv - p
    {
      keep := keep + [p];
      p := p + 1;
    }
    perLayerKeep := seq(nLayers, _ => keep);
  }

  /** The cells hold the window of the stream: sinks at their own positions, the rest shifted up
      by gap, which only a full window can have. */
  ghost predicate HoldsWindow(cells: seq<Cell>, stream: seq<int>, k: nat, nSink: nat, gap: nat)
    requires nSink < k
  {
    && Tokens(cells) == Window(stream, k, nSink)
    && (gap > 0 ==> |cells| == k)
    && forall i :: 0 <= i < |cells| ==> cells[i].pos == if i < nSink then i else gap + i
  }

  /** One decode step of the sllm-window loop: append, then trim and renumber. */
  function Step(cells: seq<Cell>, token: int, k: nat, nSink: nat): seq<Cell> {
    var grown := Append(cells, token);
    var pMax := PosMax(grown);
    var excess := (pMax + 1 - nSink) - (k - nSink);
    if excess > 0 then
      Shift(Without(grown, Range(nSink, nSink + excess)), nSink + excess, pMax + 1, -excess)
    else grown
  }

  /** What is left of a full window after the oldest windowed cell goes. */
  function Slid(cells: seq<Cell>, token: int, nSink: nat): seq<Cell>
    requires nSink < |cells|
  {
    cells[..nSink] + Append(cells, token)[nSink + 1..]
  }

  lemma StepOnFullWindow(cells: seq<Cell>, token: int, k: nat, nSink: nat, gap: nat)
    requires nSink < k == |cells|
    requires forall i :: 0 <= i < |cells| ==> cells[i].pos == if i < nSink then i else gap + i
    ensures Step(cells, token, k, nSink) == Shift(Slid(cells, token, nSink), nSink + gap + 1, gap + k + 1, -(gap + 1))
  {
    var grown := Append(cells, token);
    hide Without, Range, Shift;
    CutStretch(grown, nSink, nSink + 1, nSink, nSink + gap + 1);
    assert grown[..nSink] == cells[..nSink];
  }

  lemma SlidTokens(cells: seq<Cell>, token: int, nSink: nat)
    requires nSink < |cells|
    ensures var w := Tokens(cells);
      Tokens(Slid(cells, token, nSink)) == w[..nSink] + w[nSink + 1..] + [token]
  {
  }

  lemma TrimOne(cells: seq<Cell>, stream: seq<int>, token: int, k: nat, nSink: nat, gap: nat)
    requires nSink < k && HoldsWindow(cells, stream, k, nSink, gap) && |cells| == k
    ensures HoldsWindow(Step(cells, token, k, nSink), stream + [token], k, nSink, 0)
    ensures |Step(cells, token, k, nSink)| == k
  {
    StepOnFullWindow(cells, token, k, nSink, gap);
    WindowSlides(stream, token, k, nSink);
    SlidTokens(cells, token, nSink);
    SlidPositions(cells, token, nSink, gap);
    hide Step, Window, Slid, Append;
    assert Tokens(Step(cells, token, k, nSink)) == Tokens(Slid(cells, token, nSink));
  }

  lemma SlidPositions(cells: seq<Cell>, token: int, nSink: nat, gap: nat)
    requires nSink < |cells|
    requires forall i :: 0 <= i < |cells| ==> cells[i].pos == if i < nSink then i else gap + i
    ensures var slid := Slid(cells, token, nSink);
      |slid| == |cells| && forall i :: 0 <= i < |slid| ==> slid[i].pos == if i < nSink then i else gap + 1 + i
  {
  }

  lemma WindowSlides(stream: seq<int>, token: int, k: nat, nSink: nat)
    requires nSink < k <= |stream|
    ensures var w := Window(stream, k, nSink);
      |w| == k && Window(stream + [token], k, nSink) == w[..nSink] + w[nSink + 1..] + [token]
  {
  }

  lemma GrowOne(cells: seq<Cell>, stream: seq<int>, token: int, k: nat, nSink: nat)
    requires nSink < k && HoldsWindow(cells, stream, k, nSink, 0) && |cells| < k
    ensures HoldsWindow(Step(cells, token, k, nSink), stream + [token], k, nSink, 0)
    ensures |Step(cells, token, k, nSink)| == |cells| + 1
  {
    assert Step(cells, token, k, nSink) == Append(cells, token);
    assert Tokens(Append(cells, token)) == Tokens(cells) + [token];
  }

  /** Whatever the prefill left, one step later the cells are the window of the longer stream at
      positions 0, 1, 2, ..., and exactly one cell went if the window was full. */
  lemma StepKeepsWindow(cells: seq<Cell>, stream: seq<int>, token: int, k: nat, nSink: nat, gap: nat)
    requires nSink < k && HoldsWindow(cells, stream, k, nSink, gap)
    ensures var next := Step(cells, token, k, nSink);
      && HoldsWindow(next, stream + [token], k, nSink, 0)
      && |next| == |cells| + 1 - EvictedBy(cells, token, k)
  {
    if |cells| == k {
      TrimOne(cells, stream, token, k, nSink, gap);
    } else {
      GrowOne(cells, stream, token, k, nSink);
    }
  }

  /** What the loop adds to its eviction counters: the constant one, whatever the excess is. */
  function EvictedBy(cells: seq<Cell>, token: int, k: nat): nat {
    if PosMax(Append(cells, token)) + 1 > k then 1 else 0
  }

  method DecodeStep(cache: Cache, token: int, k: nat, nSink: nat) returns (evictedThis: nat)
    modifies cache
    ensures cache.cells == Step(old(cache.cells), token, k, nSink)
    ensures evictedThis == EvictedBy(old(cache.cells), token, k)
  {
    hide Without, Shift, Range, Append, PosMax;
    evictedThis := 0;
    cache.Decode(token);
    var pMax := cache.SeqPosMax();
    var window := k - nSink;
    var excess := (pMax + 1 - nSink) - window;
    if excess > 0 {
      cache.SeqRm(nSink, nSink + excess);
      cache.SeqAdd(nSink + excess, pMax + 1, -excess);
      evictedThis := evictedThis + 1;
    }
  }

  /** How far the prefill leaves the recency window from the sinks. */
  function PrefillGap(n: nat, k: nat): nat { if n > k then n - k else 0 }

  /** How many of the first n positions the policy drops. */
  function PrefillCount(n: nat, k: nat, nSink: nat): (c: nat)
    ensures nSink < k ==> c == PrefillGap(n, k)
  {
    MaxInt(0, n - RecentWindow(k, nSink) - nSink)
  }

  /** The positions that the prefill policy drops form one stretch in the middle. */
  lemma PolicyDrops(perLayerKeep: seq<seq<int>>, n: nat, k: nat, nSink: nat)
    requires perLayerKeep != [] && KeepsEnds(perLayerKeep, n, k, nSink)
    ensures Range(0, n) - KeptPositions(perLayerKeep, n) == Range(nSink, n - RecentWindow(k, nSink))
    ensures n - |KeptPositions(perLayerKeep, n)| == PrefillCount(n, k, nSink)
    ensures var kept := |KeptPositions(perLayerKeep, n)|;
      kept == if k > nSink then MinInt(n, k) else MinInt(n, nSink + MaxInt(1, k - 1))
  {
    hide Range, Union, RecentWindow, PrefillCount, KeptPositions;
    var kept, end := KeptPositions(perLayerKeep, n), n - RecentWindow(k, nSink);
    forall p ensures p in kept <==> 0 <= p < n && (p < nSink || end <= p) {
      KeptByPolicy(perLayerKeep, n, k, nSink, p);
    }
    MiddleIsDropped(kept, n, nSink, end);
    CountDropped(n, k, nSink);
  }

  lemma KeptByPolicy(perLayerKeep: seq<seq<int>>, n: nat, k: nat, nSink: nat, p: int)
    requires perLayerKeep != [] && KeepsEnds(perLayerKeep, n, k, nSink)
    ensures p in KeptPositions(perLayerKeep, n) <==> 0 <= p < n && (p < nSink || n - RecentWindow(k, nSink) <= p)
  {
    hide Range, Union, RecentWindow;
    SameInEveryLayer(perLayerKeep);
    assert p in Union(perLayerKeep) <==> p in perLayerKeep[0];
  }

  lemma CountDropped(n: nat, k: nat, nSink: nat)
    ensures PrefillCount(n, k, nSink) == if nSink <= n - RecentWindow(k, nSink) then n - RecentWindow(k, nSink) - nSink else 0
    ensures n - PrefillCount(n, k, nSink) == if k > nSink then MinInt(n, k) else MinInt(n, nSink + MaxInt(1, k - 1))
  {
  }

  lemma MiddleIsDropped(kept: set<int>, n: nat, lo: nat, hi: int)
    requires forall p :: p in kept <==> 0 <= p < n && (p < lo || hi <= p)
    requires hi <= n
    ensures Range(0, n) - kept == Range(lo, hi)
    ensures n - |kept| == if lo <= hi then hi - lo else 0
  {
    hide Range;
    assert Range(0, n) - kept == Range(lo, hi);
    RangeSize(0, n);
    RangeSize(lo, hi);
    ComplementSize(Range(0, n), kept);
  }

  lemma {:induction false} SameInEveryLayer(perLayerKeep: seq<seq<int>>)
    requires perLayerKeep != []
    requires forall l :: 0 <= l < |perLayerKeep| ==> forall p :: p in perLayerKeep[l] <==> p in perLayerKeep[0]
    ensures forall p :: p in Union(perLayerKeep) <==> p in perLayerKeep[0]
  {
    UnionStep(perLayerKeep);
    if |perLayerKeep| > 1 {
      SameInEveryLayer(perLayerKeep[..|perLayerKeep| - 1]);
    }
  }

  lemma PrefillHoldsWindow(prompt: seq<int>, k: nat, nSink: nat)
    requires nSink < k
    ensures var left := Without(Prefilled(prompt), Range(nSink, |prompt| - (k - nSink)));
      && HoldsWindow(left, prompt, k, nSink, PrefillGap(|prompt|, k))
      && |left| == |prompt| - PrefillGap(|prompt|, k)
  {
    var cells, n := Prefilled(prompt), |prompt|;
    hide Without, Range;
    if n > k {
      CutStretch(cells, nSink, n - (k - nSink), nSink, n - (k - nSink));
      var left := cells[..nSink] + cells[n - (k - nSink)..];
      assert Tokens(left) == Window(prompt, k, nSink);
    } else {
      assert forall c | c in cells :: c.pos !in Range(nSink, n - (k - nSink));
      WithoutNone(cells, Range(nSink, n - (k - nSink)));
    }
  }

  /** The prompt's cells that the policy keeps. The captured extent nKv may be padded beyond the
      prompt, and the recency window is then counted from the padded end. */
  function KeptPrompt(prompt: seq<int>, nKv: nat, k: nat, nSink: nat): seq<Cell> {
    Without(Prefilled(prompt), Range(nSink, nKv - RecentWindow(k, nSink)))
  }

  method Prefill(cache: Cache, prompt: seq<int>, nKv: nat, nLayers: nat, k: nat, nSink: nat) returns (evicted: nat)
    requires nLayers > 0 && cache.cells == Prefilled(prompt)
    modifies cache
    ensures cache.cells == KeptPrompt(prompt, nKv, k, nSink)
    ensures evicted == PrefillCount(nKv, k, nSink)
    ensures nSink < k && nKv == |prompt| ==>
      HoldsWindow(cache.cells, prompt, k, nSink, PrefillGap(|prompt|, k)) && evicted + |cache.cells| == |prompt|
  {
    hide *;
    var perLayerKeep := Policy(nLayers, nKv, k, nSink);
    PolicyDrops(perLayerKeep, nKv, k, nSink);
    KeptPromptIs(prompt, nKv, k, nSink);
    if nSink < k {
      PrefillHoldsWindow(prompt, k, nSink);
      WindowIsWhole(k, nSink);
    }
    evicted := ApplyEviction(cache, perLayerKeep, nKv);
  }

  lemma WindowIsWhole(k: nat, nSink: nat)
    requires nSink < k
    ensures RecentWindow(k, nSink) == k - nSink
  {
  }

  lemma KeptPromptIs(prompt: seq<int>, nKv: nat, k: nat, nSink: nat)
    ensures KeptPrompt(prompt, nKv, k, nSink) == Without(Prefilled(prompt), Range(nSink, nKv - RecentWindow(k, nSink)))
    ensures Increasing(KeptPrompt(prompt, nKv, k, nSink))
  {
    WithoutIncreasing(Prefilled(prompt), Range(nSink, nKv - RecentWindow(k, nSink)));
    hide Without;
  }

  /** The state after some of the sampled tokens: the window of all that was seen, dense as soon
      as one step has run. */
  ghost predicate AfterSteps(cells: seq<Cell>, prompt: seq<int>, done: seq<int>, k: nat, nSink: nat)
    requires nSink < k
  {
    HoldsWindow(cells, prompt + done, k, nSink, if done == [] then PrefillGap(|prompt|, k) else 0)
  }

  lemma OneMoreStep(cells: seq<Cell>, prompt: seq<int>, done: seq<int>, token: int, k: nat, nSink: nat)
    requires nSink < k && AfterSteps(cells, prompt, done, k, nSink)
    ensures AfterSteps(Step(cells, token, k, nSink), prompt, done + [token], k, nSink)
    ensures |Step(cells, token, k, nSink)| == |cells| + 1 - EvictedBy(cells, token, k)
  {
    hide HoldsWindow, Step, EvictedBy;
    StepKeepsWindow(cells, prompt + done, token, k, nSink, if done == [] then PrefillGap(|prompt|, k) else 0);
    assert prompt + done + [token] == prompt + (done + [token]);
  }

  /** The state after the given tokens, from any start: one stretch behind the sinks is missing. */
  ghost predicate WindowRun(cells: seq<Cell>, start: seq<Cell>, done: seq<int>, k: nat, nSink: nat) {
    PosMax(start) + 1 >= 0 && Spans(cells, start, done, nSink, ExtentAt(k, k, PosMax(start) + 1, |done|))
  }

  /** What an unpadded capture adds: the window itself, and counters that account for every cell. */
  ghost predicate WholeWindow(cells: seq<Cell>, prompt: seq<int>, done: seq<int>, k: nat, nSink: nat, nTotalEvicted: nat)
    requires nSink < k
  {
    AfterSteps(cells, prompt, done, k, nSink) && nTotalEvicted + |cells| == |prompt| + |done|
  }

  lemma WindowRunStart(start: seq<Cell>, k: nat, nSink: nat)
    requires Increasing(start)
    ensures WindowRun(start, start, [], k, nSink)
  {
    SpansStart(start, nSink);
    hide Spans;
  }

  lemma WindowRunNext(cells: seq<Cell>, start: seq<Cell>, done: seq<int>, token: int, k: nat, nSink: nat)
    requires nSink < k && WindowRun(cells, start, done, k, nSink)
    ensures WindowRun(Step(cells, token, k, nSink), start, done + [token], k, nSink)
  {
    hide Spans, Step;
    StepKeepsSpan(cells, start, done, token, k, nSink, ExtentAt(k, k, PosMax(start) + 1, |done|));
  }

  lemma WholeWindowStart(cells: seq<Cell>, prompt: seq<int>, k: nat, nSink: nat, evicted: nat)
    requires nSink < k && HoldsWindow(cells, prompt, k, nSink, PrefillGap(|prompt|, k)) && evicted + |cells| == |prompt|
    ensures WholeWindow(cells, prompt, [], k, nSink, evicted)
  {
    assert prompt + [] == prompt;
  }

  lemma WholeWindowNext(cells: seq<Cell>, prompt: seq<int>, done: seq<int>, token: int, k: nat, nSink: nat, nTotalEvicted: nat)
    requires nSink < k && WholeWindow(cells, prompt, done, k, nSink, nTotalEvicted)
    ensures WholeWindow(Step(cells, token, k, nSink), prompt, done + [token], k, nSink,
                        nTotalEvicted + EvictedBy(cells, token, k))
  {
    hide AfterSteps, Step, EvictedBy;
    OneMoreStep(cells, prompt, done, token, k, nSink);
  }

  /** How many of the first t steps trim, and so report one eviction each. */
  function Trims(k: nat, start: nat, t: nat): nat {
    if t == 0 then 0 else Trims(k, start, t - 1) + if ExtentAt(k, k, start, t - 1) + 1 > k then 1 else 0
  }

  /** The cells and the counter after some steps, whatever K is. With K <= n_sink there is no window:
      once a token has been decoded only the first n_sink tokens of the stream are live. */
  ghost predicate RunState(cells: seq<Cell>, nTotalEvicted: nat, prompt: seq<int>, done: seq<int>,
                           nKv: nat, k: nat, nSink: nat) {
    var start := KeptPrompt(prompt, nKv, k, nSink);
    if nSink < k then
      && WindowRun(cells, start, done, k, nSink) && PosMax(start) + 1 >= 0
      && nTotalEvicted == PrefillGap(nKv, k) + Trims(k, PosMax(start) + 1, |done|)
    else if done == [] then cells == start
    else cells == Dense((prompt + done)[..MinInt(nSink, |prompt + done|)], 0)
  }

  lemma RunStateStart(prompt: seq<int>, nKv: nat, k: nat, nSink: nat)
    ensures RunState(KeptPrompt(prompt, nKv, k, nSink), PrefillCount(nKv, k, nSink), prompt, [], nKv, k, nSink)
  {
    KeptPromptIs(prompt, nKv, k, nSink);
    WindowRunStart(KeptPrompt(prompt, nKv, k, nSink), k, nSink);
    hide WindowRun, KeptPrompt;
  }

  lemma RunStateNext(cells: seq<Cell>, nTotalEvicted: nat, prompt: seq<int>, done: seq<int>, token: int,
                     nKv: nat, k: nat, nSink: nat)
    requires RunState(cells, nTotalEvicted, prompt, done, nKv, k, nSink)
    ensures RunState(Step(cells, token, k, nSink), nTotalEvicted + EvictedBy(cells, token, k), prompt, done + [token],
                     nKv, k, nSink)
  {
    var start := KeptPrompt(prompt, nKv, k, nSink);
    hide Step, KeptPrompt, EvictedBy, Dense, WindowRun;
    if nSink < k {
      WindowRunNext(cells, start, done, token, k, nSink);
      StepReports(cells, start, done, token, k, nSink);
    } else {
      NarrowNext(cells, prompt, done, token, nKv, k, nSink);
    }
  }

  lemma StepReports(cells: seq<Cell>, start: seq<Cell>, done: seq<int>, token: int, k: nat, nSink: nat)
    requires nSink < k && WindowRun(cells, start, done, k, nSink)
    ensures PosMax(start) + 1 >= 0
    ensures Trims(k, PosMax(start) + 1, |done| + 1) == Trims(k, PosMax(start) + 1, |done|) + EvictedBy(cells, token, k)
  {
    hide Spans, EvictedBy, PosMax;
    StepKeepsSpan(cells, start, done, token, k, nSink, ExtentAt(k, k, PosMax(start) + 1, |done|));
  }

  /** The whole run: prefill, prune by the policy, then one step per sampled token. One stretch behind
      the sinks is missing from what the prefill left and the sampled tokens. On an unpadded capture
      the cells are the window of all tokens seen, and the counters account for every cell that left. */
  method Run(cache: Cache, prompt: seq<int>, sampled: seq<int>, nKv: nat, nLayers: nat, k: nat, nSink: nat)
    returns (nTotalEvicted: nat)
    requires nLayers > 0 && cache.cells == Prefilled(prompt)
    modifies cache
    ensures RunState(cache.cells, nTotalEvicted, prompt, sampled, nKv, k, nSink)
    ensures nSink < k && nKv == |prompt| ==> WholeWindow(cache.cells, prompt, sampled, k, nSink, nTotalEvicted)
  {
    hide *;
    nTotalEvicted := Prefill(cache, prompt, nKv, nLayers, k, nSink);
    RunStateStart(prompt, nKv, k, nSink);
    if nSink < k && nKv == |prompt| {
      WholeWindowStart(cache.cells, prompt, k, nSink, nTotalEvicted);
    }
    assert sampled[..0] == [];
    for step := 0 to |sampled|
      invariant RunState(cache.cells, nTotalEvicted, prompt, sampled[..step], nKv, k, nSink)
      invariant nSink < k && nKv == |prompt| ==>
        WholeWindow(cache.cells, prompt, sampled[..step], k, nSink, nTotalEvicted)
    {
      assert sampled[..step + 1] == sampled[..step] + [sampled[step]];
      RunStateNext(cache.cells, nTotalEvicted, prompt, sampled[..step], sampled[step], nKv, k, nSink);
      if nSink < k && nKv == |prompt| {
        WholeWindowNext(cache.cells, prompt, sampled[..step], sampled[step], k, nSink, nTotalEvicted);
      }
      var evictedThis := DecodeStep(cache, sampled[step], k, nSink);
      nTotalEvicted := nTotalEvicted + evictedThis;
    }
    assert sampled[..|sampled|] == sampled;
  }

  /** From any start at all, a step of the window loop widens one cut. */
  lemma StepKeepsSpan(cells: seq<Cell>, start: seq<Cell>, done: seq<int>, token: int, k: nat, nSink: nat, m: nat)
    requires nSink < k && Spans(cells, start, done, nSink, m)
    ensures Spans(Step(cells, token, k, nSink), start, done + [token], nSink, NextExtent(k, k, m))
    ensures EvictedBy(cells, token, k) == if m + 1 > k then 1 else 0
  {
    hide Spans, Append;
    var grown := Append(cells, token);
    SpanGrows(cells, start, done, nSink, m, token);
    ExtentOfSpan(grown, start, done + [token], nSink, m + 1);
    if m + 1 > k {
      var excess := m + 1 - k;
      StepIsCut(cells, token, k, nSink, excess);
      SpanCut(grown, start, done + [token], nSink, m + 1, k - nSink);
    }
  }

  lemma StepIsCut(cells: seq<Cell>, token: int, k: nat, nSink: nat, excess: nat)
    requires excess > 0 && PosMax(Append(cells, token)) + 1 == k + excess
    ensures Step(cells, token, k, nSink) == Cut(Append(cells, token), nSink, excess, k + excess)
  {
    hide Without, Shift, Range, Append, PosMax;
  }

  lemma PrefilledIsDense(prompt: seq<int>)
    ensures Prefilled(prompt) == Dense(prompt, 0)
  {
  }

  // ----- a budget no larger than the sinks -----

  /** With K <= n_sink there is no window: once the extent passes K every cell behind the sinks goes,
      the token just decoded included. */
  lemma NoWindow(cells: seq<Cell>, token: int, k: nat, nSink: nat)
    requires Increasing(cells) && k <= nSink && EvictedBy(cells, token, k) == 1
    ensures forall c :: c in Step(cells, token, k, nSink) <==> c in Append(cells, token) && c.pos < nSink
  {
    var grown := Append(cells, token);
    var top := PosMax(grown) + 1;
    NarrowStep(cells, token, k, nSink);
    assert Increasing(grown);
    hide *;
    forall c
      ensures c in Without(grown, Range(nSink, top)) <==> c in grown && c.pos < nSink
    {
      WithoutMembers(grown, Range(nSink, top), c);
      InOrder(grown, c);
    }
  }

  lemma NarrowStep(cells: seq<Cell>, token: int, k: nat, nSink: nat)
    requires Increasing(cells) && k <= nSink && EvictedBy(cells, token, k) == 1
    ensures var grown := Append(cells, token);
      Step(cells, token, k, nSink) == Without(grown, Range(nSink, PosMax(grown) + 1))
  {
    var grown := Append(cells, token);
    var top := PosMax(grown) + 1;
    var excess := top - k;
    assert Below(grown, top);
    StepIsCut(cells, token, k, nSink, excess);
    hide *;
    CutBeyond(grown, nSink, excess, top);
  }

  /** A cut that reaches past the top only removes. */
  lemma CutBeyond(cells: seq<Cell>, a: nat, s: nat, top: int)
    requires Below(cells, top) && top <= a + s
    ensures Cut(cells, a, s, top) == Without(cells, Range(a, top))
  {
    hide Without, Down;
    NoneBeyond(cells, a, top, a + s);
    DownAt(Without(cells, Range(a, a + s)), a + s, top, s);
  }

  lemma {:induction false} NoneBeyond(cells: seq<Cell>, lo: int, top: int, far: int)
    requires Below(cells, top) && top <= far
    ensures Without(cells, Range(lo, far)) == Without(cells, Range(lo, top))
  {
    if cells != [] {
      NoneBeyond(cells[..|cells| - 1], lo, top, far);
    }
  }

  /** Dropping everything from position n on leaves the first n tokens. */
  lemma FirstOnly(stream: seq<int>, n: nat)
    requires n <= |stream|
    ensures Without(Dense(stream, 0), Range(n, |stream|)) == Dense(stream[..n], 0)
  {
    assert Below(Dense(stream, 0), |stream|);
    assert Ends(stream, n, n) == stream[..n];
    hide Without, Cut, Dense, Ends, Range;
    CutOfDense(stream, n, n);
    CutBeyond(Dense(stream, 0), n, |stream| - n, |stream|);
  }

  lemma {:induction false} WithoutSame(cells: seq<Cell>, a: set<int>, b: set<int>)
    requires forall c | c in cells :: c.pos in a <==> c.pos in b
    ensures Without(cells, a) == Without(cells, b)
  {
    if cells != [] {
      var n := |cells| - 1;
      assert cells[n] in cells;
      WithoutSame(cells[..n], a, b);
    }
  }

  lemma AppendToDense(tokens: seq<int>, token: int)
    ensures Append(Dense(tokens, 0), token) == Dense(tokens + [token], 0)
    ensures Increasing(Dense(tokens, 0)) && PosMax(Dense(tokens + [token], 0)) == |tokens|
  {
  }

  /** Of a dense cache no longer than the sinks, a step keeps the first n_sink tokens. */
  lemma NarrowStepDense(tokens: seq<int>, token: int, k: nat, nSink: nat)
    requires k <= nSink && |tokens| <= nSink
    ensures Step(Dense(tokens, 0), token, k, nSink) == Dense((tokens + [token])[..MinInt(nSink, |tokens| + 1)], 0)
  {
    var cells, all := Dense(tokens, 0), tokens + [token];
    AppendToDense(tokens, token);
    hide Increasing, Append, Without, Dense, Range;
    if EvictedBy(cells, token, k) == 1 {
      NarrowStep(cells, token, k, nSink);
      hide Step;
      if |all| <= nSink {
        RangeEmpty(nSink, |all|);
        NothingWithout(Dense(all, 0));
        assert all[..|all|] == all;
      } else {
        FirstOnly(all, nSink);
      }
    } else {
      assert all[..|all|] == all;
    }
  }

  lemma RangeEmpty(lo: int, hi: int)
    requires hi <= lo
    ensures Range(lo, hi) == {}
  {
  }

  lemma NothingWithout(cells: seq<Cell>)
    ensures Without(cells, {}) == cells
  {
    WithoutNone(cells, {});
  }

  /** A step from a cache that has the sinks leaves only them. */
  lemma NarrowStepFull(cells: seq<Cell>, token: int, k: nat, nSink: nat)
    requires Increasing(cells) && k <= nSink <= PosMax(cells) + 1
    ensures Step(cells, token, k, nSink) == Without(cells, Range(nSink, PosMax(cells) + 2))
  {
    var last, tail := Cell(PosMax(cells) + 1, token), Range(nSink, PosMax(cells) + 2);
    NarrowStep(cells, token, k, nSink);
    hide Without, Range, Step;
    WithoutSnoc(cells, last, tail);
  }

  /** The first step on a prompt that has all the sinks leaves just them. */
  lemma NarrowFirst(prompt: seq<int>, token: int, nKv: nat, k: nat, nSink: nat)
    requires k <= nSink <= |prompt|
    ensures Step(KeptPrompt(prompt, nKv, k, nSink), token, k, nSink) == Dense(prompt[..nSink], 0)
  {
    hide *;
    KeptPromptIs(prompt, nKv, k, nSink);
    SinksReach(prompt, nKv, k, nSink);
    NarrowStepFull(KeptPrompt(prompt, nKv, k, nSink), token, k, nSink);
    HoleAndTail(prompt, nSink, nKv - RecentWindow(k, nSink));
  }

  /** What a hole behind the sinks leaves of a prompt, without all that is live behind the sinks. */
  lemma HoleAndTail(prompt: seq<int>, nSink: nat, hi: int)
    requires nSink <= |prompt|
    ensures var start := Without(Prefilled(prompt), Range(nSink, hi));
      Without(start, Range(nSink, PosMax(start) + 2)) == Dense(prompt[..nSink], 0)
  {
    var cells, hole := Prefilled(prompt), Range(nSink, hi);
    var start := Without(cells, hole);
    var tail := Range(nSink, PosMax(start) + 2);
    WithoutIncreasing(cells, hole);
    hide Without, PosMax, Range;
    forall c | c in cells
      ensures c.pos in hole + tail <==> c.pos in Range(nSink, |prompt|)
    {
      WithoutMembers(cells, hole, c);
      InOrder(start, c);
    }
    hide *;
    WithoutTwice(cells, hole, tail);
    WithoutSame(cells, hole + tail, Range(nSink, |prompt|));
    PrefilledIsDense(prompt);
    FirstOnly(prompt, nSink);
  }

  lemma InOrder(cells: seq<Cell>, c: Cell)
    requires Increasing(cells)
    ensures c in cells ==> c.pos <= PosMax(cells)
  {
  }

  /** All the sinks of a prompt that has them are kept. */
  lemma SinksReach(prompt: seq<int>, nKv: nat, k: nat, nSink: nat)
    requires nSink <= |prompt|
    ensures PosMax(KeptPrompt(prompt, nKv, k, nSink)) >= nSink - 1
  {
    var start := KeptPrompt(prompt, nKv, k, nSink);
    KeptPromptIs(prompt, nKv, k, nSink);
    if nSink > 0 {
      var last := Cell(nSink - 1, prompt[nSink - 1]);
      assert Prefilled(prompt)[nSink - 1] == last;
      WithoutMembers(Prefilled(prompt), Range(nSink, nKv - RecentWindow(k, nSink)), last);
      hide KeptPrompt, Without;
      InOrder(start, last);
    }
  }

  /** One step with K <= n_sink. */
  lemma NarrowNext(cells: seq<Cell>, prompt: seq<int>, done: seq<int>, token: int, nKv: nat, k: nat, nSink: nat)
    requires k <= nSink
    requires if done == [] then cells == KeptPrompt(prompt, nKv, k, nSink)
             else cells == Dense((prompt + done)[..MinInt(nSink, |prompt + done|)], 0)
    ensures Step(cells, token, k, nSink)
         == Dense((prompt + (done + [token]))[..MinInt(nSink, |prompt + (done + [token])|)], 0)
  {
    hide Step, Dense, Prefilled, RecentWindow, Without;
    var stream, next := prompt + done, prompt + (done + [token]);
    assert next == stream + [token];
    if done == [] {
      assert stream == prompt;
      if |prompt| < nSink {
        PrefilledIsDense(prompt);
        WithoutNone(Prefilled(prompt), Range(nSink, nKv - RecentWindow(k, nSink)));
        NarrowStepDense(prompt, token, k, nSink);
      } else {
        NarrowFirst(prompt, token, nKv, k, nSink);
        assert next[..nSink] == prompt[..nSink];
      }
    } else {
      var tokens := stream[..MinInt(nSink, |stream|)];
      NarrowStepDense(tokens, token, k, nSink);
      assert (tokens + [token])[..MinInt(nSink, |tokens| + 1)] == next[..MinInt(nSink, |next|)];
    }
  }

  /** In numbers: the cells are the first nSink tokens and the newest k - nSink of the rest of
      prompt ++ sampled, and after any step they sit at 0, 1, 2, .... */
  lemma RunRefinesWindow(cells: seq<Cell>, prompt: seq<int>, sampled: seq<int>, k: nat, nSink: nat)
    requires nSink < k && AfterSteps(cells, prompt, sampled, k, nSink)
    ensures Tokens(cells) == Window(prompt + sampled, k, nSink)
    ensures sampled != [] ==> DenseFrom(cells, 0)
    ensures |cells| == MinInt(k, |prompt| + |sampled|)
  {
  }
}
