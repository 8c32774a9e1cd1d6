/** The sllm-window loop on a padded attention capture: the policy counts the recency window from the
    padded end, so the first window can be short. */
module PaddedWindow {
  import opened Basics
  import opened KvCache
  import opened Sliding
  import opened SllmWindow

  /** Where the recency window starts, counted from the padded end. */
  function Hole(nKv: nat, k: nat, nSink: nat): int { nKv - (k - nSink) }

  /** How many cells of the window are missing after t tokens. */
  function Missing(n: nat, t: nat, nKv: nat, k: nat, nSink: nat): nat {
    if nKv <= k || n <= nSink then 0 else MaxInt(0, MinInt(nKv - n, k - nSink) - t)
  }

  /** How many live cells n prompt tokens and t more leave. */
  function Live(n: nat, t: nat, nKv: nat, k: nat, nSink: nat): int {
    if nKv <= k || n <= nSink then MinInt(k, n + t) else k - Missing(n, t, nKv, k, nSink)
  }

  // ----- what the prefill leaves -----

  /** Only the sinks, when the padding covers the window. */
  lemma OnlySinksKept(prompt: seq<int>, nKv: nat, k: nat, nSink: nat)
    requires nSink < k && nSink <= |prompt| <= Hole(nKv, k, nSink)
    ensures KeptPrompt(prompt, nKv, k, nSink) == Dense(prompt[..nSink], 0)
  {
    var cells := Prefilled(prompt);
    PrefilledIsDense(prompt);
    KeptPromptIs(prompt, nKv, k, nSink);
    WindowIsWhole(k, nSink);
    hide Without, Range, KeptPrompt, RecentWindow;
    CutStretch(cells, nSink, |prompt|, nSink, Hole(nKv, k, nSink));
    assert cells[..nSink] + cells[|prompt|..] == Dense(prompt[..nSink], 0);
  }

  lemma AllKept(prompt: seq<int>, nKv: nat, k: nat, nSink: nat)
    requires nSink < k && (nKv <= k || |prompt| <= nSink)
    ensures KeptPrompt(prompt, nKv, k, nSink) == Dense(prompt, 0)
  {
    PrefilledIsDense(prompt);
    KeptPromptIs(prompt, nKv, k, nSink);
    WindowIsWhole(k, nSink);
    WithoutNone(Prefilled(prompt), Range(nSink, Hole(nKv, k, nSink)));
    hide Without, KeptPrompt, RecentWindow;
  }

  /** Otherwise a hole behind the sinks. */
  lemma HoleIsCut(prompt: seq<int>, nKv: nat, k: nat, nSink: nat)
    requires nSink < k
    ensures KeptPrompt(prompt, nKv, k, nSink) == Without(Prefilled(prompt), Range(nSink, Hole(nKv, k, nSink)))
  {
    KeptPromptIs(prompt, nKv, k, nSink);
    WindowIsWhole(k, nSink);
    hide KeptPrompt, Without, Range;
  }

  // ----- a dense start -----

  lemma {:induction false} WindowExtent(k: nat, start: nat, t: nat)
    ensures ExtentAt(k, k, start, t) == if t == 0 then start else MinInt(k, start + t)
  {
    if t > 1 {
      WindowExtent(k, start, t - 1);
    }
  }

  lemma EndsAreWindow(stream: seq<int>, k: nat, nSink: nat)
    requires nSink < k
    ensures Ends(stream, nSink, MinInt(k, |stream|)) == Window(stream, k, nSink)
  {
  }

  lemma DenseTokens(tokens: seq<int>)
    ensures Tokens(Dense(tokens, 0)) == tokens && DenseFrom(Dense(tokens, 0), 0)
    ensures PosMax(Dense(tokens, 0)) == |tokens| - 1
  {
  }

  /** A run from no more than K tokens at 0, 1, 2, ... holds the window of what it saw. */
  lemma DenseStartRun(cells: seq<Cell>, prompt: seq<int>, sampled: seq<int>, k: nat, nSink: nat)
    requires nSink < k && |prompt| <= k
    requires WindowRun(cells, Dense(prompt, 0), sampled, k, nSink)
    ensures cells == Dense(Window(prompt + sampled, k, nSink), 0)
  {
    DenseTokens(prompt);
    var m := ExtentAt(k, k, |prompt|, |sampled|);
    hide Dense, Spans, ExtentAt, Window, PosMax;
    WindowExtent(k, |prompt|, |sampled|);
    assert m == MinInt(k, |prompt + sampled|);
    DenseStartKeepsEnds(cells, prompt, sampled, nSink, m);
    EndsAreWindow(prompt + sampled, k, nSink);
  }

  // ----- a start with a hole -----

  lemma LastSurvives(prompt: seq<int>, nSink: nat, hole: nat)
    requires nSink <= hole < |prompt|
    ensures PosMax(Without(Prefilled(prompt), Range(nSink, hole))) == |prompt| - 1
  {
  }

  lemma DenseBeyond(tokens: seq<int>, start: int, lo: int, hi: int)
    requires hi <= start
    ensures Without(Dense(tokens, start), Range(lo, hi)) == Dense(tokens, start)
  {
    WithoutNone(Dense(tokens, start), Range(lo, hi));
  }

  lemma UncutIs(start: seq<Cell>, done: seq<int>, n: nat)
    requires PosMax(start) == n - 1
    ensures Uncut(start, done) == start + Dense(done, n) && Total(start, done) == n + |done|
  {
  }

  lemma UncutWithHole(prompt: seq<int>, sampled: seq<int>, nSink: nat, hole: nat)
    requires nSink <= hole < |prompt|
    ensures var start := Without(Prefilled(prompt), Range(nSink, hole));
      && Total(start, sampled) == |prompt| + |sampled|
      && Uncut(start, sampled) == Without(Dense(prompt + sampled, 0), Range(nSink, hole))
  {
    var start, more := Without(Prefilled(prompt), Range(nSink, hole)), Dense(sampled, |prompt|);
    hide *;
    LastSurvives(prompt, nSink, hole);
    UncutIs(start, sampled, |prompt|);
    PrefilledIsDense(prompt);
    DenseBeyond(sampled, |prompt|, nSink, hole);
    WithoutConcat(Dense(prompt, 0), more, Range(nSink, hole));
    DenseConcat(prompt, sampled, 0);
  }

  /** The cut that a run has made and the hole of its start begin at the same place: the cells are a
      dense cache without the longer of the two, moved down by the cut. */
  lemma CutAndHole(whole: seq<Cell>, nSink: nat, hole: nat, s: nat, hi: int)
    requires nSink <= hole
    ensures var far := MaxInt(hole, nSink + s);
      Cut(Without(whole, Range(nSink, hole)), nSink, s, hi) == Down(Without(whole, Range(nSink, far)), nSink + s, hi, s)
  {
    hide Without, Range, Down;
    WithoutTwice(whole, Range(nSink, hole), Range(nSink, nSink + s));
    assert Range(nSink, hole) + Range(nSink, nSink + s) == Range(nSink, MaxInt(hole, nSink + s));
  }

  /** By how much a run of t steps from the extent n has moved what is behind the sinks. */
  function Moves(n: nat, t: nat, k: nat): (s: nat)
    ensures s <= n + t
    ensures ExtentAt(k, k, n, t) == n + t - s
  {
    WindowExtent(k, n, t);
    if t == 0 then 0 else MaxInt(0, n + t - k)
  }

  lemma RunIsCut(cells: seq<Cell>, start: seq<Cell>, done: seq<int>, k: nat, nSink: nat, n: nat)
    requires PosMax(start) == n - 1 && WindowRun(cells, start, done, k, nSink)
    ensures cells == Cut(Uncut(start, done), nSink, Moves(n, |done|, k), n + |done|)
  {
    hide Cut, Uncut, ExtentAt, Moves, PosMax, Increasing;
  }

  /** The run from a start with a hole, in terms of all tokens seen. */
  lemma HoleRun(cells: seq<Cell>, prompt: seq<int>, sampled: seq<int>, k: nat, nSink: nat, hole: nat)
    requires nSink < k && nSink <= hole < |prompt|
    requires WindowRun(cells, Without(Prefilled(prompt), Range(nSink, hole)), sampled, k, nSink)
    ensures var s, total := Moves(|prompt|, |sampled|, k), |prompt| + |sampled|;
      cells == Down(Without(Dense(prompt + sampled, 0), Range(nSink, MaxInt(hole, nSink + s))), nSink + s, total, s)
  {
    hide *;
    LastSurvives(prompt, nSink, hole);
    RunIsCut(cells, Without(Prefilled(prompt), Range(nSink, hole)), sampled, k, nSink, |prompt|);
    UncutWithHole(prompt, sampled, nSink, hole);
    CutAndHole(Dense(prompt + sampled, 0), nSink, hole, Moves(|prompt|, |sampled|, k), |prompt| + |sampled|);
  }

  lemma DenseWithoutSize(stream: seq<int>, lo: nat, hi: nat)
    requires lo <= hi <= |stream|
    ensures |Without(Dense(stream, 0), Range(lo, hi))| == |stream| - (hi - lo)
  {
    hide Without, Range;
    CutStretch(Dense(stream, 0), lo, hi, lo, hi);
  }

  lemma HoleRunSize(cells: seq<Cell>, prompt: seq<int>, sampled: seq<int>, nKv: nat, k: nat, nSink: nat)
    requires nSink < k < nKv && Hole(nKv, k, nSink) < |prompt| <= nKv
    requires WindowRun(cells, KeptPrompt(prompt, nKv, k, nSink), sampled, k, nSink)
    ensures |cells| == k - MaxInt(0, nKv - (|prompt| + |sampled|))
  {
    hide *;
    var n, t, hole := |prompt|, |sampled|, Hole(nKv, k, nSink);
    HoleReach(n, t, nKv, k, nSink);
    var s, far := Moves(n, t, k), MaxInt(hole, nSink + Moves(n, t, k));
    HoleIsCut(prompt, nKv, k, nSink);
    HoleRun(cells, prompt, sampled, k, nSink, hole);
    DenseWithoutSize(prompt + sampled, nSink, far);
    DownAt(Without(Dense(prompt + sampled, 0), Range(nSink, far)), nSink + s, n + t, s);
  }

  lemma HoleReach(n: nat, t: nat, nKv: nat, k: nat, nSink: nat)
    requires nSink < k < nKv && Hole(nKv, k, nSink) < n <= nKv
    ensures nSink <= Hole(nKv, k, nSink)
    ensures var far := MaxInt(Hole(nKv, k, nSink), nSink + Moves(n, t, k));
      nSink <= far <= n + t && n + t - (far - nSink) == k - MaxInt(0, nKv - (n + t))
  {
  }

  // ----- how many cells are live -----

  /** Exactly how many cells a run leaves on a capture of nKv columns. */
  lemma PaddedSize(cells: seq<Cell>, prompt: seq<int>, sampled: seq<int>, nKv: nat, k: nat, nSink: nat)
    requires nSink < k && |prompt| <= nKv
    requires WindowRun(cells, KeptPrompt(prompt, nKv, k, nSink), sampled, k, nSink)
    ensures |cells| == Live(|prompt|, |sampled|, nKv, k, nSink)
  {
    hide WindowRun, KeptPrompt;
    if nKv <= k || |prompt| <= nSink {
      AllKept(prompt, nKv, k, nSink);
      DenseStartRun(cells, prompt, sampled, k, nSink);
    } else if |prompt| <= Hole(nKv, k, nSink) {
      OnlySinksKept(prompt, nKv, k, nSink);
      DenseStartRun(cells, prompt[..nSink], sampled, k, nSink);
    } else {
      HoleRunSize(cells, prompt, sampled, nKv, k, nSink);
    }
  }

  // ----- when the cells are the window -----

  /** Exactly when the cells are the window: nothing was cut, or as many tokens were decoded as were
      padded, or as the recency window holds if that is less. */
  lemma PaddedRunHeals(cells: seq<Cell>, prompt: seq<int>, sampled: seq<int>, nKv: nat, k: nat, nSink: nat)
    requires nSink < k && |prompt| <= nKv
    requires WindowRun(cells, KeptPrompt(prompt, nKv, k, nSink), sampled, k, nSink)
    ensures Tokens(cells) == Window(prompt + sampled, k, nSink) <==>
            nKv <= k || |prompt| <= nSink || |sampled| >= MinInt(nKv - |prompt|, k - nSink)
    ensures sampled != [] && Tokens(cells) == Window(prompt + sampled, k, nSink) ==> DenseFrom(cells, 0)
  {
    PaddedSize(cells, prompt, sampled, nKv, k, nSink);
    assert |Window(prompt + sampled, k, nSink)| == MinInt(k, |prompt| + |sampled|);
    if Missing(|prompt|, |sampled|, nKv, k, nSink) == 0 {
      WholeAgain(cells, prompt, sampled, nKv, k, nSink);
    }
    hide *;
  }

  lemma WholeAgain(cells: seq<Cell>, prompt: seq<int>, sampled: seq<int>, nKv: nat, k: nat, nSink: nat)
    requires nSink < k && |prompt| <= nKv && Missing(|prompt|, |sampled|, nKv, k, nSink) == 0
    requires WindowRun(cells, KeptPrompt(prompt, nKv, k, nSink), sampled, k, nSink)
    ensures Tokens(cells) == Window(prompt + sampled, k, nSink)
    ensures sampled != [] ==> DenseFrom(cells, 0)
  {
    hide KeptPrompt, WindowRun, Window, Tokens, DenseFrom;
    if nKv <= k || |prompt| <= nSink {
      AllKept(prompt, nKv, k, nSink);
      DenseStartRun(cells, prompt, sampled, k, nSink);
      DenseTokens(Window(prompt + sampled, k, nSink));
    } else if |prompt| <= Hole(nKv, k, nSink) {
      OnlySinksKept(prompt, nKv, k, nSink);
      DenseStartRun(cells, prompt[..nSink], sampled, k, nSink);
      SameWindow(prompt, sampled, k, nSink);
      DenseTokens(Window(prompt + sampled, k, nSink));
    } else if sampled == [] {
      StartOnly(cells, KeptPrompt(prompt, nKv, k, nSink), k, nSink);
      HoleIsCut(prompt, nKv, k, nSink);
      PrefillHoldsWindow(prompt, k, nSink);
      assert prompt + sampled == prompt;
    } else {
      HoleIsCut(prompt, nKv, k, nSink);
      HealedRun(cells, prompt, sampled, k, nSink, Hole(nKv, k, nSink));
    }
  }

  lemma StartOnly(cells: seq<Cell>, start: seq<Cell>, k: nat, nSink: nat)
    requires WindowRun(cells, start, [], k, nSink)
    ensures cells == start
  {
    assert Uncut(start, []) == start;
    CutNothing(start, nSink, Total(start, []));
    hide Cut;
  }

  lemma SameWindow(prompt: seq<int>, sampled: seq<int>, k: nat, nSink: nat)
    requires nSink < k && nSink <= |prompt| && |sampled| >= k - nSink
    ensures Window(prompt[..nSink] + sampled, k, nSink) == Window(prompt + sampled, k, nSink)
  {
  }

  lemma HealedRun(cells: seq<Cell>, prompt: seq<int>, sampled: seq<int>, k: nat, nSink: nat, hole: nat)
    requires nSink < k && sampled != [] && nSink <= hole < |prompt| && hole + (k - nSink) <= |prompt| + |sampled|
    requires WindowRun(cells, Without(Prefilled(prompt), Range(nSink, hole)), sampled, k, nSink)
    ensures Tokens(cells) == Window(prompt + sampled, k, nSink) && DenseFrom(cells, 0)
  {
    hide *;
    var stream := prompt + sampled;
    CutReaches(|prompt|, |sampled|, k, nSink, hole);
    HoleRun(cells, prompt, sampled, k, nSink, hole);
    CutIs(Dense(stream, 0), nSink, |stream| - k, |stream|);
    CutOfDense(stream, nSink, k);
    EndsAreWindow(stream, k, nSink);
    DenseTokens(Window(stream, k, nSink));
  }

  lemma CutReaches(n: nat, t: nat, k: nat, nSink: nat, hole: nat)
    requires t > 0 && nSink <= hole && hole + (k - nSink) <= n + t && nSink < k
    ensures k == MinInt(k, n + t)
    ensures Moves(n, t, k) == n + t - k && MaxInt(hole, nSink + Moves(n, t, k)) == nSink + (n + t - k)
  {
  }

  lemma CutIs(cells: seq<Cell>, a: nat, s: nat, hi: int)
    ensures Cut(cells, a, s, hi) == Down(Without(cells, Range(a, a + s)), a + s, hi, s)
  {
  }

  // ----- the counters -----

  lemma {:induction false} TrimsCount(k: nat, start: nat, t: nat)
    ensures Trims(k, start, t) == t - MinInt(t, MaxInt(0, k - start))
  {
    if t > 0 {
      TrimsCount(k, start, t - 1);
      WindowExtent(k, start, t - 1);
    }
  }

  /** How many positions were counted as evicted without a cell going. */
  function Overcount(n: nat, t: nat, nKv: nat, k: nat, nSink: nat): int {
    if nKv <= k then 0
    else if n <= nSink then nKv - k
    else if n <= Hole(nKv, k, nSink) then Hole(nKv, k, nSink) - n
    else MinInt(t, nKv - n) - MinInt(t, MaxInt(0, k - n))
  }

  lemma KeptExtent(prompt: seq<int>, nKv: nat, k: nat, nSink: nat)
    requires nSink < k && |prompt| <= nKv
    ensures PosMax(KeptPrompt(prompt, nKv, k, nSink)) + 1 ==
            if nSink < |prompt| <= Hole(nKv, k, nSink) && nKv > k then nSink else |prompt|
  {
    hide KeptPrompt, PosMax;
    if nKv <= k || |prompt| <= nSink {
      AllKept(prompt, nKv, k, nSink);
      DenseTokens(prompt);
    } else if |prompt| <= Hole(nKv, k, nSink) {
      OnlySinksKept(prompt, nKv, k, nSink);
      DenseTokens(prompt[..nSink]);
    } else {
      HoleIsCut(prompt, nKv, k, nSink);
      LastSurvives(prompt, nSink, Hole(nKv, k, nSink));
    }
  }

  /** The counters against the cells that went, exactly, and when they agree: nothing is padded, or the
      budget holds the padded prompt, or the padding covers the recency window and no more, or a shorter
      padding and no step has trimmed yet. */
  lemma PaddedCounters(cells: seq<Cell>, nTotalEvicted: nat, prompt: seq<int>, sampled: seq<int>,
                       nKv: nat, k: nat, nSink: nat)
    requires nSink < k && |prompt| <= nKv
    requires RunState(cells, nTotalEvicted, prompt, sampled, nKv, k, nSink)
    ensures nTotalEvicted + |cells| == |prompt| + |sampled| + Overcount(|prompt|, |sampled|, nKv, k, nSink)
    ensures nTotalEvicted + |cells| == |prompt| + |sampled| <==>
            || nKv <= k || nKv == |prompt| || |prompt| == Hole(nKv, k, nSink)
            || (|prompt| > Hole(nKv, k, nSink) && (sampled == [] || |prompt| + |sampled| <= k))
  {
    hide WindowRun, KeptPrompt, PosMax, Trims;
    PaddedSize(cells, prompt, sampled, nKv, k, nSink);
    KeptExtent(prompt, nKv, k, nSink);
    TrimsCount(k, PosMax(KeptPrompt(prompt, nKv, k, nSink)) + 1, |sampled|);
  }

  // ----- an input where it happens -----

  /** Four sinks, a budget of 64 and 300 prompt tokens, captured in 512 columns: after the first token
      only the sinks and that token are live, the window is not, and 448 evictions stand for 296 cells. */
  lemma PaddingEmptiesWindow(cells: seq<Cell>, nTotalEvicted: nat, prompt: seq<int>, token: int)
    requires |prompt| == 300 && RunState(cells, nTotalEvicted, prompt, [token], 512, 64, 4)
    ensures Tokens(cells) == prompt[..4] + [token]
    ensures Tokens(cells) != Window(prompt + [token], 64, 4)
    ensures nTotalEvicted == 448 && |prompt| + 1 - |cells| == 296
  {
    hide WindowRun, KeptPrompt;
    PaddedRunHeals(cells, prompt, [token], 512, 64, 4);
    PaddedCounters(cells, nTotalEvicted, prompt, [token], 512, 64, 4);
    OnlySinksKept(prompt, 512, 64, 4);
    DenseStartRun(cells, prompt[..4], [token], 64, 4);
    assert Window(prompt[..4] + [token], 64, 4) == prompt[..4] + [token];
    DenseTokens(prompt[..4] + [token]);
    assert |cells| == 5;
  }
}
