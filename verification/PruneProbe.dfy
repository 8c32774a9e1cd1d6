/** The greedy decoding loop, and the probe that prunes, measures and restores inside it. */
module PruneProbe {
  import opened Basics
  import opened KvCache

  // What the context holds between calls: the cache contents and the logits of the last decode.
  datatype Snapshot<S> = Snapshot(kv: S, logits: seq<real>)

  // The engine behind the context, deterministic: decoding one token may fail, dropping the
  // positions below k may not. The cells are all that the probe asks about the cache.
  datatype Model<!S> = Model(advance: (S, int) -> Option<Snapshot<S>>, drop: (S, int) -> S,
                             cells: S -> seq<Cell>, isEog: int -> bool)

  ghost predicate Lawful<S(!new)>(m: Model<S>) {
    && (forall s, t :: m.advance(s, t).Some? ==>
         && m.advance(s, t).value.logits != []
         && m.cells(m.advance(s, t).value.kv) == Append(m.cells(s), t))
    && (forall s, k :: 0 <= k ==> m.cells(m.drop(s, k)) == Without(m.cells(s), Range(0, k)))
  }

  // A line of the output: its metrics are computed from the full and the pruned logits.
  datatype Row = Row(step: nat, k: int, before: int, after: int, full: seq<real>, pruned: seq<real>)

  /** The first greatest logit. */
  function ArgMax(logits: seq<real>): (best: nat)
    requires logits != []
    ensures best < |logits|
    ensures forall i :: 0 <= i < |logits| ==> logits[i] <= logits[best]
    ensures forall i :: 0 <= i < best ==> logits[i] < logits[best]
  {
    var n := |logits| - 1;
    if n == 0 then 0
    else
      var best := ArgMax(logits[..n]);
      if logits[n] > logits[best] then n else best
  }

  method ArgMaxLogits(logits: seq<real>) returns (best: nat)
    requires logits != []
    ensures best == ArgMax(logits)
  {
    best := 0;
    var bestV := logits[0];
    for i := 1 to |logits|
      invariant best < i && bestV == logits[best] && best == ArgMax(logits[..i])
    {
      assert logits[..i + 1][..i] == logits[..i];
      if logits[i] > bestV {
        bestV := logits[i];
        best := i;
      }
    }
    assert logits[..|logits|] == logits;
  }

  /** The snapshots of the plain greedy loop at the points where it picks a token. */
  function GreedyTrace<S>(m: Model<S>, s: Snapshot<S>, maxTokens: nat): (trace: seq<Snapshot<S>>)
    ensures |trace| <= maxTokens && (maxTokens > 0 ==> trace != [] && trace[0] == s)
    decreases maxTokens
  {
    if maxTokens == 0 then []
    else if s.logits == [] || m.isEog(ArgMax(s.logits)) then [s]
    else
      var next := m.advance(s.kv, ArgMax(s.logits));
      if next.None? then [s] else [s] + GreedyTrace(m, next.value, maxTokens - 1)
  }

  ghost predicate Live<S(!new)>(trace: seq<Snapshot<S>>) {
    forall i :: 0 <= i < |trace| ==> trace[i].logits != []
  }

  function Emitted<S(!new)>(trace: seq<Snapshot<S>>): (tokens: seq<int>)
    requires Live(trace)
    ensures |tokens| == |trace|
    ensures forall i :: 0 <= i < |trace| ==> tokens[i] == ArgMax(trace[i].logits)
  {
    seq(|trace|, i requires 0 <= i < |trace| => ArgMax(trace[i].logits))
  }

  /** One more than the largest position, as the probe counts cells. */
  function Extent<S>(m: Model<S>, kv: S): (n: nat)
  {
    if PosMax(m.cells(kv)) < 0 then 0 else PosMax(m.cells(kv)) + 1
  }

  // ----- the rows, from the greedy trace alone -----

  /** The row for one K: the previous token decoded again on the state before it, minus the K
      oldest positions. */
  function Measured<S>(m: Model<S>, pre: S, prev: int, s: Snapshot<S>, step: nat, k: int): seq<Row> {
    var before := Extent(m, s.kv);
    if k <= 0 then []
    else if k >= before - 1 then [Row(step, k, before, before, s.logits, s.logits)]
    else
      var again := m.advance(m.drop(pre, k), prev);
      if again.None? then []
      else [Row(step, k, before, Extent(m, again.value.kv), s.logits, again.value.logits)]
  }

  function MeasuredRows<S>(m: Model<S>, pre: S, prev: int, s: Snapshot<S>, step: nat, ks: seq<int>): seq<Row> {
    if ks == [] then []
    else MeasuredRows(m, pre, prev, s, step, ks[..|ks| - 1]) + Measured(m, pre, prev, s, step, ks[|ks| - 1])
  }

  function Placeholders<S>(m: Model<S>, s: Snapshot<S>, ks: seq<int>): (rows: seq<Row>)
    ensures |rows| == |ks|
  {
    var before := Extent(m, s.kv);
    seq(|ks|, i requires 0 <= i < |ks| => Row(0, ks[i], before, before, s.logits, s.logits))
  }

  function RowsAt<S(!new)>(m: Model<S>, trace: seq<Snapshot<S>>, step: nat, ks: seq<int>): seq<Row>
    requires step < |trace| && Live(trace)
  {
    if step == 0 then Placeholders(m, trace[0], ks)
    else MeasuredRows(m, trace[step - 1].kv, ArgMax(trace[step - 1].logits), trace[step], step, ks)
  }

  function RowsUpTo<S(!new)>(m: Model<S>, trace: seq<Snapshot<S>>, n: nat, ks: seq<int>): seq<Row>
    requires n <= |trace| && Live(trace)
  {
    if n == 0 then [] else RowsUpTo(m, trace, n - 1, ks) + RowsAt(m, trace, n - 1, ks)
  }

  // ----- facts about the trace -----

  /** Each snapshot has logits, and follows from the one before it by decoding its token. */
  ghost predicate Chained<S(!new)>(m: Model<S>, trace: seq<Snapshot<S>>)
    requires Live(trace)
  {
    forall i :: 0 < i < |trace| ==> m.advance(trace[i - 1].kv, ArgMax(trace[i - 1].logits)) == Some(trace[i])
  }

  lemma AdvanceHasLogits<S(!new)>(m: Model<S>, kv: S, token: int)
    requires Lawful(m) && m.advance(kv, token).Some?
    ensures m.advance(kv, token).value.logits != []
  {
  }

  /** One turn of the greedy loop. */
  lemma TraceStep<S(!new)>(m: Model<S>, s: Snapshot<S>, maxTokens: nat)
    requires maxTokens > 0 && s.logits != []
    ensures var tok, trace := ArgMax(s.logits), GreedyTrace(m, s, maxTokens);
      if m.isEog(tok) || m.advance(s.kv, tok).None? then trace == [s]
      else trace == [s] + GreedyTrace(m, m.advance(s.kv, tok).value, maxTokens - 1)
  {
  }

  lemma {:induction false} TraceIsChained<S(!new)>(m: Model<S>, s: Snapshot<S>, maxTokens: nat)
    requires Lawful(m) && s.logits != []
    ensures Live(GreedyTrace(m, s, maxTokens)) && Chained(m, GreedyTrace(m, s, maxTokens))
    decreases maxTokens
  {
    if maxTokens > 0 && !m.isEog(ArgMax(s.logits)) {
      var next := m.advance(s.kv, ArgMax(s.logits));
      if next.Some? {
        TraceIsChained(m, next.value, maxTokens - 1);
      }
    }
  }

  // ----- the rows of the greedy trace: what they say, and what they do not -----

  /** The "kept" column of every row repeats the size before pruning: it counts up to the largest
      position, which removing the oldest ones leaves alone. */
  lemma {:induction false} KeptColumnIsSizeBefore<S(!new)>(m: Model<S>, trace: seq<Snapshot<S>>, n: nat, ks: seq<int>)
    requires Lawful(m) && Live(trace) && Chained(m, trace) && n <= |trace|
    ensures forall r :: r in RowsUpTo(m, trace, n, ks) ==> r.after == r.before
  {
    hide *;
    if n == 0 {
      NoRows(m, trace, ks);
    } else {
      KeptColumnIsSizeBefore(m, trace, n - 1, ks);
      KeptAtStep(m, trace, n - 1, ks);
      RowsGrow(m, trace, n, ks);
    }
  }

  lemma KeptAtStep<S(!new)>(m: Model<S>, trace: seq<Snapshot<S>>, i: nat, ks: seq<int>)
    requires Lawful(m) && Live(trace) && Chained(m, trace) && i < |trace|
    ensures forall r :: r in RowsAt(m, trace, i, ks) ==> r.after == r.before
  {
    if i == 0 {
      assert RowsAt(m, trace, 0, ks) == Placeholders(m, trace[0], ks);
      hide RowsAt, Extent;
    } else {
      var last := trace[i - 1];
      assert RowsAt(m, trace, i, ks) == MeasuredRows(m, last.kv, ArgMax(last.logits), trace[i], i, ks);
      assert m.advance(last.kv, ArgMax(last.logits)) == Some(trace[i]);
      hide *;
      KeptInStep(m, last, trace[i], i, ks);
    }
  }

  lemma NoRows<S(!new)>(m: Model<S>, trace: seq<Snapshot<S>>, ks: seq<int>)
    requires Live(trace)
    ensures RowsUpTo(m, trace, 0, ks) == []
  {
  }

  lemma RowsGrow<S(!new)>(m: Model<S>, trace: seq<Snapshot<S>>, n: nat, ks: seq<int>)
    requires 0 < n <= |trace| && Live(trace)
    ensures RowsUpTo(m, trace, n, ks) == RowsUpTo(m, trace, n - 1, ks) + RowsAt(m, trace, n - 1, ks)
  {
  }

  lemma {:induction false} KeptInStep<S(!new)>(m: Model<S>, last: Snapshot<S>, s: Snapshot<S>, step: nat, ks: seq<int>)
    requires Lawful(m) && last.logits != []
    requires m.advance(last.kv, ArgMax(last.logits)) == Some(s)
    ensures forall r :: r in MeasuredRows(m, last.kv, ArgMax(last.logits), s, step, ks) ==> r.after == r.before
  {
    if ks != [] {
      KeptInStep(m, last, s, step, ks[..|ks| - 1]);
      var k := ks[|ks| - 1];
      if 0 < k < Extent(m, s.kv) - 1 {
        PosMaxSurvives(m.cells(last.kv), k);
      }
    }
  }

  lemma PosMaxSurvives(cells: seq<Cell>, k: nat)
    requires k <= PosMax(cells)
    ensures PosMax(Without(cells, Range(0, k))) == PosMax(cells)
  {
  }

  /** On a dense cache the pruned decode ran on k cells fewer than the column says. */
  lemma PrunedCellsAreFewer<S(!new)>(m: Model<S>, last: Snapshot<S>, s: Snapshot<S>, k: nat, again: Snapshot<S>)
    requires Lawful(m) && last.logits != [] && DenseFrom(m.cells(last.kv), 0)
    requires m.advance(last.kv, ArgMax(last.logits)) == Some(s) && 0 < k < Extent(m, s.kv) - 1
    requires m.advance(m.drop(last.kv, k), ArgMax(last.logits)) == Some(again)
    ensures Extent(m, again.kv) == Extent(m, s.kv) && |m.cells(again.kv)| == Extent(m, s.kv) - k
  {
    var cells := m.cells(last.kv);
    PosMaxSurvives(cells, k);
    CutStretch(cells, 0, k, 0, k);
  }

  /** What a row measures. Its full logits are those of its step. At the first step, and for a K that would
      leave nothing, the pruned ones repeat them; otherwise they come from decoding the previous token on the
      state of the step before without the positions below K. */
  lemma {:induction false} RowMeasures<S(!new)>(m: Model<S>, trace: seq<Snapshot<S>>, n: nat, ks: seq<int>, r: Row)
    requires Live(trace) && n <= |trace| && r in RowsUpTo(m, trace, n, ks)
    ensures r.step < n && r.k in ks && r.full == trace[r.step].logits && r.before == Extent(m, trace[r.step].kv)
    ensures r.step == 0 || r.k >= r.before - 1 ==> r.pruned == r.full
    ensures r.step > 0 ==> r.k > 0
    ensures r.step > 0 && r.k < r.before - 1 ==>
      var last := trace[r.step - 1];
      var again := m.advance(m.drop(last.kv, r.k), ArgMax(last.logits));
      again.Some? && r.pruned == again.value.logits && r.after == Extent(m, again.value.kv)
  {
    hide ArgMax, Extent, MeasuredRows, Placeholders, Live;
    if n == 0 {
      NoRows(m, trace, ks);
      assert false;
    } else {
      RowsGrow(m, trace, n, ks);
      if r in RowsUpTo(m, trace, n - 1, ks) {
        RowMeasures(m, trace, n - 1, ks, r);
      } else {
        RowMeasuresAt(m, trace, n - 1, ks, r);
      }
    }
  }

  lemma RowMeasuresAt<S(!new)>(m: Model<S>, trace: seq<Snapshot<S>>, i: nat, ks: seq<int>, r: Row)
    requires Live(trace) && i < |trace| && r in RowsAt(m, trace, i, ks)
    ensures r.step == i && r.k in ks && r.full == trace[i].logits && r.before == Extent(m, trace[i].kv)
    ensures i == 0 || r.k >= r.before - 1 ==> r.pruned == r.full
    ensures i > 0 ==> r.k > 0
    ensures i > 0 && r.k < r.before - 1 ==>
      var last := trace[i - 1];
      var again := m.advance(m.drop(last.kv, r.k), ArgMax(last.logits));
      again.Some? && r.pruned == again.value.logits && r.after == Extent(m, again.value.kv)
  {
    hide ArgMax, Extent, Live;
    if i > 0 {
      RowOfStep(m, trace[i - 1].kv, ArgMax(trace[i - 1].logits), trace[i], i, ks, r);
    }
  }

  lemma {:induction false} RowOfStep<S(!new)>(m: Model<S>, pre: S, prev: int, s: Snapshot<S>, step: nat, ks: seq<int>, r: Row)
    requires r in MeasuredRows(m, pre, prev, s, step, ks)
    ensures r.step == step && r.k in ks && r.k > 0 && r.full == s.logits && r.before == Extent(m, s.kv)
    ensures if r.k >= r.before - 1 then r.pruned == r.full
            else var again := m.advance(m.drop(pre, r.k), prev);
              again.Some? && r.pruned == again.value.logits && r.after == Extent(m, again.value.kv)
  {
    hide Extent;
    if ks != [] && r in MeasuredRows(m, pre, prev, s, step, ks[..|ks| - 1]) {
      RowOfStep(m, pre, prev, s, step, ks[..|ks| - 1], r);
    }
  }

  /** And every K has its row: at the first step all of them, later the positive ones whose pruned decode
      succeeds or is not tried. */
  lemma {:induction false} EveryKHasItsRow<S(!new)>(m: Model<S>, trace: seq<Snapshot<S>>, n: nat, ks: seq<int>, i: nat, k: int)
    requires Live(trace) && i < n <= |trace| && k in ks
    requires i > 0 ==> k > 0
    requires i > 0 && k < Extent(m, trace[i].kv) - 1 ==>
      m.advance(m.drop(trace[i - 1].kv, k), ArgMax(trace[i - 1].logits)).Some?
    ensures exists r :: r in RowsUpTo(m, trace, n, ks) && r.step == i && r.k == k
  {
    hide ArgMax, Extent, MeasuredRows, Live;
    RowsGrow(m, trace, n, ks);
    if i < n - 1 {
      EveryKHasItsRow(m, trace, n - 1, ks, i, k);
    } else if i == 0 {
      var at :| 0 <= at < |ks| && ks[at] == k;
      assert Placeholders(m, trace[0], ks)[at] in RowsAt(m, trace, 0, ks);
    } else {
      var r := KHasItsRow(m, trace[i - 1].kv, ArgMax(trace[i - 1].logits), trace[i], i, ks, k);
      assert r in RowsAt(m, trace, i, ks);
    }
  }

  lemma {:induction false} KHasItsRow<S(!new)>(m: Model<S>, pre: S, prev: int, s: Snapshot<S>, step: nat, ks: seq<int>,
                                               k: int) returns (r: Row)
    requires k in ks && k > 0 && (k < Extent(m, s.kv) - 1 ==> m.advance(m.drop(pre, k), prev).Some?)
    ensures r in MeasuredRows(m, pre, prev, s, step, ks) && r.step == step && r.k == k
  {
    hide Extent;
    if ks[|ks| - 1] == k {
      r := Measured(m, pre, prev, s, step, k)[0];
    } else {
      r := KHasItsRow(m, pre, prev, s, step, ks[..|ks| - 1], k);
    }
  }

  /** On a dense prompt the decode behind the pruned logits of a row ran on K cells fewer than the step held. */
  lemma RowRanOnFewer<S(!new)>(m: Model<S>, trace: seq<Snapshot<S>>, n: nat, ks: seq<int>, r: Row)
    requires Lawful(m) && Live(trace) && Chained(m, trace) && n <= |trace| && r in RowsUpTo(m, trace, n, ks)
    requires DenseFrom(m.cells(trace[0].kv), 0) && r.step > 0 && r.k < r.before - 1
    ensures r.step < |trace| && r.before == |m.cells(trace[r.step].kv)|
    ensures var last := trace[r.step - 1];
      var again := m.advance(m.drop(last.kv, r.k), ArgMax(last.logits));
      && again.Some? && r.pruned == again.value.logits
      && |m.cells(m.drop(last.kv, r.k))| == |m.cells(last.kv)| - r.k
      && |m.cells(again.value.kv)| == r.before - r.k
  {
    hide RowsUpTo, ArgMax, Live, Without, Range, Extent, PosMax;
    RowMeasures(m, trace, n, ks, r);
    var last := trace[r.step - 1];
    StaysDense(m, trace, r.step - 1);
    StaysDense(m, trace, r.step);
    assert m.advance(last.kv, ArgMax(last.logits)) == Some(trace[r.step]);
    DenseWithoutFirst(m.cells(last.kv), r.k);
  }

  lemma DenseWithoutFirst(cells: seq<Cell>, k: nat)
    requires DenseFrom(cells, 0) && k <= |cells|
    ensures |Without(cells, Range(0, k))| == |cells| - k
  {
    hide Without, Range;
    CutStretch(cells, 0, k, 0, k);
  }

  lemma {:induction false} StaysDense<S(!new)>(m: Model<S>, trace: seq<Snapshot<S>>, i: nat)
    requires Lawful(m) && Live(trace) && Chained(m, trace) && i < |trace| && DenseFrom(m.cells(trace[0].kv), 0)
    ensures DenseFrom(m.cells(trace[i].kv), 0) && Extent(m, trace[i].kv) == |m.cells(trace[i].kv)|
  {
    hide ArgMax, Live;
    if i > 0 {
      StaysDense(m, trace, i - 1);
    }
  }

  // ----- when the loop ends -----

  /** The loop ends early only at an end-of-generation token, which is then the last one and is not decoded,
      or at a failed decode. */
  lemma {:induction false} TraceEnds<S(!new)>(m: Model<S>, s: Snapshot<S>, maxTokens: nat)
    requires Lawful(m) && s.logits != []
    ensures var trace := GreedyTrace(m, s, maxTokens);
      && Live(trace)
      && (forall i :: 0 <= i < |trace| - 1 ==> !m.isEog(ArgMax(trace[i].logits)))
      && (|trace| < maxTokens ==> trace != [] && var last := trace[|trace| - 1];
           m.isEog(ArgMax(last.logits)) || m.advance(last.kv, ArgMax(last.logits)).None?)
    decreases maxTokens
  {
    hide ArgMax;
    TraceIsChained(m, s, maxTokens);
    if maxTokens > 0 && !m.isEog(ArgMax(s.logits)) {
      var next := m.advance(s.kv, ArgMax(s.logits));
      if next.Some? {
        TraceEnds(m, next.value, maxTokens - 1);
        var rest := GreedyTrace(m, next.value, maxTokens - 1);
        assert GreedyTrace(m, s, maxTokens) == [s] + rest;
      }
    }
  }

  /** The step reported is that of the only end-of-generation token, and -1 when there is none. */
  lemma EosIsTheEog<S(!new)>(m: Model<S>, s: Snapshot<S>, maxTokens: nat)
    requires Lawful(m) && s.logits != []
    ensures var trace := GreedyTrace(m, s, maxTokens);
      Live(trace) && var tokens := Emitted(trace);
      && (forall i :: 0 <= i < |tokens| ==> (m.isEog(tokens[i]) <==> i == EosStep(m, tokens)))
      && -1 <= EosStep(m, tokens) < |tokens|
  {
    TraceEnds(m, s, maxTokens);
    hide ArgMax, GreedyTrace, Live;
  }

  // ----- the context and the two loops -----

  class Context<S(!new)> {
    const m: Model<S>
    var kv: S
    var logits: seq<real>

    constructor (m: Model<S>, prompt: Snapshot<S>)
      ensures this.m == m && At(prompt)
    {
      this.m, kv, logits := m, prompt.kv, prompt.logits;
    }

    ghost predicate At(s: Snapshot<S>)
      reads this
    {
      kv == s.kv && logits == s.logits
    }

    /** Nothing is promised about the context after a failed decode. */
    method Decode(token: int) returns (ok: bool)
      modifies this
      ensures ok == m.advance(old(kv), token).Some?
      ensures ok ==> At(m.advance(old(kv), token).value)
    {
      var next := m.advance(kv, token);
      ok := next.Some?;
      if ok {
        kv, logits := next.value.kv, next.value.logits;
      }
    }

    method SeqRm(k: nat)
      modifies this
      ensures kv == m.drop(old(kv), k) && logits == old(logits)
    {
      kv := m.drop(kv, k);
    }

    /** Puts back a saved cache. The logits stay those of the last decode. */
    method Restore(saved: S)
      modifies this
      ensures kv == saved && logits == old(logits)
    {
      kv := saved;
    }

    method Greedy(maxTokens: nat) returns (tokens: seq<int>, eosStep: int, ghost trace: seq<Snapshot<S>>)
      requires Lawful(m) && logits != []
      modifies this
      ensures trace == GreedyTrace(m, Snapshot(old(kv), old(logits)), maxTokens)
      ensures Live(trace) && tokens == Emitted(trace)
      ensures eosStep == EosStep(m, tokens)
    {
      hide Lawful, GreedyTrace, ArgMax, Midway, Spoken, EosStep;
      ghost var start := Snapshot(kv, logits);
      trace, tokens, eosStep := [], [], -1;
      ghost var (last, tokenBefore) := (kv, 0);
      MidwayStart(m, start, maxTokens, last, tokenBefore);
      SpokenStart(m);
      var step, done := 0, false;
      while step < maxTokens && !done
        invariant step <= maxTokens && (!done ==> step == |trace| && eosStep == -1)
        invariant done ==> trace == GreedyTrace(m, start, maxTokens)
        invariant !done ==> Midway(m, start, maxTokens, trace, Snapshot(kv, logits), last, tokenBefore, trace != [])
        invariant Spoken(m, trace, tokens, eosStep)
        decreases maxTokens - step, !done
      {
        ghost var cur := Snapshot(kv, logits);
        MidwayNext(m, start, maxTokens, trace, cur, last, tokenBefore, trace != []);
        var tok := ArgMaxLogits(logits);
        SpokenNext(m, trace, tokens, eosStep, cur);
        trace := trace + [cur];
        tokens := tokens + [tok];
        if m.isEog(tok) {
          eosStep := step;
          done := true;
        } else {
          last, tokenBefore := kv, tok;
          var ok := Decode(tok);
          done := !ok;
          step := step + 1;
        }
      }
      MidwayEnd(m, start, maxTokens, trace, Snapshot(kv, logits), last, tokenBefore, trace != [], done);
      SpokenIs(m, trace, tokens, eosStep);
    }

    /** The same loop with the measurements in it: the trace, the tokens and the stop are those of
        the greedy loop, and the rows are a function of that trace. */
    method Probe(maxTokens: nat, ks: seq<int>)
      returns (tokens: seq<int>, eosStep: int, rows: seq<Row>, ghost trace: seq<Snapshot<S>>)
      requires Lawful(m) && logits != []
      modifies this
      ensures trace == GreedyTrace(m, Snapshot(old(kv), old(logits)), maxTokens)
      ensures Live(trace) && tokens == Emitted(trace)
      ensures eosStep == EosStep(m, tokens)
      ensures rows == RowsUpTo(m, trace, |trace|, ks)
    {
      hide Lawful, GreedyTrace, ArgMax, Extent, Placeholders, MeasuredRows, RowsUpTo, Midway, Recorded, EosStep;
      ghost var start := Snapshot(kv, logits);
      trace, tokens, eosStep, rows := [], [], -1, [];
      var sPre := kv;
      var prev, havePrev := 0, false;
      MidwayStart(m, start, maxTokens, sPre, prev);
      RecordedStart(m, ks);
      var step, done := 0, false;
      while step < maxTokens && !done
        invariant step <= maxTokens && (!done ==> step == |trace| && eosStep == -1)
        invariant done ==> trace == GreedyTrace(m, start, maxTokens)
        invariant !done ==> Midway(m, start, maxTokens, trace, Snapshot(kv, logits), sPre, prev, havePrev)
        invariant Recorded(m, trace, tokens, eosStep, rows, ks)
        decreases maxTokens - step, !done
      {
        var full := logits;
        ghost var cur := Snapshot(kv, full);
        MidwayIs(m, start, maxTokens, trace, cur, sPre, prev, havePrev);
        var tok := ArgMaxLogits(full);
        var before := Extent(m, kv);
        var more := [];
        if step >= 1 && havePrev {
          more := MeasureAll(sPre, prev, full, before, step, ks, cur);
          Restore(sPre);
          var clean := Decode(prev); // succeeds, as it did in the step before
        } else if step == 0 {
          more := Placeholders(m, Snapshot(kv, full), ks);
        }
        MidwayNext(m, start, maxTokens, trace, cur, sPre, prev, havePrev);
        var eog := m.isEog(tok);
        RecordedNext(m, trace, tokens, eosStep, rows, ks, cur, more, if eog then step else -1);
        rows := rows + more;
        trace := trace + [cur];
        tokens := tokens + [tok];
        if eog {
          eosStep := step;
          done := true;
        } else {
          sPre := kv;
          var ok := Decode(tok);
          done := !ok;
          prev, havePrev := tok, true;
          step := step + 1;
        }
      }
      MidwayEnd(m, start, maxTokens, trace, Snapshot(kv, logits), sPre, prev, havePrev, done);
      RecordedIs(m, trace, tokens, eosStep, rows, ks);
    }

    /** Each K from the same saved state. */
    method MeasureAll(sPre: S, prev: int, full: seq<real>, before: nat, step: nat, ks: seq<int>, ghost s: Snapshot<S>)
      returns (rows: seq<Row>)
      requires s.logits == full && before == Extent(m, s.kv)
      modifies this
      ensures rows == MeasuredRows(m, sPre, prev, s, step, ks)
    {
      hide Extent;
      rows := [];
      for i := 0 to |ks|
        invariant rows == MeasuredRows(m, sPre, prev, s, step, ks[..i])
      {
        var k := ks[i];
        assert ks[..i + 1][..i] == ks[..i];
        if k > 0 {
          if k >= before - 1 {
            rows := rows + [Row(step, k, before, before, full, full)];
          } else {
            Restore(sPre);
            SeqRm(k);
            var ok := Decode(prev);
            if ok {
              rows := rows + [Row(step, k, before, Extent(m, kv), full, logits)];
            }
          }
        }
      }
      assert ks[..|ks|] == ks;
    }
  }

  lemma {:induction false} RowsOfPrefix<S(!new)>(m: Model<S>, trace: seq<Snapshot<S>>, s: Snapshot<S>, n: nat, ks: seq<int>)
    requires Live(trace) && s.logits != [] && n <= |trace|
    ensures RowsUpTo(m, trace + [s], n, ks) == RowsUpTo(m, trace, n, ks)
  {
    hide Placeholders, MeasuredRows, ArgMax;
    if n > 0 {
      RowsOfPrefix(m, trace, s, n - 1, ks);
    }
  }

  lemma RowsNext<S(!new)>(m: Model<S>, trace: seq<Snapshot<S>>, s: Snapshot<S>, ks: seq<int>, more: seq<Row>)
    requires Live(trace) && s.logits != []
    requires trace == [] ==> more == Placeholders(m, s, ks)
    requires trace != [] ==>
      more == MeasuredRows(m, trace[|trace| - 1].kv, ArgMax(trace[|trace| - 1].logits), s, |trace|, ks)
    ensures RowsUpTo(m, trace + [s], |trace| + 1, ks) == RowsUpTo(m, trace, |trace|, ks) + more
  {
    hide Placeholders, MeasuredRows, ArgMax;
    RowsOfPrefix(m, trace, s, |trace|, ks);
    assert RowsAt(m, trace + [s], |trace|, ks) == more;
  }

  // ----- the invariant of the probe's loop -----

  /** The run so far and the greedy run from here make up the whole greedy run, and decoding the
      previous token on the saved state gives the present context. */
  ghost predicate Midway<S(!new)>(m: Model<S>, start: Snapshot<S>, maxTokens: nat, trace: seq<Snapshot<S>>,
                                  cur: Snapshot<S>, sPre: S, prev: int, havePrev: bool) {
    && |trace| <= maxTokens && Lawful(m) && cur.logits != [] && Live(trace)
    && trace + GreedyTrace(m, cur, maxTokens - |trace|) == GreedyTrace(m, start, maxTokens)
    && havePrev == (trace != [])
    && (trace != [] ==>
          && sPre == trace[|trace| - 1].kv && prev == ArgMax(trace[|trace| - 1].logits)
          && m.advance(sPre, prev) == Some(cur))
  }

  lemma MidwayStart<S(!new)>(m: Model<S>, start: Snapshot<S>, maxTokens: nat, sPre: S, prev: int)
    requires Lawful(m) && start.logits != []
    ensures Midway(m, start, maxTokens, [], start, sPre, prev, false)
  {
    assert [] + GreedyTrace(m, start, maxTokens) == GreedyTrace(m, start, maxTokens);
  }

  lemma MidwayIs<S(!new)>(m: Model<S>, start: Snapshot<S>, maxTokens: nat, trace: seq<Snapshot<S>>,
                          cur: Snapshot<S>, sPre: S, prev: int, havePrev: bool)
    requires Midway(m, start, maxTokens, trace, cur, sPre, prev, havePrev)
    ensures cur.logits != [] && Live(trace) && havePrev == (trace != [])
    ensures trace != [] ==>
      && sPre == trace[|trace| - 1].kv && prev == ArgMax(trace[|trace| - 1].logits)
      && m.advance(sPre, prev) == Some(cur)
  {
  }

  lemma MidwayNext<S(!new)>(m: Model<S>, start: Snapshot<S>, maxTokens: nat, trace: seq<Snapshot<S>>,
                            cur: Snapshot<S>, sPre: S, prev: int, havePrev: bool)
    requires Midway(m, start, maxTokens, trace, cur, sPre, prev, havePrev) && |trace| < maxTokens
    ensures cur.logits != []
    ensures var tok := ArgMax(cur.logits);
      if m.isEog(tok) || m.advance(cur.kv, tok).None? then trace + [cur] == GreedyTrace(m, start, maxTokens)
      else Midway(m, start, maxTokens, trace + [cur], m.advance(cur.kv, tok).value, cur.kv, tok, true)
  {
    hide Lawful, GreedyTrace, ArgMax, Live, Emitted;
    EmittedNext(trace, cur);
    var n := maxTokens - |trace|;
    TraceStep(m, cur, n);
    var tok, longer := ArgMax(cur.logits), trace + [cur];
    if !m.isEog(tok) && m.advance(cur.kv, tok).Some? {
      var next := m.advance(cur.kv, tok).value;
      AdvanceHasLogits(m, cur.kv, tok);
      var rest := GreedyTrace(m, next, n - 1);
      TraceJoins(trace, cur, rest);
      assert maxTokens - |longer| == n - 1;
      assert longer + GreedyTrace(m, next, maxTokens - |longer|) == GreedyTrace(m, start, maxTokens);
      assert longer != [] && longer[|longer| - 1] == cur;
    }
  }

  lemma TraceJoins<S(!new)>(trace: seq<Snapshot<S>>, cur: Snapshot<S>, rest: seq<Snapshot<S>>)
    ensures trace + ([cur] + rest) == (trace + [cur]) + rest
  {
  }

  lemma MidwayEnd<S(!new)>(m: Model<S>, start: Snapshot<S>, maxTokens: nat, trace: seq<Snapshot<S>>,
                           cur: Snapshot<S>, sPre: S, prev: int, havePrev: bool, done: bool)
    requires done ==> trace == GreedyTrace(m, start, maxTokens)
    requires !done ==> Midway(m, start, maxTokens, trace, cur, sPre, prev, havePrev) && |trace| == maxTokens
    ensures trace == GreedyTrace(m, start, maxTokens)
  {
  }

  /** The tokens and the stop so far are those of the trace so far. */
  ghost predicate Spoken<S(!new)>(m: Model<S>, trace: seq<Snapshot<S>>, tokens: seq<int>, eosStep: int) {
    Live(trace) && tokens == Emitted(trace) && eosStep == EosStep(m, tokens)
  }

  lemma SpokenStart<S(!new)>(m: Model<S>)
    ensures Spoken(m, [], [], -1)
  {
  }

  lemma SpokenIs<S(!new)>(m: Model<S>, trace: seq<Snapshot<S>>, tokens: seq<int>, eosStep: int)
    requires Spoken(m, trace, tokens, eosStep)
    ensures Live(trace) && tokens == Emitted(trace) && eosStep == EosStep(m, tokens)
  {
  }

  lemma SpokenNext<S(!new)>(m: Model<S>, trace: seq<Snapshot<S>>, tokens: seq<int>, eosStep: int, s: Snapshot<S>)
    requires Spoken(m, trace, tokens, eosStep) && s.logits != []
    ensures Spoken(m, trace + [s], tokens + [ArgMax(s.logits)], if m.isEog(ArgMax(s.logits)) then |trace| else -1)
  {
    hide ArgMax;
    EmittedNext(trace, s);
  }

  /** The rows too. */
  ghost predicate Recorded<S(!new)>(m: Model<S>, trace: seq<Snapshot<S>>, tokens: seq<int>, eosStep: int,
                                    rows: seq<Row>, ks: seq<int>) {
    Live(trace) && Spoken(m, trace, tokens, eosStep) && rows == RowsUpTo(m, trace, |trace|, ks)
  }

  lemma RecordedStart<S(!new)>(m: Model<S>, ks: seq<int>)
    ensures Recorded(m, [], [], -1, [], ks)
  {
  }

  lemma RecordedIs<S(!new)>(m: Model<S>, trace: seq<Snapshot<S>>, tokens: seq<int>, eosStep: int, rows: seq<Row>, ks: seq<int>)
    requires Recorded(m, trace, tokens, eosStep, rows, ks)
    ensures Live(trace) && tokens == Emitted(trace) && eosStep == EosStep(m, tokens)
    ensures rows == RowsUpTo(m, trace, |trace|, ks)
  {
  }

  lemma RecordedNext<S(!new)>(m: Model<S>, trace: seq<Snapshot<S>>, tokens: seq<int>, eosStep: int, rows: seq<Row>,
                              ks: seq<int>, s: Snapshot<S>, more: seq<Row>, nextEos: int)
    requires Recorded(m, trace, tokens, eosStep, rows, ks) && s.logits != []
    requires trace == [] ==> more == Placeholders(m, s, ks)
    requires Live(trace)
    requires trace != [] ==>
      more == MeasuredRows(m, trace[|trace| - 1].kv, ArgMax(trace[|trace| - 1].logits), s, |trace|, ks)
    requires nextEos == if m.isEog(ArgMax(s.logits)) then |trace| else -1
    ensures Recorded(m, trace + [s], tokens + [ArgMax(s.logits)], nextEos, rows + more, ks)
  {
    hide RowsUpTo, MeasuredRows, Placeholders, ArgMax, Live, Spoken;
    SpokenIs(m, trace, tokens, eosStep);
    EmittedNext(trace, s);
    SpokenNext(m, trace, tokens, eosStep, s);
    RowsNext(m, trace, s, ks, more);
  }

  lemma EmittedNext<S(!new)>(trace: seq<Snapshot<S>>, s: Snapshot<S>)
    requires Live(trace) && s.logits != []
    ensures Live(trace + [s]) && Emitted(trace + [s]) == Emitted(trace) + [ArgMax(s.logits)]
  {
    hide ArgMax;
  }

  /** The step of the end-of-generation token, -1 when the run stopped without one. */
  function EosStep<S>(m: Model<S>, tokens: seq<int>): int {
    if tokens != [] && m.isEog(tokens[|tokens| - 1]) then |tokens| - 1 else -1
  }
}
