/** Cutting a stretch out of the cache and closing the gap, again and again while tokens arrive: any
    number of cuts behind the same protected prefix is one cut of the cache that was never trimmed. */
module Sliding {
  import opened Basics
  import opened KvCache
  import opened Eviction

  /** A stretch of tokens at consecutive positions. */
  function Dense(tokens: seq<int>, start: int): (r: seq<Cell>)
    ensures |r| == |tokens|
  {
    seq(|tokens|, i requires 0 <= i < |tokens| => Cell(start + i, tokens[i]))
  }

  /** Moves the positions [from, hi) down by s. */
  function Down(cells: seq<Cell>, from: int, hi: int, s: nat): seq<Cell> { Shift(cells, from, hi, 0 - s) }

  /** Drops the positions [a, a + s) of [0, hi) and moves what follows them down by s. */
  function Cut(cells: seq<Cell>, a: nat, s: nat, hi: int): seq<Cell> {
    Down(Without(cells, Range(a, a + s)), a + s, hi, s)
  }

  ghost predicate Below(cells: seq<Cell>, hi: int) {
    forall i :: 0 <= i < |cells| ==> cells[i].pos < hi
  }

  ghost predicate NoneIn(cells: seq<Cell>, lo: int, hi: int) {
    forall i :: 0 <= i < |cells| ==> !(lo <= cells[i].pos < hi)
  }

  // ----- moving down -----

  function Moved(c: Cell, from: int, hi: int, s: nat): Cell {
    if from <= c.pos < hi then Cell(c.pos - s, c.token) else c
  }

  lemma DownAt(cells: seq<Cell>, from: int, hi: int, s: nat)
    ensures |Down(cells, from, hi, s)| == |cells|
    ensures forall i :: 0 <= i < |cells| ==> Down(cells, from, hi, s)[i] == Moved(cells[i], from, hi, s)
  {
  }

  lemma DownConcat(x: seq<Cell>, y: seq<Cell>, from: int, hi: int, s: nat)
    ensures Down(x + y, from, hi, s) == Down(x, from, hi, s) + Down(y, from, hi, s)
  {
    DownAt(x + y, from, hi, s);
    DownAt(x, from, hi, s);
    DownAt(y, from, hi, s);
    hide Down, Moved;
  }

  lemma DownNowhere(cells: seq<Cell>, from: int, hi: int)
    ensures Down(cells, from, hi, 0) == cells
  {
    DownAt(cells, from, hi, 0);
    hide Down;
  }

  /** A higher top changes nothing for cells below the old one. */
  lemma DownTop(cells: seq<Cell>, from: int, hi: int, top: int, s: nat)
    requires Below(cells, hi) && hi <= top
    ensures Down(cells, from, hi, s) == Down(cells, from, top, s)
  {
    DownAt(cells, from, hi, s);
    DownAt(cells, from, top, s);
    hide Down;
  }

  lemma DownDense(tokens: seq<int>, start: int, from: int, hi: int, s: nat)
    requires from <= start && start + |tokens| <= hi
    ensures Down(Dense(tokens, start), from, hi, s) == Dense(tokens, start - s)
  {
    DownAt(Dense(tokens, start), from, hi, s);
    hide Down;
  }

  lemma DownTwice(cells: seq<Cell>, a: int, s: nat, d: nat, hi: int)
    requires Below(cells, hi) && NoneIn(cells, a, a + s + d)
    ensures Down(Down(cells, a + s, hi, s), a + d, hi - s, d) == Down(cells, a + s + d, hi, s + d)
  {
    var once := Down(cells, a + s, hi, s);
    DownAt(cells, a + s, hi, s);
    DownAt(once, a + d, hi - s, d);
    DownAt(cells, a + s + d, hi, s + d);
    hide Down;
  }

  lemma DownSnoc(cells: seq<Cell>, c: Cell, from: int, hi: int, s: nat)
    ensures Down(cells + [c], from, hi, s) == Down(cells, from, hi, s) + [Moved(c, from, hi, s)]
  {
    DownConcat(cells, [c], from, hi, s);
    DownAt([c], from, hi, s);
  }

  lemma MovedInto(c: Cell, a: int, s: nat, b: int, hi: int)
    requires c.pos < hi && !(a <= c.pos < a + s) && a <= b
    ensures a <= Moved(c, a + s, hi, s).pos < b <==> a + s <= c.pos < b + s
  {
  }

  /** A filter after a move is a move after a filter. */
  lemma {:induction false} WithoutAfterDown(cells: seq<Cell>, a: int, s: nat, b: int, hi: int)
    requires Below(cells, hi) && NoneIn(cells, a, a + s) && a <= b
    ensures Without(Down(cells, a + s, hi, s), Range(a, b)) == Down(Without(cells, Range(a + s, b + s)), a + s, hi, s)
  {
    if cells == [] {
    } else {
      hide *;
      var n := |cells| - 1;
      var front, last := cells[..n], cells[n];
      assert cells == front + [last];
      FrontIsBelow(cells, a, s, hi);
      WithoutAfterDown(front, a, s, b, hi);
      OneAfterDown(front, last, a, s, b, hi);
    }
  }

  lemma FrontIsBelow(cells: seq<Cell>, a: int, s: nat, hi: int)
    requires Below(cells, hi) && NoneIn(cells, a, a + s) && cells != []
    ensures Below(cells[..|cells| - 1], hi) && NoneIn(cells[..|cells| - 1], a, a + s)
    ensures cells[|cells| - 1].pos < hi && !(a <= cells[|cells| - 1].pos < a + s)
  {
  }

  lemma OneAfterDown(front: seq<Cell>, last: Cell, a: int, s: nat, b: int, hi: int)
    requires last.pos < hi && !(a <= last.pos < a + s) && a <= b
    requires Without(Down(front, a + s, hi, s), Range(a, b)) == Down(Without(front, Range(a + s, b + s)), a + s, hi, s)
    ensures Without(Down(front + [last], a + s, hi, s), Range(a, b))
         == Down(Without(front + [last], Range(a + s, b + s)), a + s, hi, s)
  {
    hide *;
    var far := Range(a + s, b + s);
    MovedInto(last, a, s, b, hi);
    DownSnoc(front, last, a + s, hi, s);
    WithoutSnoc(Down(front, a + s, hi, s), Moved(last, a + s, hi, s), Range(a, b));
    WithoutSnoc(front, last, far);
    if last.pos in far {
    } else {
      DownSnoc(Without(front, far), last, a + s, hi, s);
    }
  }

  lemma WithoutSnoc(cells: seq<Cell>, c: Cell, dropped: set<int>)
    ensures Without(cells + [c], dropped) == if c.pos in dropped then Without(cells, dropped) else Without(cells, dropped) + [c]
  {
    assert (cells + [c])[..|cells|] == cells;
  }

  // ----- cuts compose -----

  lemma WithoutIsIn(cells: seq<Cell>, lo: int, hi: int, top: int)
    requires Below(cells, top)
    ensures Below(Without(cells, Range(lo, hi)), top) && NoneIn(Without(cells, Range(lo, hi)), lo, hi)
  {
    hide Without;
    var kept := Without(cells, Range(lo, hi));
    forall i | 0 <= i < |kept|
      ensures kept[i].pos < top && !(lo <= kept[i].pos < hi)
    {
      WithoutMembers(cells, Range(lo, hi), kept[i]);
      assert kept[i] in kept;
    }
  }

  lemma CutNothing(cells: seq<Cell>, a: nat, hi: int)
    ensures Cut(cells, a, 0, hi) == cells
  {
    WithoutNone(cells, Range(a, a));
    DownNowhere(cells, a, hi);
    hide Without, Down;
  }

  lemma CutConcat(x: seq<Cell>, y: seq<Cell>, a: nat, s: nat, hi: int)
    ensures Cut(x + y, a, s, hi) == Cut(x, a, s, hi) + Cut(y, a, s, hi)
  {
    hide Without, Down;
    WithoutConcat(x, y, Range(a, a + s));
    DownConcat(Without(x, Range(a, a + s)), Without(y, Range(a, a + s)), a + s, hi, s);
  }

  lemma CutTop(cells: seq<Cell>, a: nat, s: nat, hi: int, top: int)
    requires Below(cells, hi) && hi <= top
    ensures Cut(cells, a, s, hi) == Cut(cells, a, s, top)
  {
    hide Without, Down;
    WithoutIsIn(cells, a, a + s, hi);
    DownTop(Without(cells, Range(a, a + s)), a + s, hi, top, s);
  }

  /** Tokens past the cut only move down. */
  lemma CutDense(tokens: seq<int>, start: int, a: nat, s: nat, hi: int)
    requires a + s <= start && start + |tokens| <= hi
    ensures Cut(Dense(tokens, start), a, s, hi) == Dense(tokens, start - s)
  {
    WithoutNone(Dense(tokens, start), Range(a, a + s));
    DownDense(tokens, start, a + s, hi, s);
    hide Without, Down;
  }

  /** Two cuts at the same place are one. */
  lemma CutTwice(cells: seq<Cell>, a: nat, s: nat, d: nat, hi: int)
    requires Below(cells, hi)
    ensures Cut(Cut(cells, a, s, hi), a, d, hi - s) == Cut(cells, a, s + d, hi)
  {
    hide Without, Down, Range;
    var first, second, both := Range(a, a + s), Range(a + s, a + s + d), Range(a, a + s + d);
    WithoutIsIn(cells, a, a + s, hi);
    WithoutAfterDown(Without(cells, first), a, s, a + d, hi);
    WithoutTwice(cells, first, second);
    assert first + second == both;
    WithoutIsIn(cells, a, a + s + d, hi);
    DownTwice(Without(cells, both), a, s, d, hi);
    assert Range(a + s, a + d + s) == second;
  }

  // ----- what a cut leaves -----

  /** Exactly: the cells before the cut where they were, and the cells after it moved down. */
  lemma CutMembers(cells: seq<Cell>, a: nat, s: nat, hi: int, c: Cell)
    requires Below(cells, hi)
    ensures c in Cut(cells, a, s, hi) <==>
            (if c.pos < a then c in cells else c.pos < hi - s && Cell(c.pos + s, c.token) in cells)
  {
    hide Without, Down;
    var kept := Without(cells, Range(a, a + s));
    var before := if c.pos < a then c else Cell(c.pos + s, c.token);
    WithoutMembers(cells, Range(a, a + s), before);
    WithoutIsIn(cells, a, a + s, hi);
    DownAt(kept, a + s, hi, s);
    var cut := Cut(cells, a, s, hi);
    if c in cut {
      var i :| 0 <= i < |kept| && cut[i] == c;
      assert kept[i] == before;
    }
    if before in kept && (c.pos < a || c.pos < hi - s) {
      var i :| 0 <= i < |kept| && kept[i] == before;
      assert cut[i] == c;
    }
  }

  lemma CutIncreasing(cells: seq<Cell>, a: nat, s: nat, hi: int)
    requires Increasing(cells) && Below(cells, hi)
    ensures Increasing(Cut(cells, a, s, hi)) && Below(Cut(cells, a, s, hi), MaxInt(a, hi - s))
  {
    hide Without, Down;
    WithoutIncreasing(cells, Range(a, a + s));
    WithoutIsIn(cells, a, a + s, hi);
    DownAt(Without(cells, Range(a, a + s)), a + s, hi, s);
  }

  /** The width of the cut is at least the number of cells that went, and equal to it exactly when
      every position of the cut was live. */
  lemma CutCount(cells: seq<Cell>, a: nat, s: nat, hi: int)
    requires Increasing(cells)
    ensures |cells| - |Cut(cells, a, s, hi)| <= s
    ensures |cells| - |Cut(cells, a, s, hi)| == s <==> Range(a, a + s) <= Positions(cells)
  {
    hide Without, Range, Positions, Down;
    var dropped := Range(a, a + s);
    RangeSize(a, a + s);
    DownAt(Without(cells, dropped), a + s, hi, s);
    WithoutLength(cells, dropped);
    SubsetSize(dropped * Positions(cells), dropped);
    CountMatchesCells(cells, dropped);
  }

  lemma PosMaxOfCut(cells: seq<Cell>, a: nat, s: nat, hi: int)
    requires cells != [] && cells[|cells| - 1].pos == hi - 1 && a + s < hi
    ensures PosMax(Cut(cells, a, s, hi)) == hi - 1 - s
  {
    hide Without, Down;
    var n := |cells| - 1;
    assert cells == cells[..n] + [cells[n]];
    WithoutSnoc(cells[..n], cells[n], Range(a, a + s));
    DownAt(Without(cells, Range(a, a + s)), a + s, hi, s);
  }

  // ----- a run of cuts -----

  /** What would be live had nothing been cut since start. */
  function Uncut(start: seq<Cell>, done: seq<int>): seq<Cell> { start + Dense(done, PosMax(start) + 1) }

  function Total(start: seq<Cell>, done: seq<int>): int { PosMax(start) + 1 + |done| }

  /** The extent is m, and the cells are those of the uncut cache with one stretch behind the first
      nSink positions cut out. */
  ghost predicate Spans(cells: seq<Cell>, start: seq<Cell>, done: seq<int>, nSink: nat, m: nat) {
    && Increasing(start)
    && (m == Total(start, done) || nSink < m < Total(start, done))
    && cells == Cut(Uncut(start, done), nSink, Total(start, done) - m, Total(start, done))
  }

  lemma UncutShape(start: seq<Cell>, done: seq<int>)
    requires Increasing(start)
    ensures Increasing(Uncut(start, done)) && Below(Uncut(start, done), Total(start, done)) && Total(start, done) >= 0
    ensures PosMax(Uncut(start, done)) == Total(start, done) - 1
  {
    if done == [] {
      assert Uncut(start, done) == start;
    }
  }

  lemma UncutNext(start: seq<Cell>, done: seq<int>, token: int)
    ensures Uncut(start, done + [token]) == Uncut(start, done) + [Cell(Total(start, done), token)]
    ensures Total(start, done + [token]) == Total(start, done) + 1
  {
  }

  lemma SpansStart(start: seq<Cell>, nSink: nat)
    requires Increasing(start)
    ensures PosMax(start) + 1 >= 0 && Spans(start, start, [], nSink, PosMax(start) + 1)
  {
    assert Uncut(start, []) == start;
    CutNothing(start, nSink, Total(start, []));
    hide Cut;
  }

  lemma ExtentOfSpan(cells: seq<Cell>, start: seq<Cell>, done: seq<int>, nSink: nat, m: nat)
    requires Spans(cells, start, done, nSink, m)
    ensures PosMax(cells) == m - 1
  {
    UncutShape(start, done);
    var full, total := Uncut(start, done), Total(start, done);
    hide Uncut, Total, Cut;
    if m == total {
      CutNothing(full, nSink, total);
    } else {
      assert full != [];
      PosMaxOfCut(full, nSink, total - m, total);
    }
  }

  /** Decoding a token extends the span by it. */
  lemma SpanGrows(cells: seq<Cell>, start: seq<Cell>, done: seq<int>, nSink: nat, m: nat, token: int)
    requires Spans(cells, start, done, nSink, m)
    ensures Spans(Append(cells, token), start, done + [token], nSink, m + 1)
  {
    hide Uncut, Total, Cut, Increasing, Below;
    ExtentOfSpan(cells, start, done, nSink, m);
    UncutShape(start, done);
    UncutNext(start, done, token);
    var total := Total(start, done);
    CutSnoc(Uncut(start, done), nSink, total - m, total, token);
  }

  lemma CutSnoc(full: seq<Cell>, a: nat, s: nat, hi: nat, token: int)
    requires Below(full, hi) && (s == 0 || a + s <= hi)
    ensures Cut(full + [Cell(hi, token)], a, s, hi + 1) == Cut(full, a, s, hi) + [Cell(hi - s, token)]
  {
    hide Cut;
    var last := [Cell(hi, token)];
    if s == 0 {
      CutNothing(full, a, hi);
      CutNothing(full + last, a, hi + 1);
    } else {
      CutConcat(full, last, a, s, hi + 1);
      CutTop(full, a, s, hi, hi + 1);
      assert last == Dense([token], hi) && [Cell(hi - s, token)] == Dense([token], hi - s);
      CutDense([token], hi, a, s, hi + 1);
    }
  }

  /** Cutting a span down to the extent nSink + recent. */
  lemma SpanCut(cells: seq<Cell>, start: seq<Cell>, done: seq<int>, nSink: nat, m: nat, recent: nat)
    requires Spans(cells, start, done, nSink, m) && 0 < recent && nSink + recent <= m
    ensures Spans(Cut(cells, nSink, m - nSink - recent, m), start, done, nSink, nSink + recent)
  {
    hide Uncut, Total, Cut, Increasing, Below;
    UncutShape(start, done);
    var full, total := Uncut(start, done), Total(start, done);
    var s, d: nat := total - m, m - nSink - recent;
    assert total - s == m && s + d == total - (nSink + recent);
    CutTwice(full, nSink, s, d, total);
  }

  /** The last cells are these tokens, at consecutive positions up to the one before end. */
  ghost predicate EndsWith(cells: seq<Cell>, tokens: seq<int>, end: int) {
    |tokens| <= |cells| && cells[|cells| - |tokens|..] == Dense(tokens, end - |tokens|)
  }

  /** The newest tokens, as many as have room behind the first nSink positions. */
  function Newest(start: seq<Cell>, done: seq<int>, nSink: nat, m: nat): (tail: seq<int>)
    requires m == Total(start, done) || nSink < m
    ensures |tail| <= |done| && tail == done[|done| - |tail|..]
    ensures |tail| == if m == Total(start, done) then |done| else MinInt(|done|, m - nSink)
  {
    done[|done| - if m == Total(start, done) then |done| else MinInt(|done|, m - nSink)..]
  }

  lemma SpanTail(cells: seq<Cell>, start: seq<Cell>, done: seq<int>, nSink: nat, m: nat)
    requires Spans(cells, start, done, nSink, m)
    ensures EndsWith(cells, Newest(start, done, nSink, m), m)
  {
    hide *;
    SpanIs(cells, start, done, nSink, m);
    var total, tail := Total(start, done), Newest(start, done, nSink, m);
    var n := |done| - |tail|;
    UncutSplit(start, done, n);
    CutTail(Uncut(start, done[..n]), tail, nSink, total - m, total);
  }

  lemma SpanIs(cells: seq<Cell>, start: seq<Cell>, done: seq<int>, nSink: nat, m: nat)
    requires Spans(cells, start, done, nSink, m)
    ensures m == Total(start, done) || nSink < m < Total(start, done)
    ensures m == Total(start, done) || |Newest(start, done, nSink, m)| <= m - nSink
    ensures cells == Cut(Uncut(start, done), nSink, Total(start, done) - m, Total(start, done))
  {
  }

  /** Every other cell too: those of the first nSink positions have not moved, and a cell behind the
      cut stands where it was less the cut. */
  lemma SpanCells(cells: seq<Cell>, start: seq<Cell>, done: seq<int>, nSink: nat, m: nat, c: Cell)
    requires Spans(cells, start, done, nSink, m)
    ensures c.pos < nSink ==> (c in cells <==> c in Uncut(start, done))
    ensures nSink <= c.pos < m ==> (c in cells <==> Cell(c.pos + Total(start, done) - m, c.token) in Uncut(start, done))
  {
    UncutShape(start, done);
    var full, total := Uncut(start, done), Total(start, done);
    hide Uncut, Total, Cut, Increasing;
    CutMembers(full, nSink, total - m, total, c);
  }

  lemma SpanOrder(cells: seq<Cell>, start: seq<Cell>, done: seq<int>, nSink: nat, m: nat)
    requires Spans(cells, start, done, nSink, m)
    ensures Increasing(cells) && PosMax(cells) == m - 1
  {
    ExtentOfSpan(cells, start, done, nSink, m);
    UncutShape(start, done);
    var full, total := Uncut(start, done), Total(start, done);
    hide Uncut, Total, Cut, Increasing;
    CutIncreasing(full, nSink, total - m, total);
  }

  lemma UncutSplit(start: seq<Cell>, done: seq<int>, n: nat)
    requires n <= |done|
    ensures Uncut(start, done) == Uncut(start, done[..n]) + Dense(done[n..], Total(start, done) - (|done| - n))
  {
  }

  /** Tokens behind the cut end up at the end, moved down. */
  lemma CutTail(front: seq<Cell>, tokens: seq<int>, a: nat, s: nat, hi: int)
    requires s == 0 || a + s <= hi - |tokens|
    ensures EndsWith(Cut(front + Dense(tokens, hi - |tokens|), a, s, hi), tokens, hi - s)
  {
    hide Cut, Dense;
    var tail := Dense(tokens, hi - |tokens|);
    if s == 0 {
      CutNothing(front + tail, a, hi);
      SuffixIs(front, tail);
    } else {
      CutConcat(front, tail, a, s, hi);
      CutDense(tokens, hi - |tokens|, a, s, hi);
      SuffixIs(Cut(front, a, s, hi), Dense(tokens, hi - |tokens| - s));
    }
  }

  lemma SuffixIs(x: seq<Cell>, y: seq<Cell>)
    ensures (x + y)[|x + y| - |y|..] == y
  {
  }

  /** The positions given up over the whole run are at least the cells that went, and as many
      exactly when the stretch that is missing was live throughout. */
  lemma SpanCount(cells: seq<Cell>, start: seq<Cell>, done: seq<int>, nSink: nat, m: nat)
    requires Spans(cells, start, done, nSink, m)
    ensures var gone := |start| + |done| - |cells|;
      && gone <= Total(start, done) - m
      && (gone == Total(start, done) - m <==>
          Range(nSink, nSink + Total(start, done) - m) <= Positions(Uncut(start, done)))
  {
    UncutShape(start, done);
    var full, total := Uncut(start, done), Total(start, done);
    CutCount(full, nSink, total - m, total);
    assert |full| == |start| + |done|;
    hide Cut, Range, Positions, Increasing;
  }

  // ----- the saw tooth of the extent -----

  /** The extent after one more token, trimmed to low once it passes limit. */
  function NextExtent(limit: nat, low: nat, m: nat): nat { if m + 1 > limit then low else m + 1 }

  /** The extent after some steps under one limit. */
  function ExtentAt(limit: nat, low: nat, start: nat, step: nat): nat {
    if step == 0 then start else NextExtent(limit, low, ExtentAt(limit, low, start, step - 1))
  }

  predicate TrimsAt(limit: nat, low: nat, start: nat, step: nat) { ExtentAt(limit, low, start, step) + 1 > limit }

  lemma {:induction false} RegrowsAfter(limit: nat, low: nat, start: nat, i: nat, d: nat)
    requires TrimsAt(limit, low, start, i) && low + d <= limit
    ensures ExtentAt(limit, low, start, i + 1 + d) == low + d
  {
    if d > 0 {
      RegrowsAfter(limit, low, start, i, d - 1);
    }
  }

  /** Two trims are exactly limit - low + 1 steps apart. */
  lemma TrimSpacing(limit: nat, low: nat, start: nat, i: nat, j: nat)
    requires TrimsAt(limit, low, start, i) && low <= limit && i < j
    ensures j < i + (limit - low + 1) ==> !TrimsAt(limit, low, start, j)
    ensures j == i + (limit - low + 1) ==> TrimsAt(limit, low, start, j)
  {
    if j <= i + (limit - low + 1) {
      RegrowsAfter(limit, low, start, i, j - i - 1);
    }
  }

  // ----- a dense start -----

  /** The first nSink tokens of the stream and its newest m - nSink ones. */
  function Ends(stream: seq<int>, nSink: nat, m: nat): (r: seq<int>)
    requires m == |stream| || nSink <= m <= |stream|
    ensures |r| == m
  {
    if m == |stream| then stream else stream[..nSink] + stream[|stream| - (m - nSink)..]
  }

  lemma CutBelow(cells: seq<Cell>, a: nat, s: nat, hi: int)
    requires Below(cells, a)
    ensures Cut(cells, a, s, hi) == cells
  {
    WithoutNone(cells, Range(a, a + s));
    DownAt(cells, a + s, hi, s);
    hide Without, Down;
  }

  lemma CutAll(tokens: seq<int>, a: nat, hi: int)
    ensures Cut(Dense(tokens, a), a, |tokens|, hi) == []
  {
    WithoutAll(Dense(tokens, a), Range(a, a + |tokens|));
    DownAt([], a + |tokens|, hi, |tokens|);
    hide Without, Down;
  }

  lemma DenseConcat(x: seq<int>, y: seq<int>, start: int)
    ensures Dense(x + y, start) == Dense(x, start) + Dense(y, start + |x|)
  {
  }

  lemma CutOfDense(stream: seq<int>, nSink: nat, m: nat)
    requires m == |stream| || nSink <= m <= |stream|
    ensures Cut(Dense(stream, 0), nSink, |stream| - m, |stream|) == Dense(Ends(stream, nSink, m), 0)
  {
    var hi := |stream|;
    if m == hi {
      CutNothing(Dense(stream, 0), nSink, hi);
    } else {
      var s := hi - m;
      var sinks, middle, recent := stream[..nSink], stream[nSink..nSink + s], stream[nSink + s..];
      assert stream == sinks + middle + recent && Ends(stream, nSink, m) == sinks + recent;
      CutThreeParts(sinks, middle, recent, nSink, s, hi);
    }
  }

  lemma CutThreeParts(sinks: seq<int>, middle: seq<int>, recent: seq<int>, a: nat, s: nat, hi: int)
    requires |sinks| == a && |middle| == s && hi == a + s + |recent|
    ensures Cut(Dense(sinks + middle + recent, 0), a, s, hi) == Dense(sinks + recent, 0)
  {
    hide *;
    DenseBelow(sinks);
    DenseConcat(sinks + middle, recent, 0);
    DenseConcat(sinks, middle, 0);
    DenseConcat(sinks, recent, 0);
    CutConcat(Dense(sinks + middle, 0), Dense(recent, a + s), a, s, hi);
    CutConcat(Dense(sinks, 0), Dense(middle, a), a, s, hi);
    CutBelow(Dense(sinks, 0), a, s, hi);
    CutAll(middle, a, hi);
    CutDense(recent, a + s, a, s, hi);
  }

  lemma DenseBelow(tokens: seq<int>)
    ensures Below(Dense(tokens, 0), |tokens|)
  {
  }

  lemma UncutDense(prompt: seq<int>, done: seq<int>)
    ensures Uncut(Dense(prompt, 0), done) == Dense(prompt + done, 0)
    ensures Total(Dense(prompt, 0), done) == |prompt| + |done|
  {
  }

  /** From a dense start the live tokens are the two ends of the stream, dense from zero. */
  lemma DenseStartKeepsEnds(cells: seq<Cell>, prompt: seq<int>, done: seq<int>, nSink: nat, m: nat)
    requires Spans(cells, Dense(prompt, 0), done, nSink, m)
    ensures (m == |prompt + done| || nSink <= m <= |prompt + done|)
      && cells == Dense(Ends(prompt + done, nSink, m), 0)
  {
    UncutDense(prompt, done);
    hide Uncut, Total, Cut, Dense, Ends, Increasing;
    CutOfDense(prompt + done, nSink, m);
  }
}
