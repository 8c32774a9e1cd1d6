/** Cutting a stretch out of the cache without closing the gap, which is all that quantized keys allow:
    positions keep growing, and any number of cuts behind the same prefix is the longest of them. */
module Sparse {
  import opened Basics
  import opened KvCache
  import opened Sliding

  /** The positions [lo, gone) of the uncut cache are missing; the newest cell is not. */
  ghost predicate Thinned(cells: seq<Cell>, start: seq<Cell>, done: seq<int>, lo: nat, gone: nat) {
    && Increasing(start)
    && (lo == gone || lo < gone < Total(start, done))
    && cells == Without(Uncut(start, done), Range(lo, gone))
  }

  lemma NothingMissing(cells: seq<Cell>, lo: int, gone: int)
    requires gone <= lo
    ensures Without(cells, Range(lo, gone)) == cells
  {
    WithoutNone(cells, Range(lo, gone));
  }

  lemma ThinnedStart(start: seq<Cell>, lo: nat)
    requires Increasing(start)
    ensures Thinned(start, start, [], lo, lo)
  {
    assert Uncut(start, []) == start;
    NothingMissing(start, lo, lo);
    hide Without, Range;
  }

  lemma LastStays(cells: seq<Cell>, lo: int, gone: int)
    requires cells != [] && !(lo <= cells[|cells| - 1].pos < gone)
    ensures Without(cells, Range(lo, gone)) == Without(cells[..|cells| - 1], Range(lo, gone)) + [cells[|cells| - 1]]
  {
  }

  /** The extent is that of the uncut cache. */
  lemma ThinnedExtent(cells: seq<Cell>, start: seq<Cell>, done: seq<int>, lo: nat, gone: nat)
    requires Thinned(cells, start, done, lo, gone)
    ensures PosMax(cells) == Total(start, done) - 1
  {
    hide Without, Range, Uncut, Total, Increasing;
    var full := Uncut(start, done);
    UncutShape(start, done);
    if gone == lo {
      NothingMissing(full, lo, gone);
    } else {
      LastStays(full, lo, gone);
    }
  }

  lemma ThinnedOrder(cells: seq<Cell>, start: seq<Cell>, done: seq<int>, lo: nat, gone: nat)
    requires Thinned(cells, start, done, lo, gone)
    ensures Increasing(cells)
  {
    hide Without, Range, Uncut, Total, Increasing;
    UncutShape(start, done);
    WithoutIncreasing(Uncut(start, done), Range(lo, gone));
  }

  lemma ThinnedGrows(cells: seq<Cell>, start: seq<Cell>, done: seq<int>, lo: nat, gone: nat, token: int)
    requires Thinned(cells, start, done, lo, gone)
    ensures Thinned(Append(cells, token), start, done + [token], lo, gone)
  {
    hide Without, Range, Uncut, Total, Increasing, PosMax;
    ThinnedExtent(cells, start, done, lo, gone);
    UncutNext(start, done, token);
    WithoutSnoc(Uncut(start, done), Cell(Total(start, done), token), Range(lo, gone));
  }

  /** Another removal behind the same prefix leaves the longer of the two holes. */
  lemma ThinnedCut(cells: seq<Cell>, start: seq<Cell>, done: seq<int>, lo: nat, gone: nat, end: int)
    requires Thinned(cells, start, done, lo, gone) && end < Total(start, done)
    ensures Thinned(Without(cells, Range(lo, end)), start, done, lo, MaxInt(gone, end))
  {
    hide Without, Range, Uncut, Total, Increasing;
    WithoutTwice(Uncut(start, done), Range(lo, gone), Range(lo, end));
    assert Range(lo, gone) + Range(lo, end) == Range(lo, MaxInt(gone, end));
  }

  lemma BelowTop(cells: seq<Cell>)
    requires Increasing(cells)
    ensures Below(cells, PosMax(cells) + 1)
  {
  }

  /** A removal up to the top leaves the start, when that is all below the hole. */
  lemma ThinnedCleared(cells: seq<Cell>, start: seq<Cell>, done: seq<int>, lo: nat, gone: nat)
    requires Thinned(cells, start, done, lo, gone) && PosMax(start) + 1 == lo
    ensures Without(cells, Range(lo, Total(start, done))) == start
  {
    hide Without, Range, Increasing, PosMax;
    BelowTop(start);
    var more, top := Dense(done, lo), Total(start, done);
    WithoutTwice(start + more, Range(lo, gone), Range(lo, top));
    WithoutConcat(start, more, Range(lo, gone) + Range(lo, top));
    WithoutNone(start, Range(lo, gone) + Range(lo, top));
    WithoutAll(more, Range(lo, gone) + Range(lo, top));
  }

  lemma HoleEnds(cells: seq<Cell>, start: seq<Cell>, done: seq<int>, lo: nat, gone: nat)
    requires Thinned(cells, start, done, lo, gone)
    ensures lo <= gone && (lo == gone || gone < Total(start, done))
  {
  }

  lemma PositionsSize(cells: seq<Cell>)
    requires Increasing(cells)
    ensures |Positions(cells)| == |cells|
  {
    WithoutAll(cells, Positions(cells));
    WithoutLength(cells, Positions(cells));
    hide Without, Increasing;
    assert Positions(cells) * Positions(cells) == Positions(cells);
  }

  /** No more cells are live than there are positions in front of the hole and behind it. */
  lemma ThinnedSize(cells: seq<Cell>, start: seq<Cell>, done: seq<int>, lo: nat, gone: nat)
    requires Thinned(cells, start, done, lo, gone) && gone <= Total(start, done)
    ensures |cells| <= lo + Total(start, done) - gone
  {
    hide Without, Range, Uncut, Total, Increasing;
    var total := Total(start, done);
    UncutShape(start, done);
    ThinnedOrder(cells, start, done, lo, gone);
    PositionsSize(cells);
    forall c | c in cells ensures c.pos in Range(0, lo) + Range(gone, total) {
      WithoutMembers(Uncut(start, done), Range(lo, gone), c);
      IsAtPosition(Uncut(start, done), c, total);
    }
    SubsetSize(Positions(cells), Range(0, lo) + Range(gone, total));
    UnionSize(Range(0, lo), Range(gone, total));
    RangeSize(0, lo);
    RangeSize(gone, total);
  }

  lemma IsAtPosition(cells: seq<Cell>, c: Cell, hi: int)
    requires Increasing(cells) && Below(cells, hi) && c in cells
    ensures 0 <= c.pos < hi
  {
  }

  /** How many cells one more removal takes: none from the hole that is there already, and from behind it
      one for every position that is live. */
  lemma ThinnedCount(cells: seq<Cell>, start: seq<Cell>, done: seq<int>, lo: nat, gone: nat, end: nat)
    requires Thinned(cells, start, done, lo, gone) && gone <= end
    ensures var went := |cells| - |Without(cells, Range(lo, end))|;
      && went <= end - gone
      && (went == end - gone <==> Range(gone, end) <= Positions(Uncut(start, done)))
  {
    hide Without, Range, Uncut, Total, Increasing, Positions;
    var full, live := Uncut(start, done), Positions(Uncut(start, done));
    UncutShape(start, done);
    WithoutTwice(full, Range(lo, gone), Range(lo, end));
    assert Range(lo, gone) + Range(lo, end) == Range(lo, end);
    WithoutLength(full, Range(lo, gone));
    WithoutLength(full, Range(lo, end));
    assert Range(lo, end) * live == Range(lo, gone) * live + Range(gone, end) * live;
    DisjointSize(Range(lo, gone) * live, Range(gone, end) * live);
    RangeSize(gone, end);
    SubsetSize(Range(gone, end) * live, Range(gone, end));
    if |Range(gone, end) * live| == end - gone {
      SameSizeSubset(Range(gone, end) * live, Range(gone, end));
    }
    assert Range(gone, end) <= live ==> Range(gone, end) * live == Range(gone, end);
  }

  // ----- a run of removals -----

  /** A step may remove what is behind the prefix up to the newest `recent` positions, once the extent
      passes the limit. */
  datatype Trim = Trim(limit: nat, recent: nat)

  /** How far a run has come: the tokens decoded since the stretch behind the prefix was last emptied,
      and where its hole ends. */
  datatype Thin = Thin(since: nat, gone: nat)

  ghost predicate HoldsThin(cells: seq<Cell>, start: seq<Cell>, done: seq<int>, lo: nat, s: Thin) {
    s.since <= |done| && Thinned(cells, start, done[|done| - s.since..], lo, s.gone)
  }

  predicate Evicts(n: nat, trim: Option<Trim>) { trim.Some? && n > trim.value.limit }

  /** What a trim that evicts needs: the limit holds the prefix and the recent positions, and a start
      that is all prefix if nothing recent stays. */
  ghost predicate Fits(trim: Option<Trim>, start: seq<Cell>, lo: nat) {
    trim.Some? ==>
      && lo + trim.value.recent <= trim.value.limit
      && (trim.value.recent == 0 ==> PosMax(start) + 1 == lo)
  }

  function NextThin(s: Thin, n: nat, lo: nat, trim: Option<Trim>): Thin {
    if !Evicts(n, trim) then Thin(s.since + 1, s.gone)
    else if trim.value.recent == 0 then Thin(0, lo)
    else Thin(s.since + 1, MaxInt(s.gone, n - trim.value.recent))
  }

  /** The cells after the step at extent n. */
  function Trimmed(grown: seq<Cell>, n: nat, lo: nat, trim: Option<Trim>): seq<Cell> {
    if Evicts(n, trim) then Without(grown, Range(lo, n - trim.value.recent)) else grown
  }

  /** The number such a step returns. */
  function Returned(n: nat, lo: nat, trim: Option<Trim>): int {
    if Evicts(n, trim) then n - trim.value.recent - lo else 0
  }

  lemma HoldsThinStart(start: seq<Cell>, done: seq<int>, lo: nat)
    requires Increasing(start)
    ensures HoldsThin(start, start, done, lo, Thin(0, lo))
  {
    ThinnedStart(start, lo);
    assert done[|done|..] == [];
    hide Thinned;
  }

  lemma HoldsThinGrows(cells: seq<Cell>, start: seq<Cell>, done: seq<int>, token: int, lo: nat, s: Thin)
    requires HoldsThin(cells, start, done, lo, s)
    ensures HoldsThin(Append(cells, token), start, done + [token], lo, Thin(s.since + 1, s.gone))
    ensures PosMax(Append(cells, token)) == PosMax(start) + 1 + s.since
  {
    hide Thinned, Append, PosMax;
    var tail := done[|done| - s.since..];
    assert (done + [token])[|done| - s.since..] == tail + [token];
    ThinnedGrows(cells, start, tail, lo, s.gone, token);
    ThinnedExtent(Append(cells, token), start, tail + [token], lo, s.gone);
  }

  lemma HoldsThinTrims(grown: seq<Cell>, start: seq<Cell>, all: seq<int>, lo: nat, s: Thin, n: nat, trim: Option<Trim>)
    requires HoldsThin(grown, start, all, lo, Thin(s.since + 1, s.gone)) && n == PosMax(start) + 1 + s.since + 1
    requires Fits(trim, start, lo)
    ensures HoldsThin(Trimmed(grown, n, lo, trim), start, all, lo, NextThin(s, n, lo, trim))
  {
    hide Thinned, PosMax, Without, Range, Increasing;
    ExtentIsNatural(grown, start, all, lo, Thin(s.since + 1, s.gone));
    var tail := all[|all| - s.since - 1..];
    if Evicts(n, trim) {
      if trim.value.recent == 0 {
        ThinnedCleared(grown, start, tail, lo, s.gone);
        HoldsThinStart(start, all, lo);
      } else {
        ThinnedCut(grown, start, tail, lo, s.gone, n - trim.value.recent);
      }
    }
  }

  /** One step of a run. */
  lemma HoldsThinNext(cells: seq<Cell>, start: seq<Cell>, done: seq<int>, token: int, lo: nat, s: Thin, trim: Option<Trim>)
    requires HoldsThin(cells, start, done, lo, s) && Fits(trim, start, lo)
    ensures var n := PosMax(start) + 1 + s.since + 1;
      && n == PosMax(Append(cells, token)) + 1 >= 0
      && HoldsThin(Trimmed(Append(cells, token), n, lo, trim), start, done + [token], lo, NextThin(s, n, lo, trim))
  {
    ExtentIsNatural(cells, start, done, lo, s);
    hide *;
    HoldsThinGrows(cells, start, done, token, lo, s);
    HoldsThinTrims(Append(cells, token), start, done + [token], lo, s, PosMax(start) + 1 + s.since + 1, trim);
  }

  lemma HoldsThinOrder(cells: seq<Cell>, start: seq<Cell>, done: seq<int>, lo: nat, s: Thin)
    requires HoldsThin(cells, start, done, lo, s)
    ensures Increasing(cells)
  {
    ThinnedOrder(cells, start, done[|done| - s.since..], lo, s.gone);
    hide Thinned, Increasing;
  }

  lemma WholeRunExtent(cells: seq<Cell>, start: seq<Cell>, done: seq<int>, lo: nat, s: Thin)
    requires HoldsThin(cells, start, done, lo, s) && s.since == |done|
    ensures PosMax(cells) == PosMax(start) + |done|
  {
    ThinnedExtent(cells, start, done[|done| - s.since..], lo, s.gone);
    hide Thinned, PosMax;
  }

  lemma ExtentIsNatural(cells: seq<Cell>, start: seq<Cell>, done: seq<int>, lo: nat, s: Thin)
    requires HoldsThin(cells, start, done, lo, s)
    ensures PosMax(start) + 1 >= 0 && Increasing(start)
  {
  }

  /** How far a run has come after some steps from a start of the extent first. */
  function ThinAfter(first: nat, lo: nat, trims: seq<Option<Trim>>): Thin {
    if trims == [] then Thin(0, lo)
    else
      var n := |trims| - 1;
      var s := ThinAfter(first, lo, trims[..n]);
      NextThin(s, first + s.since + 1, lo, trims[n])
  }

  /** What the steps return together. */
  function ReturnedBy(first: nat, lo: nat, trims: seq<Option<Trim>>): int {
    if trims == [] then 0
    else
      var n := |trims| - 1;
      ReturnedBy(first, lo, trims[..n]) + Returned(first + ThinAfter(first, lo, trims[..n]).since + 1, lo, trims[n])
  }

  lemma ThinSnoc(first: nat, lo: nat, trims: seq<Option<Trim>>, trim: Option<Trim>)
    ensures var s := ThinAfter(first, lo, trims);
      && ThinAfter(first, lo, trims + [trim]) == NextThin(s, first + s.since + 1, lo, trim)
      && ReturnedBy(first, lo, trims + [trim]) == ReturnedBy(first, lo, trims) + Returned(first + s.since + 1, lo, trim)
  {
    assert (trims + [trim])[..|trims|] == trims;
    hide NextThin, Returned;
  }

  /** While something recent stays at every eviction the extent grows by one per step, whatever is evicted. */
  lemma {:induction false} ExtentOnlyGrows(first: nat, lo: nat, trims: seq<Option<Trim>>)
    requires forall i :: 0 <= i < |trims| && trims[i].Some? ==> trims[i].value.recent > 0
    ensures ThinAfter(first, lo, trims).since == |trims|
  {
    if trims != [] {
      ExtentOnlyGrows(first, lo, trims[..|trims| - 1]);
    }
  }

  /** After a step that evicts no more cells are live than the prefix and the recent positions. */
  lemma EvictionBounds(cells: seq<Cell>, start: seq<Cell>, done: seq<int>, lo: nat, trims: seq<Option<Trim>>)
    requires PosMax(start) + 1 >= 0 && trims != [] && Fits(trims[|trims| - 1], start, lo)
    requires var before := ThinAfter(PosMax(start) + 1, lo, trims[..|trims| - 1]);
      Evicts(PosMax(start) + 1 + before.since + 1, trims[|trims| - 1])
    requires HoldsThin(cells, start, done, lo, ThinAfter(PosMax(start) + 1, lo, trims))
    ensures |cells| <= lo + trims[|trims| - 1].value.recent
  {
    var s := ThinAfter(PosMax(start) + 1, lo, trims);
    var tail := done[|done| - s.since..];
    hide Thinned, Increasing;
    assert Total(start, tail) == PosMax(start) + 1 + s.since;
    HoleEnds(cells, start, tail, lo, s.gone);
    ThinnedSize(cells, start, tail, lo, s.gone);
  }

  // ----- one trim throughout -----

  ghost predicate Always<T>(s: seq<T>, x: T) {
    forall i :: 0 <= i < |s| ==> s[i] == x
  }

  /** How many of the steps evict under one trim. */
  function Evictions(first: nat, trim: Trim, t: nat): nat { MaxInt(0, first + t - MaxInt(trim.limit, first)) }

  /** (span + 1) + (span + 2) + ... + (span + e) */
  function SumOfSpans(span: nat, e: nat): nat {
    if e == 0 then 0 else SumOfSpans(span, e - 1) + span + e
  }

  lemma {:induction false} SumOfSpansGrows(span: nat, e: nat)
    ensures 2 * SumOfSpans(span, e) == e * (2 * span + e + 1)
    ensures SumOfSpans(span, e) == (if e == 0 then 0 else span + e) <==> e <= 1
    ensures SumOfSpans(span, e) >= if e == 0 then 0 else span + e
  {
    if e > 0 {
      SumOfSpansGrows(span, e - 1);
      assert e * (2 * span + e + 1) == (e - 1) * (2 * span + (e - 1) + 1) + 2 * (span + e);
    }
  }

  /** The span of the first eviction, less the one position by which it passes the limit. */
  function FirstSpan(first: nat, lo: nat, trim: Trim): nat
    requires lo + trim.recent <= trim.limit
  {
    MaxInt(trim.limit, first) - trim.recent - lo
  }

  /** Under one trim every step past the limit evicts, and the run returns the sum of spans that each
      start from the prefix again. */
  lemma {:induction false} OneTrim(first: nat, lo: nat, trims: seq<Option<Trim>>, trim: Trim)
    requires trim.recent > 0 && lo + trim.recent <= trim.limit && Always(trims, Some(trim))
    ensures var e, span := Evictions(first, trim, |trims|), FirstSpan(first, lo, trim);
      && ThinAfter(first, lo, trims) == Thin(|trims|, if e == 0 then lo else lo + span + e)
      && ReturnedBy(first, lo, trims) == SumOfSpans(span, e)
  {
    if trims != [] {
      OneTrim(first, lo, trims[..|trims| - 1], trim);
    }
  }

  /** On a start that is live behind the prefix the cells that went are those of the hole, so the number
      returned is right up to the first eviction and never again. */
  lemma CountedAgain(cells: seq<Cell>, start: seq<Cell>, done: seq<int>, lo: nat, trims: seq<Option<Trim>>, trim: Trim)
    requires trim.recent > 0 && lo + trim.recent <= trim.limit && Always(trims, Some(trim)) && |trims| == |done|
    requires PosMax(start) + 1 >= 0 && HoldsThin(cells, start, done, lo, ThinAfter(PosMax(start) + 1, lo, trims))
    requires Range(lo, Total(start, done)) <= Positions(Uncut(start, done))
    ensures var first := PosMax(start) + 1;
      |start| + |done| - |cells| == ReturnedBy(first, lo, trims) <==> Evictions(first, trim, |done|) <= 1
  {
    hide *;
    var first := PosMax(start) + 1;
    OneTrim(first, lo, trims, trim);
    SumOfSpansGrows(FirstSpan(first, lo, trim), Evictions(first, trim, |done|));
    WholeRun(cells, start, done, lo, ThinAfter(first, lo, trims));
    WithoutLive(start, done, lo, ThinAfter(first, lo, trims).gone);
  }

  lemma WholeRun(cells: seq<Cell>, start: seq<Cell>, done: seq<int>, lo: nat, s: Thin)
    requires HoldsThin(cells, start, done, lo, s) && s.since == |done|
    ensures Increasing(start) && (lo == s.gone || lo < s.gone < Total(start, done))
    ensures cells == Without(Uncut(start, done), Range(lo, s.gone))
  {
    assert done[|done| - s.since..] == done;
    hide Without, Range, Uncut, Increasing, Total;
  }

  lemma WithoutLive(start: seq<Cell>, done: seq<int>, lo: nat, gone: nat)
    requires lo <= gone && (lo == gone || gone <= Total(start, done))
    requires Increasing(start) && Range(lo, Total(start, done)) <= Positions(Uncut(start, done))
    ensures |Without(Uncut(start, done), Range(lo, gone))| == |start| + |done| - (gone - lo)
  {
    UncutShape(start, done);
    assert |Uncut(start, done)| == |start| + |done|;
    hide Without, Range, Uncut, Increasing, Positions, Total;
    WithoutLength(Uncut(start, done), Range(lo, gone));
    RangeSize(lo, gone);
    assert Range(lo, gone) * Positions(Uncut(start, done)) == Range(lo, gone);
  }
}
