/** The ring buffer of attention rows, one ring per layer, re-strided when the cache grows. */
module AttnHistory {
  import opened Basics
  import opened Slope

  type Size = n: nat | n > 0 witness 8

  // How many rows a ring keeps: any number, 8 unless the field is set.
  const W: Size

  // One layer's ring: W rows of nKv values each in one flat buffer.
  datatype Ring = Ring(buf: seq<real>, nKv: nat, count: nat, head: nat)

  function Zeros(n: nat): (r: seq<real>)
    ensures |r| == n && forall i :: 0 <= i < n ==> r[i] == 0.0
  {
    seq(n, _ => 0.0)
  }

  /** A row extended with zeros to length n. */
  function Pad(row: seq<real>, n: nat): (r: seq<real>)
    requires |row| <= n
    ensures |r| == n
  {
    row + Zeros(n - |row|)
  }

  /** The size of a ring's buffer at a width of n. */
  function Area(n: nat): nat { W * n }

  /** The slot of the k-th row pushed. */
  function SlotAt(k: int): (slot: nat)
    ensures slot < W
  {
    k % W
  }

  /** Where a slot's row starts in the flat buffer. */
  function Start(slot: nat, n: nat): nat { slot * n }

  lemma SlotBounds(slot: nat, n: nat)
    requires slot < W
    ensures Start(slot, n) + n <= Area(n)
  {
    SlotsApart(slot, W, n);
  }

  lemma SlotsApart(a: nat, b: nat, n: nat)
    requires a < b
    ensures Start(a, n) + n <= Start(b, n)
  {
    Products(b - a - 1, n);
    assert b * n == a * n + n + (b - a - 1) * n;
  }

  lemma Products(x: nat, y: nat)
    ensures 0 <= x * y
  {
  }

  function Row(buf: seq<real>, n: nat, slot: nat): (r: seq<real>)
    requires slot < W && |buf| == Area(n)
    ensures |r| == n
  {
    SlotBounds(slot, n);
    buf[Start(slot, n)..Start(slot, n) + n]
  }

  /** The buffer with the first |row| values of one row replaced. */
  function Overwrite(buf: seq<real>, n: nat, slot: nat, row: seq<real>): (r: seq<real>)
    requires slot < W && |buf| == Area(n) && |row| <= n
    ensures |r| == Area(n)
  {
    SlotBounds(slot, n);
    buf[..Start(slot, n)] + row + buf[Start(slot, n) + |row|..]
  }

  lemma OverwriteRows(buf: seq<real>, n: nat, slot: nat, row: seq<real>, other: nat)
    requires slot < W && other < W && |buf| == Area(n) && |row| <= n
    ensures Row(Overwrite(buf, n, slot, row), n, slot) == row + Row(buf, n, slot)[|row|..]
    ensures other != slot ==> Row(Overwrite(buf, n, slot, row), n, other) == Row(buf, n, other)
  {
    hide Start;
    SlotBounds(slot, n);
    SlotBounds(other, n);
    if other < slot {
      SlotsApart(other, slot, n);
    } else if slot < other {
      SlotsApart(slot, other, n);
    }
    SliceAfterOverwrite(buf, Start(slot, n), row, n, Start(other, n));
    SliceAfterOverwrite(buf, Start(slot, n), row, n, Start(slot, n));
  }

  lemma SliceAfterOverwrite(buf: seq<real>, from: nat, row: seq<real>, n: nat, at: nat)
    requires |row| <= n && from + n <= |buf| && at + n <= |buf|
    ensures var next := buf[..from] + row + buf[from + |row|..];
      && (at + n <= from || from + n <= at ==> next[at..at + n] == buf[at..at + n])
      && (at == from ==> next[at..at + n] == row + buf[at..at + n][|row|..])
  {
  }

  /** Copies every row to the wider stride and leaves zeros behind it. */
  method Restride(buf: seq<real>, prev: nat, n: nat) returns (wide: seq<real>)
    requires |buf| == Area(prev) && prev <= n
    ensures |wide| == Area(n) && forall s: nat :: s < W ==> Row(wide, n, s) == Pad(Row(buf, prev, s), n)
  {
    hide *;
    wide := Zeros(Area(n));
    ZeroRows(n);
    for s := 0 to W
      invariant |wide| == Area(n)
      invariant forall t: nat :: t < s ==> Row(wide, n, t) == Pad(Row(buf, prev, t), n)
      invariant forall t: nat :: s <= t < W ==> Row(wide, n, t) == Zeros(n)
    {
      var row := Row(buf, prev, s);
      forall t: nat | t < W {
        OverwriteRows(wide, n, s, row, t);
      }
      ZeroTail(row, n);
      wide := Overwrite(wide, n, s, row);
    }
  }

  lemma ZeroRows(n: nat)
    ensures forall t: nat :: t < W ==> Row(Zeros(Area(n)), n, t) == Zeros(n)
  {
    forall t: nat | t < W ensures Row(Zeros(Area(n)), n, t) == Zeros(n) {
      SlotBounds(t, n);
    }
  }

  lemma ZeroTail(row: seq<real>, n: nat)
    requires |row| <= n
    ensures row + Zeros(n)[|row|..] == Pad(row, n)
  {
    assert Zeros(n)[|row|..] == Zeros(n - |row|);
  }

  /** The running sum over the first h heads at position p, each weighted by one over the count. */
  function HeadSum(heads: seq<seq<real>>, weight: real, h: nat, p: nat): real
    requires h <= |heads| && forall i :: 0 <= i < |heads| ==> p < |heads[i]|
  {
    if h == 0 then 0.0 else HeadSum(heads, weight, h - 1, p) + heads[h - 1][p] * weight
  }

  /** The mean over heads at each position. */
  function MeanRow(heads: seq<seq<real>>, n: nat): (r: seq<real>)
    requires forall i :: 0 <= i < |heads| ==> |heads[i]| == n
    ensures |r| == n
  {
    var weight := if heads == [] then 0.0 else 1.0 / |heads| as real;
    seq(n, p requires 0 <= p < n => HeadSum(heads, weight, |heads|, p))
  }

  function HeadTotal(heads: seq<seq<real>>, h: nat, p: nat): real
    requires h <= |heads| && forall i :: 0 <= i < |heads| ==> p < |heads[i]|
  {
    if h == 0 then 0.0 else HeadTotal(heads, h - 1, p) + heads[h - 1][p]
  }

  /** The row is the mean: as many times it as there are heads is their sum, and zero without heads. */
  lemma MeanRowIsMean(heads: seq<seq<real>>, n: nat, p: nat)
    requires p < n && forall i :: 0 <= i < |heads| ==> |heads[i]| == n
    ensures MeanRow(heads, n)[p] * |heads| as real == HeadTotal(heads, |heads|, p)
    ensures heads == [] ==> MeanRow(heads, n)[p] == 0.0
  {
    assert MeanRow(heads, n)[p] == HeadSum(heads, if heads == [] then 0.0 else 1.0 / |heads| as real, |heads|, p);
    if heads != [] {
      var weight := 1.0 / |heads| as real;
      assert weight * |heads| as real == 1.0;
      WeightedSum(heads, weight, |heads|, p);
      SwapFactors(weight, HeadTotal(heads, |heads|, p), |heads| as real);
    }
  }

  lemma SwapFactors(w: real, x: real, n: real)
    requires w * n == 1.0
    ensures w * x * n == x
  {
    assert w * x * n == (w * n) * x;
  }

  lemma {:induction false} WeightedSum(heads: seq<seq<real>>, weight: real, h: nat, p: nat)
    requires h <= |heads| && forall i :: 0 <= i < |heads| ==> p < |heads[i]|
    ensures HeadSum(heads, weight, h, p) == weight * HeadTotal(heads, h, p)
  {
    if h > 0 {
      WeightedSum(heads, weight, h - 1, p);
      assert weight * (HeadTotal(heads, h - 1, p) + heads[h - 1][p])
          == weight * HeadTotal(heads, h - 1, p) + weight * heads[h - 1][p];
    }
  }

  method AverageHeads(heads: seq<seq<real>>, n: nat) returns (row: seq<real>)
    requires forall i :: 0 <= i < |heads| ==> |heads[i]| == n
    ensures row == MeanRow(heads, n)
  {
    var weight := if |heads| == 0 then 0.0 else 1.0 / |heads| as real;
    var dst := new real[n](_ => 0.0);
    for h := 0 to |heads|
      invariant forall p :: 0 <= p < n ==> dst[p] == HeadSum(heads, weight, h, p)
    {
      for p := 0 to n
        invariant forall q :: 0 <= q < p ==> dst[q] == HeadSum(heads, weight, h + 1, q)
        invariant forall q :: p <= q < n ==> dst[q] == HeadSum(heads, weight, h, q)
      {
        dst[p] := dst[p] + heads[h][p] * weight;
      }
    }
    row := dst[..];
  }

  // ----- what a ring holds -----

  /** The newest of the pushed rows are in their slots, padded to the current width: row k of the
      history lives in slot k mod W. */
  ghost predicate Holds(r: Ring, history: seq<seq<real>>) {
    && |r.buf| == Area(r.nKv)
    && r.head == SlotAt(|history|)
    && r.count == (if |history| < W then |history| else W)
    && (forall k :: 0 <= k < |history| ==> |history[k]| <= r.nKv)
    && forall k: nat :: |history| - r.count <= k < |history| ==>
         Row(r.buf, r.nKv, SlotAt(k)) == Pad(history[k], r.nKv)
  }

  /** The slot of the i-th oldest row. */
  function SlotOf(r: Ring, i: nat): (slot: nat)
    requires r.count <= W && r.head < W
    ensures slot < W
  {
    SlotAt(SlotAt(r.head - r.count + W) + i)
  }

  /** The rows from oldest to newest, as the slope walks them. */
  function OldestFirst(r: Ring): (rows: seq<seq<real>>)
    requires |r.buf| == Area(r.nKv) && r.count <= W && r.head < W
    ensures |rows| == r.count
    ensures forall i :: 0 <= i < r.count ==> rows[i] == Row(r.buf, r.nKv, SlotOf(r, i))
  {
    seq(r.count, i requires 0 <= i < r.count => Row(r.buf, r.nKv, SlotOf(r, i)))
  }

  /** Walking the ring gives the last min(count, W) rows pushed since the last reset. */
  lemma WalkIsHistory(r: Ring, history: seq<seq<real>>)
    requires Holds(r, history)
    ensures |OldestFirst(r)| == r.count <= |history|
    ensures forall i :: 0 <= i < r.count ==>
      |history[|history| - r.count + i]| <= r.nKv
      && OldestFirst(r)[i] == Pad(history[|history| - r.count + i], r.nKv)
  {
    hide Row, Pad, SlotOf, OldestFirst;
    forall i | 0 <= i < r.count {
      WalkRow(r, history, i);
    }
  }

  lemma HoldsShape(r: Ring, history: seq<seq<real>>)
    requires Holds(r, history)
    ensures |r.buf| == Area(r.nKv) && r.head == SlotAt(|history|) && r.count == (if |history| < W then |history| else W)
  {
    hide Row, Pad;
  }

  lemma SlotIs(r: Ring, i: nat)
    requires r.count <= W && r.head < W
    ensures SlotOf(r, i) == SlotAt(SlotAt(r.head - r.count + W) + i)
  {
  }

  lemma HeldRow(r: Ring, history: seq<seq<real>>, k: nat)
    requires Holds(r, history) && |history| - r.count <= k < |history|
    ensures |r.buf| == Area(r.nKv) && |history[k]| <= r.nKv && Row(r.buf, r.nKv, SlotAt(k)) == Pad(history[k], r.nKv)
  {
    hide Row, Pad;
  }

  lemma WalkRow(r: Ring, history: seq<seq<real>>, i: nat)
    requires Holds(r, history) && i < r.count
    ensures 0 <= |history| - r.count
    ensures OldestFirst(r)[i] == Pad(history[|history| - r.count + i], r.nKv)
  {
    hide *;
    HoldsShape(r, history);
    WalkSlot(|history|, r.count, r.head, i);
    SlotIs(r, i);
    HeldRow(r, history, |history| - r.count + i);
  }

  lemma WalkSlot(pushed: nat, count: nat, head: nat, i: nat)
    requires head == SlotAt(pushed) && count == (if pushed < W then pushed else W) && i < count
    ensures SlotAt(SlotAt(head - count + W) + i) == SlotAt(pushed - count + i)
  {
    if pushed < W {
      ModIs(pushed, 0, pushed);
      ModIs(W, 1, 0);
    } else {
      ModIs(head, 0, head);
      ModShift(pushed, i, 0);
      ModShift(pushed, i, -1);
    }
  }

  lemma ModIs(a: int, q: int, r: nat)
    requires a == q * W + r && r < W
    ensures a % W == r
  {
    var d := q - a / W;
    assert d * W == q * W - (a / W) * W;
    assert a == (a / W) * W + a % W;
    MultipleIsFar(d);
  }

  lemma MultipleIsFar(d: int)
    ensures d == 0 || d * W >= W || d * W <= 0 - W
  {
    Products(if d > 0 then d - 1 else if d < 0 then 0 - d - 1 else 0, W);
  }

  /** Reducing one summand first changes nothing, and neither do whole turns of the ring. */
  lemma ModShift(x: nat, y: nat, turns: int)
    ensures (x % W + y) % W == (x + y + turns * W) % W
  {
    var t := x % W + y;
    assert x == (x / W) * W + x % W && t == (t / W) * W + t % W;
    assert (x / W + t / W + turns) * W == (x / W) * W + (t / W) * W + turns * W;
    ModIs(x + y + turns * W, x / W + t / W + turns, t % W);
  }

  // ----- pushing -----

  const EMPTY: Ring := Ring([], 0, 0, 0)

  /** A layer's history after a push: a cold start or a shrunken cache forgets it. */
  function NextHistory(history: seq<seq<real>>, prev: nat, nKv: nat, row: seq<real>): seq<seq<real>> {
    (if prev == 0 || nKv < prev then [] else history) + [row]
  }

  // One push to a layer: its width and the mean row.
  datatype Pushed = Pushed(nKv: nat, row: seq<real>)

  /** The width of the last push, zero before the first. */
  function WidthAfter(log: seq<Pushed>): nat { if log == [] then 0 else log[|log| - 1].nKv }

  /** What all the pushes to a layer leave of its history. */
  function HistoryAfter(log: seq<Pushed>): seq<seq<real>> {
    if log == [] then []
    else
      var n := |log| - 1;
      NextHistory(HistoryAfter(log[..n]), WidthAfter(log[..n]), log[n].nKv, log[n].row)
  }

  function RowsOf(log: seq<Pushed>): (rows: seq<seq<real>>)
    ensures |rows| == |log| && forall i :: 0 <= i < |log| ==> rows[i] == log[i].row
  {
    seq(|log|, i requires 0 <= i < |log| => log[i].row)
  }

  /** Push i starts the history again: it is the first, or the cache was empty, or it shrank. */
  predicate Restarts(log: seq<Pushed>, i: nat)
    requires i < |log|
  {
    i == 0 || log[i - 1].nKv == 0 || log[i].nKv < log[i - 1].nKv
  }

  /** The history is exactly the mean rows since the last push that starts it again: growth keeps it,
      a shrink forgets it. */
  lemma {:induction false} HistoryIsSinceRestart(log: seq<Pushed>, i: nat)
    requires i < |log| && Restarts(log, i) && forall j :: i < j < |log| ==> !Restarts(log, j)
    ensures HistoryAfter(log) == RowsOf(log[i..])
  {
    var n := |log| - 1;
    var front, last := log[..n], log[n];
    hide NextHistory, HistoryAfter, WidthAfter, RowsOf;
    assert log == front + [last];
    HistorySnoc(front, last);
    WidthIsLast(log, n);
    GrowthKeeps(HistoryAfter(front), WidthAfter(front), last.nKv, last.row);
    if i == n {
      assert RowsOf(log[i..]) == [last.row];
    } else {
      assert forall j :: 0 <= j < n ==> Restarts(front, j) == Restarts(log, j);
      HistoryIsSinceRestart(front, i);
      assert !Restarts(log, n);
      assert RowsOf(log[i..]) == RowsOf(front[i..]) + [last.row];
    }
  }

  lemma WidthIsLast(log: seq<Pushed>, n: nat)
    requires n < |log|
    ensures WidthAfter(log[..n]) == if n == 0 then 0 else log[n - 1].nKv
  {
  }

  lemma GrowthKeeps(history: seq<seq<real>>, prev: nat, nKv: nat, row: seq<real>)
    ensures 0 < prev <= nKv ==> NextHistory(history, prev, nKv, row) == history + [row]
    ensures prev == 0 || nKv < prev ==> NextHistory(history, prev, nKv, row) == [row]
  {
  }

  lemma HistorySnoc(log: seq<Pushed>, c: Pushed)
    ensures HistoryAfter(log + [c]) == NextHistory(HistoryAfter(log), WidthAfter(log), c.nKv, c.row)
    ensures WidthAfter(log + [c]) == c.nKv
  {
    assert (log + [c])[..|log|] == log;
  }

  /** Three pushes of growing width with 1, 2 and 3 at position 0: the slope there is two. */
  lemma GrowingRow(a: seq<real>, b: seq<real>, c: seq<real>)
    requires W >= 3 && |a| == 3 && |b| == 4 && |c| == 5 && a[0] == 1.0 && b[0] == 2.0 && c[0] == 3.0
    ensures var history := HistoryAfter([Pushed(3, a), Pushed(4, b), Pushed(5, c)]);
      HistoryColumn(history, 0) == [1.0, 2.0, 3.0] && Numerator([1.0, 2.0, 3.0]) == 2.0
  {
    var log := [Pushed(3, a), Pushed(4, b), Pushed(5, c)];
    HistoryIsSinceRestart(log, 0);
    assert RowsOf(log[0..]) == [a, b, c];
    NumeratorMoments([1.0, 2.0, 3.0]);
    FewMoments(1.0, 2.0, 3.0);
  }

  lemma PadTwice(row: seq<real>, m: nat, n: nat)
    requires |row| <= m <= n
    ensures Pad(Pad(row, m), n) == Pad(row, n)
  {
    assert Zeros(m - |row|) + Zeros(n - m) == Zeros(n - |row|);
  }

  lemma GrownHolds(r: Ring, history: seq<seq<real>>, wide: seq<real>, n: nat)
    requires Holds(r, history) && r.nKv <= n && |wide| == Area(n)
    requires forall s: nat :: s < W ==> Row(wide, n, s) == Pad(Row(r.buf, r.nKv, s), n)
    ensures Holds(r.(buf := wide, nKv := n), history)
  {
    hide Pad, Row;
    forall k: nat | |history| - r.count <= k < |history| ensures Row(wide, n, SlotAt(k)) == Pad(history[k], n) {
      PadTwice(history[k], r.nKv, n);
    }
  }

  function CappedCount(n: nat): nat { if n <= W then n else W }

  /** Writes the row at the head and advances. */
  function WriteRow(r: Ring, row: seq<real>): Ring
    requires |r.buf| == Area(r.nKv) && r.head < W && |row| == r.nKv
  {
    Ring(Overwrite(r.buf, r.nKv, r.head, row), r.nKv, CappedCount(r.count + 1), SlotAt(r.head + 1))
  }

  lemma SlotIsFree(pushed: nat, k: nat)
    requires pushed < k + W && k < pushed
    ensures SlotAt(k) != SlotAt(pushed)
  {
    assert pushed == (pushed / W) * W + pushed % W && k == (k / W) * W + k % W;
    assert (pushed / W - k / W) * W == (pushed - pushed % W) - (k - k % W);
    MultipleIsFar(pushed / W - k / W);
  }

  lemma WrittenRow(r: Ring, history: seq<seq<real>>, row: seq<real>, k: nat)
    requires Holds(r, history) && |row| == r.nKv
    requires |history| + 1 - CappedCount(r.count + 1) <= k <= |history|
    ensures Row(WriteRow(r, row).buf, r.nKv, SlotAt(k)) == Pad(if k < |history| then history[k] else row, r.nKv)
  {
    hide Row, Overwrite, Pad;
    OverwriteRows(r.buf, r.nKv, r.head, row, SlotAt(k));
    if k < |history| {
      SlotIsFree(|history|, k);
    } else {
      WholeRow(r, row);
    }
  }

  lemma WrittenHolds(r: Ring, history: seq<seq<real>>, row: seq<real>)
    requires Holds(r, history) && |row| == r.nKv
    ensures Holds(WriteRow(r, row), history + [row])
  {
    hide Row, Overwrite, Pad;
    ModShift(|history|, 1, 0);
    forall k: nat | |history| + 1 - CappedCount(r.count + 1) <= k <= |history| {
      WrittenRow(r, history, row, k);
    }
  }

  lemma WholeRow(r: Ring, row: seq<real>)
    requires |r.buf| == Area(r.nKv) && r.head < W && |row| == r.nKv
    ensures row + Row(r.buf, r.nKv, r.head)[|row|..] == row == Pad(row, r.nKv)
  {
  }

  /** push for one layer: reset, re-stride or keep the ring, then write the mean row at the head. */
  method PushLayer(ring: Ring, heads: seq<seq<real>>, nKv: nat, ghost history: seq<seq<real>>) returns (r: Ring)
    requires Holds(ring, history) && forall i :: 0 <= i < |heads| ==> |heads[i]| == nKv
    ensures Holds(r, NextHistory(history, ring.nKv, nKv, MeanRow(heads, nKv))) && r.nKv == nKv
  {
    var prev := ring.nKv;
    ghost var kept := if prev == 0 || nKv < prev then [] else history;
    r := ring;
    if prev == 0 || nKv < prev {
      r := Ring(Zeros(Area(nKv)), nKv, 0, 0);
    } else if nKv > prev {
      var wide := Restride(ring.buf, prev, nKv);
      GrownHolds(ring, history, wide, nKv);
      r := ring.(buf := wide, nKv := nKv);
    }
    assert Holds(r, kept);
    hide Holds, MeanRow;
    var row := AverageHeads(heads, nKv);
    WrittenHolds(r, kept, row);
    RingShape(r, kept);
    r := WriteRow(r, row);
  }

  lemma RingShape(r: Ring, history: seq<seq<real>>)
    requires Holds(r, history)
    ensures |r.buf| == Area(r.nKv) && r.head < W && r.count <= W
  {
  }

  // ----- the slope of one position -----

  /** Position p's values, oldest first. */
  function Column(r: Ring, p: nat): (ys: seq<real>)
    requires |r.buf| == Area(r.nKv) && r.count <= W && r.head < W && p < r.nKv
    ensures |ys| == r.count && forall i :: 0 <= i < r.count ==> ys[i] == OldestFirst(r)[i][p]
  {
    var rows := OldestFirst(r);
    assert forall i :: 0 <= i < r.count ==> |rows[i]| == r.nKv;
    seq(r.count, i requires 0 <= i < r.count => rows[i][p])
  }

  /** The flat index of position p in the i-th oldest row. */
  function FlatIndex(r: Ring, i: nat, p: nat): (k: nat)
    requires |r.buf| == Area(r.nKv) && i < r.count <= W && r.head < W && p < r.nKv
    ensures k < |r.buf| && r.buf[k] == Column(r, p)[i]
  {
    var slot := SlotOf(r, i);
    SlotBounds(slot, r.nKv);
    assert Column(r, p)[i] == OldestFirst(r)[i][p] == Row(r.buf, r.nKv, slot)[p];
    Start(slot, r.nKv) + p
  }

  function Level(r: Ring, i: nat, p: nat): (a: real)
    requires |r.buf| == Area(r.nKv) && i < r.count <= W && r.head < W && p < r.nKv
    ensures a == Column(r, p)[i]
  {
    r.buf[FlatIndex(r, i, p)]
  }

  method ColumnMean(r: Ring, p: nat) returns (aBar: real)
    requires |r.buf| == Area(r.nKv) && 0 < r.count <= W && r.head < W && p < r.nKv
    ensures aBar == LevelMean(Column(r, p))
  {
    ghost var ys := Column(r, p);
    hide Column, Level, Total;
    assert Total(ys[..0]) == 0.0 by { TotalOfNone(ys); }
    aBar := 0.0;
    for i := 0 to r.count
      invariant aBar == Total(ys[..i])
    {
      TotalStep(ys, i);
      aBar := aBar + Level(r, i, p);
    }
    assert ys[..r.count] == ys;
    aBar := aBar / r.count as real;
  }

  lemma TotalOfNone(ys: seq<real>)
    ensures Total(ys[..0]) == 0.0
  {
  }

  method ColumnTerms(r: Ring, p: nat, tBar: real, aBar: real) returns (num: real)
    requires |r.buf| == Area(r.nKv) && 0 < r.count <= W && r.head < W && p < r.nKv
    ensures num == Terms(Column(r, p), tBar, aBar, r.count)
  {
    hide *;
    ghost var ys := Column(r, p);
    num := 0.0;
    NoTerms(ys, tBar, aBar);
    for i := 0 to r.count
      invariant num == Terms(ys, tBar, aBar, i)
    {
      TermsStep(ys, tBar, aBar, i);
      num := num + Term(i, Level(r, i, p), tBar, aBar);
    }
  }

  /** The two passes over a position's history: its mean, then the numerator about it. */
  method ColumnSlope(r: Ring, p: nat) returns (num: real)
    requires |r.buf| == Area(r.nKv) && 0 < r.count <= W && r.head < W && p < r.nKv
    ensures num == Numerator(Column(r, p))
  {
    hide Column, LevelMean, Terms;
    var aBar := ColumnMean(r, p);
    num := ColumnTerms(r, p, (r.count as real - 1.0) / 2.0, aBar);
  }

  /** slope, for a ring: nothing below three samples or outside the row, otherwise the regression
      numerator of the position's history. */
  method SlopeAt(r: Ring, p: int) returns (slope: Option<real>)
    requires |r.buf| == Area(r.nKv) && r.count <= W && r.head < W
    ensures slope == if r.count < 3 || p < 0 || p >= r.nKv then None else Some(Numerator(Column(r, p)))
  {
    if r.count < 3 || p < 0 || p >= r.nKv {
      slope := None;
    } else {
      var num := ColumnSlope(r, p);
      slope := Some(num);
    }
  }

  /** Position p over the newest rows of a history, where rows too short to reach it count as zero. */
  function HistoryColumn(history: seq<seq<real>>, p: nat): (ys: seq<real>) {
    var n := if |history| < W then |history| else W;
    seq(n, i requires 0 <= i < n =>
      var row := history[|history| - n + i]; if p < |row| then row[p] else 0.0)
  }

  lemma ColumnIsHistory(r: Ring, history: seq<seq<real>>, p: nat)
    requires Holds(r, history) && p < r.nKv
    ensures |r.buf| == Area(r.nKv) && r.count <= W && r.head < W
    ensures Column(r, p) == HistoryColumn(history, p)
  {
    WalkIsHistory(r, history);
    hide Holds, OldestFirst;
    assert |HistoryColumn(history, p)| == r.count by { CountIs(r, history); }
    forall i | 0 <= i < r.count ensures Column(r, p)[i] == HistoryColumn(history, p)[i] {
      assert OldestFirst(r)[i] == Pad(history[|history| - r.count + i], r.nKv);
    }
  }

  lemma CountIs(r: Ring, history: seq<seq<real>>)
    requires Holds(r, history)
    ensures r.count == if |history| < W then |history| else W
  {
  }

  // One captured layer: its number and one attention row per head.
  datatype LayerCapture = LayerCapture(layer: int, heads: seq<seq<real>>)

  class History {
    var rings: map<int, Ring>
    ghost var log: map<int, seq<Pushed>>  // all the pushes to each layer

    ghost predicate Valid()
      reads this
    {
      && rings.Keys == log.Keys
      && forall l :: l in rings ==> Holds(rings[l], HistoryAfter(log[l])) && rings[l].nKv == WidthAfter(log[l])
    }

    constructor ()
      ensures Valid() && rings == map[]
    {
      rings := map[];
      log := map[];
    }

    ghost function LogOf(l: int): seq<Pushed>
      reads this
    {
      if l in log then log[l] else []
    }

    /** The mean rows since the layer's last restart. */
    ghost function PushedTo(l: int): seq<seq<real>>
      reads this
    {
      HistoryAfter(LogOf(l))
    }

    function RingOf(l: int): Ring
      reads this
    {
      if l in rings then rings[l] else EMPTY
    }

    method PushOne(c: LayerCapture, nKv: nat)
      requires Valid() && forall i :: 0 <= i < |c.heads| ==> |c.heads[i]| == nKv
      modifies this
      ensures Valid()
      ensures LogOf(c.layer) == old(LogOf(c.layer)) + [Pushed(nKv, MeanRow(c.heads, nKv))]
      ensures forall l :: l != c.layer ==> RingOf(l) == old(RingOf(l)) && LogOf(l) == old(LogOf(l))
    {
      EmptyHolds();
      hide Holds, HistoryAfter, NextHistory, MeanRow;
      NothingPushed();
      HistorySnoc(LogOf(c.layer), Pushed(nKv, MeanRow(c.heads, nKv)));
      var r := PushLayer(RingOf(c.layer), c.heads, nKv, PushedTo(c.layer));
      log := log[c.layer := LogOf(c.layer) + [Pushed(nKv, MeanRow(c.heads, nKv))]];
      rings := rings[c.layer := r];
    }

    /** push: every captured layer's mean row is pushed, and nothing to the other layers. */
    method Push(capture: seq<LayerCapture>, nKv: nat)
      requires Valid()
      requires forall i :: 0 <= i < |capture| ==>
        forall h :: 0 <= h < |capture[i].heads| ==> |capture[i].heads[h]| == nKv
      requires forall i, j :: 0 <= i < j < |capture| ==> capture[i].layer != capture[j].layer
      modifies this
      ensures Valid()
      ensures forall i :: 0 <= i < |capture| ==>
                (var l, row := capture[i].layer, MeanRow(capture[i].heads, nKv);
                 LogOf(l) == old(LogOf(l)) + [Pushed(nKv, row)])
      ensures forall l :: (forall i :: 0 <= i < |capture| ==> capture[i].layer != l) ==>
                RingOf(l) == old(RingOf(l)) && LogOf(l) == old(LogOf(l))
    {
      hide MeanRow, NextHistory, HistoryAfter, Holds;
      for n := 0 to |capture|
        invariant Valid()
        invariant forall i :: 0 <= i < n ==>
                    (var l, row := capture[i].layer, MeanRow(capture[i].heads, nKv);
                     LogOf(l) == old(LogOf(l)) + [Pushed(nKv, row)])
        invariant forall l :: (forall i :: 0 <= i < n ==> capture[i].layer != l) ==>
                    RingOf(l) == old(RingOf(l)) && LogOf(l) == old(LogOf(l))
      {
        PushOne(capture[n], nKv);
      }
    }

    /** slope: the regression numerator of the position over the newest pushed rows. */
    method Slope(layer: int, p: int) returns (slope: Option<real>)
      requires Valid()
      ensures slope ==
        if layer !in rings || |HistoryColumn(PushedTo(layer), 0)| < 3 || p < 0 || p >= rings[layer].nKv then None
        else Some(Numerator(HistoryColumn(PushedTo(layer), p)))
    {
      if layer !in rings {
        return None;
      }
      CountIs(rings[layer], PushedTo(layer));
      RingShape(rings[layer], PushedTo(layer));
      if 0 <= p < rings[layer].nKv {
        ColumnIsHistory(rings[layer], PushedTo(layer), p);
      }
      hide Holds, Numerator, Column, HistoryAfter;
      slope := SlopeAt(rings[layer], p);
    }
  }

  lemma NothingPushed()
    ensures HistoryAfter([]) == [] && WidthAfter([]) == 0
  {
  }

  lemma EmptyHolds()
    ensures Holds(EMPTY, [])
  {
  }
}
