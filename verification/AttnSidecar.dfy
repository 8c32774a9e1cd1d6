/** The attention sidecar: a writer that patches its header last, and the reader of its files. */
module AttnSidecar {

  const U32 := 0x1_0000_0000

  function U(x: nat): (r: nat)
    ensures r < U32 && (x < U32 ==> r == x)
  {
    x % U32
  }

  // A file is a sequence of four-byte words: a magic, unsigned counts and floats.
  datatype Word = Averaged | PerHead | Count(n: nat) | Value(x: real)

  // What one decode captured: per layer the flat row of nHead blocks, one value per cached position.
  datatype Capture = Capture(layers: map<int, seq<real>>, nHead: nat)

  function Values(row: seq<real>): (w: seq<Word>)
    ensures |w| == |row| && forall i :: 0 <= i < |row| ==> w[i] == Value(row[i])
  {
    seq(|row|, i requires 0 <= i < |row| => Value(row[i]))
  }

  // ----- one layer of one step -----

  function RowWidth(row: seq<real>, nHead: nat): nat { if nHead > 0 then |row| / nHead else 0 }

  /** The entry of head h at position i lies inside the flat row. */
  lemma InRow(row: seq<real>, nHead: nat, h: nat, i: nat)
    requires h < nHead && i < RowWidth(row, nHead)
    ensures h * RowWidth(row, nHead) + i < |row|
  {
    BlockFits(|row|, |row| / nHead, nHead, h);
  }

  lemma BlockFits(len: nat, w: nat, n: nat, h: nat)
    requires 0 < n && h < n && w == len / n
    ensures h * w + w <= len
  {
    assert n * w <= len;
    Monotone(h + 1, n, w);
    Distribute(h, w);
  }

  lemma Monotone(a: nat, b: nat, w: nat)
    requires a <= b
    ensures a * w <= b * w
  {
  }

  lemma Distribute(h: nat, w: nat)
    ensures (h + 1) * w == h * w + w
  {
  }

  function Entry(row: seq<real>, nHead: nat, h: nat, i: nat): real
    requires h < nHead && i < RowWidth(row, nHead)
  {
    InRow(row, nHead, h, i);
    row[h * RowWidth(row, nHead) + i]
  }

  /** The sum over the first n heads at position i. */
  function HeadSum(row: seq<real>, nHead: nat, n: nat, i: nat): real
    requires n <= nHead && i < RowWidth(row, nHead)
  {
    if n == 0 then 0.0 else HeadSum(row, nHead, n - 1, i) + Entry(row, nHead, n - 1, i)
  }

  function Times(x: real, y: real): real { x * y }

  function Inverse(n: nat): real { if n == 0 then 0.0 else 1.0 / n as real }

  /** The mean over heads at each position. */
  function HeadMeans(row: seq<real>, nHead: nat): (r: seq<real>)
    ensures |r| == RowWidth(row, nHead)
  {
    seq(RowWidth(row, nHead), i requires 0 <= i < RowWidth(row, nHead) =>
      Times(HeadSum(row, nHead, nHead, i), Inverse(nHead)))
  }

  method AverageHeads(row: seq<real>, nHead: nat) returns (avg: seq<real>)
    ensures avg == HeadMeans(row, nHead)
  {
    hide Entry, RowWidth, HeadSum, Times;
    var n := RowWidth(row, nHead);
    var a := new real[n](_ => 0.0);
    NoHeads(row, nHead);
    for h := 0 to nHead
      invariant forall i :: 0 <= i < n ==> a[i] == HeadSum(row, nHead, h, i)
    {
      OneHeadMore(row, nHead, h);
      for i := 0 to n
        invariant forall j :: 0 <= j < i ==> a[j] == HeadSum(row, nHead, h + 1, j)
        invariant forall j :: i <= j < n ==> a[j] == HeadSum(row, nHead, h, j)
      {
        a[i] := a[i] + Entry(row, nHead, h, i);
      }
    }
    var inverse := Inverse(nHead);
    for i := 0 to n
      invariant forall j :: 0 <= j < i ==> a[j] == Times(HeadSum(row, nHead, nHead, j), inverse)
      invariant forall j :: i <= j < n ==> a[j] == HeadSum(row, nHead, nHead, j)
    {
      a[i] := Times(a[i], inverse);
    }
    avg := a[..];
  }

  /** The heads' rows one after the other, as a capture holds them. */
  function Flat(heads: seq<seq<real>>): seq<real> {
    if heads == [] then [] else Flat(heads[..|heads| - 1]) + heads[|heads| - 1]
  }

  lemma {:induction false} FlatAt(heads: seq<seq<real>>, w: nat, h: nat, i: nat)
    requires (forall j :: 0 <= j < |heads| ==> |heads[j]| == w) && h < |heads| && i < w
    ensures |Flat(heads)| == |heads| * w && h * w + i < |Flat(heads)| && Flat(heads)[h * w + i] == heads[h][i]
  {
    var n := |heads| - 1;
    var front := heads[..n];
    FlatSize(front, w);
    Distribute(n, w);
    if h < n {
      FlatAt(front, w, h, i);
    }
  }

  lemma {:induction false} FlatSize(heads: seq<seq<real>>, w: nat)
    requires forall j :: 0 <= j < |heads| ==> |heads[j]| == w
    ensures |Flat(heads)| == |heads| * w
  {
    if heads != [] {
      FlatSize(heads[..|heads| - 1], w);
      Distribute(|heads| - 1, w);
    }
  }

  function TotalAt(heads: seq<seq<real>>, n: nat, i: nat): real
    requires n <= |heads| && forall j :: 0 <= j < |heads| ==> i < |heads[j]|
  {
    if n == 0 then 0.0 else TotalAt(heads, n - 1, i) + heads[n - 1][i]
  }

  /** What is written is the mean of the heads: as wide as each of them, and as many times it as there are
      heads is their sum. Without heads nothing is. */
  lemma HeadMeansAreMeans(heads: seq<seq<real>>, w: nat, i: nat)
    requires heads != [] && i < w && forall j :: 0 <= j < |heads| ==> |heads[j]| == w
    ensures |HeadMeans(Flat(heads), |heads|)| == w
    ensures HeadMeans(Flat(heads), |heads|)[i] * |heads| as real == TotalAt(heads, |heads|, i)
    ensures HeadMeans(Flat(heads), 0) == []
  {
    hide HeadSum, Flat, TotalAt, Times, Inverse, RowWidth;
    var n := |heads|;
    SumOfBlocks(heads, w, n, i);
    NoWidth(Flat(heads));
    UndoInverse(TotalAt(heads, n, i), n);
  }

  lemma NoWidth(row: seq<real>)
    ensures RowWidth(row, 0) == 0
  {
  }

  lemma WidthOf(n: nat, w: nat)
    requires n > 0
    ensures (n * w) / n == w
  {
    var d := w - (n * w) / n;
    assert n * w == n * ((n * w) / n) + (n * w) % n;
    assert n * d == n * w - n * ((n * w) / n);
    SmallMultiple(n, d);
  }

  lemma SmallMultiple(n: nat, d: int)
    ensures n * d >= n || n * d <= 0 - n || d == 0
  {
    if d > 0 {
      Monotone(1, d, n);
    } else if d < 0 {
      Monotone(1, 0 - d, n);
    }
  }

  lemma UndoInverse(x: real, n: nat)
    requires n > 0
    ensures Times(x, Inverse(n)) * n as real == x
  {
    var inverse := 1.0 / n as real;
    assert inverse * n as real == 1.0;
    assert x * inverse * n as real == x * (inverse * n as real);
  }

  lemma {:induction false} SumOfBlocks(heads: seq<seq<real>>, w: nat, n: nat, i: nat)
    requires n <= |heads| && heads != [] && i < w && forall j :: 0 <= j < |heads| ==> |heads[j]| == w
    ensures RowWidth(Flat(heads), |heads|) == w && HeadSum(Flat(heads), |heads|, n, i) == TotalAt(heads, n, i)
  {
    FlatSize(heads, w);
    WidthOf(|heads|, w);
    if n > 0 {
      SumOfBlocks(heads, w, n - 1, i);
      FlatAt(heads, w, n - 1, i);
      hide Flat;
    }
  }

  lemma NoHeads(row: seq<real>, nHead: nat)
    ensures forall i :: 0 <= i < RowWidth(row, nHead) ==> HeadSum(row, nHead, 0, i) == 0.0
  {
  }

  lemma OneHeadMore(row: seq<real>, nHead: nat, h: nat)
    requires h < nHead
    ensures forall i :: 0 <= i < RowWidth(row, nHead) ==>
      HeadSum(row, nHead, h + 1, i) == HeadSum(row, nHead, h, i) + Entry(row, nHead, h, i)
  {
  }

  /** The block of one layer: its width and its values, or a zero width when it was not captured. */
  function Block(c: Capture, l: int, v1: bool): seq<Word> {
    if l !in c.layers then [Count(0)]
    else
      var row := c.layers[l];
      [Count(U(RowWidth(row, c.nHead)))] + Values(if v1 then HeadMeans(row, c.nHead) else row)
  }

  function StepBlocks(c: Capture, n: nat, v1: bool): seq<Word> {
    if n == 0 then [] else StepBlocks(c, n - 1, v1) + Block(c, n - 1, v1)
  }

  /** The blocks of all the steps, each with the layers of the first. */
  function Body(steps: seq<Capture>, nLayers: nat, v1: bool): seq<Word> {
    if steps == [] then []
    else Body(steps[..|steps| - 1], nLayers, v1) + StepBlocks(steps[|steps| - 1], nLayers, v1)
  }

  function Magic(v1: bool): Word { if v1 then Averaged else PerHead }

  function Header(v1: bool, nSteps: nat, nLayers: nat, nHead: nat): seq<Word> {
    [Magic(v1), Count(nSteps), Count(nLayers), Count(nHead)]
  }

  function LayersOf(steps: seq<Capture>): nat { if steps == [] then 0 else U(|steps[0].layers|) }

  function HeadsOf(steps: seq<Capture>, v1: bool): nat {
    if steps == [] then 0 else if v1 then 1 else U(steps[0].nHead)
  }

  /** The finished file of a run: only steps that captured something are in it. */
  function FileOf(steps: seq<Capture>, v1: bool): seq<Word> {
    Header(v1, U(|steps|), LayersOf(steps), HeadsOf(steps, v1)) + Body(steps, LayersOf(steps), v1)
  }

  /** The layout: the magic, the numbers of steps, layers and heads, and the blocks from the fifth word on. */
  lemma HeaderLayout(steps: seq<Capture>, v1: bool)
    ensures var file := FileOf(steps, v1);
      && |file| >= 4 && file[0] == (if v1 then Averaged else PerHead) && file[1] == Count(|steps| % 0x1_0000_0000)
      && (steps == [] ==> file[2..] == [Count(0), Count(0)])
      && (steps != [] ==>
            && file[2] == Count(|steps[0].layers| % 0x1_0000_0000)
            && file[3] == if v1 then Count(1) else Count(steps[0].nHead % 0x1_0000_0000))
  {
  }

  /** One step, one layer and two heads of two positions, averaged and per head. */
  lemma SmallFile(c: Capture)
    requires c == Capture(map[0 := [1.0, 3.0, 5.0, 7.0]], 2)
    ensures FileOf([c], true) == [Averaged, Count(1), Count(1), Count(1), Count(2), Value(3.0), Value(5.0)]
    ensures FileOf([c], false) ==
      [PerHead, Count(1), Count(1), Count(2), Count(2), Value(1.0), Value(3.0), Value(5.0), Value(7.0)]
  {
    hide Block, Body;
    SmallBlocks(c);
    OneBlock(c, true);
    OneBlock(c, false);
  }

  lemma SmallBlocks(c: Capture)
    requires c == Capture(map[0 := [1.0, 3.0, 5.0, 7.0]], 2)
    ensures |c.layers| == 1
    ensures Block(c, 0, true) == [Count(2), Value(3.0), Value(5.0)]
    ensures Block(c, 0, false) == [Count(2), Value(1.0), Value(3.0), Value(5.0), Value(7.0)]
  {
    SmallMeans();
    hide HeadMeans;
    assert c.layers.Keys == {0} && RowWidth([1.0, 3.0, 5.0, 7.0], 2) == 2;
  }

  lemma OneBlock(c: Capture, v1: bool)
    ensures Body([c], 1, v1) == Block(c, 0, v1)
  {
    hide Block;
    assert StepBlocks(c, 1, v1) == StepBlocks(c, 0, v1) + Block(c, 0, v1);
    assert [c][..0] == [] && Body([c], 1, v1) == Body([], 1, v1) + StepBlocks(c, 1, v1);
  }

  lemma SmallMeans()
    ensures HeadMeans([1.0, 3.0, 5.0, 7.0], 2) == [3.0, 5.0]
  {
    var row := [1.0, 3.0, 5.0, 7.0];
    forall i | 0 <= i < 2
      ensures HeadSum(row, 2, 2, i) == row[i] + row[2 + i]
    {
      assert HeadSum(row, 2, 1, i) == Entry(row, 2, 0, i);
    }
  }

  // ----- the writer -----

  /** The counters that belong to the steps written so far. */
  ghost predicate Counted(steps: seq<Capture>, locked: bool, nSteps: nat, nLayers: nat, nHead: nat, v1: bool) {
    && (forall i :: 0 <= i < |steps| ==> steps[i].layers != map[])
    && locked == (steps != [])
    && nSteps == U(|steps|) && nLayers == LayersOf(steps) && nHead == HeadsOf(steps, v1)
  }

  /** The file before its header is patched. */
  ghost predicate Unpatched(file: seq<Word>, steps: seq<Capture>, nLayers: nat, v1: bool) {
    file == Header(v1, 0, 0, 0) + Body(steps, nLayers, v1)
  }

  /** Writing the counters over the three zeros makes the finished file. */
  lemma HeaderPatched(file: seq<Word>, steps: seq<Capture>, locked: bool, nSteps: nat, nLayers: nat, nHead: nat, v1: bool)
    requires Counted(steps, locked, nSteps, nLayers, nHead, v1) && Unpatched(file, steps, nLayers, v1)
    ensures |file| >= 4
    ensures file[1 := Count(nSteps)][2 := Count(nLayers)][3 := Count(nHead)] == FileOf(steps, v1)
  {
    hide Body;
  }

  class Sink {
    var file: seq<Word>
    var isOpen: bool
    var nSteps: nat
    var nLayers: nat
    var nHead: nat
    var layerCountLocked: bool
    var v1: bool
    ghost var steps: seq<Capture>

    ghost predicate Valid()
      reads this
    {
      && Counted(steps, layerCountLocked, nSteps, nLayers, nHead, v1)
      && (isOpen ==> Unpatched(file, steps, nLayers, v1))
    }

    constructor ()
      ensures Valid() && !isOpen && steps == []
    {
      file, isOpen, nSteps, nLayers, nHead, layerCountLocked, v1, steps := [], false, 0, 0, 0, false, false, [];
    }

    /** canWrite: whether the file system lets the path be created. */
    method Open(averaged: bool, canWrite: bool) returns (ok: bool)
      requires Valid() && !isOpen && steps == []
      modifies this
      ensures Valid() && ok == isOpen == canWrite && steps == [] && (ok ==> v1 == averaged)
    {
      if !canWrite {
        ok := false;
      } else {
        v1, isOpen, nSteps, nLayers, nHead := averaged, true, 0, 0, 0;
        file := [Magic(averaged)] + [Count(0)] + [Count(0)] + [Count(0)];
        ok := true;
      }
    }

    method WriteStep(c: Capture)
      requires Valid()
      modifies this`file, this`nSteps, this`nLayers, this`nHead, this`layerCountLocked, this`steps
      ensures Valid()
      ensures steps == if isOpen && c.layers != map[] then old(steps) + [c] else old(steps)
    {
      if isOpen && c.layers != map[] {
        hide Block, StepBlocks, Header, Body, U, Counted, Unpatched;
        CountedNext(steps, layerCountLocked, nSteps, nLayers, nHead, v1, c);
        if !layerCountLocked {
          nLayers := U(|c.layers|);
          nHead := if v1 then 1 else U(c.nHead);
          layerCountLocked := true;
        }
        UnpatchedNext(file, steps, c, nLayers, v1);
        WriteLayers(c);
        steps := steps + [c];
        nSteps := U(nSteps + 1);
      }
    }

    method WriteLayers(c: Capture)
      modifies this`file
      ensures file == old(file) + StepBlocks(c, nLayers, v1)
    {
      hide Block;
      StepOfNone(c, v1);
      for l := 0 to nLayers
        invariant file == old(file) + StepBlocks(c, l, v1)
      {
        var block := WriteBlock(c, l, v1);
        file := file + block;
        StepGrows(c, l, v1);
      }
    }

    method Close()
      requires Valid()
      modifies this`file, this`isOpen
      ensures !isOpen && file == if old(isOpen) then FileOf(steps, v1) else old(file)
    {
      hide Counted, Unpatched, FileOf;
      if isOpen {
        HeaderPatched(file, steps, layerCountLocked, nSteps, nLayers, nHead, v1);
        file := file[1 := Count(nSteps)];
        file := file[2 := Count(nLayers)];
        file := file[3 := Count(nHead)];
        isOpen := false;
      }
    }
  }

  method WriteBlock(c: Capture, l: nat, v1: bool) returns (block: seq<Word>)
    ensures block == Block(c, l, v1)
  {
    if l !in c.layers {
      block := [Count(0)];
    } else {
      var row := c.layers[l];
      block := [Count(U(RowWidth(row, c.nHead)))];
      if v1 {
        var avg := AverageHeads(row, c.nHead);
        block := block + Values(avg);
      } else {
        block := block + Values(row);
      }
    }
  }

  /** One more step is counted, and the first one fixes the layers and heads. */
  lemma CountedNext(steps: seq<Capture>, locked: bool, nSteps: nat, nLayers: nat, nHead: nat, v1: bool, c: Capture)
    requires Counted(steps, locked, nSteps, nLayers, nHead, v1) && c.layers != map[]
    ensures var layers, heads := if locked then nLayers else U(|c.layers|), if locked then nHead else if v1 then 1 else U(c.nHead);
      && Counted(steps + [c], true, U(nSteps + 1), layers, heads, v1)
      && forall file :: Unpatched(file, steps, nLayers, v1) ==> Unpatched(file, steps, layers, v1)
  {
    Successor(|steps|);
    hide U;
  }

  lemma BodyGrows(steps: seq<Capture>, c: Capture, n: nat, v1: bool)
    ensures Body(steps + [c], n, v1) == Body(steps, n, v1) + StepBlocks(c, n, v1)
  {
    assert (steps + [c])[..|steps|] == steps;
  }

  lemma UnpatchedNext(file: seq<Word>, steps: seq<Capture>, c: Capture, nLayers: nat, v1: bool)
    requires Unpatched(file, steps, nLayers, v1)
    ensures Unpatched(file + StepBlocks(c, nLayers, v1), steps + [c], nLayers, v1)
  {
    BodyGrows(steps, c, nLayers, v1);
    hide Body, StepBlocks, Header;
  }

  lemma StepOfNone(c: Capture, v1: bool)
    ensures StepBlocks(c, 0, v1) == []
  {
  }

  lemma StepGrows(c: Capture, l: nat, v1: bool)
    ensures StepBlocks(c, l + 1, v1) == StepBlocks(c, l, v1) + Block(c, l, v1)
  {
  }

  lemma Successor(n: nat)
    ensures U(U(n) + 1) == U(n + 1)
  {
  }

  // ----- the reader -----

  datatype Error = BadMagic | Truncated | NotACount | NotFloats

  datatype Result<T> = Ok(value: T) | Err(error: Error) {
    predicate IsFailure() { Err? }
    function PropagateFailure<U>(): Result<U> requires Err? { Err(error) }
    function Extract(): T requires Ok? { value }
  }

  // What a part of the reader took from the front of the words, and the words left.
  datatype Parsed<T> = Parsed(value: T, rest: seq<Word>)

  datatype Contents = Contents(nSteps: nat, nLayers: nat, nHead: nat, rows: seq<seq<seq<real>>>)

  predicate AllValues(words: seq<Word>) { forall i :: 0 <= i < |words| ==> words[i].Value? }

  function Floats(words: seq<Word>): (r: seq<real>)
    requires AllValues(words)
    ensures |r| == |words| && forall i :: 0 <= i < |r| ==> r[i] == words[i].x
  {
    seq(|words|, i requires 0 <= i < |words| => words[i].x)
  }

  function ReadCount(words: seq<Word>): Result<nat> {
    if words == [] then Err(Truncated) else if words[0].Count? then Ok(words[0].n) else Err(NotACount)
  }

  /** A width and that many floats. A file that ends early yields the shorter row: a short read of
      floats is not an error to the reader. */
  function ReadRow(words: seq<Word>): Result<Parsed<seq<real>>> {
    var width :- ReadCount(words);
    var left := words[1..];
    var n := if width <= |left| then width else |left|;
    if AllValues(left[..n]) then Ok(Parsed(Floats(left[..n]), left[n..])) else Err(NotFloats)
  }

  function ReadLayers(words: seq<Word>, n: nat): Result<Parsed<seq<seq<real>>>> {
    if n == 0 then Ok(Parsed([], words))
    else
      var before :- ReadLayers(words, n - 1);
      var row :- ReadRow(before.rest);
      Ok(Parsed(before.value + [row.value], row.rest))
  }

  function ReadSteps(words: seq<Word>, nLayers: nat, n: nat): Result<Parsed<seq<seq<seq<real>>>>> {
    if n == 0 then Ok(Parsed([], words))
    else
      var before :- ReadSteps(words, nLayers, n - 1);
      var layers :- ReadLayers(before.rest, nLayers);
      Ok(Parsed(before.value + [layers.value], layers.rest))
  }

  function ReadFile(words: seq<Word>): Result<Contents> {
    if words == [] || words[0] != Averaged then Err(BadMagic)
    else if |words| < 4 then Err(Truncated)
    else
      var nSteps :- ReadCount(words[1..]);
      var nLayers :- ReadCount(words[2..]);
      var nHead :- ReadCount(words[3..]);
      var steps :- ReadSteps(words[4..], nLayers, nSteps);
      Ok(Contents(nSteps, nLayers, nHead, steps.value))
  }

  // What a part of the reader returns: its value and where the cursor stands.
  datatype Loaded<T> = Loaded(value: T, next: nat)

  ghost predicate Agrees<T>(r: Result<Loaded<T>>, file: seq<Word>, p: Result<Parsed<T>>) {
    if r.Ok? then p.Ok? && r.value.next <= |file| && p.value == Parsed(r.value.value, file[r.value.next..])
    else p.Err? && r.error == p.error
  }

  method LoadRow(file: seq<Word>, at: nat) returns (r: Result<Loaded<seq<real>>>)
    requires at <= |file|
    ensures Agrees(r, file, ReadRow(file[at..]))
  {
    var width := ReadCount(file[at..]);
    if width.Err? {
      r := Err(width.error);
    } else {
      var start := at + 1;
      var left := |file| - start;
      var n := if width.value <= left then width.value else left;
      assert file[at..][1..] == file[start..];
      assert file[start..][..n] == file[start..start + n] && file[start..][n..] == file[start + n..];
      if AllValues(file[start..start + n]) {
        r := Ok(Loaded(Floats(file[start..start + n]), start + n));
      } else {
        r := Err(NotFloats);
      }
    }
  }

  lemma {:induction false} LayersFail(words: seq<Word>, m: nat, n: nat)
    requires m <= n && ReadLayers(words, m).Err?
    ensures ReadLayers(words, n) == ReadLayers(words, m)
  {
    if m < n {
      LayersFail(words, m, n - 1);
    }
  }

  method LoadLayers(file: seq<Word>, at: nat, nLayers: nat) returns (r: Result<Loaded<seq<seq<real>>>>)
    requires at <= |file|
    ensures Agrees(r, file, ReadLayers(file[at..], nLayers))
  {
    hide ReadRow;
    r := Ok(Loaded([], at));
    var l := 0;
    while l < nLayers && r.Ok?
      invariant l <= nLayers && Agrees(r, file, ReadLayers(file[at..], l))
    {
      var row := LoadRow(file, r.value.next);
      r := if row.Err? then Err(row.error) else Ok(Loaded(r.value.value + [row.value.value], row.value.next));
      l := l + 1;
    }
    if r.Err? {
      LayersFail(file[at..], l, nLayers);
    }
  }

  lemma {:induction false} StepsFail(words: seq<Word>, nLayers: nat, m: nat, n: nat)
    requires m <= n && ReadSteps(words, nLayers, m).Err?
    ensures ReadSteps(words, nLayers, n) == ReadSteps(words, nLayers, m)
  {
    if m < n {
      StepsFail(words, nLayers, m, n - 1);
    }
  }

  method LoadSteps(file: seq<Word>, at: nat, nLayers: nat, nSteps: nat) returns (r: Result<Loaded<seq<seq<seq<real>>>>>)
    requires at <= |file|
    ensures Agrees(r, file, ReadSteps(file[at..], nLayers, nSteps))
  {
    hide ReadLayers;
    r := Ok(Loaded([], at));
    var s := 0;
    while s < nSteps && r.Ok?
      invariant s <= nSteps && Agrees(r, file, ReadSteps(file[at..], nLayers, s))
    {
      var layers := LoadLayers(file, r.value.next, nLayers);
      r := if layers.Err? then Err(layers.error) else Ok(Loaded(r.value.value + [layers.value.value], layers.value.next));
      s := s + 1;
    }
    if r.Err? {
      StepsFail(file[at..], nLayers, s, nSteps);
    }
  }

  /** The reader. */
  method Load(file: seq<Word>) returns (r: Result<Contents>)
    ensures r == ReadFile(file)
  {
    if file == [] || file[0] != Averaged {
      r := Err(BadMagic);
    } else if |file| < 4 {
      r := Err(Truncated);
    } else {
      var nSteps :- ReadCount(file[1..]);
      var nLayers :- ReadCount(file[2..]);
      var nHead :- ReadCount(file[3..]);
      var steps := LoadSteps(file, 4, nLayers, nSteps);
      r := if steps.Err? then Err(steps.error) else Ok(Contents(nSteps, nLayers, nHead, steps.value.value));
    }
  }

  // ----- the round trip -----

  /** What the reader should find for layer l of a step: the head means, or nothing. */
  function RowOf(c: Capture, l: int): seq<real> {
    if l in c.layers then HeadMeans(c.layers[l], c.nHead) else []
  }

  function RowsOf(c: Capture, n: nat): (rows: seq<seq<real>>)
    ensures |rows| == n && forall l :: 0 <= l < n ==> rows[l] == RowOf(c, l)
  {
    seq(n, l requires 0 <= l < n => RowOf(c, l))
  }

  function RowsOfSteps(steps: seq<Capture>, nLayers: nat): (rows: seq<seq<seq<real>>>)
    ensures |rows| == |steps| && forall s :: 0 <= s < |steps| ==> rows[s] == RowsOf(steps[s], nLayers)
  {
    seq(|steps|, s requires 0 <= s < |steps| => RowsOf(steps[s], nLayers))
  }

  ghost predicate WidthsFit(c: Capture) {
    forall l :: l in c.layers ==> |RowOf(c, l)| < U32
  }

  lemma RowRoundTrip(c: Capture, l: int, tail: seq<Word>)
    requires WidthsFit(c)
    ensures ReadRow(Block(c, l, true) + tail) == Ok(Parsed(RowOf(c, l), tail))
  {
    hide HeadMeans;
    var block, row := Block(c, l, true), RowOf(c, l);
    var left := Values(row) + tail;
    assert block == [Count(|row|)] + Values(row);
    assert (block + tail)[1..] == left;
    assert left[..|row|] == Values(row) && left[|row|..] == tail;
    assert Floats(Values(row)) == row;
  }

  lemma {:induction false} LayersRoundTrip(c: Capture, n: nat, tail: seq<Word>)
    requires WidthsFit(c)
    ensures ReadLayers(StepBlocks(c, n, true) + tail, n) == Ok(Parsed(RowsOf(c, n), tail))
  {
    hide Block, RowOf, ReadRow, WidthsFit;
    if n == 0 {
      assert [] + tail == tail;
    } else {
      var last := Block(c, n - 1, true);
      LayersRoundTrip(c, n - 1, last + tail);
      RowRoundTrip(c, n - 1, tail);
      assert StepBlocks(c, n, true) + tail == StepBlocks(c, n - 1, true) + (last + tail);
      assert RowsOf(c, n) == RowsOf(c, n - 1) + [RowOf(c, n - 1)];
    }
  }

  lemma {:induction false} StepsRoundTrip(steps: seq<Capture>, nLayers: nat, tail: seq<Word>)
    requires forall s :: 0 <= s < |steps| ==> WidthsFit(steps[s])
    ensures ReadSteps(Body(steps, nLayers, true) + tail, nLayers, |steps|) == Ok(Parsed(RowsOfSteps(steps, nLayers), tail))
  {
    hide StepBlocks, RowsOf, ReadLayers, WidthsFit;
    if steps == [] {
      assert [] + tail == tail;
    } else {
      var n := |steps| - 1;
      var last := StepBlocks(steps[n], nLayers, true);
      StepsRoundTrip(steps[..n], nLayers, last + tail);
      LayersRoundTrip(steps[n], nLayers, tail);
      assert Body(steps, nLayers, true) + tail == Body(steps[..n], nLayers, true) + (last + tail);
      assert RowsOfSteps(steps, nLayers) == RowsOfSteps(steps[..n], nLayers) + [RowsOf(steps[n], nLayers)];
    }
  }

  /** Reading a finished head-averaged file gives back the counts, and for every step the rows of
      the layers of the first step, empty where a layer was not captured. */
  lemma RoundTrip(steps: seq<Capture>)
    requires |steps| < U32 && forall s :: 0 <= s < |steps| ==> WidthsFit(steps[s]) && |steps[s].layers| < U32
    ensures var nLayers := if steps == [] then 0 else |steps[0].layers|;
      ReadFile(FileOf(steps, true)) ==
      Ok(Contents(|steps|, nLayers, if steps == [] then 0 else 1, RowsOfSteps(steps, nLayers)))
  {
    hide Body, ReadSteps, WidthsFit;
    var body := Body(steps, LayersOf(steps), true);
    StepsRoundTrip(steps, LayersOf(steps), []);
    assert body + [] == body;
    assert FileOf(steps, true)[4..] == body;
  }

  /** The per-head file is refused by this reader, whatever is in it. */
  lemma PerHeadFileIsRefused(steps: seq<Capture>)
    ensures ReadFile(FileOf(steps, false)) == Err(BadMagic)
  {
  }

  /** What the reader makes of a file cut in its header, and of one cut in a row. */
  lemma TruncatedFiles(n: nat, m: nat, w: nat, x: real)
    requires w >= 1
    ensures ReadFile([]) == ReadFile([PerHead]) == Err(BadMagic)
    ensures ReadFile([Averaged]) == ReadFile([Averaged, Count(n)]) == ReadFile([Averaged, Count(n), Count(m)]) == Err(Truncated)
    ensures ReadRow([Count(w), Value(x)]) == Ok(Parsed([x], []))
  {
    var words, left: seq<Word> := [Count(w), Value(x)], [Value(x)];
    assert words[1..] == left && left[..1] == left && left[1..] == [];
    assert Floats(left) == [x];
  }

  /** A run that stops before the header is patched reads as a file of no steps. */
  lemma UnpatchedFileReadsEmpty(file: seq<Word>, steps: seq<Capture>, nLayers: nat)
    requires Unpatched(file, steps, nLayers, true)
    ensures ReadFile(file) == Ok(Contents(0, 0, 0, []))
  {
    hide Body;
  }
}
