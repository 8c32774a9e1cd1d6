/** The buffer as an object: removal by cell index, and the compaction in place that moves the surviving rows
    of every tensor to the front, one staged run at a time. */
module CellBuffer {
  import opened Basics
  import opened KvCache
  import opened Eviction
  import opened CellIndex

  // ----- the slots of a sequence -----

  /** Sources are in increasing order, and no row moves up. */
  ghost predicate Fit(src: seq<nat>, size: nat) {
    && (forall j :: 0 <= j < |src| ==> j <= src[j] < size)
    && forall j, k :: 0 <= j < k < |src| ==> src[j] < src[k]
  }

  lemma {:induction false} SourcesOrder(slots: seq<Slot>, id: nat)
    ensures Fit(Sources(slots, id), |slots|)
  {
    if slots != [] {
      SourcesOrder(slots[..|slots| - 1], id);
    }
  }

  lemma {:induction false} SourcesComplete(slots: seq<Slot>, id: nat, i: nat)
    requires i < |slots| && Has(slots[i], id)
    ensures i in Sources(slots, id)
  {
    if i < |slots| - 1 {
      SourcesComplete(slots[..|slots| - 1], id, i);
    }
  }

  lemma {:induction false} CellsAreSources(slots: seq<Slot>, id: nat)
    ensures |CellsOf(slots, id)| == |Sources(slots, id)|
    ensures forall j :: 0 <= j < |Sources(slots, id)| ==> CellsOf(slots, id)[j] == slots[Sources(slots, id)[j]].cell
  {
    if slots != [] {
      CellsAreSources(slots[..|slots| - 1], id);
    }
  }

  lemma {:induction false} OneFewer(slots: seq<Slot>, id: nat, i: nat, s: Slot)
    requires i < |slots| && Has(slots[i], id) && !Has(s, id)
    ensures |CellsOf(slots[i := s], id)| == |CellsOf(slots, id)| - 1
  {
    var n := |slots| - 1;
    if i < n {
      OneFewer(slots[..n], id, i, s);
      assert slots[i := s][..n] == slots[..n][i := s];
    } else {
      assert slots[i := s][..n] == slots[..n];
    }
  }

  /** Every slot in use is the sequence's. */
  ghost predicate AllOf(slots: seq<Slot>, id: nat) {
    forall i :: 0 <= i < |slots| && slots[i].Live? ==> Has(slots[i], id)
  }

  /** The live slots in front, in their order, and nothing behind them. */
  function Compacted(slots: seq<Slot>, id: nat): (r: seq<Slot>)
    ensures |r| == |slots|
  {
    var src := Sources(slots, id);
    seq(|slots|, j requires 0 <= j < |slots| => if j < |src| then slots[src[j]] else Empty)
  }

  /** What the sequence holds, in buffer order: each cell with its row. */
  function Contents<T>(slots: seq<Slot>, rows: seq<T>, id: nat): seq<(Cell, T)>
    requires |rows| == |slots|
  {
    var src := Sources(slots, id);
    seq(|src|, j requires 0 <= j < |src| => (slots[src[j]].cell, rows[src[j]]))
  }

  /** The first j rows are in place and those from there on untouched. */
  ghost predicate MovedTo<T>(rows: seq<T>, before: seq<T>, src: seq<nat>, j: nat)
    requires Fit(src, |before|) && j <= |src|
  {
    && |rows| == |before|
    && (forall x :: 0 <= x < j ==> x <= src[x] && rows[x] == before[src[x]])
    && forall x :: j <= x < |rows| ==> rows[x] == before[x]
  }

  /** Row j is what was in the j-th live slot; the rows behind are as they were. */
  ghost predicate Moved<T>(rows: seq<T>, before: seq<T>, src: seq<nat>) {
    Fit(src, |before|) && MovedTo(rows, before, src, |src|)
  }

  lemma {:induction false} PrefixSources(slots: seq<Slot>, id: nat, n: nat)
    requires n <= |slots| && forall i :: 0 <= i < |slots| ==> (Has(slots[i], id) <==> i < n)
    ensures |Sources(slots, id)| == n && forall j :: 0 <= j < n ==> Sources(slots, id)[j] == j
  {
    if slots != [] {
      PrefixSources(slots[..|slots| - 1], id, if n == |slots| then n - 1 else n);
    }
  }

  /** Compaction changes where everything is, and nothing else. */
  lemma SameContents<T>(slots: seq<Slot>, before: seq<T>, rows: seq<T>, id: nat)
    requires |before| == |slots| && Moved(rows, before, Sources(slots, id))
    ensures Contents(Compacted(slots, id), rows, id) == Contents(slots, before, id)
  {
    PrefixSources(Compacted(slots, id), id, |Sources(slots, id)|);
    hide Sources;
  }

  lemma CompactedCells(slots: seq<Slot>, id: nat)
    ensures CellsOf(Compacted(slots, id), id) == CellsOf(slots, id)
    ensures forall i :: 0 <= i < |slots| ==> (Compacted(slots, id)[i].Live? <==> i < |CellsOf(slots, id)|)
  {
    PrefixSources(Compacted(slots, id), id, |Sources(slots, id)|);
    CellsAreSources(slots, id);
    CellsAreSources(Compacted(slots, id), id);
    hide Sources, CellsOf;
  }

  /** The sources of the places [j, j + len) are consecutive. */
  ghost predicate IsRun(src: seq<nat>, j: nat, len: nat) {
    j + len <= |src| && forall y :: j <= y < j + len ==> src[y] == src[j] + (y - j)
  }

  /** The rows with len of them copied from s down to d. */
  function Copied<T>(rows: seq<T>, s: nat, d: nat, len: nat): seq<T>
    requires d <= s && s + len <= |rows|
  {
    rows[..d] + rows[s..s + len] + rows[d + len..]
  }

  /** Writing a run of consecutive sources at the first place not yet filled. */
  lemma RunMoves<T>(rows: seq<T>, next: seq<T>, before: seq<T>, src: seq<nat>, j: nat, len: nat)
    requires Fit(src, |before|) && j + len <= |src| && 0 < len && MovedTo(rows, before, src, j)
    requires IsRun(src, j, len)
    requires j <= src[j] && src[j] + len <= |rows| && next == Copied(rows, src[j], j, len)
    ensures MovedTo(next, before, src, j + len)
  {
    forall x | 0 <= x < j + len
      ensures x <= src[x] && next[x] == before[src[x]]
    {
      if x >= j {
        assert next[x] == rows[src[j] + (x - j)];
      }
    }
  }

  /** The longest run of consecutive sources from j that fits a chunk. */
  method RunLength(src: seq<nat>, j: nat, chunk: nat) returns (len: nat)
    requires j < |src| && chunk > 0
    ensures 0 < len <= chunk && j + len <= |src|
    ensures IsRun(src, j, len)
    ensures len == chunk || j + len == |src| || src[j + len] != src[j] + len
  {
    len := 1;
    while len < chunk && j + len < |src| && src[j + len] == src[j] + len
      invariant 1 <= len <= chunk && j + len <= |src|
      invariant IsRun(src, j, len)
      decreases |src| - len
    {
      len := len + 1;
    }
  }

  /** Copies the rows to the front, a run of consecutive sources and at most one chunk at a time through the
      stage. A row is never overwritten before it is read, because no row moves up. */
  method MoveRows<T>(t: array<T>, src: seq<nat>, firstMoved: nat, chunk: nat)
    requires chunk > 0 && firstMoved <= |src| && Fit(src, t.Length)
    requires forall j :: 0 <= j < firstMoved ==> src[j] == j
    modifies t
    ensures Moved(t[..], old(t[..]), src)
  {
    hide *;
    ghost var before := t[..];
    var j := firstMoved;
    NothingMoved(before, src, j);
    while j < |src|
      invariant firstMoved <= j <= |src|
      invariant MovedTo(t[..], before, src, j)
    {
      var len := RunLength(src, j, chunk);
      RunFits(src, t.Length, j, len);
      ghost var rows := t[..];
      CopyRun(t, src[j], j, len);
      RunMoves(rows, t[..], before, src, j, len);
      j := j + len;
    }
    AllMoved(t[..], before, src);
  }

  /** One staged copy: reads the whole run before it writes, so that the two may overlap. */
  method CopyRun<T>(t: array<T>, s: nat, d: nat, len: nat)
    requires d <= s && s + len <= t.Length
    modifies t
    ensures t[..] == Copied(old(t[..]), s, d, len)
  {
    var stage := t[s..s + len];
    forall x | 0 <= x < len {
      t[d + x] := stage[x];
    }
  }

  lemma AllMoved<T>(rows: seq<T>, before: seq<T>, src: seq<nat>)
    requires Fit(src, |before|) && MovedTo(rows, before, src, |src|)
    ensures Moved(rows, before, src)
  {
  }

  lemma NothingMoved<T>(before: seq<T>, src: seq<nat>, j: nat)
    requires Fit(src, |before|) && j <= |src| && forall x :: 0 <= x < j ==> src[x] == x
    ensures MovedTo(before, before, src, j)
  {
  }

  lemma RunFits(src: seq<nat>, size: nat, j: nat, len: nat)
    requires Fit(src, size) && j + len <= |src| && 0 < len
    requires IsRun(src, j, len)
    ensures j <= src[j] && src[j] + len <= size
  {
    assert src[j + len - 1] == src[j] + (len - 1);
  }

  /** How many slots are in use, by any sequence. */
  function Used(slots: seq<Slot>): nat {
    if slots == [] then 0
    else
      var n := |slots| - 1;
      Used(slots[..n]) + if slots[n].Live? then 1 else 0
  }

  lemma {:induction false} UsedByAll(slots: seq<Slot>, id: nat)
    ensures |Sources(slots, id)| <= Used(slots)
    ensures |Sources(slots, id)| == Used(slots) <==> AllOf(slots, id)
  {
    if slots != [] {
      var n := |slots| - 1;
      UsedByAll(slots[..n], id);
      assert AllOf(slots, id) <==> AllOf(slots[..n], id) && (slots[n].Live? ==> Has(slots[n], id));
    }
  }

  /** A buffer whose live slots are in front already stays as it is. */
  lemma AlreadyDense(slots: seq<Slot>, id: nat)
    requires AllOf(slots, id) && forall j :: 0 <= j < |Sources(slots, id)| ==> Sources(slots, id)[j] == j
    ensures Compacted(slots, id) == slots
  {
    hide Sources;
    forall i | 0 <= i < |slots|
      ensures Compacted(slots, id)[i] == slots[i]
    {
      if slots[i].Live? {
        SourcesComplete(slots, id, i);
      }
    }
  }

  /** The cells of the survivors behind the prefix freed, and the survivors put in front. */
  method Gather(slots: seq<Slot>, src: seq<nat>, ghost id: nat) returns (r: seq<Slot>)
    requires src == Sources(slots, id) && AllOf(slots, id)
    ensures r == Compacted(slots, id)
  {
    SourcesOrder(slots, id);
    hide Sources;
    var n := |src|;
    var kept := seq(n, j requires 0 <= j < n => slots[src[j]]);
    r := slots;
    for j := 0 to n
      invariant |r| == |slots|
      invariant forall i :: n <= i < |r| ==> r[i] == slots[i] || r[i] == Empty
      invariant forall x :: 0 <= x < j && src[x] >= n ==> r[src[x]] == Empty
    {
      if src[j] >= n {
        r := r[src[j] := Empty];
      }
    }
    forall i | n <= i < |r|
      ensures r[i] == Empty
    {
      if slots[i].Live? {
        SourcesComplete(slots, id, i);
      }
    }
    r := kept + r[n..];
  }

  class Buffer<T> {
    var slots: seq<Slot>
    const tensors: seq<array<T>>

    constructor (slots: seq<Slot>, tensors: seq<array<T>>)
      requires forall i :: 0 <= i < |tensors| ==> tensors[i].Length == |slots|
      requires forall i, j :: 0 <= i < j < |tensors| ==> tensors[i] != tensors[j]
      ensures Valid() && this.slots == slots && this.tensors == tensors
    {
      this.slots, this.tensors := slots, tensors;
    }

    /** One row per slot in every tensor, and no tensor twice. */
    ghost predicate Valid()
      reads this
    {
      && (forall i :: 0 <= i < |tensors| ==> tensors[i].Length == |slots|)
      && forall i, j :: 0 <= i < j < |tensors| ==> tensors[i] != tensors[j]
    }

    /** Removal by cell index; the count is the number of cells that went. */
    method RmCells(id: nat, keep: seq<bool>) returns (removed: nat)
      modifies this`slots
      ensures slots == Removed(old(slots), keep, id)
      ensures removed == |CellsOf(old(slots), id)| - |CellsOf(slots, id)|
    {
      ghost var before := slots;
      removed := 0;
      hide CellsOf;
      for i := 0 to MinInt(|keep|, |slots|)
        invariant slots == Removed(before, keep[..i], id)
        invariant removed == |CellsOf(before, id)| - |CellsOf(slots, id)|
      {
        if !keep[i] && Has(slots[i], id) {
          OneFewer(slots, id, i, Freed(slots[i], id));
          slots := slots[i := Freed(slots[i], id)];
          removed := removed + 1;
        }
      }
    }

    /** apply_eviction on a multimodal cache. */
    method ApplyEviction(id: nat, perLayerKeep: seq<seq<int>>, nKv: nat) returns (evicted: nat)
      modifies this`slots
      ensures perLayerKeep == [] ==> slots == old(slots)
      ensures perLayerKeep != [] ==>
        |slots| == |old(slots)| && forall i :: 0 <= i < |slots| ==>
          slots[i] == if i < nKv && i !in KeptPositions(perLayerKeep, nKv) && Has(old(slots[i]), id)
                      then Freed(old(slots[i]), id) else old(slots[i])
      ensures evicted == |CellsOf(old(slots), id)| - |CellsOf(slots, id)|
    {
      if |perLayerKeep| == 0 {
        return 0;
      }
      hide CellsOf, KeptPositions;
      var keep := KeepMask(perLayerKeep, nKv);
      evicted := RmCells(id, keep);
    }

    /** The survivors' indices, in buffer order. */
    method Survivors(id: nat) returns (src: seq<nat>)
      ensures src == Sources(slots, id)
    {
      src := [];
      for i := 0 to |slots|
        invariant src == Sources(slots[..i], id)
      {
        assert slots[..i + 1][..i] == slots[..i];
        if Has(slots[i], id) {
          src := src + [i];
        }
      }
      assert slots[..|slots|] == slots;
    }

    /** endurkv_compact_seq: declines when another sequence has a cell. Otherwise what is live becomes a dense
        prefix, every cell with its row of every tensor. */
    method Compact(id: nat, chunkCells: nat) returns (n: nat)
      requires Valid()
      modifies this`slots, set i | 0 <= i < |tensors| :: tensors[i]
      ensures Valid()
      ensures !AllOf(old(slots), id) ==>
        n == 0 && slots == old(slots) && forall i :: 0 <= i < |tensors| ==> tensors[i][..] == old(tensors[i][..])
      ensures AllOf(old(slots), id) ==>
        && n == |CellsOf(old(slots), id)| && slots == Compacted(old(slots), id)
        && forall i :: 0 <= i < |tensors| ==>
             Contents(slots, tensors[i][..], id) == Contents(old(slots), old(tensors[i][..]), id)
    {
      ghost var before := slots;
      UsedByAll(slots, id);
      SourcesOrder(slots, id);
      CellsAreSources(slots, id);
      var src := Survivors(id);
      n := |src|;
      if n != Used(slots) {
        return 0;
      }
      var firstMoved := 0;
      while firstMoved < n && src[firstMoved] == firstMoved
        invariant firstMoved <= n && forall j :: 0 <= j < firstMoved ==> src[j] == j
      {
        firstMoved := firstMoved + 1;
      }
      if firstMoved == n {
        AlreadyDense(slots, id);
        return n;
      }
      MoveTensors(src, firstMoved, if chunkCells == 0 then 512 else chunkCells);
      slots := Gather(slots, src, id);
      forall i | 0 <= i < |tensors|
        ensures Contents(slots, tensors[i][..], id) == Contents(before, old(tensors[i][..]), id)
      {
        SameContents(before, old(tensors[i][..]), tensors[i][..], id);
      }
    }

    method MoveTensors(src: seq<nat>, firstMoved: nat, chunk: nat)
      requires Valid() && chunk > 0 && firstMoved <= |src|
      requires Fit(src, |slots|)
      requires forall j :: 0 <= j < firstMoved ==> src[j] == j
      modifies set i | 0 <= i < |tensors| :: tensors[i]
      ensures forall i :: 0 <= i < |tensors| ==> Moved(tensors[i][..], old(tensors[i][..]), src)
    {
      for l := 0 to |tensors|
        invariant forall i :: 0 <= i < l ==> Moved(tensors[i][..], old(tensors[i][..]), src)
        invariant forall i :: l <= i < |tensors| ==> tensors[i][..] == old(tensors[i][..])
      {
        MoveRows(tensors[l], src, firstMoved, chunk);
      }
    }
  }
}
