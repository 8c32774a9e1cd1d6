/** The buffer behind the cache, slot by slot: removal by cell index, which a multimodal cache needs because
    the tokens of an image share one position, and the compaction that moves what is live to the front. */
module CellIndex {
  import opened KvCache
  import opened Eviction
  import opened Sliding

  // One slot: the cell it holds, and the sequences that use it.
  datatype Slot = Empty | Live(cell: Cell, seqs: set<nat>)

  predicate Has(s: Slot, id: nat) { s.Live? && id in s.seqs }

  /** The slots of a sequence, in buffer order. */
  function Sources(slots: seq<Slot>, id: nat): (src: seq<nat>)
    ensures |src| <= |slots|
    ensures forall j :: 0 <= j < |src| ==> j <= src[j] < |slots| && Has(slots[src[j]], id)
  {
    if slots == [] then []
    else
      var n := |slots| - 1;
      Sources(slots[..n], id) + if Has(slots[n], id) then [n] else []
  }

  /** The cells of a sequence, in buffer order. */
  function CellsOf(slots: seq<Slot>, id: nat): seq<Cell> {
    if slots == [] then []
    else
      var n := |slots| - 1;
      CellsOf(slots[..n], id) + if Has(slots[n], id) then [slots[n].cell] else []
  }

  // ----- removal by cell index -----

  function Freed(s: Slot, id: nat): Slot
    requires s.Live?
  {
    if s.seqs - {id} == {} then Empty else s.(seqs := s.seqs - {id})
  }

  predicate Goes(slots: seq<Slot>, keep: seq<bool>, id: nat, i: nat)
    requires i < |slots|
  {
    i < |keep| && !keep[i] && Has(slots[i], id)
  }

  function Removed(slots: seq<Slot>, keep: seq<bool>, id: nat): (r: seq<Slot>)
    ensures |r| == |slots|
    ensures forall i :: 0 <= i < |slots| ==> r[i] == if Goes(slots, keep, id, i) then Freed(slots[i], id) else slots[i]
  {
    seq(|slots|, i requires 0 <= i < |slots| => if Goes(slots, keep, id, i) then Freed(slots[i], id) else slots[i])
  }

  lemma RemovedFront(slots: seq<Slot>, keep: seq<bool>, id: nat, n: nat)
    requires n <= |slots|
    ensures Removed(slots, keep, id)[..n] == Removed(slots[..n], keep, id)
  {
  }

  /** Removing in two goes is removing what either mask drops. */
  lemma RemovedTwice(slots: seq<Slot>, a: seq<bool>, b: seq<bool>, id: nat)
    requires |a| == |b|
    ensures Removed(Removed(slots, a, id), b, id)
         == Removed(slots, seq(|a|, i requires 0 <= i < |a| => a[i] && b[i]), id)
  {
  }

  /** What another sequence uses stays: only a slot that nobody else uses is emptied. */
  lemma {:induction false} OthersKeepTheirs(slots: seq<Slot>, keep: seq<bool>, id: nat, other: nat)
    requires other != id
    ensures CellsOf(Removed(slots, keep, id), other) == CellsOf(slots, other)
  {
    if slots != [] {
      var n := |slots| - 1;
      RemovedFront(slots, keep, id, n);
      OthersKeepTheirs(slots[..n], keep, id, other);
      if Has(slots[n], other) {
        assert other in slots[n].seqs - {id};
      }
    }
  }

  lemma EmptiedIfUnused(slots: seq<Slot>, keep: seq<bool>, id: nat, i: nat)
    requires i < |slots| && slots[i].Live?
    ensures Removed(slots, keep, id)[i] == Empty <==> i < |keep| && !keep[i] && slots[i].seqs == {id}
    ensures Has(Removed(slots, keep, id)[i], id) <==> id in slots[i].seqs && (i >= |keep| || keep[i])
  {
  }

  /** The last slot adds its cell to either list, or not. */
  lemma LastSlot(slots: seq<Slot>, keep: seq<bool>, id: nat)
    requires slots != []
    ensures var n := |slots| - 1;
      var before, after := CellsOf(slots[..n], id), CellsOf(Removed(slots[..n], keep, id), id);
      && CellsOf(slots, id) == (if Has(slots[n], id) then before + [slots[n].cell] else before)
      && CellsOf(Removed(slots, keep, id), id)
         == if Has(slots[n], id) && !Goes(slots, keep, id, n) then after + [slots[n].cell] else after
  {
    RemovedFront(slots, keep, id, |slots| - 1);
  }

  /** When every slot of the sequence holds the position of its own index, removal by index is removal by
      position: the two branches of the eviction agree on a text cache, holes or not. */
  lemma {:induction false} IndexIsPosition(slots: seq<Slot>, keep: seq<bool>, id: nat)
    requires forall i :: 0 <= i < |slots| && Has(slots[i], id) ==> slots[i].cell.pos == i
    ensures CellsOf(Removed(slots, keep, id), id) == Without(CellsOf(slots, id), DroppedBy(keep))
  {
    hide CellsOf, Removed, Without;
    if slots == [] {
      NoCells(keep, id, DroppedBy(keep));
    } else {
      var n := |slots| - 1;
      LastSlot(slots, keep, id);
      IndexIsPosition(slots[..n], keep, id);
      if Has(slots[n], id) {
        WithoutSnoc(CellsOf(slots[..n], id), slots[n].cell, DroppedBy(keep));
      }
    }
  }

  lemma NoCells(keep: seq<bool>, id: nat, dropped: set<int>)
    ensures CellsOf([], id) == CellsOf(Removed([], keep, id), id) == Without([], dropped) == []
  {
  }

  // ----- what positions cannot say -----

  function CountAt(cells: seq<Cell>, p: int): nat {
    if cells == [] then 0
    else
      var n := |cells| - 1;
      CountAt(cells[..n], p) + if cells[n].pos == p then 1 else 0
  }

  lemma CountSnoc(cells: seq<Cell>, c: Cell, p: int)
    ensures CountAt(cells + [c], p) == CountAt(cells, p) + if c.pos == p then 1 else 0
  {
    assert (cells + [c])[..|cells|] == cells;
  }

  lemma {:induction false} CountWithout(cells: seq<Cell>, dropped: set<int>, p: int)
    ensures CountAt(Without(cells, dropped), p) == if p in dropped then 0 else CountAt(cells, p)
  {
    if cells != [] {
      var n := |cells| - 1;
      assert cells == cells[..n] + [cells[n]];
      CountWithout(cells[..n], dropped, p);
      WithoutSnoc(cells[..n], cells[n], dropped);
      CountSnoc(Without(cells[..n], dropped), cells[n], p);
      CountSnoc(cells[..n], cells[n], p);
    }
  }

  ghost predicate SomeGoes(slots: seq<Slot>, keep: seq<bool>, id: nat, p: int) {
    exists i :: 0 <= i < |slots| && Goes(slots, keep, id, i) && slots[i].cell.pos == p
  }

  ghost predicate SomeStays(slots: seq<Slot>, keep: seq<bool>, id: nat, p: int) {
    exists i :: 0 <= i < |slots| && Has(slots[i], id) && !Goes(slots, keep, id, i) && slots[i].cell.pos == p
  }

  /** Of one position some cells go when one is dropped, and some stay when one is kept. */
  lemma {:induction false} CountRemoved(slots: seq<Slot>, keep: seq<bool>, id: nat, p: int)
    ensures var before, after := CountAt(CellsOf(slots, id), p), CountAt(CellsOf(Removed(slots, keep, id), id), p);
      && after <= before
      && (SomeGoes(slots, keep, id, p) ==> after < before)
      && (SomeStays(slots, keep, id, p) ==> after > 0)
  {
    hide CellsOf, Removed, CountAt;
    if slots == [] {
      NoCells(keep, id, {});
    } else {
      var n := |slots| - 1;
      LastSlot(slots, keep, id);
      CountRemoved(slots[..n], keep, id, p);
      if Has(slots[n], id) {
        CountSnoc(CellsOf(slots[..n], id), slots[n].cell, p);
        CountSnoc(CellsOf(Removed(slots[..n], keep, id), id), slots[n].cell, p);
      }
      SomeInFront(slots, keep, id, p);
    }
  }

  lemma SomeInFront(slots: seq<Slot>, keep: seq<bool>, id: nat, p: int)
    requires slots != []
    ensures var n := |slots| - 1;
      && (SomeGoes(slots, keep, id, p) ==>
            SomeGoes(slots[..n], keep, id, p) || (Goes(slots, keep, id, n) && slots[n].cell.pos == p))
      && (SomeStays(slots, keep, id, p) ==>
            SomeStays(slots[..n], keep, id, p)
            || (Has(slots[n], id) && !Goes(slots, keep, id, n) && slots[n].cell.pos == p))
  {
    var n := |slots| - 1;
    assert forall i :: 0 <= i < n ==> Goes(slots[..n], keep, id, i) == Goes(slots, keep, id, i);
    if SomeGoes(slots, keep, id, p) {
      var i :| 0 <= i < |slots| && Goes(slots, keep, id, i) && slots[i].cell.pos == p;
      assert i < n ==> Goes(slots[..n], keep, id, i) && slots[..n][i].cell.pos == p;
    }
    if SomeStays(slots, keep, id, p) {
      var i :| 0 <= i < |slots| && Has(slots[i], id) && !Goes(slots, keep, id, i) && slots[i].cell.pos == p;
      assert i < n ==> Has(slots[..n][i], id) && !Goes(slots[..n], keep, id, i);
    }
  }

  /** Cells of one position are kept together or dropped together. */
  ghost predicate SameFate(slots: seq<Slot>, keep: seq<bool>, id: nat) {
    forall p :: !(SomeGoes(slots, keep, id, p) && SomeStays(slots, keep, id, p))
  }

  ghost predicate Expresses(slots: seq<Slot>, keep: seq<bool>, id: nat, dropped: set<int>) {
    CellsOf(Removed(slots, keep, id), id) == Without(CellsOf(slots, id), dropped)
  }

  function GonePositions(slots: seq<Slot>, keep: seq<bool>, id: nat): (r: set<int>)
    ensures forall p :: p in r <==> SomeGoes(slots, keep, id, p)
  {
    set i | 0 <= i < |slots| && Goes(slots, keep, id, i) :: slots[i].cell.pos
  }

  /** A removal by position can do the same exactly when the mask treats the cells of one position alike, which
      a mask over the tokens of an image need not. */
  lemma PositionsExpress(slots: seq<Slot>, keep: seq<bool>, id: nat)
    ensures (exists dropped: set<int> :: Expresses(slots, keep, id, dropped)) <==> SameFate(slots, keep, id)
  {
    hide CellsOf, Without, Removed, Goes, CountAt, SomeGoes, SomeStays;
    if SameFate(slots, keep, id) {
      FateOfPosition(slots, keep, id);
      GoneIsDropped(slots, keep, id, GonePositions(slots, keep, id));
      assert Expresses(slots, keep, id, GonePositions(slots, keep, id));
    }
    forall dropped: set<int>, p | Expresses(slots, keep, id, dropped)
      ensures !(SomeGoes(slots, keep, id, p) && SomeStays(slots, keep, id, p))
    {
      CountRemoved(slots, keep, id, p);
      CountWithout(CellsOf(slots, id), dropped, p);
    }
  }

  lemma FateOfPosition(slots: seq<Slot>, keep: seq<bool>, id: nat)
    requires SameFate(slots, keep, id)
    ensures forall i :: 0 <= i < |slots| && Has(slots[i], id) ==>
      (slots[i].cell.pos in GonePositions(slots, keep, id) <==> Goes(slots, keep, id, i))
  {
    hide GonePositions, Goes;
    forall i | 0 <= i < |slots| && Has(slots[i], id)
      ensures slots[i].cell.pos in GonePositions(slots, keep, id) <==> Goes(slots, keep, id, i)
    {
      var p := slots[i].cell.pos;
      assert Goes(slots, keep, id, i) ==> SomeGoes(slots, keep, id, p);
      assert !Goes(slots, keep, id, i) ==> SomeStays(slots, keep, id, p);
    }
  }

  lemma {:induction false} GoneIsDropped(slots: seq<Slot>, keep: seq<bool>, id: nat, gone: set<int>)
    requires forall i :: 0 <= i < |slots| && Has(slots[i], id) ==> (slots[i].cell.pos in gone <==> Goes(slots, keep, id, i))
    ensures Expresses(slots, keep, id, gone)
  {
    hide CellsOf, Removed, Without;
    if slots == [] {
      NoCells(keep, id, gone);
    } else {
      var n := |slots| - 1;
      LastSlot(slots, keep, id);
      assert forall i :: 0 <= i < n ==> Goes(slots[..n], keep, id, i) == Goes(slots, keep, id, i);
      GoneIsDropped(slots[..n], keep, id, gone);
      if Has(slots[n], id) {
        WithoutSnoc(CellsOf(slots[..n], id), slots[n].cell, gone);
      }
    }
  }
}
