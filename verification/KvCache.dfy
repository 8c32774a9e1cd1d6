/** One sequence of the key-value cache: its live cells in position order, and the memory calls
    that the eviction code makes on it. */
module KvCache {

  datatype Cell = Cell(pos: int, token: int)

  /** Positions increase from cell to cell and start at zero or later. */
  ghost predicate Increasing(cells: seq<Cell>) {
    && (forall i :: 0 <= i < |cells| ==> cells[i].pos >= 0)
    && (forall i, j :: 0 <= i < j < |cells| ==> cells[i].pos < cells[j].pos)
  }

  /** Positions count up by one from the given start. */
  ghost predicate DenseFrom(cells: seq<Cell>, start: int) {
    forall i :: 0 <= i < |cells| ==> cells[i].pos == start + i
  }

  function Range(lo: int, hi: int): (r: set<int>)
    ensures forall p :: p in r <==> lo <= p < hi
    decreases hi - lo
  {
    if lo >= hi then {} else Range(lo, hi - 1) + {hi - 1}
  }

  /** The cells whose position is not dropped. */
  function Without(cells: seq<Cell>, dropped: set<int>): seq<Cell> {
    if cells == [] then []
    else
      var n := |cells| - 1;
      Without(cells[..n], dropped) + if cells[n].pos in dropped then [] else [cells[n]]
  }

  /** Every position in [lo, hi) moves by delta. */
  function Shift(cells: seq<Cell>, lo: int, hi: int, delta: int): (r: seq<Cell>)
    ensures |r| == |cells|
    ensures forall i :: 0 <= i < |cells| ==>
      r[i] == if lo <= cells[i].pos < hi then Cell(cells[i].pos + delta, cells[i].token) else cells[i]
  {
    seq(|cells|, i requires 0 <= i < |cells| =>
      if lo <= cells[i].pos < hi then Cell(cells[i].pos + delta, cells[i].token) else cells[i])
  }

  /** The largest live position, -1 when the sequence is empty. */
  function PosMax(cells: seq<Cell>): int {
    if cells == [] then -1 else cells[|cells| - 1].pos
  }

  function Positions(cells: seq<Cell>): set<int> {
    set c | c in cells :: c.pos
  }

  function Tokens(cells: seq<Cell>): (r: seq<int>)
    ensures |r| == |cells| && forall i :: 0 <= i < |cells| ==> r[i] == cells[i].token
  {
    seq(|cells|, i requires 0 <= i < |cells| => cells[i].token)
  }

  class Cache {
    var cells: seq<Cell>

    constructor (prompt: seq<int>)
      ensures cells == Prefilled(prompt)
    {
      cells := Prefilled(prompt);
    }

    function SeqPosMax(): int
      reads this
    {
      PosMax(cells)
    }

    /** Negative bounds mean "unbounded" to the memory API and are never passed here. */
    method SeqRm(p0: int, p1: int)
      requires 0 <= p0 && 0 <= p1
      modifies this
      ensures cells == Without(old(cells), Range(p0, p1))
    {
      cells := Without(cells, Range(p0, p1));
    }

    method SeqAdd(p0: int, p1: int, delta: int)
      requires 0 <= p0 && 0 <= p1
      modifies this
      ensures cells == Shift(old(cells), p0, p1, delta)
    {
      cells := Shift(cells, p0, p1, delta);
    }

    /** A one-token batch is stored after the largest live position. */
    method Decode(token: int)
      modifies this
      ensures cells == Append(old(cells), token)
    {
      cells := Append(cells, token);
    }
  }

  /** The cache after decoding a prompt into an empty sequence. */
  function Prefilled(prompt: seq<int>): (r: seq<Cell>)
    ensures DenseFrom(r, 0) && Tokens(r) == prompt && Increasing(r)
  {
    var r := seq(|prompt|, i requires 0 <= i < |prompt| => Cell(i, prompt[i]));
    assert Tokens(r) == prompt;
    r
  }

  function Append(cells: seq<Cell>, token: int): seq<Cell> {
    cells + [Cell(PosMax(cells) + 1, token)]
  }

  // ----- facts about removal -----

  lemma {:induction false} WithoutMembers(cells: seq<Cell>, dropped: set<int>, c: Cell)
    ensures c in Without(cells, dropped) <==> c in cells && c.pos !in dropped
  {
    if cells != [] {
      var n := |cells| - 1;
      WithoutMembers(cells[..n], dropped, c);
      assert c in cells <==> c in cells[..n] || c == cells[n];
    }
  }

  lemma {:induction false} WithoutConcat(a: seq<Cell>, b: seq<Cell>, dropped: set<int>)
    ensures Without(a + b, dropped) == Without(a, dropped) + Without(b, dropped)
  {
    if b == [] {
      assert a + b == a;
    } else {
      var n := |b| - 1;
      assert (a + b)[..|a| + n] == a + b[..n];
      WithoutConcat(a, b[..n], dropped);
    }
  }

  lemma {:induction false} WithoutAll(cells: seq<Cell>, dropped: set<int>)
    requires forall c | c in cells :: c.pos in dropped
    ensures Without(cells, dropped) == []
  {
    if cells != [] {
      var n := |cells| - 1;
      assert cells[n] in cells;
      WithoutAll(cells[..n], dropped);
    }
  }

  lemma {:induction false} WithoutNone(cells: seq<Cell>, dropped: set<int>)
    requires forall c | c in cells :: c.pos !in dropped
    ensures Without(cells, dropped) == cells
  {
    if cells != [] {
      var n := |cells| - 1;
      assert cells[n] in cells;
      WithoutNone(cells[..n], dropped);
    }
  }

  /** Removing in two goes is removing the union. */
  lemma {:induction false} WithoutTwice(cells: seq<Cell>, a: set<int>, b: set<int>)
    ensures Without(Without(cells, a), b) == Without(cells, a + b)
  {
    if cells != [] {
      var n := |cells| - 1;
      WithoutTwice(cells[..n], a, b);
      var front := Without(cells[..n], a);
      if cells[n].pos in a {
        assert Without(cells, a) == front;
      } else {
        WithoutConcat(front, [cells[n]], b);
        assert Without([cells[n]], b) == if cells[n].pos in b then [] else [cells[n]];
      }
    }
  }

  /** Only the dropped positions that were live change the number of cells. */
  lemma {:induction false} WithoutLength(cells: seq<Cell>, dropped: set<int>)
    requires Increasing(cells)
    ensures |Without(cells, dropped)| == |cells| - |dropped * Positions(cells)|
  {
    hide Positions;
    LivePositions(cells);
    if cells == [] {
      assert dropped * {} == {};
    } else {
      var n := |cells| - 1;
      WithoutLength(cells[..n], dropped);
      IntersectionGrows(dropped, Positions(cells[..n]), cells[n].pos);
    }
  }

  lemma LivePositions(cells: seq<Cell>)
    requires Increasing(cells)
    ensures if cells == [] then Positions(cells) == {} else
      var n := |cells| - 1;
      Positions(cells) == Positions(cells[..n]) + {cells[n].pos} && cells[n].pos !in Positions(cells[..n])
  {
  }

  lemma IntersectionGrows(s: set<int>, t: set<int>, x: int)
    requires x !in t
    ensures |s * (t + {x})| == |s * t| + if x in s then 1 else 0
  {
    assert s * (t + {x}) == if x in s then s * t + {x} else s * t;
  }

  lemma {:induction false} WithoutIncreasing(cells: seq<Cell>, dropped: set<int>)
    requires Increasing(cells)
    ensures Increasing(Without(cells, dropped))
  {
    if cells != [] {
      var n := |cells| - 1;
      var front := Without(cells[..n], dropped);
      assert Without(cells, dropped) == if cells[n].pos in dropped then front else front + [cells[n]];
      hide Without;
      WithoutIncreasing(cells[..n], dropped);
      forall i | 0 <= i < |front| ensures front[i].pos < cells[n].pos {
        WithoutMembers(cells[..n], dropped, front[i]);
      }
    }
  }

  lemma {:induction false} RangeSize(lo: int, hi: int)
    ensures |Range(lo, hi)| == if lo <= hi then hi - lo else 0
    decreases hi - lo
  {
    if lo < hi {
      RangeSize(lo, hi - 1);
    }
  }

  /** When exactly the cells a..b lie in [lo, hi), dropping that range cuts them out. */
  lemma CutStretch(cells: seq<Cell>, a: nat, b: nat, lo: int, hi: int)
    requires a <= b <= |cells|
    requires forall i :: 0 <= i < |cells| ==> (lo <= cells[i].pos < hi <==> a <= i < b)
    ensures Without(cells, Range(lo, hi)) == cells[..a] + cells[b..]
  {
    var before, middle, after := cells[..a], cells[a..b], cells[b..];
    assert cells == before + middle + after;
    hide Without, Range;
    WithoutConcat(before + middle, after, Range(lo, hi));
    WithoutConcat(before, middle, Range(lo, hi));
    WithoutNone(before, Range(lo, hi));
    WithoutAll(middle, Range(lo, hi));
    WithoutNone(after, Range(lo, hi));
    assert before + [] == before;
  }
}
