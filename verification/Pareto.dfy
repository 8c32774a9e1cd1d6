/** The Pareto flags of the final report: perplexity and memory temperature low, throughput high. */
module Pareto {
  import opened Basics

  datatype Name = Name(text: string)

  // A policy's measurements in one model. A missing axis is None.
  datatype Row = Row(policy: Name, ppl: Option<real>, ddr: Option<real>, tps: Option<real>)

  datatype Cell = Cell(model: Name, row: Row)

  datatype Point = Point(policy: Name, ppl: real, ddr: real, tps: real)

  datatype Flag = Yes | No | NotAvailable

  predicate Complete(r: Row) { r.ppl.Some? && r.ddr.Some? && r.tps.Some? }

  function PointOf(r: Row): Point
    requires Complete(r)
  {
    Point(r.policy, r.ppl.value, r.ddr.value, r.tps.value)
  }

  /** As good on every axis and better on one. */
  predicate Dominates(q: Point, p: Point) {
    && q.ppl <= p.ppl && q.ddr <= p.ddr && q.tps >= p.tps
    && (q.ppl < p.ppl || q.ddr < p.ddr || q.tps > p.tps)
  }

  function Usable(rows: seq<Row>): (points: seq<Point>)
    ensures forall p :: p in points ==> exists r :: r in rows && Complete(r) && PointOf(r) == p
    ensures forall r :: r in rows && Complete(r) ==> PointOf(r) in points
  {
    if rows == [] then []
    else
      var n := |rows| - 1;
      assert rows == rows[..n] + [rows[n]];
      Usable(rows[..n]) + if Complete(rows[n]) then [PointOf(rows[n])] else []
  }

  /** A dictionary has one row per policy. */
  ghost predicate OneEach(rows: seq<Row>) {
    forall i, j :: 0 <= i < j < |rows| ==> rows[i].policy != rows[j].policy
  }

  ghost predicate Beaten(points: seq<Point>, p: Point) {
    exists q :: q in points && q.policy != p.policy && Dominates(q, p)
  }

  ghost function FlagOf(rows: seq<Row>, r: Row): Flag {
    if !Complete(r) then NotAvailable else if Beaten(Usable(rows), PointOf(r)) then No else Yes
  }

  lemma NotAvailableMeans(rows: seq<Row>, r: Row)
    ensures FlagOf(rows, r) == NotAvailable <==> r.ppl.None? || r.ddr.None? || r.tps.None?
  {
  }

  /** What "no" means for the rows themselves: another policy with all three axes has no higher perplexity,
      no higher temperature and no lower throughput, and is not equal on all three. */
  lemma NoMeansBeaten(rows: seq<Row>, r: Row) returns (q: Row)
    requires FlagOf(rows, r) == No
    ensures q in rows && q.policy != r.policy && q.ppl.Some? && q.ddr.Some? && q.tps.Some?
    ensures q.ppl.value <= r.ppl.value && q.ddr.value <= r.ddr.value && q.tps.value >= r.tps.value
    ensures (q.ppl, q.ddr, q.tps) != (r.ppl, r.ddr, r.tps)
  {
    hide Usable;
    var p :| p in Usable(rows) && p.policy != r.policy && Dominates(p, PointOf(r));
    q :| q in rows && Complete(q) && PointOf(q) == p;
  }

  /** And any such policy makes it "no". */
  lemma BeatenMeansNo(rows: seq<Row>, r: Row, q: Row)
    requires r.ppl.Some? && r.ddr.Some? && r.tps.Some?
    requires q in rows && q.policy != r.policy && q.ppl.Some? && q.ddr.Some? && q.tps.Some?
    requires q.ppl.value <= r.ppl.value && q.ddr.value <= r.ddr.value && q.tps.value >= r.tps.value
    requires (q.ppl, q.ddr, q.tps) != (r.ppl, r.ddr, r.tps)
    ensures FlagOf(rows, r) == No
  {
    hide Usable;
    assert PointOf(q) in Usable(rows) && Dominates(PointOf(q), PointOf(r));
  }

  // ----- one model -----

  method IsDominated(usable: seq<Point>, p: Point) returns (dominated: bool)
    ensures dominated <==> Beaten(usable, p)
  {
    dominated := false;
    var i := 0;
    while i < |usable|
      invariant i <= |usable|
      invariant dominated ==> Beaten(usable, p)
      invariant !dominated ==> forall k :: 0 <= k < i ==> usable[k].policy == p.policy || !Dominates(usable[k], p)
    {
      var q := usable[i];
      if q.policy != p.policy && Dominates(q, p) {
        assert q in usable;
        dominated := true;
        break;
      }
      i := i + 1;
    }
  }

  function Policies(rows: seq<Row>): (ps: set<Name>)
    ensures forall r :: r in rows ==> r.policy in ps
  {
    set r | r in rows :: r.policy
  }

  /** The incomplete rows, and no others, are flagged as not available. */
  ghost predicate Split(rows: seq<Row>, usable: seq<Point>, flags: map<Name, Flag>) {
    && usable == Usable(rows)
    && flags.Keys <= Policies(rows)
    && (forall p :: p in flags ==> flags[p] == NotAvailable)
    && (forall r :: r in rows && !Complete(r) ==> r.policy in flags)
  }

  lemma SplitNext(rows: seq<Row>, usable: seq<Point>, flags: map<Name, Flag>, r: Row)
    requires Split(rows, usable, flags)
    ensures if Complete(r) then Split(rows + [r], usable + [PointOf(r)], flags)
            else Split(rows + [r], usable, flags[r.policy := NotAvailable])
  {
    OneRowMore(rows, r);
    hide Usable, Policies;
  }

  lemma OneRowMore(rows: seq<Row>, r: Row)
    ensures Usable(rows + [r]) == Usable(rows) + if Complete(r) then [PointOf(r)] else []
    ensures Policies(rows + [r]) == Policies(rows) + {r.policy}
  {
    var more := rows + [r];
    assert more[..|rows|] == rows && more[|rows|] == r;
    PoliciesGrow(rows, r);
  }

  lemma PoliciesGrow(rows: seq<Row>, r: Row)
    ensures Policies(rows + [r]) == Policies(rows) + {r.policy}
  {
    var more := rows + [r];
    forall p | p in Policies(more)
      ensures p in Policies(rows) + {r.policy}
    {
      var s :| s in more && s.policy == p;
      assert s == r || s in rows;
    }
    forall s | s in rows
      ensures s in more
    {
    }
    assert r in more;
  }

  method SplitUsable(rows: seq<Row>) returns (usable: seq<Point>, flags: map<Name, Flag>)
    ensures Split(rows, usable, flags)
  {
    usable, flags := [], map[];
    for i := 0 to |rows|
      invariant Split(rows[..i], usable, flags)
    {
      hide Split;
      var r := rows[i];
      SplitNext(rows[..i], usable, flags, r);
      assert rows[..i + 1] == rows[..i] + [r];
      if !Complete(r) {
        flags := flags[r.policy := NotAvailable];
      } else {
        usable := usable + [PointOf(r)];
      }
    }
    assert rows[..|rows|] == rows;
  }

  lemma SameRow(rows: seq<Row>, r: Row, s: Row)
    requires OneEach(rows) && r in rows && s in rows && r.policy == s.policy
    ensures r == s
  {
  }

  function Verdict(dominated: bool): Flag { if dominated then No else Yes }

  /** The first i usable points carry their verdicts. */
  ghost predicate Judged(usable: seq<Point>, flags: map<Name, Flag>, i: nat)
    requires i <= |usable|
  {
    forall k :: 0 <= k < i ==>
      && usable[k].policy in flags
      && flags[usable[k].policy] == Verdict(Beaten(usable, usable[k]))
  }

  ghost predicate MissingKept(rows: seq<Row>, flags: map<Name, Flag>) {
    forall r :: r in rows && !Complete(r) ==> r.policy in flags && flags[r.policy] == NotAvailable
  }

  ghost predicate Marked(rows: seq<Row>, flags: map<Name, Flag>, i: nat)
    requires i <= |Usable(rows)|
  {
    flags.Keys <= Policies(rows) && MissingKept(rows, flags) && Judged(Usable(rows), flags, i)
  }

  lemma JudgedNext(usable: seq<Point>, flags: map<Name, Flag>, i: nat)
    requires OnePointEach(usable) && i < |usable| && Judged(usable, flags, i)
    ensures Judged(usable, flags[usable[i].policy := Verdict(Beaten(usable, usable[i]))], i + 1)
  {
    hide Beaten, Verdict;
    assert forall k :: 0 <= k <= i ==> usable[k] in usable;
  }

  lemma MissingStay(rows: seq<Row>, flags: map<Name, Flag>, p: Point, f: Flag)
    requires MissingKept(rows, flags) && forall r :: r in rows && r.policy == p.policy ==> Complete(r)
    ensures MissingKept(rows, flags[p.policy := f])
  {
  }

  lemma MarkedStart(rows: seq<Row>, flags: map<Name, Flag>)
    requires Split(rows, Usable(rows), flags)
    ensures Marked(rows, flags, 0)
  {
    hide Usable, Beaten;
  }

  lemma MarkedNext(rows: seq<Row>, flags: map<Name, Flag>, i: nat, p: Point)
    requires OneEach(rows) && i < |Usable(rows)| && Marked(rows, flags, i) && p == Usable(rows)[i]
    ensures Marked(rows, flags[p.policy := Verdict(Beaten(Usable(rows), p))], i + 1)
  {
    PointsAreRows(rows, p);
    UsableOnce(rows);
    hide Usable, Beaten, Judged, MissingKept, Policies, Verdict, OneEach, OnePointEach;
    JudgedNext(Usable(rows), flags, i);
    MissingStay(rows, flags, p, Verdict(Beaten(Usable(rows), p)));
  }

  lemma MarkedEnd(rows: seq<Row>, flags: map<Name, Flag>, r: Row)
    requires Marked(rows, flags, |Usable(rows)|) && r in rows
    ensures r.policy in flags && flags[r.policy] == FlagOf(rows, r)
  {
    if Complete(r) {
      assert PointOf(r) in Usable(rows);
    }
    hide Beaten, Usable, Policies;
  }

  method FlagModel(rows: seq<Row>) returns (flags: map<Name, Flag>)
    requires OneEach(rows)
    ensures flags.Keys <= Policies(rows)
    ensures forall r :: r in rows ==> r.policy in flags && flags[r.policy] == FlagOf(rows, r)
  {
    hide Beaten, Usable, OneEach, FlagOf, Policies;
    var usable;
    usable, flags := SplitUsable(rows);
    MarkedStart(rows, flags);
    for i := 0 to |usable|
      invariant usable == Usable(rows) && Marked(rows, flags, i)
    {
      hide Marked;
      var p := usable[i];
      MarkedNext(rows, flags, i, p);
      var dominated := IsDominated(usable, p);
      flags := flags[p.policy := Verdict(dominated)];
    }
    forall r | r in rows
      ensures r.policy in flags && flags[r.policy] == FlagOf(rows, r)
    {
      MarkedEnd(rows, flags, r);
    }
  }

  /** A usable point is the point of the one row with its policy. */
  lemma PointsAreRows(rows: seq<Row>, p: Point)
    requires OneEach(rows) && p in Usable(rows)
    ensures exists r :: r in rows && r.policy == p.policy
    ensures forall r :: r in rows && r.policy == p.policy ==> Complete(r) && PointOf(r) == p
  {
    var s :| s in rows && Complete(s) && PointOf(s) == p;
    forall r | r in rows && r.policy == p.policy
      ensures r == s
    {
      SameRow(rows, r, s);
    }
  }

  // ----- the whole table -----

  ghost predicate OneCellEach(cells: seq<Cell>) {
    forall i, j :: 0 <= i < j < |cells| ==> cells[i].model != cells[j].model || cells[i].row.policy != cells[j].row.policy
  }

  function RowsOf(cells: seq<Cell>, model: Name): (rows: seq<Row>)
    ensures forall r :: r in rows <==> Cell(model, r) in cells
  {
    if cells == [] then []
    else
      var n := |cells| - 1;
      assert cells == cells[..n] + [cells[n]];
      RowsOf(cells[..n], model) + if cells[n].model == model then [cells[n].row] else []
  }

  lemma {:induction false} OneRowEach(cells: seq<Cell>, model: Name)
    requires OneCellEach(cells)
    ensures OneEach(RowsOf(cells, model))
  {
    if cells != [] {
      var n := |cells| - 1;
      OneRowEach(cells[..n], model);
      var rows := RowsOf(cells[..n], model);
      forall i | 0 <= i < |rows| && cells[n].model == model
        ensures rows[i].policy != cells[n].row.policy
      {
        assert rows[i] in rows;
        assert Cell(model, rows[i]) in cells[..n];
      }
    }
  }

  ghost predicate Grouped(cells: seq<Cell>, order: seq<Name>, byModel: map<Name, seq<Row>>) {
    && (forall m :: m in order <==> m in byModel)
    && (forall c :: c in cells ==> c.model in byModel)
    && (forall m :: m in byModel ==> byModel[m] == RowsOf(cells, m))
    && (forall m :: m !in byModel ==> RowsOf(cells, m) == [])
  }

  lemma GroupedNext(cells: seq<Cell>, order: seq<Name>, byModel: map<Name, seq<Row>>, c: Cell)
    requires Grouped(cells, order, byModel)
    ensures if c.model in byModel then Grouped(cells + [c], order, byModel[c.model := byModel[c.model] + [c.row]])
            else Grouped(cells + [c], order + [c.model], byModel[c.model := [c.row]])
  {
    assert (cells + [c])[..|cells|] == cells;
    forall m
      ensures RowsOf(cells + [c], m) == RowsOf(cells, m) + if c.model == m then [c.row] else []
    {
    }
    hide RowsOf;
  }

  method GroupByModel(cells: seq<Cell>) returns (order: seq<Name>, byModel: map<Name, seq<Row>>)
    ensures Grouped(cells, order, byModel)
  {
    order, byModel := [], map[];
    for i := 0 to |cells|
      invariant Grouped(cells[..i], order, byModel)
    {
      hide Grouped;
      var c := cells[i];
      GroupedNext(cells[..i], order, byModel, c);
      assert cells[..i + 1] == cells[..i] + [c];
      if c.model !in byModel {
        order := order + [c.model];
        byModel := byModel[c.model := [c.row]];
      } else {
        byModel := byModel[c.model := byModel[c.model] + [c.row]];
      }
    }
    assert cells[..|cells|] == cells;
  }

  ghost predicate Flagged(cells: seq<Cell>, c: Cell, out: map<(Name, Name), Flag>) {
    && (c.model, c.row.policy) in out
    && out[(c.model, c.row.policy)] == FlagOf(RowsOf(cells, c.model), c.row)
  }

  ghost predicate FlaggedModels(cells: seq<Cell>, models: seq<Name>, out: map<(Name, Name), Flag>) {
    forall c :: c in cells && c.model in models ==> Flagged(cells, c, out)
  }

  function Tagged(model: Name, flags: map<Name, Flag>): (out: map<(Name, Name), Flag>)
    ensures forall m, p :: (m, p) in out <==> m == model && p in flags
    ensures forall p :: p in flags ==> out[(model, p)] == flags[p]
  {
    map p | p in flags :: (model, p) := flags[p]
  }

  ghost predicate KeysAreCells(cells: seq<Cell>, out: map<(Name, Name), Flag>) {
    forall m, p :: (m, p) in out ==> p in Policies(RowsOf(cells, m))
  }

  lemma FlaggedNext(cells: seq<Cell>, models: seq<Name>, model: Name,
                    out: map<(Name, Name), Flag>, flags: map<Name, Flag>)
    requires FlaggedModels(cells, models, out) && KeysAreCells(cells, out)
    requires flags.Keys <= Policies(RowsOf(cells, model))
    requires forall r :: r in RowsOf(cells, model) ==> r.policy in flags && flags[r.policy] == FlagOf(RowsOf(cells, model), r)
    ensures FlaggedModels(cells, models + [model], out + Tagged(model, flags))
    ensures KeysAreCells(cells, out + Tagged(model, flags))
  {
    hide Tagged, FlagOf, Policies;
    forall c | c in cells && c.model in models + [model]
      ensures Flagged(cells, c, out + Tagged(model, flags))
    {
      if c.model == model {
        assert Cell(model, c.row) == c;
      }
    }
  }

  method ParetoFlags(cells: seq<Cell>) returns (out: map<(Name, Name), Flag>)
    requires OneCellEach(cells)
    ensures forall c :: c in cells ==> Flagged(cells, c, out)
    ensures KeysAreCells(cells, out)
  {
    hide OneCellEach, OneEach, FlagOf, RowsOf, Policies, Tagged, FlaggedModels, KeysAreCells, Flagged;
    var order, byModel := GroupByModel(cells);
    out := map[];
    NoneFlagged(cells);
    for i := 0 to |order|
      invariant FlaggedModels(cells, order[..i], out) && KeysAreCells(cells, out)
    {
      var model := order[i];
      OneRowEach(cells, model);
      var flags := FlagModel(byModel[model]);
      FlaggedNext(cells, order[..i], model, out, flags);
      assert order[..i + 1] == order[..i] + [model];
      out := out + Tagged(model, flags);
    }
    assert order[..|order|] == order;
    AllFlagged(cells, order, byModel, out);
  }

  lemma NoneFlagged(cells: seq<Cell>)
    ensures FlaggedModels(cells, [], map[]) && KeysAreCells(cells, map[])
  {
  }

  lemma AllFlagged(cells: seq<Cell>, order: seq<Name>, byModel: map<Name, seq<Row>>, out: map<(Name, Name), Flag>)
    requires Grouped(cells, order, byModel) && FlaggedModels(cells, order, out)
    ensures forall c :: c in cells ==> Flagged(cells, c, out)
  {
    hide Flagged, RowsOf;
  }

  // ----- the front -----

  /** The places of the points that beat p. */
  ghost function Beaters(points: seq<Point>, p: Point): set<nat> {
    set k | 0 <= k < |points| && Dominates(points[k], p)
  }

  lemma BeatersShrink(points: seq<Point>, k: nat, p: Point)
    requires k < |points| && Dominates(points[k], p)
    ensures Beaters(points, points[k]) < Beaters(points, p)
  {
    assert k in Beaters(points, p) && k !in Beaters(points, points[k]);
  }

  ghost predicate OnePointEach(points: seq<Point>) {
    forall p, q :: p in points && q in points && p.policy == q.policy ==> p == q
  }

  ghost predicate OnFront(points: seq<Point>, p: Point) { p in points && !Beaten(points, p) }

  /** Whatever is beaten is beaten by something on the front. */
  lemma {:induction false} BeatenByFront(points: seq<Point>, p: Point)
    requires OnePointEach(points) && p in points && Beaten(points, p)
    ensures exists q :: OnFront(points, q) && Dominates(q, p)
    decreases Beaters(points, p)
  {
    var q :| q in points && q.policy != p.policy && Dominates(q, p);
    if Beaten(points, q) {
      var k :| 0 <= k < |points| && points[k] == q;
      BeatersShrink(points, k, p);
      BeatenByFront(points, q);
      var top :| OnFront(points, top) && Dominates(top, q);
      assert Dominates(top, p);
    }
  }

  lemma UsableOnce(rows: seq<Row>)
    requires OneEach(rows)
    ensures OnePointEach(Usable(rows))
  {
    forall p, q | p in Usable(rows) && q in Usable(rows) && p.policy == q.policy
      ensures p == q
    {
      PointsAreRows(rows, p);
      PointsAreRows(rows, q);
    }
  }

  /** Every row flagged "no" is dominated by a row flagged "yes". */
  lemma NoHasAYesAbove(rows: seq<Row>, r: Row)
    requires OneEach(rows) && r in rows && FlagOf(rows, r) == No
    ensures exists s :: s in rows && FlagOf(rows, s) == Yes && Dominates(PointOf(s), PointOf(r))
  {
    UsableOnce(rows);
    BeatenByFront(Usable(rows), PointOf(r));
    var q :| OnFront(Usable(rows), q) && Dominates(q, PointOf(r));
    var s :| s in rows && Complete(s) && PointOf(s) == q;
    assert FlagOf(rows, s) == Yes;
  }

  /** No row flagged "yes" dominates another, and a model with a complete row has one. */
  lemma FrontIsMutual(rows: seq<Row>, r: Row, s: Row)
    requires OneEach(rows) && r in rows && s in rows
    requires FlagOf(rows, r) == Yes && FlagOf(rows, s) == Yes
    ensures !Dominates(PointOf(s), PointOf(r))
  {
    if Dominates(PointOf(s), PointOf(r)) {
      assert PointOf(s) in Usable(rows);
      if r.policy == s.policy {
        SameRow(rows, r, s);
      }
      assert false;
    }
  }

  lemma FrontIsNotEmpty(rows: seq<Row>, r: Row)
    requires OneEach(rows) && r in rows && Complete(r)
    ensures exists s :: s in rows && FlagOf(rows, s) == Yes
  {
    if FlagOf(rows, r) == No {
      NoHasAYesAbove(rows, r);
    } else {
      assert FlagOf(rows, r) == Yes;
    }
  }
}
