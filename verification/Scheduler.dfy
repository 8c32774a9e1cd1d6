/** The phone scheduler: a backend by weighted utility, then a walk down that backend's ladder. */
module Scheduler {

  // A row of the cost table: energy and time per prompt token and per output token, and quality.
  datatype Plan = Plan(name: string, backend: string, gpuMhz: int,
                       ePre: real, eDec: real, tPre: real, tDec: real, q: real)

  // A candidate with its predicted energy and time for the request at hand.
  datatype Costed = Costed(plan: Plan, e: real, t: real)

  datatype Weights = Weights(q: real, t: real, e: real)

  datatype Choice = Chosen(best: Costed) | NoCandidate | DividedByZero

  // ----- the lever -----

  function Part(d: real, x: real): real { d * x }

  function Between(a: real, b: real, x: real): real { a + Part(b - a, x) }

  /** Linear through the anchors at 0, 0.5 and 1. */
  function Piecewise(l: real, a: real, b: real, c: real): real {
    if l < 0.5 then Between(a, b, l / 0.5) else Between(b, c, (l - 0.5) / 0.5)
  }

  function LeverWeights(l: real): Weights {
    Weights(Piecewise(l, 0.20, 0.35, 0.55), Piecewise(l, 0.10, 0.20, 0.40), Piecewise(l, 0.70, 0.45, 0.05))
  }

  function QualityFloor(l: real): real { Piecewise(l, 0.75, 0.90, 1.00) }

  function ExchangeRate(l: real): real { Piecewise(l, 0.5, 0.8, 1.5) }

  function TimeSlack(l: real): real { 0.03 + 0.37 * (1.0 - l) }

  lemma ProductSign(c: real, x: real)
    requires c >= 0.0 && x >= 0.0
    ensures c * x >= 0.0
  {
  }

  lemma PartRange(d: real, x: real)
    requires 0.0 <= x <= 1.0
    ensures d >= 0.0 ==> 0.0 <= Part(d, x) <= d
    ensures d <= 0.0 ==> d <= Part(d, x) <= 0.0
  {
    if d == 0.0 {
    } else if d > 0.0 {
      ProductSign(d, x);
      ProductSign(d, 1.0 - x);
    } else {
      ProductSign(-d, x);
      ProductSign(-d, 1.0 - x);
    }
  }

  lemma BetweenRange(a: real, b: real, x: real)
    requires 0.0 <= x <= 1.0
    ensures a <= b ==> a <= Between(a, b, x) <= b
    ensures a >= b ==> a >= Between(a, b, x) >= b
  {
    hide Part;
    PartRange(b - a, x);
  }

  lemma PiecewiseRange(l: real, a: real, b: real, c: real)
    requires 0.0 <= l <= 1.0
    ensures a <= b <= c ==> a <= Piecewise(l, a, b, c) <= c
    ensures a >= b >= c ==> a >= Piecewise(l, a, b, c) >= c
  {
    hide Between;
    if l < 0.5 {
      BetweenRange(a, b, l / 0.5);
    } else {
      BetweenRange(b, c, (l - 0.5) / 0.5);
    }
  }

  lemma Ordered(x: real, y: real, c: real)
    requires x <= y && c >= 0.0
    ensures c * x <= c * y
  {
    assert c * (y - x) >= 0.0;
  }

  /** The anchors are met, so the two pieces join. */
  lemma PiecewiseAnchors(a: real, b: real, c: real)
    ensures Piecewise(0.0, a, b, c) == a && Piecewise(0.5, a, b, c) == b && Piecewise(1.0, a, b, c) == c
  {
  }

  /** And each piece is a straight line. */
  lemma PiecewiseIsLinear(l: real, m: real, a: real, b: real, c: real)
    ensures l <= 0.5 && m <= 0.5 ==> Piecewise(m, a, b, c) - Piecewise(l, a, b, c) == 2.0 * (b - a) * (m - l)
    ensures l >= 0.5 && m >= 0.5 ==> Piecewise(m, a, b, c) - Piecewise(l, a, b, c) == 2.0 * (c - b) * (m - l)
  {
    PieceOf(l, a, b, c);
    PieceOf(m, a, b, c);
    hide Piecewise;
    Scale(b - a, l, m);
    Scale(c - b, l, m);
  }

  lemma PieceOf(l: real, a: real, b: real, c: real)
    ensures l <= 0.5 ==> Piecewise(l, a, b, c) == a + 2.0 * (b - a) * l
    ensures l >= 0.5 ==> Piecewise(l, a, b, c) == b + 2.0 * (c - b) * (l - 0.5)
  {
    hide Part;
    PartOfHalf(b - a, l);
    PartOfHalf(c - b, l - 0.5);
    PartOfHalf(c - b, 0.0);
    PartOfHalf(b - a, 0.5);
  }

  lemma PartOfHalf(d: real, x: real)
    ensures Part(d, x / 0.5) == 2.0 * d * x
  {
    var h := x / 0.5;
    assert h == 2.0 * x;
  }

  lemma Scale(d: real, l: real, m: real)
    ensures 2.0 * d * m - 2.0 * d * l == 2.0 * d * (m - l)
    ensures 2.0 * d * (m - 0.5) - 2.0 * d * (l - 0.5) == 2.0 * d * (m - l)
  {
  }

  /** The parameters at full saving, in the middle and at full performance. */
  lemma LeverAnchors()
    ensures LeverWeights(0.0) == Weights(0.20, 0.10, 0.70) && LeverWeights(0.5) == Weights(0.35, 0.20, 0.45)
    ensures LeverWeights(1.0) == Weights(0.55, 0.40, 0.05)
    ensures QualityFloor(0.0) == 0.75 && QualityFloor(0.5) == 0.90 && QualityFloor(1.0) == 1.00
    ensures ExchangeRate(0.0) == 0.5 && ExchangeRate(0.5) == 0.8 && ExchangeRate(1.0) == 1.5
    ensures TimeSlack(0.0) == 0.40 && TimeSlack(0.5) == 0.215 && TimeSlack(1.0) == 0.03
  {
    hide Piecewise;
    PiecewiseAnchors(0.20, 0.35, 0.55);
    PiecewiseAnchors(0.10, 0.20, 0.40);
    PiecewiseAnchors(0.70, 0.45, 0.05);
    PiecewiseAnchors(0.75, 0.90, 1.00);
    PiecewiseAnchors(0.5, 0.8, 1.5);
  }

  /** At every lever position the weights are shares of one, quality and speed gain as energy
      loses, and no parameter leaves the range of its anchors. */
  lemma LeverShares(l: real)
    requires 0.0 <= l <= 1.0
    ensures var w := LeverWeights(l);
      && w.q + w.t + w.e == 1.0
      && 0.20 <= w.q <= 0.55 && 0.10 <= w.t <= 0.40 && 0.05 <= w.e <= 0.70
    ensures 0.75 <= QualityFloor(l) <= 1.0 && 0.5 <= ExchangeRate(l) <= 1.5 && 0.03 <= TimeSlack(l) <= 0.40
  {
    PiecewiseRange(l, 0.20, 0.35, 0.55);
    PiecewiseRange(l, 0.10, 0.20, 0.40);
    PiecewiseRange(l, 0.70, 0.45, 0.05);
    PiecewiseRange(l, 0.75, 0.90, 1.00);
    PiecewiseRange(l, 0.5, 0.8, 1.5);
  }

  // ----- candidates -----

  /** The plan name up to its first underscore. */
  function FirstPart(s: string): string {
    if s == "" || s[0] == '_' then "" else [s[0]] + FirstPart(s[1..])
  }

  predicate ClockCapped(name: string) {
    var part := FirstPart(name);
    |part| > 3 && 'd' in part[3..]
  }

  predicate Allowed(p: Plan, hot: bool, gpuOk: bool) {
    && (gpuOk || p.backend != "gpu")
    && !(hot && p.backend == "gpu" && p.gpuMhz >= 1200 && !ClockCapped(p.name))
  }

  function Cost(p: Plan, nPrompt: nat, nOut: nat): Costed {
    Costed(p, Total(nPrompt as real, p.ePre, nOut as real, p.eDec), Total(nPrompt as real, p.tPre, nOut as real, p.tDec))
  }

  function Total(u: real, x: real, v: real, y: real): real { u * x + v * y }

  function Candidates(rows: seq<Plan>, nPrompt: nat, nOut: nat, hot: bool, gpuOk: bool): seq<Costed> {
    if rows == [] then []
    else
      var rest := Candidates(rows[1..], nPrompt, nOut, hot, gpuOk);
      if Allowed(rows[0], hot, gpuOk) then [Cost(rows[0], nPrompt, nOut)] + rest else rest
  }

  lemma {:induction false} FirstPartIs(s: string)
    ensures FirstPart(s) <= s && '_' !in FirstPart(s)
    ensures |FirstPart(s)| < |s| ==> s[|FirstPart(s)|] == '_'
  {
    if s != "" && s[0] != '_' {
      FirstPartIs(s[1..]);
    }
  }

  /** The mark of a capped decode clock: a "d" from the fourth character on, before any underscore. */
  lemma ClockCappedIs(name: string)
    ensures ClockCapped(name) <==> exists i :: 3 <= i < |name| && name[i] == 'd' && '_' !in name[..i]
  {
    var part := FirstPart(name);
    FirstPartIs(name);
    hide FirstPart;
    if ClockCapped(name) {
      var j :| 0 <= j < |part[3..]| && part[3..][j] == 'd';
      assert name[3 + j] == part[3 + j] && name[..3 + j] == part[..3 + j];
    }
    if i :| 3 <= i < |name| && name[i] == 'd' && '_' !in name[..i] {
      assert part[3..][i - 3] == name[i];
    }
  }

  /** Exactly the rows that the phone's state allows are candidates, each at the price of the request: no GPU
      plan without the GPU, and when hot none that runs it at 1200 MHz or more with no mark in its name. */
  lemma {:induction false} CandidateIff(rows: seq<Plan>, nPrompt: nat, nOut: nat, hot: bool, gpuOk: bool, c: Costed)
    ensures c in Candidates(rows, nPrompt, nOut, hot, gpuOk) <==>
      && c.plan in rows
      && (c.plan.backend == "gpu" ==>
            gpuOk && (hot && c.plan.gpuMhz >= 1200 ==>
              exists i :: 3 <= i < |c.plan.name| && c.plan.name[i] == 'd' && '_' !in c.plan.name[..i]))
      && c.e == nPrompt as real * c.plan.ePre + nOut as real * c.plan.eDec
      && c.t == nPrompt as real * c.plan.tPre + nOut as real * c.plan.tDec
  {
    ClockCappedIs(c.plan.name);
    hide ClockCapped;
    if rows != [] {
      var rest := Candidates(rows[1..], nPrompt, nOut, hot, gpuOk);
      CandidateIff(rows[1..], nPrompt, nOut, hot, gpuOk, c);
      assert c in Candidates(rows, nPrompt, nOut, hot, gpuOk) <==>
        (Allowed(rows[0], hot, gpuOk) && c == Cost(rows[0], nPrompt, nOut)) || c in rest;
      assert c.plan in rows <==> c.plan == rows[0] || c.plan in rows[1..];
    }
  }

  /** The candidates come in the order of the table. */
  lemma {:induction false} CandidatesInOrder(rows: seq<Plan>, more: seq<Plan>, nPrompt: nat, nOut: nat, hot: bool, gpuOk: bool)
    ensures Candidates(rows + more, nPrompt, nOut, hot, gpuOk)
         == Candidates(rows, nPrompt, nOut, hot, gpuOk) + Candidates(more, nPrompt, nOut, hot, gpuOk)
  {
    hide Allowed, Cost;
    if rows == [] {
      assert rows + more == more;
    } else {
      assert (rows + more)[1..] == rows[1..] + more;
      CandidatesInOrder(rows[1..], more, nPrompt, nOut, hot, gpuOk);
    }
  }

  function MinEnergy(s: seq<Costed>): (m: real)
    requires s != []
    ensures forall i :: 0 <= i < |s| ==> m <= s[i].e
  {
    if |s| == 1 then s[0].e
    else var m := MinEnergy(s[1..]); if s[0].e <= m then s[0].e else m
  }

  function MinTime(s: seq<Costed>): (m: real)
    requires s != []
    ensures forall i :: 0 <= i < |s| ==> m <= s[i].t
  {
    if |s| == 1 then s[0].t
    else var m := MinTime(s[1..]); if s[0].t <= m then s[0].t else m
  }

  // ----- the backend with the best utility -----

  function Utility(c: Costed, w: Weights, eb: real, tb: real): real
    requires eb != 0.0 && tb != 0.0
  {
    w.q * c.plan.q - w.t * c.t / tb - w.e * c.e / eb
  }

  /** One candidate is preferred to another exactly when its quality is worth what it takes more of: time in
      units of the quickest, energy in units of the cheapest candidate. */
  lemma UtilityCompares(x: Costed, y: Costed, w: Weights, eb: real, tb: real)
    requires eb > 0.0 && tb > 0.0
    ensures Utility(x, w, eb, tb) >= Utility(y, w, eb, tb) <==>
            w.q * (x.plan.q - y.plan.q) >= w.t * ((x.t - y.t) / tb) + w.e * ((x.e - y.e) / eb)
  {
    Quotients(w.t, x.t, y.t, tb);
    Quotients(w.e, x.e, y.e, eb);
    Minus(w.q, x.plan.q, y.plan.q);
    Worth(w.q * x.plan.q, w.q * y.plan.q, w.t * x.t / tb, w.t * y.t / tb, w.e * x.e / eb, w.e * y.e / eb);
  }

  lemma Worth(qx: real, qy: real, tx: real, ty: real, ex: real, ey: real)
    ensures qx - tx - ex >= qy - ty - ey <==> qx - qy >= (tx - ty) + (ex - ey)
  {
  }

  lemma Minus(w: real, x: real, y: real)
    ensures w * (x - y) == w * x - w * y
  {
  }

  lemma Quotients(w: real, x: real, y: real, b: real)
    requires b > 0.0
    ensures w * ((x - y) / b) == w * x / b - w * y / b
  {
    var p, q, r := (x - y) / b, w * x / b, w * y / b;
    assert p * b == x - y && q * b == w * x && r * b == w * y;
    assert (w * p) * b == w * (p * b) && (q - r) * b == q * b - r * b;
    assert (w * p - (q - r)) * b == 0.0;
  }

  /** The first candidate of the greatest utility. */
  function Favourite(s: seq<Costed>, w: Weights, eb: real, tb: real): (i: nat)
    requires s != [] && eb != 0.0 && tb != 0.0
    ensures i < |s|
    ensures forall j :: 0 <= j < |s| ==> Utility(s[j], w, eb, tb) <= Utility(s[i], w, eb, tb)
    ensures forall j :: 0 <= j < i ==> Utility(s[j], w, eb, tb) < Utility(s[i], w, eb, tb)
    decreases |s|
  {
    if |s| == 1 then 0
    else
      var i := Favourite(s[1..], w, eb, tb);
      if Utility(s[i + 1], w, eb, tb) <= Utility(s[0], w, eb, tb) then 0 else i + 1
  }

  // ----- the ladder -----

  function OnBackend(s: seq<Costed>, backend: string): (r: seq<Costed>)
    ensures forall c :: c in r <==> c in s && c.plan.backend == backend
  {
    if s == [] then []
    else if s[0].plan.backend == backend then [s[0]] + OnBackend(s[1..], backend)
    else OnBackend(s[1..], backend)
  }

  /** Higher quality first, and among equals the quicker. */
  predicate Precedes(x: Costed, y: Costed) {
    x.plan.q > y.plan.q || (x.plan.q == y.plan.q && x.t < y.t)
  }

  ghost predicate Descending(s: seq<Costed>) {
    forall i, j :: 0 <= i < j < |s| ==> !Precedes(s[j], s[i])
  }

  function Insert(c: Costed, s: seq<Costed>): (r: seq<Costed>)
    ensures multiset(r) == multiset(s) + multiset{c}
    ensures |r| == |s| + 1
  {
    if s == [] then [c]
    else if Precedes(s[0], c) then
      assert s == [s[0]] + s[1..];
      [s[0]] + Insert(c, s[1..])
    else [c] + s
  }

  /** The stable sort of the ladder. */
  function Ladder(s: seq<Costed>): (r: seq<Costed>)
    ensures multiset(r) == multiset(s) && |r| == |s|
  {
    if s == [] then []
    else
      assert s == [s[0]] + s[1..];
      Insert(s[0], Ladder(s[1..]))
  }

  lemma {:induction false} InsertDescending(c: Costed, s: seq<Costed>)
    requires Descending(s)
    ensures Descending(Insert(c, s))
  {
    if s != [] && Precedes(s[0], c) {
      InsertDescending(c, s[1..]);
      var r := Insert(c, s[1..]);
      forall j | 0 <= j < |r|
        ensures !Precedes(r[j], s[0])
      {
        assert r[j] in multiset(s[1..]) + multiset{c};
        assert r[j] == c || r[j] in s[1..];
      }
    }
  }

  lemma {:induction false} LadderDescending(s: seq<Costed>)
    ensures Descending(Ladder(s))
  {
    if s != [] {
      LadderDescending(s[1..]);
      InsertDescending(s[0], Ladder(s[1..]));
    }
  }

  /** So quality never rises along the ladder, and among equals neither does time fall. */
  lemma DescendingMeans(s: seq<Costed>, i: nat, j: nat)
    requires Descending(s) && i < j < |s|
    ensures s[i].plan.q > s[j].plan.q || (s[i].plan.q == s[j].plan.q && s[i].t <= s[j].t)
  {
    assert !Precedes(s[j], s[i]);
  }

  /** The rungs of one quality and time, in order. */
  function Alike(s: seq<Costed>, q: real, t: real): seq<Costed> {
    if s == [] then [] else (if s[0].plan.q == q && s[0].t == t then [s[0]] else []) + Alike(s[1..], q, t)
  }

  lemma AlikeCons(c: Costed, s: seq<Costed>, q: real, t: real)
    ensures Alike([c] + s, q, t) == if c.plan.q == q && c.t == t then [c] + Alike(s, q, t) else Alike(s, q, t)
  {
    assert ([c] + s)[1..] == s;
  }

  lemma {:induction false} InsertIsStable(c: Costed, s: seq<Costed>, q: real, t: real)
    ensures Alike(Insert(c, s), q, t) == if c.plan.q == q && c.t == t then [c] + Alike(s, q, t) else Alike(s, q, t)
  {
    AlikeCons(c, s, q, t);
    if s == [] {
      assert [c] + s == [c];
    } else if Precedes(s[0], c) {
      assert s == [s[0]] + s[1..];
      InsertIsStable(c, s[1..], q, t);
      AlikeCons(s[0], s[1..], q, t);
      AlikeCons(s[0], Insert(c, s[1..]), q, t);
    }
    hide Alike;
  }

  /** Rungs that the sort cannot tell apart stay in the order of the table. */
  lemma {:induction false} LadderIsStable(s: seq<Costed>, q: real, t: real)
    ensures Alike(Ladder(s), q, t) == Alike(s, q, t)
  {
    if s != [] {
      LadderIsStable(s[1..], q, t);
      InsertIsStable(s[0], Ladder(s[1..]), q, t);
      AlikeCons(s[0], s[1..], q, t);
      assert s == [s[0]] + s[1..];
    }
  }

  // ----- the walk -----

  /** A saving that costs no time, or enough saving for the time it costs. */
  predicate Pays(cur: Costed, k: Costed, lam: real)
    requires cur.e != 0.0 && cur.t != 0.0
  {
    var dE := (cur.e - k.e) / cur.e;
    var dT := (k.t - cur.t) / cur.t;
    k.e < cur.e && (dT <= 0.0 || dE >= lam * dT)
  }

  ghost predicate Positive(s: seq<Costed>) {
    forall i :: 0 <= i < |s| ==> s[i].e > 0.0 && s[i].t > 0.0
  }

  ghost function Walk(cur: Costed, rest: seq<Costed>, qf: real, tbud: real, lam: real): Costed
    requires cur.e > 0.0 && cur.t > 0.0 && Positive(rest)
    decreases |rest|
  {
    if rest == [] || rest[0].plan.q < qf || rest[0].t > tbud then cur
    else Walk(if Pays(cur, rest[0], lam) then rest[0] else cur, rest[1..], qf, tbud, lam)
  }

  /** Without the quotients: a step is taken exactly when it saves energy and either takes no more time or
      saves at least lambda times the share of time it costs. */
  lemma PaysMeans(cur: Costed, k: Costed, lam: real)
    requires cur.e > 0.0 && cur.t > 0.0
    ensures Pays(cur, k, lam) <==>
      k.e < cur.e && (k.t <= cur.t || (cur.e - k.e) * cur.t >= lam * (k.t - cur.t) * cur.e)
  {
    var dE, dT := (cur.e - k.e) / cur.e, (k.t - cur.t) / cur.t;
    assert dE * cur.e == cur.e - k.e && dT * cur.t == k.t - cur.t;
    SignOf(dT, cur.t);
    var both := cur.e * cur.t;
    SignOf(dE - lam * dT, both);
    assert both > 0.0;
    assert (dE - lam * dT) * both == (dE * cur.e) * cur.t - lam * (dT * cur.t) * cur.e;
  }

  lemma SignOf(x: real, y: real)
    ensures y > 0.0 ==> (x * y >= 0.0 <==> x >= 0.0) && (x * y <= 0.0 <==> x <= 0.0)
  {
  }

  /** The exchange rate over the whole walk: the energy saved is at least lambda times the time lost, in units
      of the pick's energy over the time budget. */
  lemma {:induction false} WalkIsWorthItsTime(cur: Costed, rest: seq<Costed>, qf: real, tbud: real, lam: real)
    requires cur.e > 0.0 && 0.0 < cur.t <= tbud && Positive(rest) && lam >= 0.0
    ensures var pick := Walk(cur, rest, qf, tbud, lam);
      pick.e > 0.0 && (cur.e - pick.e) * tbud >= lam * (pick.t - cur.t) * pick.e
    decreases |rest|
  {
    hide Pays;
    if rest != [] && rest[0].plan.q >= qf && rest[0].t <= tbud {
      var next := if Pays(cur, rest[0], lam) then rest[0] else cur;
      WalkIsWorthItsTime(next, rest[1..], qf, tbud, lam);
      WalkBounds(next, rest[1..], qf, tbud, lam);
      if Pays(cur, rest[0], lam) {
        PaysMeans(cur, next, lam);
        OneStepIsWorth(cur, next, Walk(next, rest[1..], qf, tbud, lam), tbud, lam);
      }
    }
  }

  lemma OneStepIsWorth(cur: Costed, k: Costed, pick: Costed, tbud: real, lam: real)
    requires 0.0 < pick.e <= k.e < cur.e && 0.0 < cur.t <= tbud && lam >= 0.0
    requires k.t <= cur.t || (cur.e - k.e) * cur.t >= lam * (k.t - cur.t) * cur.e
    requires (k.e - pick.e) * tbud >= lam * (pick.t - k.t) * pick.e
    ensures (cur.e - pick.e) * tbud >= lam * (pick.t - cur.t) * pick.e
  {
    var lost := k.t - cur.t;
    StepIsWorth(cur.e - k.e, lost, cur.t, tbud, cur.e, pick.e, lam);
    assert (cur.e - pick.e) * tbud == (cur.e - k.e) * tbud + (k.e - pick.e) * tbud;
    assert lam * (pick.t - cur.t) * pick.e == lam * lost * pick.e + lam * (pick.t - k.t) * pick.e;
  }

  lemma StepIsWorth(saved: real, lost: real, t: real, tbud: real, e: real, low: real, lam: real)
    requires saved > 0.0 && 0.0 < t <= tbud && 0.0 < low <= e && lam >= 0.0
    requires lost <= 0.0 || saved * t >= lam * lost * e
    ensures saved * tbud >= lam * lost * low
  {
    if lost <= 0.0 {
      ProductSign(saved, tbud);
      ProductSign(lam, -lost);
      ProductSign(lam * -lost, low);
    } else {
      ProductSign(lam, lost);
      Ordered(t, tbud, saved);
      Ordered(low, e, lam * lost);
    }
  }

  /** The walk never costs energy, and leaves its start only within the floor and the budget. */
  lemma {:induction false} WalkBounds(cur: Costed, rest: seq<Costed>, qf: real, tbud: real, lam: real)
    requires cur.e > 0.0 && cur.t > 0.0 && Positive(rest)
    ensures var r := Walk(cur, rest, qf, tbud, lam);
      && r.e <= cur.e
      && (r == cur || (r in rest && r.e < cur.e && r.plan.q >= qf && r.t <= tbud))
    decreases |rest|
  {
    if rest != [] && rest[0].plan.q >= qf && rest[0].t <= tbud {
      WalkBounds(if Pays(cur, rest[0], lam) then rest[0] else cur, rest[1..], qf, tbud, lam);
    }
  }

  /** A lower floor and a larger budget only extend the walk, so they never cost energy. */
  lemma {:induction false} LooserWalkSavesMore(cur: Costed, rest: seq<Costed>, lam: real,
                                               qf: real, tbud: real, qfLow: real, tbudHigh: real)
    requires cur.e > 0.0 && cur.t > 0.0 && Positive(rest) && qfLow <= qf && tbud <= tbudHigh
    ensures Walk(cur, rest, qfLow, tbudHigh, lam).e <= Walk(cur, rest, qf, tbud, lam).e
    decreases |rest|
  {
    if rest == [] || rest[0].plan.q < qf || rest[0].t > tbud {
      WalkBounds(cur, rest, qfLow, tbudHigh, lam);
    } else {
      LooserWalkSavesMore(if Pays(cur, rest[0], lam) then rest[0] else cur, rest[1..], lam, qf, tbud, qfLow, tbudHigh);
    }
  }

  /** The walk that passes over the plans outside the limits instead of stopping at the first. */
  ghost function WalkSkipping(cur: Costed, rest: seq<Costed>, qf: real, tbud: real, lam: real): Costed
    requires cur.e > 0.0 && cur.t > 0.0 && Positive(rest)
    decreases |rest|
  {
    if rest == [] then cur
    else
      var next := if rest[0].plan.q >= qf && rest[0].t <= tbud && Pays(cur, rest[0], lam) then rest[0] else cur;
      WalkSkipping(next, rest[1..], qf, tbud, lam)
  }

  ghost predicate NoneFits(rest: seq<Costed>, qf: real, tbud: real) {
    forall i :: 0 <= i < |rest| ==> !Fits(rest[i], qf, tbud)
  }

  lemma {:induction false} NothingToTake(cur: Costed, rest: seq<Costed>, qf: real, tbud: real, lam: real)
    requires cur.e > 0.0 && cur.t > 0.0 && Positive(rest) && NoneFits(rest, qf, tbud)
    ensures WalkSkipping(cur, rest, qf, tbud, lam) == cur
    decreases |rest|
  {
    if rest != [] {
      NothingToTake(cur, rest[1..], qf, tbud, lam);
    }
  }

  predicate Fits(k: Costed, qf: real, tbud: real) { k.plan.q >= qf && k.t <= tbud }

  /** How many rungs the walk looks at before it stops. */
  ghost function Seen(rest: seq<Costed>, qf: real, tbud: real): (n: nat)
    ensures n <= |rest|
    ensures forall k :: 0 <= k < n ==> Fits(rest[k], qf, tbud)
    ensures n < |rest| ==> !Fits(rest[n], qf, tbud)
  {
    if rest == [] || !Fits(rest[0], qf, tbud) then 0 else 1 + Seen(rest[1..], qf, tbud)
  }

  ghost predicate SlowAfterSlow(rest: seq<Costed>, qf: real, tbud: real) {
    forall i, j :: 0 <= i < j < |rest| && rest[i].t > tbud ==> !Fits(rest[j], qf, tbud)
  }

  /** The walk looks at every plan inside the limits exactly when no plan over the time budget stands
      before one: the quality floor alone never hides a plan, because quality only falls. */
  lemma SeesEveryFit(rest: seq<Costed>, qf: real, tbud: real)
    requires Descending(rest)
    ensures (forall j :: 0 <= j < |rest| && Fits(rest[j], qf, tbud) ==> j < Seen(rest, qf, tbud))
       <==> SlowAfterSlow(rest, qf, tbud)
  {
    var n := Seen(rest, qf, tbud);
    if SlowAfterSlow(rest, qf, tbud) {
      forall j | 0 <= j < |rest| && Fits(rest[j], qf, tbud)
        ensures j < n
      {
        var jumped := n < |rest| && Precedes(rest[j], rest[n]);
      }
    } else {
      var i, j :| 0 <= i < j < |rest| && rest[i].t > tbud && Fits(rest[j], qf, tbud);
      assert !Fits(rest[i], qf, tbud);
    }
  }

  /** The start is the pick exactly when none of the rungs looked at pays from it. */
  lemma {:induction false} StaysIffNothingPays(cur: Costed, rest: seq<Costed>, qf: real, tbud: real, lam: real)
    requires cur.e > 0.0 && cur.t > 0.0 && Positive(rest)
    ensures Walk(cur, rest, qf, tbud, lam) == cur <==>
            (forall k :: 0 <= k < Seen(rest, qf, tbud) ==> !Pays(cur, rest[k], lam))
    decreases |rest|
  {
    hide Pays;
    var n := Seen(rest, qf, tbud);
    if n > 0 {
      var tail := rest[1..];
      if Pays(cur, rest[0], lam) {
        PayingIsCheaper(cur, rest[0], lam);
        WalkBounds(rest[0], tail, qf, tbud, lam);
      } else {
        StaysIffNothingPays(cur, tail, qf, tbud, lam);
        assert forall k :: 0 < k < n ==> rest[k] == tail[k - 1];
      }
    }
  }

  lemma PayingIsCheaper(cur: Costed, k: Costed, lam: real)
    requires cur.e > 0.0 && cur.t > 0.0 && Pays(cur, k, lam)
    ensures k.e < cur.e
  {
  }

  lemma {:induction false} SkippingBounds(cur: Costed, rest: seq<Costed>, qf: real, tbud: real, lam: real)
    requires cur.e > 0.0 && cur.t > 0.0 && Positive(rest)
    ensures WalkSkipping(cur, rest, qf, tbud, lam).e <= cur.e
    decreases |rest|
  {
    if rest != [] {
      var takes := Fits(rest[0], qf, tbud) && Pays(cur, rest[0], lam);
      SkippingBounds(if takes then rest[0] else cur, rest[1..], qf, tbud, lam);
    }
  }

  /** None of the rungs from a place on that fit pays from the given plan. */
  ghost predicate NoneLures(cur: Costed, rest: seq<Costed>, from: nat, qf: real, tbud: real, lam: real)
    requires cur.e != 0.0 && cur.t != 0.0
  {
    forall k :: from <= k < |rest| && Fits(rest[k], qf, tbud) ==> !Pays(cur, rest[k], lam)
  }

  lemma {:induction false} SkippingStaysIff(cur: Costed, rest: seq<Costed>, qf: real, tbud: real, lam: real)
    requires cur.e > 0.0 && cur.t > 0.0 && Positive(rest)
    ensures WalkSkipping(cur, rest, qf, tbud, lam) == cur <==> NoneLures(cur, rest, 0, qf, tbud, lam)
    decreases |rest|
  {
    hide Pays, Fits;
    if rest != [] {
      var tail := rest[1..];
      assert forall k :: 0 < k < |rest| ==> rest[k] == tail[k - 1];
      if Fits(rest[0], qf, tbud) && Pays(cur, rest[0], lam) {
        PayingIsCheaper(cur, rest[0], lam);
        SkippingBounds(rest[0], tail, qf, tbud, lam);
        SkippingTakes(cur, rest, qf, tbud, lam);
      } else {
        SkippingPasses(cur, rest, qf, tbud, lam);
        SkippingStaysIff(cur, tail, qf, tbud, lam);
        assert forall k :: 0 <= k < |tail| ==> tail[k] == rest[k + 1];
      }
    }
  }

  lemma SkippingTakes(cur: Costed, rest: seq<Costed>, qf: real, tbud: real, lam: real)
    requires cur.e > 0.0 && cur.t > 0.0 && Positive(rest) && rest != []
    requires Fits(rest[0], qf, tbud) && Pays(cur, rest[0], lam)
    ensures WalkSkipping(cur, rest, qf, tbud, lam) == WalkSkipping(rest[0], rest[1..], qf, tbud, lam)
  {
  }

  lemma SkippingPasses(cur: Costed, rest: seq<Costed>, qf: real, tbud: real, lam: real)
    requires cur.e > 0.0 && cur.t > 0.0 && Positive(rest) && rest != []
    requires !(Fits(rest[0], qf, tbud) && Pays(cur, rest[0], lam))
    ensures WalkSkipping(cur, rest, qf, tbud, lam) == WalkSkipping(cur, rest[1..], qf, tbud, lam)
  {
  }

  /** Both walks agree as far as the first one goes. */
  lemma {:induction false} SkippingFromPick(cur: Costed, rest: seq<Costed>, qf: real, tbud: real, lam: real)
    requires cur.e > 0.0 && cur.t > 0.0 && Positive(rest)
    ensures var pick, n := Walk(cur, rest, qf, tbud, lam), Seen(rest, qf, tbud);
      && pick.e > 0.0 && pick.t > 0.0 && Positive(rest[n..])
      && WalkSkipping(cur, rest, qf, tbud, lam) == WalkSkipping(pick, rest[n..], qf, tbud, lam)
    decreases |rest|
  {
    if rest != [] && Fits(rest[0], qf, tbud) {
      var next := if Pays(cur, rest[0], lam) then rest[0] else cur;
      SkippingFromPick(next, rest[1..], qf, tbud, lam);
      hide Pays;
      assert rest[1..][Seen(rest[1..], qf, tbud)..] == rest[Seen(rest, qf, tbud)..];
    } else {
      assert rest[0..] == rest;
    }
  }

  /** The stops cost nothing exactly when no rung behind the stop that fits pays from the pick. */
  lemma StopCostsNothingIff(cur: Costed, rest: seq<Costed>, qf: real, tbud: real, lam: real)
    requires cur.e > 0.0 && cur.t > 0.0 && Positive(rest)
    ensures var pick := Walk(cur, rest, qf, tbud, lam);
      && pick.e > 0.0 && pick.t > 0.0
      && (pick == WalkSkipping(cur, rest, qf, tbud, lam) <==>
          NoneLures(pick, rest, Seen(rest, qf, tbud), qf, tbud, lam))
  {
    SkippingFromPick(cur, rest, qf, tbud, lam);
    var pick, n := Walk(cur, rest, qf, tbud, lam), Seen(rest, qf, tbud);
    SkippingStaysIff(pick, rest[n..], qf, tbud, lam);
    hide Pays, Walk, WalkSkipping, Seen, Fits, Positive;
    assert forall k :: n <= k < |rest| ==> rest[k] == rest[n..][k - n];
    assert forall k :: 0 <= k < |rest| - n ==> rest[n..][k] == rest[n + k];
  }

  /** What the caller can check on the ladder alone: with no plan over the time budget before one that
      fits, stopping gives the plan that skipping would have given. */
  lemma {:induction false} StopLosesNothing(cur: Costed, rest: seq<Costed>, qf: real, tbud: real, lam: real)
    requires cur.e > 0.0 && cur.t > 0.0 && Positive(rest) && Descending(rest)
    requires SlowAfterSlow(rest, qf, tbud)
    ensures Walk(cur, rest, qf, tbud, lam) == WalkSkipping(cur, rest, qf, tbud, lam)
    decreases |rest|
  {
    if rest != [] {
      if rest[0].plan.q < qf || rest[0].t > tbud {
        assert NoneFits(rest, qf, tbud) by {
          forall i | 0 <= i < |rest|
            ensures !Fits(rest[i], qf, tbud)
          {
            if i > 0 {
              assert !Precedes(rest[i], rest[0]);
            }
          }
        }
        NothingToTake(cur, rest, qf, tbud, lam);
      } else {
        StopLosesNothing(if Pays(cur, rest[0], lam) then rest[0] else cur, rest[1..], qf, tbud, lam);
      }
    }
  }

  /** With no plan over the time budget, or with plans of one quality only, both stops are free. */
  lemma StopsAreFree(cur: Costed, rest: seq<Costed>, qf: real, tbud: real, lam: real)
    requires cur.e > 0.0 && cur.t > 0.0 && Positive(rest) && Descending(rest)
    requires
      || (forall i :: 0 <= i < |rest| ==> rest[i].t <= tbud)
      || (forall i, j :: 0 <= i < j < |rest| ==> rest[i].plan.q == rest[j].plan.q)
    ensures Walk(cur, rest, qf, tbud, lam) == WalkSkipping(cur, rest, qf, tbud, lam)
  {
    forall i, j | 0 <= i < j < |rest| && rest[i].t > tbud
      ensures !Fits(rest[j], qf, tbud)
    {
      assert !Precedes(rest[j], rest[i]);
    }
    StopLosesNothing(cur, rest, qf, tbud, lam);
  }

  /** The time limit is not monotone along a ladder of several qualities: here the stop at the slow
      plan hides one that is inside every limit and takes half the energy. */
  lemma TimeStopCanLose(a: Plan, b: Plan, c: Plan)
    requires a.q == 1.0 && b.q == 0.9 && c.q == 0.8
    ensures var cur, rest := Costed(a, 2.0, 10.0), [Costed(b, 2.0, 20.0), Costed(c, 1.0, 10.0)];
      && Descending([cur] + rest)
      && Walk(cur, rest, 0.75, 11.0, 1.0) == cur
      && WalkSkipping(cur, rest, 0.75, 11.0, 1.0) == rest[1]
  {
    var cur, slow, quick := Costed(a, 2.0, 10.0), Costed(b, 2.0, 20.0), Costed(c, 1.0, 10.0);
    var rest := [slow, quick];
    assert rest[1..] == [quick] && rest[1..][1..] == [];
    assert Pays(cur, quick, 1.0);
    assert WalkSkipping(quick, [], 0.75, 11.0, 1.0) == quick;
    assert WalkSkipping(cur, [quick], 0.75, 11.0, 1.0) == quick;
  }

  // ----- the whole choice -----

  ghost predicate AllMeasured(rows: seq<Plan>) {
    forall p :: p in rows ==> p.ePre >= 0.0 && p.eDec >= 0.0 && p.tPre >= 0.0 && p.tDec >= 0.0
  }

  lemma {:induction false} CandidatesOf(rows: seq<Plan>, nPrompt: nat, nOut: nat, hot: bool, gpuOk: bool)
    requires AllMeasured(rows)
    ensures forall c :: c in Candidates(rows, nPrompt, nOut, hot, gpuOk) ==>
      c.plan in rows && Allowed(c.plan, hot, gpuOk) && c == Cost(c.plan, nPrompt, nOut) && c.e >= 0.0 && c.t >= 0.0
  {
    if rows != [] {
      CandidatesOf(rows[1..], nPrompt, nOut, hot, gpuOk);
      assert rows[0] in rows;
    }
  }

  /** The ladder of the favourite backend: its head is where the walk starts. */
  ghost function Rungs(cands: seq<Costed>, w: Weights): seq<Costed>
    requires cands != [] && MinEnergy(cands) != 0.0 && MinTime(cands) != 0.0
  {
    var i := Favourite(cands, w, MinEnergy(cands), MinTime(cands));
    Ladder(OnBackend(cands, cands[i].plan.backend))
  }

  function Budget(t: real, tslack: real): real { t * (1.0 + tslack) }

  ghost predicate IsLadder(rungs: seq<Costed>) { rungs != [] && Positive(rungs) }

  /** The plan the walk ends on. */
  ghost function Pick(rungs: seq<Costed>, lam: real, qf: real, tslack: real): Costed
    requires IsLadder(rungs)
  {
    Walk(rungs[0], rungs[1..], qf, Budget(rungs[0].t, tslack), lam)
  }

  ghost predicate Favoured(f: Costed, cands: seq<Costed>, w: Weights)
    requires cands != [] && MinEnergy(cands) != 0.0 && MinTime(cands) != 0.0
  {
    f in cands && forall c :: c in cands ==>
      Utility(c, w, MinEnergy(cands), MinTime(cands)) <= Utility(f, w, MinEnergy(cands), MinTime(cands))
  }

  lemma CostsArePositive(s: seq<Costed>)
    requires s != [] && MinEnergy(s) > 0.0 && MinTime(s) > 0.0
    ensures forall c :: c in s ==> c.e > 0.0 && c.t > 0.0
  {
  }

  lemma RungsStart(cands: seq<Costed>, w: Weights)
    requires cands != [] && MinEnergy(cands) > 0.0 && MinTime(cands) > 0.0
    ensures IsLadder(Rungs(cands, w)) && Descending(Rungs(cands, w))
    ensures forall c :: c in Rungs(cands, w) ==> c in cands && c.plan.backend == Rungs(cands, w)[0].plan.backend
    ensures exists f :: Favoured(f, cands, w) && f.plan.backend == Rungs(cands, w)[0].plan.backend
  {
    hide Utility, Ladder, OnBackend, Favourite, Descending, MinEnergy, MinTime;
    var i := Favourite(cands, w, MinEnergy(cands), MinTime(cands));
    CostsArePositive(cands);
    var same := OnBackend(cands, cands[i].plan.backend);
    var rungs := Ladder(same);
    assert cands[i] in same;
    LadderDescending(same);
    forall c | c in rungs
      ensures c in cands && c.plan.backend == cands[i].plan.backend
    {
      assert c in multiset(rungs);
      assert c in same;
    }
    forall k | 0 <= k < |rungs|
      ensures rungs[k].e > 0.0 && rungs[k].t > 0.0
    {
      assert rungs[k] in cands;
    }
    assert Favoured(cands[i], cands, w) && rungs[0] in rungs;
  }

  lemma {:induction false} MinimaAttained(s: seq<Costed>)
    requires s != []
    ensures exists c :: c in s && c.e == MinEnergy(s)
    ensures exists c :: c in s && c.t == MinTime(s)
  {
    assert s[0] in s;
    if |s| > 1 {
      MinimaAttained(s[1..]);
    }
  }

  lemma MinimaAreCosts(rows: seq<Plan>, nPrompt: nat, nOut: nat, hot: bool, gpuOk: bool)
    requires forall p :: p in rows ==> p.ePre >= 0.0 && p.eDec >= 0.0 && p.tPre >= 0.0 && p.tDec >= 0.0
    requires Candidates(rows, nPrompt, nOut, hot, gpuOk) != []
    ensures MinEnergy(Candidates(rows, nPrompt, nOut, hot, gpuOk)) >= 0.0
    ensures MinTime(Candidates(rows, nPrompt, nOut, hot, gpuOk)) >= 0.0
  {
    CandidatesOf(rows, nPrompt, nOut, hot, gpuOk);
    MinimaAttained(Candidates(rows, nPrompt, nOut, hot, gpuOk));
  }

  /** The walk on any table. Python raises when a plan it stands on costs nothing, as then neither
      the saving nor the slowdown can be expressed as a share. */
  ghost function WalkOutcome(cur: Costed, rest: seq<Costed>, qf: real, tbud: real, lam: real): Choice
    decreases |rest|
  {
    if rest == [] || rest[0].plan.q < qf || rest[0].t > tbud then Chosen(cur)
    else if cur.e == 0.0 || cur.t == 0.0 then DividedByZero
    else WalkOutcome(if Pays(cur, rest[0], lam) then rest[0] else cur, rest[1..], qf, tbud, lam)
  }

  lemma {:induction false} PositiveWalk(cur: Costed, rest: seq<Costed>, qf: real, tbud: real, lam: real)
    requires cur.e > 0.0 && cur.t > 0.0 && Positive(rest)
    ensures WalkOutcome(cur, rest, qf, tbud, lam) == Chosen(Walk(cur, rest, qf, tbud, lam))
    decreases |rest|
  {
    hide Pays;
    if rest != [] && rest[0].plan.q >= qf && rest[0].t <= tbud {
      PositiveWalk(if Pays(cur, rest[0], lam) then rest[0] else cur, rest[1..], qf, tbud, lam);
    }
  }

  lemma RungsExist(cands: seq<Costed>, w: Weights)
    requires cands != [] && MinEnergy(cands) != 0.0 && MinTime(cands) != 0.0
    ensures Rungs(cands, w) != []
  {
    hide Utility;
    var i := Favourite(cands, w, MinEnergy(cands), MinTime(cands));
    assert cands[i] in OnBackend(cands, cands[i].plan.backend);
  }

  ghost function Outcome(rungs: seq<Costed>, lam: real, qf: real, tslack: real): Choice
    requires rungs != []
  {
    WalkOutcome(rungs[0], rungs[1..], qf, Budget(rungs[0].t, tslack), lam)
  }

  lemma OutcomeIsPick(rungs: seq<Costed>, lam: real, qf: real, tslack: real)
    requires IsLadder(rungs)
    ensures Outcome(rungs, lam, qf, tslack) == Chosen(Pick(rungs, lam, qf, tslack))
  {
    hide Walk, WalkOutcome, Budget;
    PositiveWalk(rungs[0], rungs[1..], qf, Budget(rungs[0].t, tslack), lam);
  }

  /** What the caller gets, error cases included. */
  ghost predicate IsChoice(r: Choice, cands: seq<Costed>, w: Weights, lam: real, qf: real, tslack: real) {
    if cands == [] then r == NoCandidate
    else if MinEnergy(cands) == 0.0 || MinTime(cands) == 0.0 then r == DividedByZero
    else
      Rungs(cands, w) != [] && r == Outcome(Rungs(cands, w), lam, qf, tslack)
  }

  /** When both minima are positive the choice is the walk's pick, and nothing is divided by zero. */
  lemma ChoiceIsPick(r: Choice, cands: seq<Costed>, w: Weights, lam: real, qf: real, tslack: real)
    requires cands != [] && MinEnergy(cands) > 0.0 && MinTime(cands) > 0.0
    ensures IsLadder(Rungs(cands, w))
    ensures IsChoice(r, cands, w, lam, qf, tslack) <==> r == Chosen(Pick(Rungs(cands, w), lam, qf, tslack))
  {
    hide Rungs, Pick, Outcome, MinEnergy, MinTime, Positive, Descending, Favoured;
    RungsStart(cands, w);
    OutcomeIsPick(Rungs(cands, w), lam, qf, tslack);
  }

  method Choose(rows: seq<Plan>, nPrompt: nat, nOut: nat, w: Weights, lam: real, qf: real,
                hot: bool, gpuOk: bool, tslack: real) returns (r: Choice)
    ensures IsChoice(r, Candidates(rows, nPrompt, nOut, hot, gpuOk), w, lam, qf, tslack)
  {
    hide Candidates, Outcome, Ladder, OnBackend, Utility, MinEnergy, MinTime, Favourite;
    var cands := Candidates(rows, nPrompt, nOut, hot, gpuOk);
    if cands == [] {
      r := NoCandidate;
    } else {
      var eb, tb := MinEnergy(cands), MinTime(cands);
      if eb == 0.0 || tb == 0.0 {
        r := DividedByZero;
      } else {
        var f := Favourite(cands, w, eb, tb);
        var ladder := Ladder(OnBackend(cands, cands[f].plan.backend));
        RungsExist(cands, w);
        r := WalkDown(ladder, lam, qf, tslack);
      }
    }
  }

  method WalkDown(ladder: seq<Costed>, lam: real, qf: real, tslack: real) returns (r: Choice)
    requires ladder != []
    ensures r == Outcome(ladder, lam, qf, tslack)
  {
    hide Budget, Pays;
    var cur := ladder[0];
    var tbud := Budget(cur.t, tslack);
    var i, done := 1, false;
    r := Chosen(cur);
    while i < |ladder| && !done
      invariant 1 <= i <= |ladder|
      invariant !done ==> r == Chosen(cur)
      invariant !done ==>
        WalkOutcome(cur, ladder[i..], qf, tbud, lam) == WalkOutcome(ladder[0], ladder[1..], qf, tbud, lam)
      invariant done ==> r == WalkOutcome(ladder[0], ladder[1..], qf, tbud, lam)
      decreases |ladder| - i, !done
    {
      var k := ladder[i];
      assert ladder[i..][0] == k && ladder[i..][1..] == ladder[i + 1..];
      if k.plan.q < qf || k.t > tbud {
        done := true;
      } else if cur.e == 0.0 || cur.t == 0.0 {
        r := DividedByZero;
        done := true;
      } else {
        if Pays(cur, k, lam) {
          cur := k;
        }
        r := Chosen(cur);
        i := i + 1;
      }
    }
  }

  /** The pick: on its ladder, no dearer than the rung it starts from (which no rung precedes),
      within the slack of that rung's time, and above the floor unless it is that rung. */
  lemma PickIsSound(rungs: seq<Costed>, lam: real, qf: real, tslack: real)
    requires IsLadder(rungs) && Descending(rungs) && tslack >= 0.0
    ensures var start, r := rungs[0], Pick(rungs, lam, qf, tslack);
      && r in rungs && (forall c :: c in rungs ==> !Precedes(c, start))
      && r.e <= start.e && r.t <= start.t * (1.0 + tslack) && (r.plan.q >= qf || r == start)
  {
    hide Budget, Walk, Pays, Precedes;
    var start := rungs[0];
    BudgetCovers(start.t, tslack);
    WalkBounds(start, rungs[1..], qf, Budget(start.t, tslack), lam);
    FirstIsBest(rungs);
  }

  lemma FirstIsBest(rungs: seq<Costed>)
    requires rungs != [] && Descending(rungs)
    ensures (forall c :: c in rungs ==> !Precedes(c, rungs[0])) && forall c :: c in rungs[1..] ==> c in rungs
  {
    assert !Precedes(rungs[0], rungs[0]);
  }

  lemma BudgetCovers(t: real, tslack: real)
    requires t > 0.0 && tslack >= 0.0
    ensures t <= Budget(t, tslack) == t * (1.0 + tslack)
  {
    Ordered(1.0, 1.0 + tslack, t);
  }

  /** For one request, more slack or a lower floor never raises the energy of the choice. */
  lemma LooserPickSavesMore(rungs: seq<Costed>, lam: real,
                            qf: real, tslack: real, qfLow: real, tslackHigh: real)
    requires IsLadder(rungs) && qfLow <= qf && tslack <= tslackHigh
    ensures Pick(rungs, lam, qfLow, tslackHigh).e <= Pick(rungs, lam, qf, tslack).e
  {
    hide Walk, Pays;
    var t := rungs[0].t;
    Ordered(1.0 + tslack, 1.0 + tslackHigh, t);
    LooserWalkSavesMore(rungs[0], rungs[1..], lam, qf, Budget(t, tslack), qfLow, Budget(t, tslackHigh));
  }

  // ----- change of units -----

  function Rescale(p: Plan, a: real, b: real): Plan {
    p.(ePre := Part(a, p.ePre), eDec := Part(a, p.eDec), tPre := Part(b, p.tPre), tDec := Part(b, p.tDec))
  }

  function RescaleAll(rows: seq<Plan>, a: real, b: real): (r: seq<Plan>)
    ensures |r| == |rows|
  {
    if rows == [] then [] else [Rescale(rows[0], a, b)] + RescaleAll(rows[1..], a, b)
  }

  function Recost(c: Costed, a: real, b: real): Costed { Costed(Rescale(c.plan, a, b), Part(a, c.e), Part(b, c.t)) }

  function RecostAll(s: seq<Costed>, a: real, b: real): (r: seq<Costed>)
    ensures |r| == |s|
    ensures forall i :: 0 <= i < |s| ==> r[i] == Recost(s[i], a, b)
  {
    if s == [] then [] else [Recost(s[0], a, b)] + RecostAll(s[1..], a, b)
  }

  lemma PartOrder(a: real, x: real, y: real)
    requires a > 0.0
    ensures x < y <==> Part(a, x) < Part(a, y)
    ensures x > 0.0 <==> Part(a, x) > 0.0
    ensures x == y <==> Part(a, x) == Part(a, y)
  {
    if x < y {
      ProductPositive(a, y - x);
    } else if y < x {
      ProductPositive(a, x - y);
    }
    if x > 0.0 {
      ProductPositive(a, x);
    } else if x < 0.0 {
      ProductPositive(a, -x);
    }
  }

  lemma ProductPositive(c: real, x: real)
    requires c > 0.0 && x > 0.0
    ensures c * x > 0.0
  {
  }

  lemma Cancel(c: real, x: real, y: real)
    requires c > 0.0 && y != 0.0
    ensures Part(c, y) != 0.0 && Part(c, x) / Part(c, y) == x / y
  {
    var z := x / y;
    assert x == z * y;
    PartOrder(c, y, 0.0);
    WeightMoves(c, z, y);
    Undo(z, Part(c, y));
  }

  lemma Undo(z: real, d: real)
    requires d != 0.0
    ensures (z * d) / d == z
  {
  }

  lemma PartTotal(a: real, u: real, x: real, v: real, y: real)
    ensures Total(u, Part(a, x), v, Part(a, y)) == Part(a, Total(u, x, v, y))
  {
  }

  lemma PartDifference(a: real, x: real, y: real)
    ensures Part(a, x) - Part(a, y) == Part(a, x - y)
  {
  }

  lemma {:induction false} CandidatesRescale(rows: seq<Plan>, nPrompt: nat, nOut: nat, hot: bool, gpuOk: bool, a: real, b: real)
    ensures Candidates(RescaleAll(rows, a, b), nPrompt, nOut, hot, gpuOk)
         == RecostAll(Candidates(rows, nPrompt, nOut, hot, gpuOk), a, b)
  {
    hide Part, Total, ClockCapped;
    if rows != [] {
      var p := rows[0];
      CandidatesRescale(rows[1..], nPrompt, nOut, hot, gpuOk, a, b);
      PartTotal(a, nPrompt as real, p.ePre, nOut as real, p.eDec);
      PartTotal(b, nPrompt as real, p.tPre, nOut as real, p.tDec);
      assert Cost(Rescale(p, a, b), nPrompt, nOut) == Recost(Cost(p, nPrompt, nOut), a, b);
      assert RescaleAll(rows, a, b)[1..] == RescaleAll(rows[1..], a, b);
    }
  }

  lemma {:induction false} MinimaRescale(s: seq<Costed>, a: real, b: real)
    requires s != [] && a > 0.0 && b > 0.0
    ensures MinEnergy(RecostAll(s, a, b)) == Part(a, MinEnergy(s))
    ensures MinTime(RecostAll(s, a, b)) == Part(b, MinTime(s))
  {
    hide Part, Rescale;
    if |s| > 1 {
      MinimaRescale(s[1..], a, b);
      PartOrder(a, MinEnergy(s[1..]), s[0].e);
      PartOrder(b, MinTime(s[1..]), s[0].t);
      assert RecostAll(s, a, b)[1..] == RecostAll(s[1..], a, b);
    }
  }

  lemma UtilityRescales(c: Costed, w: Weights, eb: real, tb: real, a: real, b: real)
    requires eb != 0.0 && tb != 0.0 && a > 0.0 && b > 0.0
    ensures Part(a, eb) != 0.0 && Part(b, tb) != 0.0
    ensures Utility(Recost(c, a, b), w, Part(a, eb), Part(b, tb)) == Utility(c, w, eb, tb)
  {
    WeightMoves(a, w.e, c.e);
    WeightMoves(b, w.t, c.t);
    Cancel(a, w.e * c.e, eb);
    Cancel(b, w.t * c.t, tb);
    hide Part;
  }

  lemma WeightMoves(a: real, w: real, x: real)
    ensures w * Part(a, x) == Part(a, w * x)
  {
  }

  lemma {:induction false} FavouriteRescales(s: seq<Costed>, w: Weights, eb: real, tb: real, a: real, b: real)
    requires s != [] && eb != 0.0 && tb != 0.0 && a > 0.0 && b > 0.0
    ensures Part(a, eb) != 0.0 && Part(b, tb) != 0.0
    ensures Favourite(RecostAll(s, a, b), w, Part(a, eb), Part(b, tb)) == Favourite(s, w, eb, tb)
    decreases |s|
  {
    UtilityRescales(s[0], w, eb, tb, a, b);
    hide Part, Utility, Recost;
    if |s| > 1 {
      FavouriteRescales(s[1..], w, eb, tb, a, b);
      UtilityRescales(s[1 + Favourite(s[1..], w, eb, tb)], w, eb, tb, a, b);
      assert RecostAll(s, a, b)[1..] == RecostAll(s[1..], a, b);
    }
  }

  lemma {:induction false} OnBackendRescales(s: seq<Costed>, backend: string, a: real, b: real)
    ensures OnBackend(RecostAll(s, a, b), backend) == RecostAll(OnBackend(s, backend), a, b)
  {
    hide Part;
    if s != [] {
      OnBackendRescales(s[1..], backend, a, b);
      assert RecostAll(s, a, b)[1..] == RecostAll(s[1..], a, b);
    }
  }

  lemma PrecedesRescales(x: Costed, y: Costed, a: real, b: real)
    requires a > 0.0 && b > 0.0
    ensures Precedes(Recost(x, a, b), Recost(y, a, b)) <==> Precedes(x, y)
  {
    PartOrder(b, x.t, y.t);
    hide Part;
  }

  lemma {:induction false} InsertRescales(c: Costed, s: seq<Costed>, a: real, b: real)
    requires a > 0.0 && b > 0.0
    ensures Insert(Recost(c, a, b), RecostAll(s, a, b)) == RecostAll(Insert(c, s), a, b)
  {
    var moved, all := Recost(c, a, b), RecostAll(s, a, b);
    if s != [] {
      PrecedesRescales(s[0], c, a, b);
      hide Part, Recost, Precedes;
      assert all[1..] == RecostAll(s[1..], a, b);
      if Precedes(s[0], c) {
        InsertRescales(c, s[1..], a, b);
        assert RecostAll(Insert(c, s), a, b) == [Recost(s[0], a, b)] + RecostAll(Insert(c, s[1..]), a, b);
      } else {
        assert Insert(moved, all) == [moved] + all;
        assert RecostAll([c] + s, a, b) == [moved] + all;
      }
    }
  }

  lemma {:induction false} LadderRescales(s: seq<Costed>, a: real, b: real)
    requires a > 0.0 && b > 0.0
    ensures Ladder(RecostAll(s, a, b)) == RecostAll(Ladder(s), a, b)
  {
    hide Part, Recost, Insert;
    if s != [] {
      LadderRescales(s[1..], a, b);
      InsertRescales(s[0], Ladder(s[1..]), a, b);
      assert RecostAll(s, a, b)[1..] == RecostAll(s[1..], a, b);
    }
  }

  lemma PaysRescales(cur: Costed, k: Costed, lam: real, a: real, b: real)
    requires cur.e > 0.0 && cur.t > 0.0 && a > 0.0 && b > 0.0
    ensures Part(a, cur.e) > 0.0 && Part(b, cur.t) > 0.0
    ensures Pays(Recost(cur, a, b), Recost(k, a, b), lam) <==> Pays(cur, k, lam)
  {
    PartOrder(a, k.e, cur.e);
    PartOrder(a, cur.e, 0.0);
    PartOrder(b, cur.t, 0.0);
    PartDifference(a, cur.e, k.e);
    PartDifference(b, k.t, cur.t);
    Cancel(a, cur.e - k.e, cur.e);
    Cancel(b, k.t - cur.t, cur.t);
    hide Part;
  }

  lemma {:induction false} WalkRescales(cur: Costed, rest: seq<Costed>, qf: real, tbud: real, lam: real, a: real, b: real)
    requires cur.e > 0.0 && cur.t > 0.0 && Positive(rest) && a > 0.0 && b > 0.0
    ensures Part(a, cur.e) > 0.0 && Part(b, cur.t) > 0.0 && Positive(RecostAll(rest, a, b))
    ensures Walk(Recost(cur, a, b), RecostAll(rest, a, b), qf, Part(b, tbud), lam)
         == Recost(Walk(cur, rest, qf, tbud, lam), a, b)
    decreases |rest|
  {
    hide Part, Pays;
    PartOrder(a, cur.e, 0.0);
    PartOrder(b, cur.t, 0.0);
    forall i | 0 <= i < |rest|
      ensures Part(a, rest[i].e) > 0.0 && Part(b, rest[i].t) > 0.0
    {
      PartOrder(a, rest[i].e, 0.0);
      PartOrder(b, rest[i].t, 0.0);
    }
    if rest != [] {
      var k := rest[0];
      PartOrder(b, tbud, k.t);
      PaysRescales(cur, k, lam, a, b);
      assert RecostAll(rest, a, b)[1..] == RecostAll(rest[1..], a, b);
      WalkRescales(if Pays(cur, k, lam) then k else cur, rest[1..], qf, tbud, lam, a, b);
    }
  }

  /** Measuring every energy or every time in another unit changes no choice. */
  lemma UnitsDoNotMatter(rows: seq<Plan>, nPrompt: nat, nOut: nat, w: Weights, lam: real, qf: real,
                         hot: bool, gpuOk: bool, tslack: real, a: real, b: real)
    requires a > 0.0 && b > 0.0
    requires var cands := Candidates(rows, nPrompt, nOut, hot, gpuOk);
      cands != [] && MinEnergy(cands) > 0.0 && MinTime(cands) > 0.0
    ensures var cands := Candidates(rows, nPrompt, nOut, hot, gpuOk);
      && IsLadder(Rungs(cands, w))
      && IsChoice(Chosen(Recost(Pick(Rungs(cands, w), lam, qf, tslack), a, b)),
                  Candidates(RescaleAll(rows, a, b), nPrompt, nOut, hot, gpuOk), w, lam, qf, tslack)
  {
    hide *;
    CandidatesRescale(rows, nPrompt, nOut, hot, gpuOk, a, b);
    ChoiceRescales(Candidates(rows, nPrompt, nOut, hot, gpuOk), w, lam, qf, tslack, a, b);
  }

  lemma ChoiceRescales(cands: seq<Costed>, w: Weights, lam: real, qf: real, tslack: real, a: real, b: real)
    requires cands != [] && MinEnergy(cands) > 0.0 && MinTime(cands) > 0.0 && a > 0.0 && b > 0.0
    ensures IsLadder(Rungs(cands, w))
    ensures IsChoice(Chosen(Recost(Pick(Rungs(cands, w), lam, qf, tslack), a, b)), RecostAll(cands, a, b), w, lam, qf, tslack)
  {
    hide Part, Pick, Positive, Walk, Favourite, MinEnergy, MinTime, Ladder, OnBackend, Utility;
    RungsStart(cands, w);
    RungsRescale(cands, w, a, b);
    PickRescales(Rungs(cands, w), lam, qf, tslack, a, b);
    ChoiceIsPick(Chosen(Recost(Pick(Rungs(cands, w), lam, qf, tslack), a, b)), RecostAll(cands, a, b), w, lam, qf, tslack);
  }

  lemma RungsRescale(cands: seq<Costed>, w: Weights, a: real, b: real)
    requires cands != [] && MinEnergy(cands) > 0.0 && MinTime(cands) > 0.0 && a > 0.0 && b > 0.0
    ensures MinEnergy(RecostAll(cands, a, b)) > 0.0 && MinTime(RecostAll(cands, a, b)) > 0.0
    ensures Rungs(RecostAll(cands, a, b), w) == RecostAll(Rungs(cands, w), a, b)
  {
    hide Part, Favourite, MinEnergy, MinTime, Ladder, OnBackend, Utility;
    MinimaRescale(cands, a, b);
    PartOrder(a, MinEnergy(cands), 0.0);
    PartOrder(b, MinTime(cands), 0.0);
    FavouriteRescales(cands, w, MinEnergy(cands), MinTime(cands), a, b);
    var i := Favourite(cands, w, MinEnergy(cands), MinTime(cands));
    OnBackendRescales(cands, cands[i].plan.backend, a, b);
    LadderRescales(OnBackend(cands, cands[i].plan.backend), a, b);
  }

  lemma PickRescales(rungs: seq<Costed>, lam: real, qf: real, tslack: real, a: real, b: real)
    requires IsLadder(rungs) && a > 0.0 && b > 0.0
    ensures IsLadder(RecostAll(rungs, a, b))
    ensures Pick(RecostAll(rungs, a, b), lam, qf, tslack) == Recost(Pick(rungs, lam, qf, tslack), a, b)
  {
    hide Part, Walk, Pays, Budget;
    var t := rungs[0].t;
    BudgetRescales(b, t, tslack);
    PartOrder(a, rungs[0].e, 0.0);
    PartOrder(b, t, 0.0);
    assert RecostAll(rungs, a, b)[1..] == RecostAll(rungs[1..], a, b);
    WalkRescales(rungs[0], rungs[1..], qf, Budget(t, tslack), lam, a, b);
  }

  lemma BudgetRescales(b: real, t: real, tslack: real)
    ensures Budget(Part(b, t), tslack) == Part(b, Budget(t, tslack))
  {
  }
}
