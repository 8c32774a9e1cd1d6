/** The simulated phone and the two learners that drive it. */
module Learning {
  import opened Basics

  // ----- interpolation -----

  ghost predicate Knots(xs: seq<real>, ys: seq<real>) {
    |xs| == |ys| && xs != [] && forall i, j :: 0 <= i < j < |xs| ==> xs[i] < xs[j]
  }

  function Line(x0: real, y0: real, x1: real, y1: real, x: real): real
    requires x0 < x1
  {
    y0 + (x - x0) / (x1 - x0) * (y1 - y0)
  }

  /** The segment that x lies on. */
  function Segment(xs: seq<real>, x: real, i: nat): (k: nat)
    requires i + 1 < |xs| && xs[i] < x < xs[|xs| - 1]
    ensures i <= k && k + 1 < |xs| && xs[k] < x <= xs[k + 1]
    decreases |xs| - i
  {
    if x <= xs[i + 1] then i else Segment(xs, x, i + 1)
  }

  /** Flat outside the knots, and linear between the two knots around x. */
  function Interpolate(xs: seq<real>, ys: seq<real>, x: real): real
    requires Knots(xs, ys)
  {
    var n := |xs| - 1;
    if x <= xs[0] then ys[0]
    else if x >= xs[n] then ys[n]
    else
      var k := Segment(xs, x, 0);
      Line(xs[k], ys[k], xs[k + 1], ys[k + 1], x)
  }

  method Interp(xs: seq<real>, ys: seq<real>, x: real) returns (y: real)
    requires Knots(xs, ys)
    ensures y == Interpolate(xs, ys, x)
  {
    hide Line;
    var n := |xs| - 1;
    if x <= xs[0] {
      y := ys[0];
    } else if x >= xs[n] {
      y := ys[n];
    } else {
      var i := 0;
      while xs[i + 1] < x
        invariant i < n && xs[i] < x && Segment(xs, x, 0) == Segment(xs, x, i)
        decreases n - i
      {
        i := i + 1;
      }
      y := Line(xs[i], ys[i], xs[i + 1], ys[i + 1], x);
    }
  }

  /** Every knot is met. */
  lemma InterpolateAtKnot(xs: seq<real>, ys: seq<real>, k: nat)
    requires Knots(xs, ys) && k < |xs|
    ensures Interpolate(xs, ys, xs[k]) == ys[k]
  {
    var n := |xs| - 1;
    if 0 < k < n {
      var i := Segment(xs, xs[k], 0);
      assert i + 1 == k;
      assert (xs[k] - xs[i]) / (xs[k] - xs[i]) == 1.0;
    }
  }

  /** The point (x, y) lies on the line through the knots k and k + 1. */
  ghost predicate Proportional(xs: seq<real>, ys: seq<real>, k: nat, x: real, y: real)
    requires k + 1 < |xs| == |ys|
  {
    (y - ys[k]) * (xs[k + 1] - xs[k]) == (x - xs[k]) * (ys[k + 1] - ys[k])
  }

  /** Between two knots the values move in proportion. */
  lemma InterpolateIsLinear(xs: seq<real>, ys: seq<real>, k: nat, x: real)
    requires Knots(xs, ys) && k + 1 < |xs| && xs[k] <= x <= xs[k + 1]
    ensures Proportional(xs, ys, k, x, Interpolate(xs, ys, x))
  {
    hide Interpolate, Segment, Line;
    InterpolateAtKnot(xs, ys, k);
    InterpolateAtKnot(xs, ys, k + 1);
    if xs[k] < x < xs[k + 1] {
      InterpolateInside(xs, ys, k, x);
      OnLine(xs[k], ys[k], xs[k + 1], ys[k + 1], x);
    } else if x == xs[k] {
      assert (x - xs[k]) * (ys[k + 1] - ys[k]) == 0.0;
    }
  }

  lemma InterpolateInside(xs: seq<real>, ys: seq<real>, k: nat, x: real)
    requires Knots(xs, ys) && k + 1 < |xs| && xs[k] < x < xs[k + 1]
    ensures Interpolate(xs, ys, x) == Line(xs[k], ys[k], xs[k + 1], ys[k + 1], x)
  {
    hide Line;
    var i := Segment(xs, x, 0);
    assert i == k;
  }

  lemma OnLine(x0: real, y0: real, x1: real, y1: real, x: real)
    requires x0 < x1
    ensures (Line(x0, y0, x1, y1, x) - y0) * (x1 - x0) == (x - x0) * (y1 - y0)
  {
    var f := (x - x0) / (x1 - x0);
    assert f * (x1 - x0) == x - x0;
    assert f * (y1 - y0) * (x1 - x0) == f * (x1 - x0) * (y1 - y0);
  }

  lemma LineHull(x0: real, y0: real, x1: real, y1: real, x: real, lo: real, hi: real)
    requires x0 < x1 && x0 <= x <= x1 && lo <= y0 <= hi && lo <= y1 <= hi
    ensures lo <= Line(x0, y0, x1, y1, x) <= hi
  {
    var f := (x - x0) / (x1 - x0);
    Fraction(x - x0, x1 - x0);
    Mix(f, y0, y1, lo, hi);
  }

  lemma Fraction(a: real, b: real)
    requires 0.0 <= a <= b && b > 0.0
    ensures 0.0 <= a / b <= 1.0
  {
    var f := a / b;
    assert f * b == a;
    if f < 0.0 {
      Product(-f, b);
    } else if f > 1.0 {
      Product(f - 1.0, b);
    }
  }

  lemma Product(a: real, b: real)
    requires a >= 0.0 && b >= 0.0
    ensures a * b >= 0.0 && (a > 0.0 && b > 0.0 ==> a * b > 0.0)
  {
  }

  /** A move by a fraction of the way stays between the ends. */
  lemma Mix(f: real, a: real, b: real, lo: real, hi: real)
    requires 0.0 <= f <= 1.0 && lo <= a <= hi && lo <= b <= hi
    ensures lo <= a + f * (b - a) <= hi
  {
    Product(1.0 - f, a - lo);
    Product(f, b - lo);
    Product(1.0 - f, hi - a);
    Product(f, hi - b);
    assert a + f * (b - a) - lo == (1.0 - f) * (a - lo) + f * (b - lo);
    assert hi - (a + f * (b - a)) == (1.0 - f) * (hi - a) + f * (hi - b);
  }

  /** Between the knots nothing leaves their range. */
  lemma InterpHull(xs: seq<real>, ys: seq<real>, x: real, lo: real, hi: real)
    requires Knots(xs, ys)
    requires forall i :: 0 <= i < |ys| ==> lo <= ys[i] <= hi
    ensures lo <= Interpolate(xs, ys, x) <= hi
  {
    hide Line;
    if xs[0] < x < xs[|xs| - 1] {
      var i := Segment(xs, x, 0);
      LineHull(xs[i], ys[i], xs[i + 1], ys[i + 1], x, lo, hi);
    }
  }

  // ----- the phone -----

  ghost predicate ExpLike(exp: real -> real) { forall x :: x <= 0.0 ==> 0.0 < exp(x) <= 1.0 }

  const CELLS := [342.0, 688.0, 1379.0]
  const CACHE_TPS := [35.07, 39.35, 32.62]
  const CACHE_WATT := [4.557, 4.751, 4.804]
  const MHZ := [883.0, 1018.0, 1267.0, 1498.0, 1632.0]
  const CLOCK_TPS := [7.36, 8.31, 10.27, 11.82, 13.44]
  const CLOCK_WATT := [2.289, 2.478, 2.983, 3.528, 3.970]
  const T_AMB := 30.0
  const R_THERM := (63.6 - 30.0) / 5.65
  const TAU_S := 221.0
  const THROTTLE_T := 62.0
  const THROTTLE_MHZ := 883.0

  // What a step reports.
  datatype Outcome = Outcome(tps: real, watt: real, durS: real, energyJ: real, quality: real, jPerTok: real,
                             temp: real, throttled: bool, effMhz: real)

  predicate Plausible(o: Outcome) { 0.0 <= o.quality <= 1.0 && o.tps >= 0.0 && o.jPerTok >= 0.0 }

  /** The steady states that the power range allows. */
  function Coolest(): real { T_AMB + R_THERM * (4.557 * (2.289 / 3.970)) }

  function Hottest(): real { T_AMB + R_THERM * 4.804 }

  function Quality(cells: real, exp: real -> real): (q: real)
  {
    var q := 1.0 - 0.884 * exp(-(cells / 12500.0 * 100.0) / 3.03);
    if q < 1.0 then q else 1.0
  }

  /** The cache point times the clock factor: the two effects are taken as separable. */
  function Joint(absolute: real, factor: real): real { absolute * factor }

  function Tps(cells: real, mhz: real): (t: real)
    ensures t > 0.0
  {
    CacheRange(cells);
    ClockRange(mhz);
    hide Interpolate;
    Product(Interpolate(CELLS, CACHE_TPS, cells), Interpolate(MHZ, CLOCK_TPS, mhz) / 13.44);
    Joint(Interpolate(CELLS, CACHE_TPS, cells), Interpolate(MHZ, CLOCK_TPS, mhz) / 13.44)
  }

  function Watt(cells: real, mhz: real): (w: real)
    ensures w >= 0.0 && Coolest() <= Steady(w) <= Hottest()
  {
    CacheRange(cells);
    ClockRange(mhz);
    hide Interpolate;
    PowerRange(Interpolate(CELLS, CACHE_WATT, cells), Interpolate(MHZ, CLOCK_WATT, mhz) / 3.970);
    Joint(Interpolate(CELLS, CACHE_WATT, cells), Interpolate(MHZ, CLOCK_WATT, mhz) / 3.970)
  }

  /** The temperature that a constant power leads to. */
  function Steady(watt: real): real { T_AMB + R_THERM * watt }

  lemma CacheRange(cells: real)
    ensures 32.62 <= Interpolate(CELLS, CACHE_TPS, cells) <= 39.35
    ensures 4.557 <= Interpolate(CELLS, CACHE_WATT, cells) <= 4.804
  {
    InterpHull(CELLS, CACHE_TPS, cells, 32.62, 39.35);
    InterpHull(CELLS, CACHE_WATT, cells, 4.557, 4.804);
  }

  lemma ClockRange(mhz: real)
    ensures 7.36 <= Interpolate(MHZ, CLOCK_TPS, mhz) <= 13.44
    ensures 2.289 <= Interpolate(MHZ, CLOCK_WATT, mhz) <= 3.970
  {
    InterpHull(MHZ, CLOCK_TPS, mhz, 7.36, 13.44);
    InterpHull(MHZ, CLOCK_WATT, mhz, 2.289, 3.970);
  }

  /** The vendor limiter overrides the requested clock above its threshold. */
  function Effective(temp: real, mhz: real): real { if temp >= THROTTLE_T then THROTTLE_MHZ else mhz }

  // What a phone is like between steps.
  datatype Condition = Condition(battery: real, temp: real, throttled: bool, throttleSteps: nat)

  ghost predicate Runs(p: Condition, capacityJ: real, cells: real, tokens: nat, exp: real -> real) {
    p.battery >= 0.0 && capacityJ > 0.0 && tokens > 0 && cells >= 0.0 && ExpLike(exp)
  }

  /** What a step reports. */
  ghost function Report(p: Condition, capacityJ: real, cells: real, mhz: real, tokens: nat, exp: real -> real): Outcome
    requires Runs(p, capacityJ, cells, tokens, exp)
  {
    var eff := Effective(p.temp, mhz);
    var dur := Duration(tokens as real, Tps(cells, eff));
    var energy := Energy(Watt(cells, eff), dur);
    Outcome(Tps(cells, eff), Watt(cells, eff), dur, energy, Quality(cells, exp), PerToken(energy, tokens as real),
            Toward(p.temp, Steady(Watt(cells, eff)), Share(dur, exp)), eff != mhz, eff)
  }

  /** The phone after a step. */
  ghost function After(p: Condition, capacityJ: real, cells: real, mhz: real, tokens: nat, exp: real -> real): Condition
    requires Runs(p, capacityJ, cells, tokens, exp)
  {
    var eff := Effective(p.temp, mhz);
    var dur := Duration(tokens as real, Tps(cells, eff));
    Condition(Drain(p.battery, Energy(Watt(cells, eff), dur), capacityJ),
              Toward(p.temp, Steady(Watt(cells, eff)), Share(dur, exp)),
              eff != mhz, p.throttleSteps + if eff != mhz then 1 else 0)
  }

  lemma Positive(cells: real, mhz: real)
    ensures Tps(cells, mhz) > 0.000001
  {
    CacheRange(cells);
    ClockRange(mhz);
    hide Interpolate;
    var x, y := Interpolate(CELLS, CACHE_TPS, cells), Interpolate(MHZ, CLOCK_TPS, mhz) / 13.44;
    Product(x - 32.0, y);
    assert y >= 0.5 && (x - 32.0) * y == x * y - 32.0 * y;
  }

  /** A step in the terms of the simulated phone: the limiter from 62 degrees on, the energy as power times the
      time that the tokens take, the charge down to empty, and the temperature closing in on the steady state
      of the power, exponentially with a time constant of 221 seconds. */
  lemma StepMeans(p: Condition, capacityJ: real, cells: real, mhz: real, tokens: nat, exp: real -> real)
    requires Runs(p, capacityJ, cells, tokens, exp)
    ensures var o, next := Report(p, capacityJ, cells, mhz, tokens, exp), After(p, capacityJ, cells, mhz, tokens, exp);
      && o.effMhz == (if p.temp >= 62.0 then 883.0 else mhz)
      && o.tps == Tps(cells, o.effMhz) && o.watt == Watt(cells, o.effMhz)
      && o.durS * o.tps == tokens as real && o.energyJ == o.watt * o.durS && o.jPerTok * tokens as real == o.energyJ
      && o.throttled == next.throttled == (o.effMhz != mhz)
      && next.throttleSteps == p.throttleSteps + (if o.throttled then 1 else 0)
      && o.temp == next.temp
      && var target := 30.0 + (63.6 - 30.0) / 5.65 * o.watt;
         && next.temp - target == (p.temp - target) * exp(-(o.durS / 221.0))
         && next.battery == if p.battery >= o.energyJ / capacityJ then p.battery - o.energyJ / capacityJ else 0.0
  {
    hide Tps, Watt, Quality;
    var eff := Effective(p.temp, mhz);
    var tps, watt := Tps(cells, eff), Watt(cells, eff);
    Positive(cells, eff);
    var dur := Duration(tokens as real, tps);
    assert dur * tps == tokens as real;
    var energy := Energy(watt, dur);
    assert PerToken(energy, tokens as real) * tokens as real == energy;
    Approach(p.temp, Steady(watt), exp(-(dur / 221.0)));
  }

  lemma Approach(temp: real, target: real, rest: real)
    ensures temp + (target - temp) * (1.0 - rest) - target == (temp - target) * rest
  {
  }

  /** The quality is that of the fitted curve, capped at one. */
  lemma QualityIs(cells: real, exp: real -> real)
    ensures var fitted := 1.0 - 0.884 * exp(-(cells / 125.0) / 3.03);
      Quality(cells, exp) == if fitted < 1.0 then fitted else 1.0
  {
    assert cells / 12500.0 * 100.0 == cells / 125.0;
  }

  /** The measured points: the three cache sizes at the reference clock, and the five clocks relative to it. */
  lemma MeasuredPoints()
    ensures Tps(342.0, 1632.0) == 35.07 && Tps(688.0, 1632.0) == 39.35 && Tps(1379.0, 1632.0) == 32.62
    ensures Watt(342.0, 1632.0) == 4.557 && Watt(688.0, 1632.0) == 4.751 && Watt(1379.0, 1632.0) == 4.804
  {
    AtClock(4);
    AtCells(0);
    AtCells(1);
    AtCells(2);
    hide Interpolate;
  }

  lemma MeasuredClocks(k: nat)
    requires k < 5
    ensures var mhz := [883.0, 1018.0, 1267.0, 1498.0, 1632.0][k];
      && Tps(688.0, mhz) * 13.44 == 39.35 * [7.36, 8.31, 10.27, 11.82, 13.44][k]
      && Watt(688.0, mhz) * 3.970 == 4.751 * [2.289, 2.478, 2.983, 3.528, 3.970][k]
  {
    AtClock(k);
    AtCells(1);
    hide Interpolate;
    var f, g := [7.36, 8.31, 10.27, 11.82, 13.44][k], [2.289, 2.478, 2.983, 3.528, 3.970][k];
    assert f / 13.44 * 13.44 == f && g / 3.970 * 3.970 == g;
  }

  lemma AtCells(k: nat)
    requires k < 3
    ensures var cells := [342.0, 688.0, 1379.0][k];
      && Interpolate(CELLS, CACHE_TPS, cells) == [35.07, 39.35, 32.62][k]
      && Interpolate(CELLS, CACHE_WATT, cells) == [4.557, 4.751, 4.804][k]
  {
    KnotsInOrder();
    InterpolateAtKnot(CELLS, CACHE_TPS, k);
    InterpolateAtKnot(CELLS, CACHE_WATT, k);
    hide Interpolate;
  }

  lemma AtClock(k: nat)
    requires k < 5
    ensures var mhz := [883.0, 1018.0, 1267.0, 1498.0, 1632.0][k];
      && Interpolate(MHZ, CLOCK_TPS, mhz) == [7.36, 8.31, 10.27, 11.82, 13.44][k]
      && Interpolate(MHZ, CLOCK_WATT, mhz) == [2.289, 2.478, 2.983, 3.528, 3.970][k]
  {
    KnotsInOrder();
    InterpolateAtKnot(MHZ, CLOCK_TPS, k);
    InterpolateAtKnot(MHZ, CLOCK_WATT, k);
    hide Interpolate;
  }

  /** And in between a clock and a cache size count in proportion. */
  lemma BetweenMeasurements(i: nat, k: nat, cells: real, mhz: real)
    requires i < 2 && [342.0, 688.0, 1379.0][i] <= cells <= [342.0, 688.0, 1379.0][i + 1]
    requires k < 4 && [883.0, 1018.0, 1267.0, 1498.0, 1632.0][k] <= mhz <= [883.0, 1018.0, 1267.0, 1498.0, 1632.0][k + 1]
    ensures Proportional([342.0, 688.0, 1379.0], [35.07, 39.35, 32.62], i, cells, Interpolate(CELLS, CACHE_TPS, cells))
    ensures Proportional([342.0, 688.0, 1379.0], [4.557, 4.751, 4.804], i, cells, Interpolate(CELLS, CACHE_WATT, cells))
    ensures Proportional([883.0, 1018.0, 1267.0, 1498.0, 1632.0], [7.36, 8.31, 10.27, 11.82, 13.44], k, mhz,
                         Interpolate(MHZ, CLOCK_TPS, mhz))
    ensures Proportional([883.0, 1018.0, 1267.0, 1498.0, 1632.0], [2.289, 2.478, 2.983, 3.528, 3.970], k, mhz,
                         Interpolate(MHZ, CLOCK_WATT, mhz))
  {
    hide Interpolate, Proportional;
    KnotsInOrder();
    InterpolateIsLinear(CELLS, CACHE_TPS, i, cells);
    InterpolateIsLinear(CELLS, CACHE_WATT, i, cells);
    InterpolateIsLinear(MHZ, CLOCK_TPS, k, mhz);
    InterpolateIsLinear(MHZ, CLOCK_WATT, k, mhz);
  }

  /** The bounds on the temperature are the steady states of the least and the most power. */
  lemma SteadyStates()
    ensures Coolest() == 30.0 + (63.6 - 30.0) / 5.65 * Watt(342.0, 883.0)
    ensures Hottest() == 30.0 + (63.6 - 30.0) / 5.65 * Watt(1379.0, 1632.0)
  {
    AtCells(0);
    AtClock(0);
    MeasuredPoints();
    hide Interpolate;
  }

  class Phone {
    var battery: real
    var temp: real
    var throttled: bool
    var throttleSteps: nat
    const capacityJ: real

    constructor (battery: real, temp: real, capacityWh: real)
      requires battery >= 0.0 && capacityWh > 0.0
      ensures this.battery == battery && this.temp == temp && capacityJ == capacityWh * 3600.0
      ensures !throttled && throttleSteps == 0
    {
      this.battery, this.temp, throttled, throttleSteps, capacityJ := battery, temp, false, 0, capacityWh * 3600.0;
    }

    ghost function Now(): Condition
      reads this
    {
      Condition(battery, temp, throttled, throttleSteps)
    }

    method Step(cells: real, mhz: real, tokens: nat, exp: real -> real) returns (o: Outcome)
      requires Runs(Now(), capacityJ, cells, tokens, exp)
      modifies this
      ensures Now() == After(old(Now()), capacityJ, cells, mhz, tokens, exp)
      ensures o == Report(old(Now()), capacityJ, cells, mhz, tokens, exp)
      ensures 0.0 <= battery <= old(battery)
      ensures Min(old(temp), Coolest()) <= temp <= Max(old(temp), Hottest())
    {
      hide Tps, Watt, Duration, Energy, PerToken, Drain, Toward, Share, Quality, Coolest, Hottest;
      var effMhz := Effective(temp, mhz);
      throttled := effMhz != mhz;
      if throttled {
        throttleSteps := throttleSteps + 1;
      }
      var tps, watt := Measure(cells, effMhz);
      var dur := Duration(tokens as real, tps);
      var energy := Energy(watt, dur);
      temp := Toward(temp, Steady(watt), Share(dur, exp));
      battery := Drain(battery, energy, capacityJ);
      o := Outcome(tps, watt, dur, energy, Quality(cells, exp), PerToken(energy, tokens as real), temp, throttled, effMhz);
    }
  }

  method Measure(cells: real, mhz: real) returns (tps: real, watt: real)
    ensures tps == Tps(cells, mhz) && watt == Watt(cells, mhz)
  {
    KnotsInOrder();
    var tpsC := Interp(CELLS, CACHE_TPS, cells);
    var wattC := Interp(CELLS, CACHE_WATT, cells);
    var ft := Interp(MHZ, CLOCK_TPS, mhz);
    var fw := Interp(MHZ, CLOCK_WATT, mhz);
    hide Interpolate, Joint;
    tps, watt := Joint(tpsC, ft / 13.44), Joint(wattC, fw / 3.970);
  }

  lemma KnotsInOrder()
    ensures Knots(CELLS, CACHE_TPS) && Knots(CELLS, CACHE_WATT) && Knots(MHZ, CLOCK_TPS) && Knots(MHZ, CLOCK_WATT)
  {
  }

  /** How far towards the steady state the temperature goes. */
  function Share(dur: real, exp: real -> real): (s: real)
    requires dur >= 0.0 && ExpLike(exp)
    ensures 0.0 <= s <= 1.0
  {
    var x := -(dur / TAU_S);
    assert x <= 0.0;
    1.0 - exp(x)
  }

  function Duration(tokens: real, tps: real): (dur: real)
    requires tokens > 0.0 && tps > 0.0
    ensures dur >= 0.0
  {
    Ratio(tokens, if tps > 0.000001 then tps else 0.000001);
    tokens / if tps > 0.000001 then tps else 0.000001
  }

  lemma Ratio(a: real, b: real)
    requires a >= 0.0 && b > 0.0
    ensures a / b >= 0.0
  {
    var f := a / b;
    assert f * b == a;
    if f < 0.0 {
      Product(-f, b);
    }
  }

  function Energy(watt: real, dur: real): (e: real)
    requires watt >= 0.0 && dur >= 0.0
    ensures e >= 0.0
  {
    Product(watt, dur);
    watt * dur
  }

  function PerToken(energy: real, tokens: real): (j: real)
    requires energy >= 0.0 && tokens > 0.0
    ensures j >= 0.0
  {
    Ratio(energy, tokens);
    energy / tokens
  }

  function Drain(battery: real, energy: real, capacity: real): (b: real)
    requires battery >= 0.0 && energy >= 0.0 && capacity > 0.0
    ensures 0.0 <= b <= battery
  {
    Ratio(energy, capacity);
    if battery - energy / capacity > 0.0 then battery - energy / capacity else 0.0
  }

  function Toward(temp: real, target: real, share: real): (t: real)
    requires 0.0 <= share <= 1.0
    ensures Min(temp, target) <= t <= Max(temp, target)
  {
    Mix(share, temp, target, Min(temp, target), Max(temp, target));
    assert temp + (target - temp) * share == temp + share * (target - temp);
    temp + (target - temp) * share
  }

  lemma PowerRange(wC: real, fw: real)
    requires 4.557 <= wC <= 4.804 && 2.289 / 3.970 <= fw <= 1.0
    ensures 4.557 * (2.289 / 3.970) <= wC * fw <= 4.804
  {
    Product(wC - 4.557, fw);
    Product(wC, 1.0 - fw);
    assert (wC - 4.557) * fw == wC * fw - 4.557 * fw;
    assert wC * (1.0 - fw) == wC - wC * fw;
  }

  // ----- the utility -----

  function Weights(battery: real, charging: bool): (w: (real, real, real))
    ensures w.0 + w.1 + w.2 == 1.0 && w.0 >= 0.0 && w.1 >= 0.0 && w.2 >= 0.0
  {
    if charging then (0.55, 0.45, 0.00)
    else if battery >= 0.70 then (0.50, 0.30, 0.20)
    else if battery >= 0.40 then (0.40, 0.25, 0.35)
    else if battery >= 0.15 then (0.30, 0.15, 0.55)
    else (0.20, 0.10, 0.70)
  }

  const TPS_MAX := 39.35
  const JTOK_MAX := 0.311 * (4.804 / 3.970)

  /** Throughput as a share of the best observed. */
  function Speed(tps: real): (s: real)
    requires tps >= 0.0
    ensures 0.0 <= s <= 1.0
  {
    if tps / TPS_MAX < 1.0 then tps / TPS_MAX else 1.0
  }

  /** How far the energy per token stays below the worst case. */
  function Thrift(jPerTok: real): (s: real)
    requires jPerTok >= 0.0
    ensures 0.0 <= s <= 1.0
  {
    if 1.0 - jPerTok / JTOK_MAX > 0.0 then 1.0 - jPerTok / JTOK_MAX else 0.0
  }

  function Utility(o: Outcome, battery: real, charging: bool): (u: real)
    requires Plausible(o)
    ensures -0.25 <= u <= 1.0
  {
    var (wq, wp, we) := Weights(battery, charging);
    var perf := Speed(o.tps);
    var ener := Thrift(o.jPerTok);
    Average(wq, wp, we, o.quality, perf, ener);
    wq * o.quality + wp * perf + we * ener - if o.throttled then 0.25 else 0.0
  }

  /** The weights by state: quality, speed and energy. */
  lemma WeightsByState(battery: real)
    ensures Weights(battery, true) == (0.55, 0.45, 0.00)
    ensures Weights(battery, false) ==
      if battery < 0.15 then (0.20, 0.10, 0.70) else if battery < 0.40 then (0.30, 0.15, 0.55)
      else if battery < 0.70 then (0.40, 0.25, 0.35) else (0.50, 0.30, 0.20)
  {
  }

  /** Up to the best observed throughput the share grows in proportion, and no more beyond; down from the
      worst energy per token likewise. */
  lemma SharesGrow(x: real, y: real)
    requires x >= 0.0 && y >= 0.0
    ensures x <= 39.35 && y <= 39.35 ==> Speed(x) - Speed(y) == (x - y) / 39.35
    ensures x >= 39.35 ==> Speed(x) == 1.0
    ensures var worst := 0.311 * (4.804 / 3.970);
      && (x <= worst && y <= worst ==> Thrift(y) - Thrift(x) == (x - y) / worst)
      && (x >= worst ==> Thrift(x) == 0.0)
    ensures Speed(0.0) == 0.0 && Thrift(0.0) == 1.0
  {
    Parts(x, y, 39.35);
    Parts(x, y, 0.311 * (4.804 / 3.970));
  }

  /** A perfect step has utility one. */
  lemma UtilityOfPerfection(o: Outcome, battery: real, charging: bool)
    requires o.quality == 1.0 && o.tps >= 39.35 && o.jPerTok == 0.0 && !o.throttled
    ensures Utility(o, battery, charging) == 1.0
  {
    hide Weights, Speed, Thrift;
    SharesGrow(o.tps, 0.0);
  }

  /** Quality, throughput up to the best observed and energy per token up to the worst case each count in
      proportion by their weight, and the last two no more beyond. */
  lemma UtilityOfParts(o: Outcome, battery: real, charging: bool, q: real, tps: real, j: real)
    requires Plausible(o) && 0.0 <= q <= 1.0 && tps >= 0.0 && j >= 0.0
    ensures Utility(o.(quality := q, tps := tps, jPerTok := j), battery, charging) - Utility(o, battery, charging) ==
      Weighed(Weights(battery, charging), q - o.quality, Speed(tps) - Speed(o.tps), Thrift(j) - Thrift(o.jPerTok))
  {
    hide Weights, Speed, Thrift;
    var (wq, wp, we) := Weights(battery, charging);
    Minus(wq, q, o.quality);
    Minus(wp, Speed(tps), Speed(o.tps));
    Minus(we, Thrift(j), Thrift(o.jPerTok));
  }

  function Weighed(w: (real, real, real), q: real, p: real, e: real): real { w.0 * q + w.1 * p + w.2 * e }

  /** Throttling costs a quarter. */
  lemma UtilityOfThrottling(o: Outcome, battery: real, charging: bool)
    requires Plausible(o)
    ensures Utility(o.(throttled := true), battery, charging) == Utility(o.(throttled := false), battery, charging) - 0.25
  {
    hide Weights, Speed, Thrift;
  }

  lemma Minus(w: real, x: real, y: real)
    ensures w * (x - y) == w * x - w * y
  {
  }

  lemma Parts(x: real, y: real, b: real)
    requires b > 0.0
    ensures (x - y) / b == x / b - y / b
    ensures (x <= b <==> x / b <= 1.0) && (x >= b <==> x / b >= 1.0) && (y <= b <==> y / b <= 1.0) && (y >= b <==> y / b >= 1.0)
  {
    var p, q, r := x / b, y / b, (x - y) / b;
    assert p * b == x && q * b == y && r * b == x - y;
    assert (r - (p - q)) * b == 0.0;
    Signs(p - 1.0, b);
    Signs(q - 1.0, b);
  }

  lemma Signs(x: real, b: real)
    requires b > 0.0
    ensures (x * b <= 0.0 <==> x <= 0.0) && (x * b >= 0.0 <==> x >= 0.0) && x * b == (x + 1.0) * b - b
  {
  }

  lemma Average(wq: real, wp: real, we: real, q: real, p: real, e: real)
    requires wq >= 0.0 && wp >= 0.0 && we >= 0.0 && wq + wp + we == 1.0
    requires 0.0 <= q <= 1.0 && 0.0 <= p <= 1.0 && 0.0 <= e <= 1.0
    ensures 0.0 <= wq * q + wp * p + we * e <= 1.0
  {
    Product(wq, q);
    Product(wp, p);
    Product(we, e);
    Product(wq, 1.0 - q);
    Product(wp, 1.0 - p);
    Product(we, 1.0 - e);
  }

  // ----- the learners -----

  const ACTIONS := 9
  const ACTION_MHZ := [883.0, 1267.0, 1632.0]

  datatype State = State(battery: nat, charging: bool, temp: nat, throttled: bool)

  function BatteryBucket(b: real): nat { if b < 0.15 then 0 else if b < 0.40 then 1 else if b < 0.70 then 2 else 3 }

  function TempBucket(t: real): nat { if t < 45.0 then 0 else if t < 52.0 then 1 else if t < 58.0 then 2 else 3 }

  /** The buckets count the thresholds reached. */
  lemma BucketsCount(b: real, t: real)
    ensures BatteryBucket(b) == (if b >= 0.15 then 1 else 0) + (if b >= 0.40 then 1 else 0) + if b >= 0.70 then 1 else 0
    ensures TempBucket(t) == (if t >= 45.0 then 1 else 0) + (if t >= 52.0 then 1 else 0) + if t >= 58.0 then 1 else 0
  {
  }

  function Get<K(==)>(q: map<K, real>, k: K): real { if k in q then q[k] else 0.0 }

  /** The first action of the greatest value among the first n. */
  function Greedy<S(==)>(q: map<(S, nat), real>, s: S, n: nat): (a: nat)
    requires n > 0
    ensures a < n
    ensures forall x: nat :: x < n ==> Get(q, (s, x)) <= Get(q, (s, a))
    ensures forall x: nat :: x < a ==> Get(q, (s, x)) < Get(q, (s, a))
  {
    if n == 1 then 0
    else
      var a := Greedy(q, s, n - 1);
      if Get(q, (s, n - 1)) > Get(q, (s, a)) then n - 1 else a
  }

  ghost predicate Bounded<K>(q: map<K, real>) {
    forall k :: k in q ==> -5.0 <= q[k] <= 20.0
  }

  /** The learning step: 0.15 of the way to the reward plus 0.95 of the value after it. */
  function Learned(value: real, r: real, best: real): real { value + 0.15 * (r + 0.95 * best - value) }

  /** n learning steps towards one target. */
  function LearnedTimes(value: real, r: real, best: real, n: nat): real {
    if n == 0 then value else Learned(LearnedTimes(value, r, best, n - 1), r, best)
  }

  function Power(x: real, n: nat): real { if n == 0 then 1.0 else x * Power(x, n - 1) }

  /** Each step leaves 0.85 of the distance to the reward plus 0.95 of what follows. */
  lemma {:induction false} LearningCloses(value: real, r: real, best: real, n: nat)
    ensures var target := r + 0.95 * best;
      LearnedTimes(value, r, best, n) - target == Power(0.85, n) * (value - target)
  {
    if n > 0 {
      LearningCloses(value, r, best, n - 1);
      var target := r + 0.95 * best;
      assert 0.85 * Power(0.85, n - 1) * (value - target) == 0.85 * (Power(0.85, n - 1) * (value - target));
    }
  }

  /** -0.25 / (1 - 0.95) and 1 / (1 - 0.95) are the fixed points of the worst and the best reward, so
      the interval between them is closed under learning. */
  lemma LearningStaysBounded(value: real, r: real, best: real)
    requires -5.0 <= value <= 20.0 && -5.0 <= best <= 20.0 && -0.25 <= r <= 1.0
    ensures -5.0 <= Learned(value, r, best) <= 20.0
  {
  }

  /** Rewards in [-0.25, 1] keep every value of the interval inside it. */
  ghost predicate Closed(lo: real, hi: real) {
    forall value, r, best :: lo <= value <= hi && lo <= best <= hi && -0.25 <= r <= 1.0 ==>
      lo <= Learned(value, r, best) <= hi
  }

  /** The bounds are exact: an interval is closed under learning exactly when it holds [-5, 20]. */
  lemma ClosedIntervals(lo: real, hi: real)
    requires lo <= hi
    ensures Closed(lo, hi) <==> lo <= -5.0 && 20.0 <= hi
  {
    if lo > -5.0 {
      assert Learned(lo, -0.25, lo) < lo;
    }
    if hi < 20.0 {
      assert Learned(hi, 1.0, hi) > hi;
    }
  }

  /** explore and pick stand for the two draws of the random generator. */
  method PickAction<S(==)>(q: map<(S, nat), real>, s: S, explore: bool, pick: nat) returns (a: nat)
    requires pick < ACTIONS
    ensures a == if explore then pick else Greedy(q, s, ACTIONS)
  {
    if explore {
      a := pick;
    } else {
      a := 0;
      for x := 1 to ACTIONS
        invariant a == Greedy(q, s, x)
      {
        if Get(q, (s, x)) > Get(q, (s, a)) {
          a := x;
        }
      }
    }
  }

  class QLearn {
    var q: map<(State, nat), real>

    constructor ()
      ensures q == map[]
    {
      q := map[];
    }

    method Act(s: State, explore: bool, pick: nat) returns (a: nat)
      requires pick < ACTIONS
      ensures a == if explore then pick else Greedy(q, s, ACTIONS)
    {
      a := PickAction(q, s, explore, pick);
    }

    method Update(s: State, a: nat, r: real, s2: State, done: bool)
      modifies this
      ensures var best := if done then 0.0 else Get(old(q), (s2, Greedy(old(q), s2, ACTIONS)));
        q == old(q)[(s, a) := Learned(Get(old(q), (s, a)), r, best)]
      ensures Bounded(old(q)) && -0.25 <= r <= 1.0 ==> Bounded(q)
    {
      var best := 0.0;
      if !done {
        var top := Act(s2, false, 0);
        best := Get(q, (s2, top));
      }
      ghost var was := q;
      q := q[(s, a) := Learned(Get(q, (s, a)), r, best)];
      if Bounded(was) && -0.25 <= r <= 1.0 {
        LearningStaysBounded(Get(was, (s, a)), r, best);
      }
    }
  }

  function Sum(s: seq<real>): real { if s == [] then 0.0 else Sum(s[..|s| - 1]) + s[|s| - 1] }

  function Step(value: real, r: real, n: real): real
    requires n != 0.0
  {
    value + (r - value) / n
  }

  ghost predicate IsMean(value: real, rewards: seq<real>) { value * |rewards| as real == Sum(rewards) }

  /** One more reward moves the running estimate from one mean to the next. */
  lemma RunningMean(value: real, rewards: seq<real>, r: real, n: nat)
    requires IsMean(value, rewards) && n == |rewards| + 1
    ensures IsMean(Step(value, r, n as real), rewards + [r])
  {
    assert (rewards + [r])[..|rewards|] == rewards;
    MeanStep(value, r, n as real);
  }

  lemma MeanStep(value: real, r: real, n: real)
    requires n >= 1.0
    ensures Step(value, r, n) * n == value * (n - 1.0) + r
  {
    var d := (r - value) / n;
    assert d * n == r - value;
    assert (value + d) * n == value * n + d * n;
  }

  /** Every estimate is the mean of all the rewards of its arm. */
  ghost predicate Means<K>(q: map<K, real>, n: map<K, nat>, rewards: map<K, seq<real>>) {
    && q.Keys == n.Keys == rewards.Keys
    && forall k :: k in q ==> n[k] == |rewards[k]| > 0 && IsMean(q[k], rewards[k])
  }

  function RewardsOf<K(==)>(rewards: map<K, seq<real>>, k: K): seq<real> { if k in rewards then rewards[k] else [] }

  function CountOf<K(==)>(n: map<K, nat>, k: K): nat { if k in n then n[k] else 0 }

  lemma MeansNext<K>(q: map<K, real>, n: map<K, nat>, rewards: map<K, seq<real>>, k: K, r: real)
    requires Means(q, n, rewards)
    ensures var count := CountOf(n, k) + 1;
      Means(q[k := Step(Get(q, k), r, count as real)], n[k := count], rewards[k := RewardsOf(rewards, k) + [r]])
  {
    var before := RewardsOf(rewards, k);
    assert IsMean(Get(q, k), before);
    hide IsMean, Step;
    RunningMean(Get(q, k), before, r, CountOf(n, k) + 1);
  }

  ghost predicate InRange(rewards: seq<real>) { forall i :: 0 <= i < |rewards| ==> -0.25 <= rewards[i] <= 1.0 }

  lemma {:induction false} SumInRange(rewards: seq<real>)
    requires InRange(rewards)
    ensures -0.25 * |rewards| as real <= Sum(rewards) <= |rewards| as real
  {
    if rewards != [] {
      SumInRange(rewards[..|rewards| - 1]);
    }
  }

  /** A mean of utilities is within the range of the utility. */
  lemma MeanInRange(value: real, rewards: seq<real>)
    requires IsMean(value, rewards) && rewards != [] && InRange(rewards)
    ensures -0.25 <= value <= 1.0
  {
    SumInRange(rewards);
    var n := |rewards| as real;
    if value < -0.25 {
      Product(-0.25 - value, n);
    } else if value > 1.0 {
      Product(value - 1.0, n);
    }
  }

  class Bandit {
    var q: map<((nat, bool), nat), real>
    var n: map<((nat, bool), nat), nat>
    ghost var rewards: map<((nat, bool), nat), seq<real>>

    ghost predicate Valid()
      reads this
    {
      Means(q, n, rewards)
    }

    constructor ()
      ensures Valid() && q == map[] && rewards == map[]
    {
      q, n, rewards := map[], map[], map[];
    }

    method Act(s: (nat, bool), explore: bool, pick: nat) returns (a: nat)
      requires pick < ACTIONS
      ensures a == if explore then pick else Greedy(q, s, ACTIONS)
    {
      a := PickAction(q, s, explore, pick);
    }

    method Update(s: (nat, bool), a: nat, r: real)
      requires Valid()
      modifies this
      ensures Valid() && rewards == old(rewards)[(s, a) := RewardsOf(old(rewards), (s, a)) + [r]]
      ensures n == old(n)[(s, a) := CountOf(old(n), (s, a)) + 1]
      ensures q == old(q)[(s, a) := Step(Get(old(q), (s, a)), r, (CountOf(old(n), (s, a)) + 1) as real)]
    {
      hide Means, Step, IsMean;
      var k := (s, a);
      MeansNext(q, n, rewards, k, r);
      var count := CountOf(n, k) + 1;
      n := n[k := count];
      q := q[k := Step(Get(q, k), r, count as real)];
      rewards := rewards[k := RewardsOf(rewards, k) + [r]];
    }
  }

  // ----- a session -----

  // The agents that an episode can run.
  datatype Agent = Table(learner: QLearn) | Arms(bandit: Bandit) | Always(action: nat)

  function Objects(agent: Agent): set<object> {
    match agent
    case Table(t) => {t}
    case Arms(b) => {b}
    case Always(_) => {}
  }

  /** What every episode keeps: learned values within their bounds, estimates that are means of
      utilities, an action of the table. */
  ghost predicate Healthy(agent: Agent)
    reads Objects(agent)
  {
    match agent
    case Table(t) => Bounded(t.q)
    case Arms(b) => b.Valid() && forall k :: k in b.rewards ==> InRange(b.rewards[k])
    case Always(a) => a < ACTIONS
  }

  function StateOf(battery: real, temp: real, throttled: bool, charging: bool): State {
    State(BatteryBucket(battery), charging, TempBucket(temp), throttled)
  }

  /** The bandit looks at the battery and the charger only. */
  function Context(s: State): (nat, bool) { (s.battery, s.charging) }

  // What an agent has learned, as a value.
  datatype Mind =
    | Learner(q: map<(State, nat), real>)
    | Averager(q2: map<((nat, bool), nat), real>, n: map<((nat, bool), nat), nat>)
    | Habit(action: nat)

  function MindOf(agent: Agent): Mind
    reads Objects(agent)
  {
    match agent
    case Table(t) => Learner(t.q)
    case Arms(b) => Averager(b.q, b.n)
    case Always(a) => Habit(a)
  }

  /** The action that a mind picks. A habit never explores. */
  function Picks(mind: Mind, s: State, explore: bool, pick: nat): nat {
    match mind
    case Learner(q) => if explore then pick else Greedy(q, s, ACTIONS)
    case Averager(q, _) => if explore then pick else Greedy(q, Context(s), ACTIONS)
    case Habit(a) => a
  }

  /** What one reward teaches. */
  function Taught(mind: Mind, s: State, a: nat, r: real, s2: State, done: bool): Mind {
    match mind
    case Learner(q) =>
      Learner(q[(s, a) := Learned(Get(q, (s, a)), r, if done then 0.0 else Get(q, (s2, Greedy(q, s2, ACTIONS))))])
    case Averager(q, n) =>
      var k := (Context(s), a);
      var count := CountOf(n, k) + 1;
      Averager(q[k := Step(Get(q, k), r, count as real)], n[k := count])
    case Habit(_) => mind
  }

  /** Without exploring, the pick is the first action of the greatest value, where an action not yet tried
      counts zero. */
  lemma GreedyMeans<S>(q: map<(S, nat), real>, s: S, x: nat)
    requires x < 9
    ensures var a := Greedy(q, s, 9);
      && a < 9
      && (if (s, x) in q then q[(s, x)] else 0.0) <= (if (s, a) in q then q[(s, a)] else 0.0)
      && (x < a ==> (if (s, x) in q then q[(s, x)] else 0.0) < if (s, a) in q then q[(s, a)] else 0.0)
  {
    var a := Greedy(q, s, 9);
    assert Get(q, (s, x)) <= Get(q, (s, a));
  }

  lemma PicksAre(mind: Mind, s: State, pick: nat)
    ensures mind.Learner? ==> Picks(mind, s, true, pick) == pick && Picks(mind, s, false, pick) == Greedy(mind.q, s, 9)
    ensures mind.Averager? ==>
      Picks(mind, s, true, pick) == pick && Picks(mind, s, false, pick) == Greedy(mind.q2, (s.battery, s.charging), 9)
  {
    hide Greedy;
  }

  /** One lesson of the learner: 0.15 of the way to the reward plus 0.95 of the best value after it, of which
      there is none at the end. Nothing else changes. */
  lemma LessonOfLearner(q: map<(State, nat), real>, s: State, a: nat, r: real, s2: State, done: bool)
    ensures var next, top := Taught(Learner(q), s, a, r, s2, done), Greedy(q, s2, 9);
      var target := r + if done then 0.0 else if (s2, top) in q then 0.95 * q[(s2, top)] else 0.0;
      && next.Learner? && next.q.Keys == q.Keys + {(s, a)} && (forall k :: k in q && k != (s, a) ==> next.q[k] == q[k])
      && next.q[(s, a)] - target == 0.85 * ((if (s, a) in q then q[(s, a)] else 0.0) - target)
  {
    hide Greedy;
  }

  /** One lesson of the bandit: the mean of one reward more. */
  lemma LessonOfBandit(q: map<((nat, bool), nat), real>, n: map<((nat, bool), nat), nat>, s: State, a: nat, r: real,
                       s2: State, done: bool)
    ensures var next, k := Taught(Averager(q, n), s, a, r, s2, done), ((s.battery, s.charging), a);
      && next.Averager? && next.q2.Keys == q.Keys + {k} && next.n.Keys == n.Keys + {k}
      && (forall x :: x in q && x != k ==> next.q2[x] == q[x]) && (forall x :: x in n && x != k ==> next.n[x] == n[x])
      && next.n[k] == (if k in n then n[k] else 0) + 1
      && next.q2[k] * next.n[k] as real == (if k in q then q[k] else 0.0) * (next.n[k] - 1) as real + r
  {
    hide Step;
    var k := ((s.battery, s.charging), a);
    MeanStep(Get(q, k), r, (CountOf(n, k) + 1) as real);
  }

  method Act(agent: Agent, s: State, explore: bool, pick: nat) returns (a: nat)
    requires Healthy(agent) && pick < ACTIONS
    ensures a < ACTIONS && a == Picks(MindOf(agent), s, explore, pick)
  {
    match agent
    case Table(t) => a := t.Act(s, explore, pick);
    case Arms(b) => a := b.Act(Context(s), explore, pick);
    case Always(x) => a := x;
  }

  lemma StillInRange<K>(rewards: map<K, seq<real>>, k: K, r: real)
    requires (forall x :: x in rewards ==> InRange(rewards[x])) && -0.25 <= r <= 1.0
    ensures var next := rewards[k := RewardsOf(rewards, k) + [r]]; forall x :: x in next ==> InRange(next[x])
  {
  }

  method Update(agent: Agent, s: State, a: nat, r: real, s2: State, done: bool)
    requires Healthy(agent) && -0.25 <= r <= 1.0
    modifies Objects(agent)
    ensures Healthy(agent) && MindOf(agent) == Taught(old(MindOf(agent)), s, a, r, s2, done)
  {
    hide Greedy, Learned, Means, InRange, Step, Bounded, RewardsOf, CountOf, Get, Context;
    match agent
    case Table(t) => t.Update(s, a, r, s2, done);
    case Arms(b) =>
      StillInRange(b.rewards, (Context(s), a), r);
      b.Update(Context(s), a, r);
    case Always(_) =>
  }

  /** An estimate of a healthy bandit lies in the range of the utility. */
  lemma EstimatesInRange(b: Bandit, k: ((nat, bool), nat))
    requires Healthy(Arms(b)) && k in b.q
    ensures -0.25 <= b.q[k] <= 1.0
  {
    MeanInRange(b.q[k], b.rewards[k]);
  }

  // One turn of an episode: the phone and the agent before it, the draw, the action, what the phone
  // reported, the phone after it, and the reward.
  datatype Turn = Turn(before: Condition, mind: Mind, draw: (bool, nat), action: nat, outcome: Outcome,
                       after: Condition, reward: real)

  /** The nine actions: three cache sizes, each at three clocks. */
  function CellsOf(action: nat): real
    requires action < ACTIONS
  {
    CELLS[action / 3]
  }

  function ClockOf(action: nat): real
    requires action < ACTIONS
  {
    ACTION_MHZ[action % 3]
  }

  lemma ActionTable()
    ensures CellsOf(0) == CellsOf(1) == CellsOf(2) == 342.0 && CellsOf(3) == CellsOf(4) == CellsOf(5) == 688.0
    ensures CellsOf(6) == CellsOf(7) == CellsOf(8) == 1379.0
    ensures ClockOf(0) == ClockOf(3) == ClockOf(6) == 883.0 && ClockOf(1) == ClockOf(4) == ClockOf(7) == 1267.0
    ensures ClockOf(2) == ClockOf(5) == ClockOf(8) == 1632.0
  {
  }

  function Sees(p: Condition, charging: bool): State { StateOf(p.battery, p.temp, p.throttled, charging) }

  /** A turn on the phone: the mind's pick, 256 tokens at its cache size and clock, and the utility of the
      report at the charge left. */
  ghost predicate IsTurn(t: Turn, capacityJ: real, charging: bool, exp: real -> real) {
    && t.before.battery > 0.0 && t.action < ACTIONS
    && t.action == Picks(t.mind, Sees(t.before, charging), t.draw.0, t.draw.1)
    && Runs(t.before, capacityJ, CellsOf(t.action), 256, exp)
    && t.outcome == Report(t.before, capacityJ, CellsOf(t.action), ClockOf(t.action), 256, exp)
    && t.after == After(t.before, capacityJ, CellsOf(t.action), ClockOf(t.action), 256, exp)
    && Plausible(t.outcome) && t.reward == Utility(t.outcome, t.after.battery, charging)
  }

  /** What the agent has learned after a turn. */
  function MindAfter(t: Turn, charging: bool, learn: bool): Mind {
    if learn then Taught(t.mind, Sees(t.before, charging), t.action, t.reward, Sees(t.after, charging), t.after.battery <= 0.0)
    else t.mind
  }

  ghost predicate Follows(t: Turn, next: Turn, charging: bool, learn: bool) {
    next.before == t.after && next.mind == MindAfter(t, charging, learn)
  }

  /** A turn is 256 tokens at the pick's cache size and its clock, or at 883 MHz from 62 degrees on. The charge
      pays the energy, and the reward is the utility at what is left. */
  lemma TurnRuns(t: Turn, capacityJ: real, charging: bool, exp: real -> real)
    requires IsTurn(t, capacityJ, charging, exp)
    ensures t.outcome.effMhz == (if t.before.temp >= 62.0 then 883.0 else ClockOf(t.action))
    ensures t.outcome.tps == Tps(CellsOf(t.action), t.outcome.effMhz) && t.outcome.durS * t.outcome.tps == 256.0
    ensures t.action == Picks(t.mind, Sees(t.before, charging), t.draw.0, t.draw.1)
    ensures t.outcome.watt == Watt(CellsOf(t.action), t.outcome.effMhz) && t.outcome.energyJ == t.outcome.watt * t.outcome.durS
    ensures capacityJ > 0.0 && var paid := t.outcome.energyJ / capacityJ;
      t.after.battery == if t.before.battery >= paid then t.before.battery - paid else 0.0
    ensures t.reward == Utility(t.outcome, t.after.battery, charging)
  {
    hide Picks, Utility, Report, After, Plausible, ExpLike, Tps, Watt, CellsOf, ClockOf, Sees;
    StepMeans(t.before, capacityJ, CellsOf(t.action), ClockOf(t.action), 256, exp);
  }

  /** The last turn of a battery has nothing after it to value. */
  lemma TurnTeaches(t: Turn, capacityJ: real, charging: bool, learn: bool, exp: real -> real)
    requires IsTurn(t, capacityJ, charging, exp)
    ensures var s, s2 := Sees(t.before, charging), Sees(t.after, charging);
      MindAfter(t, charging, learn) ==
        if learn then Taught(t.mind, s, t.action, t.reward, s2, t.after.battery == 0.0) else t.mind
  {
    hide Picks, Taught, Utility, Report, Plausible, Watt, Tps, Energy, Duration;
  }

  /** A session: turn after turn, each on the phone and with the agent that the one before left. */
  ghost predicate IsSession(turns: seq<Turn>, start: Condition, mind: Mind, draws: seq<(bool, nat)>,
                            capacityJ: real, charging: bool, learn: bool, exp: real -> real) {
    && |turns| <= |draws| && (turns != [] ==> turns[0].before == start && turns[0].mind == mind)
    && (forall i :: 0 <= i < |turns| ==> IsTurn(turns[i], capacityJ, charging, exp) && turns[i].draw == draws[i])
    && forall i :: 0 <= i < |turns| - 1 ==> Follows(turns[i], turns[i + 1], charging, learn)
  }

  /** Over a session the charge never rises. */
  lemma {:induction false} ChargeFalls(turns: seq<Turn>, start: Condition, mind: Mind, draws: seq<(bool, nat)>,
                                       capacityJ: real, charging: bool, learn: bool, exp: real -> real, i: nat, j: nat)
    requires IsSession(turns, start, mind, draws, capacityJ, charging, learn, exp) && i <= j < |turns|
    ensures turns[j].after.battery <= turns[i].before.battery
  {
    hide Utility, Picks, Report, Plausible, Tps, Watt, Energy, Duration, Share, Toward, Steady;
    assert IsTurn(turns[j], capacityJ, charging, exp);
    if i < j {
      ChargeFalls(turns, start, mind, draws, capacityJ, charging, learn, exp, i, j - 1);
      assert Follows(turns[j - 1], turns[j], charging, learn);
    }
  }

  /** Without learning, what the agent knows in the beginning decides every turn. */
  lemma {:induction false} SameMind(turns: seq<Turn>, start: Condition, mind: Mind, draws: seq<(bool, nat)>,
                                    capacityJ: real, charging: bool, exp: real -> real, i: nat)
    requires IsSession(turns, start, mind, draws, capacityJ, charging, false, exp) && i < |turns|
    ensures turns[i].mind == mind
    ensures turns[i].action == Picks(mind, Sees(turns[i].before, charging), draws[i].0, draws[i].1)
  {
    hide Utility, Picks, Report, After, Plausible;
    assert IsTurn(turns[i], capacityJ, charging, exp);
    if i > 0 {
      SameMind(turns, start, mind, draws, capacityJ, charging, exp, i - 1);
      assert Follows(turns[i - 1], turns[i], charging, false);
    }
  }

  /** Where a session stands. */
  ghost predicate StandsAt(turns: seq<Turn>, start: Condition, mind: Mind, charging: bool, learn: bool,
                           now: Condition, knows: Mind) {
    && now == (if turns == [] then start else turns[|turns| - 1].after)
    && knows == if turns == [] then mind else MindAfter(turns[|turns| - 1], charging, learn)
  }

  lemma SessionNext(turns: seq<Turn>, t: Turn, start: Condition, mind: Mind, draws: seq<(bool, nat)>,
                    capacityJ: real, charging: bool, learn: bool, exp: real -> real, now: Condition, knows: Mind)
    requires IsSession(turns, start, mind, draws, capacityJ, charging, learn, exp) && |turns| < |draws|
    requires StandsAt(turns, start, mind, charging, learn, now, knows)
    requires IsTurn(t, capacityJ, charging, exp) && t.draw == draws[|turns|] && t.before == now && t.mind == knows
    ensures IsSession(turns + [t], start, mind, draws, capacityJ, charging, learn, exp)
    ensures StandsAt(turns + [t], start, mind, charging, learn, t.after, MindAfter(t, charging, learn))
    ensures Rewards(turns + [t]) == Rewards(turns) + [t.reward]
  {
    hide IsTurn, MindAfter;
    var next := turns + [t];
    forall i | 0 <= i < |turns|
      ensures Follows(next[i], next[i + 1], charging, learn)
    {
      assert next[i] == turns[i];
      assert i + 1 < |turns| ==> next[i + 1] == turns[i + 1];
    }
    assert Rewards(next) == Rewards(turns) + [t.reward];
  }

  function Rewards(turns: seq<Turn>): (r: seq<real>)
    ensures |r| == |turns| && forall i :: 0 <= i < |turns| ==> r[i] == turns[i].reward
  {
    seq(|turns|, i requires 0 <= i < |turns| => turns[i].reward)
  }

  lemma SumSnoc(s: seq<real>, x: real)
    ensures Sum(s + [x]) == Sum(s) + x
  {
    assert (s + [x])[..|s|] == s;
  }

  lemma SessionStart(start: Condition, mind: Mind, draws: seq<(bool, nat)>, capacityJ: real, charging: bool, learn: bool,
                     exp: real -> real)
    ensures IsSession([], start, mind, draws, capacityJ, charging, learn, exp)
    ensures StandsAt([], start, mind, charging, learn, start, mind) && Sum(Rewards([])) == 0.0
  {
  }

  // What an episode reports.
  datatype Summary = Summary(utility: real, tokens: nat, steps: nat, throttleFrac: real, endTemp: real)

  /** The share of a total per step, zero over no steps. */
  function PerStep(total: real, steps: nat): (r: real)
    ensures r * MaxInt(steps, 1) as real == total
  {
    total / MaxInt(steps, 1) as real
  }

  lemma ShareInRange(total: real, steps: nat, lo: real, hi: real)
    requires lo <= 0.0 <= hi && lo * steps as real <= total <= hi * steps as real
    ensures lo <= PerStep(total, steps) <= hi
  {
    var n := MaxInt(steps, 1) as real;
    assert lo * n <= total <= hi * n;
  }

  /** One turn of the loop. */
  method TakeTurn(agent: Agent, ph: Phone, charging: bool, learn: bool, draw: (bool, nat), exp: real -> real)
    returns (ghost t: Turn, r: real, throttled: bool)
    requires Healthy(agent) && ph.battery > 0.0 && ph.capacityJ > 0.0 && ExpLike(exp) && draw.1 < ACTIONS
    modifies Objects(agent), ph
    ensures Healthy(agent) && (!learn ==> unchanged(Objects(agent)))
    ensures IsTurn(t, ph.capacityJ, charging, exp) && t.before == old(ph.Now()) && t.mind == old(MindOf(agent))
    ensures t.draw == draw && t.after == ph.Now() && MindOf(agent) == MindAfter(t, charging, learn)
    ensures r == t.reward && -0.25 <= r <= 1.0 && throttled == t.outcome.throttled
    ensures 0.0 <= ph.battery <= old(ph.battery)
    ensures Min(old(ph.temp), Coolest()) <= ph.temp <= Max(old(ph.temp), Hottest())
    ensures ph.throttleSteps == old(ph.throttleSteps) + if throttled then 1 else 0
  {
    hide Utility, Picks, Taught, Coolest, Hottest, Healthy, MindOf, Quality, Tps, Watt, Drain, Toward, Share, Duration, Energy,
         PerToken, Effective;
    ghost var before, mind := ph.Now(), MindOf(agent);
    var s := StateOf(ph.battery, ph.temp, ph.throttled, charging);
    var a := Act(agent, s, draw.0, draw.1);
    var o := ph.Step(CellsOf(a), ClockOf(a), 256, exp);
    QualityRange(CellsOf(a), exp);
    r := Utility(o, ph.battery, charging);
    throttled := o.throttled;
    t := Turn(before, mind, draw, a, o, ph.Now(), r);
    var s2 := StateOf(ph.battery, ph.temp, ph.throttled, charging);
    if learn {
      Update(agent, s, a, r, s2, ph.battery <= 0.0);
    }
  }

  /** An episode is a session of at most maxSteps turns that ends early only on an empty battery. What the
      agent knows in the end is what the turns taught it, and the report is about those turns: their mean
      utility, 256 tokens each, the share that was throttled, and the temperature in the end. The charge
      never rises and the temperature stays between its start and the steady states the phone can reach. */
  method Episode(agent: Agent, ph: Phone, charging: bool, learn: bool, maxSteps: nat,
                 draws: seq<(bool, nat)>, exp: real -> real) returns (report: Summary, ghost turns: seq<Turn>)
    requires Healthy(agent) && ph.battery >= 0.0 && ph.capacityJ > 0.0 && ExpLike(exp)
    requires |draws| == maxSteps && forall d :: d in draws ==> d.1 < ACTIONS
    modifies Objects(agent), ph
    ensures Healthy(agent) && (!learn ==> unchanged(Objects(agent)))
    ensures IsSession(turns, old(ph.Now()), old(MindOf(agent)), draws, ph.capacityJ, charging, learn, exp)
    ensures StandsAt(turns, old(ph.Now()), old(MindOf(agent)), charging, learn, ph.Now(), MindOf(agent))
    ensures |turns| == report.steps && (report.steps < maxSteps ==> ph.battery == 0.0)
    ensures 0.0 <= ph.battery <= old(ph.battery)
    ensures Min(old(ph.temp), Coolest()) <= ph.temp <= Max(old(ph.temp), Hottest())
    ensures report.utility * MaxInt(report.steps, 1) as real == Sum(Rewards(turns)) && -0.25 <= report.utility <= 1.0
    ensures report.tokens == 256 * report.steps && report.endTemp == ph.temp
    ensures 0.0 <= report.throttleFrac <= 1.0
    ensures report.throttleFrac * MaxInt(report.steps, 1) as real == (ph.throttleSteps - old(ph.throttleSteps)) as real
  {
    hide PerStep, Healthy, MindOf, IsSession, StandsAt, IsTurn, MindAfter, Sum, Coolest, Hottest;
    var utility, tokens, steps, throttles: nat := 0.0, 0, 0, 0;
    turns := [];
    ghost var start, mind := ph.Now(), MindOf(agent);
    SessionStart(start, mind, draws, ph.capacityJ, charging, learn, exp);
    while ph.battery > 0.0 && steps < maxSteps
      invariant Healthy(agent) && (!learn ==> unchanged(Objects(agent)))
      invariant IsSession(turns, start, mind, draws, ph.capacityJ, charging, learn, exp) && |turns| == steps <= maxSteps
      invariant StandsAt(turns, start, mind, charging, learn, ph.Now(), MindOf(agent))
      invariant 0.0 <= ph.battery <= old(ph.battery) && utility == Sum(Rewards(turns))
      invariant Min(old(ph.temp), Coolest()) <= ph.temp <= Max(old(ph.temp), Hottest())
      invariant -0.25 * steps as real <= utility <= steps as real && tokens == 256 * steps
      invariant throttles <= steps && throttles == ph.throttleSteps - old(ph.throttleSteps)
      decreases maxSteps - steps
    {
      assert draws[steps] in draws;
      ghost var now, knows := ph.Now(), MindOf(agent);
      ghost var t;
      var r, throttled;
      t, r, throttled := TakeTurn(agent, ph, charging, learn, draws[steps], exp);
      SessionNext(turns, t, start, mind, draws, ph.capacityJ, charging, learn, exp, now, knows);
      SumSnoc(Rewards(turns), r);
      turns := turns + [t];
      utility, tokens, steps := utility + r, tokens + 256, steps + 1;
      if throttled {
        throttles := throttles + 1;
      }
    }
    ShareInRange(utility, steps, -0.25, 1.0);
    ShareInRange(throttles as real, steps, 0.0, 1.0);
    report := Summary(PerStep(utility, steps), tokens, steps, PerStep(throttles as real, steps), ph.temp);
  }

  lemma QualityRange(cells: real, exp: real -> real)
    requires cells >= 0.0 && ExpLike(exp)
    ensures 0.0 <= Quality(cells, exp) <= 1.0
  {
    var x := -(cells / 12500.0 * 100.0) / 3.03;
    assert x <= 0.0;
    assert 0.0 < exp(x) <= 1.0;
  }
}
