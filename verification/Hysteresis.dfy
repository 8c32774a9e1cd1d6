/** The thermal ratchet and the battery tier: two controllers that hold their tier inside a band. */
module Hysteresis {

  ghost predicate Rising(s: seq<int>) {
    forall i :: 0 < i < |s| ==> s[i - 1] <= s[i]
  }

  ghost predicate Falling(s: seq<int>) {
    forall i :: 0 < i < |s| ==> s[i - 1] >= s[i]
  }

  /** No two readings are more than width apart. */
  ghost predicate Within(readings: seq<int>, width: int) {
    forall i, j :: 0 <= i < |readings| && 0 <= j < |readings| ==> readings[i] - readings[j] <= width
  }

  lemma WithinTail(first: int, second: int, rest: seq<int>, width: int)
    requires Within([first, second] + rest, width)
    ensures Within([second] + rest, width) && Within([first] + rest, width)
    ensures first - second <= width && second - first <= width
  {
    var all := [first, second] + rest;
    assert all[0] == first && all[1] == second;
    WithinSlice(all, second, 1, rest, width);
    WithinSlice(all, first, 0, rest, width);
  }

  lemma WithinSlice(all: seq<int>, head: int, at: nat, rest: seq<int>, width: int)
    requires Within(all, width) && |all| == |rest| + 2
    requires at < 2 && all[at] == head && forall i :: 0 <= i < |rest| ==> all[i + 2] == rest[i]
    ensures Within([head] + rest, width)
  {
    var some := [head] + rest;
    forall i, j | 0 <= i < |some| && 0 <= j < |some|
      ensures some[i] - some[j] <= width
    {
      var k, l := if i == 0 then at else i + 1, if j == 0 then at else j + 1;
      assert some[i] == all[k] && some[j] == all[l];
    }
  }

  // ----- the thermal ratchet -----

  // Temperatures in millidegrees at which tiers 1, 2 and 3 begin.
  datatype Thresholds = Thresholds(warm: int, hot: int, crit: int) {
    function Entry(tier: nat): int {
      if tier == 0 then 0 else if tier == 1 then warm else if tier == 2 then hot else crit
    }

    /** The tier implied by the current temperature alone. */
    function RawTier(mc: int): (t: nat)
      ensures t <= 3
    {
      if mc < warm then 0 else if mc < hot then 1 else if mc < crit then 2 else 3
    }

    /** Escalate at once; step down one tier once the reading is hyst below the tier's entry. */
    function Ratchet(last: nat, mc: int, hyst: int): (t: nat)
      requires last <= 3
      ensures t <= 3
    {
      if RawTier(mc) > last then RawTier(mc)
      else if RawTier(mc) < last && mc < Entry(last) - hyst then last - 1
      else last
    }
  }

  /** Each threshold begins its tier, and the plain ladder counts the thresholds reached. */
  lemma TierCountsThresholds(th: Thresholds, mc: int)
    requires th.warm <= th.hot <= th.crit
    ensures th.RawTier(mc) == (if mc >= th.warm then 1 else 0) + (if mc >= th.hot then 1 else 0) + (if mc >= th.crit then 1 else 0)
    ensures forall t: nat :: 1 <= t <= 3 ==> (th.RawTier(mc) >= t <==> mc >= th.Entry(t))
    ensures th.Entry(1) == th.warm && th.Entry(2) == th.hot && th.Entry(3) == th.crit
  {
  }

  /** One step of the ratchet: up at once to the tier reached, down one tier exactly when the reading is
      more than the width below the entry of the present one, and otherwise not at all. */
  lemma RatchetMoves(th: Thresholds, last: nat, mc: int, hyst: int)
    requires th.warm <= th.hot <= th.crit && last <= 3 && hyst >= 0
    ensures var next := th.Ratchet(last, mc, hyst);
      && (last < 3 && mc >= th.Entry(last + 1) ==> next == th.RawTier(mc) > last)
      && (last == 3 || mc < th.Entry(last + 1) ==>
            next == if last > 0 && mc < th.Entry(last) - hyst then last - 1 else last)
  {
  }

  /** The tier before the first poll and after each one. */
  function Tiers(th: Thresholds, hyst: int, tier: nat, readings: seq<int>): (ts: seq<int>)
    requires tier <= 3
    ensures |ts| == |readings| + 1 && ts[0] == tier
    decreases |readings|
  {
    if readings == [] then [tier]
    else [tier] + Tiers(th, hyst, th.Ratchet(tier, readings[0], hyst), readings[1..])
  }

  // The controller's static variables.
  class Tdak {
    var tierLast: nat
    var currentK: int

    constructor (kNominal: int)
      ensures tierLast == 0 && currentK == kNominal
    {
      tierLast, currentK := 0, kNominal;
    }

    method Poll(mc: int, th: Thresholds, hyst: int, ratchet: bool, k: seq<int>)
      requires tierLast <= 3 && |k| == 4
      modifies this
      ensures tierLast <= 3 && currentK == k[tierLast]
      ensures tierLast == if ratchet then th.Ratchet(old(tierLast), mc, hyst) else th.RawTier(mc)
      ensures tierLast >= th.RawTier(mc)
    {
      var rawTier := th.RawTier(mc);
      var newTier: nat;
      if ratchet {
        if rawTier > tierLast {
          newTier := rawTier;
        } else if rawTier < tierLast && mc < th.Entry(tierLast) - hyst {
          newTier := tierLast - 1;
        } else {
          newTier := tierLast;
        }
      } else {
        newTier := rawTier;
      }
      if newTier != tierLast {
        tierLast := newTier;
      }
      currentK := k[newTier];
    }
  }

  /** The ratchet is never below the plain ladder, whatever it did before. */
  lemma {:induction false} RatchetCoversLadder(th: Thresholds, hyst: int, tier: nat, readings: seq<int>)
    requires tier <= 3
    ensures forall i :: 0 <= i < |readings| ==> Tiers(th, hyst, tier, readings)[i + 1] >= th.RawTier(readings[i])
    decreases |readings|
  {
    if readings != [] {
      RatchetCoversLadder(th, hyst, th.Ratchet(tier, readings[0], hyst), readings[1..]);
    }
  }

  /** After an escalation at reading w, later readings within the band cannot bring the tier down. */
  lemma {:induction false} RisesFrom(th: Thresholds, hyst: int, tier: nat, w: int, readings: seq<int>)
    requires tier <= 3 && (tier > 0 ==> w >= th.Entry(tier))
    requires Within([w] + readings, hyst)
    ensures Rising(Tiers(th, hyst, tier, readings))
    decreases |readings|
  {
    if readings != [] {
      var mc, rest := readings[0], readings[1..];
      assert [w] + readings == [w, mc] + rest;
      WithinTail(w, mc, rest, hyst);
      var next := th.Ratchet(tier, mc, hyst);
      RisesFrom(th, hyst, next, if next > tier then mc else w, rest);
    }
  }

  /** After a step down at reading w, later readings within the band cannot escalate. */
  lemma {:induction false} FallsFrom(th: Thresholds, hyst: int, tier: nat, w: int, readings: seq<int>)
    requires th.warm <= th.hot <= th.crit && tier < 3 && w < th.Entry(tier + 1) - hyst
    requires Within([w] + readings, hyst)
    ensures Falling(Tiers(th, hyst, tier, readings))
    decreases |readings|
  {
    if readings != [] {
      var mc, rest := readings[0], readings[1..];
      assert [w] + readings == [w, mc] + rest;
      WithinTail(w, mc, rest, hyst);
      var next := th.Ratchet(tier, mc, hyst);
      FallsFrom(th, hyst, next, if next < tier then mc else w, rest);
    }
  }

  /** Over readings that span at most the hysteresis width the tier never turns around. */
  lemma {:induction false} RatchetDoesNotChatter(th: Thresholds, hyst: int, tier: nat, readings: seq<int>)
    requires th.warm <= th.hot <= th.crit && tier <= 3 && Within(readings, hyst)
    ensures Rising(Tiers(th, hyst, tier, readings)) || Falling(Tiers(th, hyst, tier, readings))
    decreases |readings|
  {
    if readings != [] {
      var mc, rest := readings[0], readings[1..];
      assert readings == [mc] + rest;
      var next := th.Ratchet(tier, mc, hyst);
      if next > tier {
        RisesFrom(th, hyst, next, mc, rest);
      } else if next < tier {
        FallsFrom(th, hyst, next, mc, rest);
      } else {
        RatchetDoesNotChatter(th, hyst, tier, rest);
      }
    }
  }

  /** One millidegree more and it can: the width is exact. */
  lemma RatchetWidthIsExact(th: Thresholds, hyst: int)
    requires th.warm < th.hot && th.warm <= th.hot <= th.crit && hyst >= 0
    ensures var readings := [th.warm, th.warm - hyst - 1, th.warm];
      && Within(readings, hyst + 1)
      && Tiers(th, hyst, 0, readings) == [0, 1, 0, 1]
  {
    var r := [th.warm, th.warm - hyst - 1, th.warm];
    assert r[1..] == [th.warm - hyst - 1, th.warm] && r[1..][1..] == [th.warm] && r[1..][1..][1..] == [];
    assert Tiers(th, hyst, 1, []) == [1];
    assert Tiers(th, hyst, 0, [th.warm]) == [0] + Tiers(th, hyst, 1, []);
  }

  /** Once every reading is below the lowest band, the tier falls by exactly one per poll. */
  lemma {:induction false} CoolsOneTierPerPoll(th: Thresholds, hyst: int, tier: nat, readings: seq<int>)
    requires th.warm <= th.hot <= th.crit && hyst >= 0 && tier <= 3
    requires forall i :: 0 <= i < |readings| ==> readings[i] < th.warm - hyst
    ensures forall i :: 0 <= i <= |readings| ==> Tiers(th, hyst, tier, readings)[i] == if i < tier then tier - i else 0
    decreases |readings|
  {
    if readings != [] {
      var next := th.Ratchet(tier, readings[0], hyst);
      assert next == if tier > 0 then tier - 1 else 0;
      CoolsOneTierPerPoll(th, hyst, next, readings[1..]);
    }
  }

  // ----- the battery tier -----

  const BAND := 3

  // Charge percentages above which tiers 0 and 1 hold.
  datatype Charge = Charge(hi: int, lo: int) {
    function Threshold(level: int): int { if level == 1 then hi else lo }

    function RawLevel(soc: int): (l: int)
      ensures 0 <= l <= 2
    {
      if soc > hi then 0 else if soc > lo then 1 else 2
    }

    /** The level chosen from the charge and the level persisted by the previous launch (negative
        when there is none). Without a sensor, and on mains, it is the mildest. */
    function Level(soc: int, prev: int, haveSoc: bool, onMains: bool): int {
      if !haveSoc || soc < 0 then 0
      else if onMains then 0
      else
        var level := RawLevel(soc);
        if prev >= 0 && level > prev && soc > Threshold(level) - BAND then prev else level
    }

    function Discharging(soc: int, prev: int): int { Level(soc, prev, true, false) }
  }

  /** The persisted level before the first launch and after each one, off mains. */
  function Levels(c: Charge, level: int, socs: seq<int>): (ls: seq<int>)
    ensures |ls| == |socs| + 1 && ls[0] == level
    decreases |socs|
  {
    if socs == [] then [level] else [level] + Levels(c, c.Discharging(socs[0], level), socs[1..])
  }

  ghost predicate Readable(socs: seq<int>) { forall i :: 0 <= i < |socs| ==> socs[i] >= 0 }

  /** After degrading at charge w the level cannot improve within the band. */
  lemma {:induction false} DegradesFrom(c: Charge, level: int, w: int, socs: seq<int>)
    requires c.hi >= c.lo && 1 <= level <= 2 && w <= c.Threshold(level) - BAND
    requires Readable(socs) && Within([w] + socs, BAND)
    ensures Rising(Levels(c, level, socs))
    decreases |socs|
  {
    if socs != [] {
      var soc, rest := socs[0], socs[1..];
      assert [w] + socs == [w, soc] + rest;
      WithinTail(w, soc, rest, BAND);
      var next := c.Discharging(soc, level);
      DegradesFrom(c, next, if next > level then soc else w, rest);
    }
  }

  /** After improving at charge w the level cannot degrade within the band. */
  lemma {:induction false} ImprovesFrom(c: Charge, level: int, w: int, socs: seq<int>)
    requires c.hi >= c.lo && 0 <= level <= 1 && w > c.Threshold(level + 1)
    requires Readable(socs) && Within([w] + socs, BAND)
    ensures Falling(Levels(c, level, socs))
    decreases |socs|
  {
    if socs != [] {
      var soc, rest := socs[0], socs[1..];
      assert [w] + socs == [w, soc] + rest;
      WithinTail(w, soc, rest, BAND);
      var next := c.Discharging(soc, level);
      ImprovesFrom(c, next, if next < level then soc else w, rest);
    }
  }

  /** Over charges that span at most three points the persisted level never turns around. */
  lemma {:induction false} BatteryDoesNotChatter(c: Charge, level: int, socs: seq<int>)
    requires c.hi >= c.lo && 0 <= level <= 2 && Readable(socs) && Within(socs, 3)
    ensures Rising(Levels(c, level, socs)) || Falling(Levels(c, level, socs))
    decreases |socs|
  {
    if socs != [] {
      var soc, rest := socs[0], socs[1..];
      assert socs == [soc] + rest;
      var next := c.Discharging(soc, level);
      if next > level {
        DegradesFrom(c, next, soc, rest);
      } else if next < level {
        ImprovesFrom(c, next, soc, rest);
      } else {
        BatteryDoesNotChatter(c, level, rest);
      }
    }
  }

  /** Outside the bands below the two thresholds the level is that of the charge alone, and inside
      them it is that or the milder one of the launch before. On mains nothing is degraded. */
  lemma RemembersOnlyInBands(c: Charge, soc: int, prev: int)
    requires soc >= 0
    ensures !(c.hi - 3 < soc <= c.hi) && !(c.lo - 3 < soc <= c.lo) ==> c.Discharging(soc, prev) == c.RawLevel(soc)
    ensures c.Discharging(soc, prev) == c.RawLevel(soc) || c.Discharging(soc, prev) == prev < c.RawLevel(soc)
    ensures c.Level(soc, prev, true, true) == 0
  {
  }

  /** The level from every input: the mildest without a sensor, with an unreadable charge and on mains;
      otherwise the thresholds not exceeded are counted, and the milder level of the launch before is kept
      exactly within three points of the threshold crossed. */
  lemma LevelIs(c: Charge, soc: int, prev: int, haveSoc: bool, onMains: bool)
    requires c.hi >= c.lo
    ensures var level, raw := c.Level(soc, prev, haveSoc, onMains), (if soc <= c.hi then 1 else 0) + if soc <= c.lo then 1 else 0;
      if !haveSoc || soc < 0 || onMains then level == 0
      else if 0 <= prev < raw && soc > (if raw == 1 then c.hi else c.lo) - 3 then level == prev
      else level == raw
  {
  }

  /** One point more and the level can turn around: the three points are exact. */
  lemma BatteryWidthIsExact(c: Charge)
    requires c.hi >= c.lo && c.hi >= 3 && c.hi - 3 > c.lo
    ensures var socs := [c.hi + 1, c.hi - 3, c.hi + 1];
      && Readable(socs) && Within(socs, 4)
      && Levels(c, 0, socs) == [0, 0, 1, 0]
  {
    var s := [c.hi + 1, c.hi - 3, c.hi + 1];
    assert s[1..] == [c.hi - 3, c.hi + 1] && s[1..][1..] == [c.hi + 1] && s[1..][1..][1..] == [];
    assert Levels(c, 0, []) == [0];
    assert Levels(c, 1, [c.hi + 1]) == [1] + Levels(c, 0, []);
    assert Levels(c, 0, [c.hi - 3, c.hi + 1]) == [0] + Levels(c, 1, [c.hi + 1]);
  }

  /** "Must fall this far past a threshold to descend" does not hold across two tiers: from tier 0,
      a charge well below the upper threshold keeps tier 0 exactly when it lies in the band of the
      lower one, although a slightly higher charge gives tier 1. */
  lemma HeldPastTheUpperBand(c: Charge, soc: int)
    requires c.hi >= c.lo && soc >= 0 && soc <= c.hi - 3
    ensures c.Discharging(soc, 0) == 0 <==> c.lo - 3 < soc <= c.lo
    ensures c.lo < soc ==> c.Discharging(soc, 0) == 1
  {
  }
}
