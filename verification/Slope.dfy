/** The regression-slope numerator of a short history. */
module Slope {

  function Total(ys: seq<real>): real {
    if ys == [] then 0.0 else Total(ys[..|ys| - 1]) + ys[|ys| - 1]
  }

  /** One sample's contribution: its distance from the time t times that from the level m. */
  function Term(i: nat, y: real, t: real, m: real): real {
    (i as real - t) * (y - m)
  }

  /** The first k terms of the numerator, about the time t and the level m. */
  function Terms(ys: seq<real>, t: real, m: real, k: nat): real
    requires k <= |ys|
  {
    if k == 0 then 0.0
    else Terms(ys, t, m, k - 1) + Term(k - 1, ys[k - 1], t, m)
  }

  lemma NoTerms(ys: seq<real>, t: real, m: real)
    ensures Terms(ys, t, m, 0) == 0.0
  {
  }

  lemma TermsStep(ys: seq<real>, t: real, m: real, i: nat)
    requires i < |ys|
    ensures Terms(ys, t, m, i + 1) == Terms(ys, t, m, i) + Term(i, ys[i], t, m)
  {
  }

  lemma TotalStep(ys: seq<real>, i: nat)
    requires i < |ys|
    ensures Total(ys[..i + 1]) == Total(ys[..i]) + ys[i]
  {
    assert ys[..i + 1][..i] == ys[..i];
  }

  function TimeMean(n: nat): real { (n as real - 1.0) / 2.0 }

  function LevelMean(ys: seq<real>): real
    requires ys != []
  {
    Total(ys) / |ys| as real
  }

  /** Sum over i of (i - mean time) * (y_i - mean level). */
  function Numerator(ys: seq<real>): real
    requires ys != []
  {
    Terms(ys, TimeMean(|ys|), LevelMean(ys), |ys|)
  }

  function Offsets(t: real, k: nat): real {
    if k == 0 then 0.0 else Offsets(t, k - 1) + ((k - 1) as real - t)
  }

  lemma {:induction false} OffsetsClosedForm(t: real, k: nat)
    ensures 2.0 * Offsets(t, k) == k as real * (k as real - 1.0) - 2.0 * k as real * t
  {
    if k > 0 {
      OffsetsClosedForm(t, k - 1);
    }
  }

  /** The first k samples, each weighted by its time. */
  function Moment(ys: seq<real>, k: nat): real
    requires k <= |ys|
  {
    if k == 0 then 0.0 else Moment(ys, k - 1) + (k - 1) as real * ys[k - 1]
  }

  lemma {:induction false} TermsAboutZero(ys: seq<real>, t: real, k: nat)
    requires k <= |ys|
    ensures Terms(ys, t, 0.0, k) == Moment(ys, k) - t * Total(ys[..k])
  {
    if k > 0 {
      TermsAboutZero(ys, t, k - 1);
      TotalStep(ys, k - 1);
      TimesSum(t, Total(ys[..k - 1]), ys[k - 1]);
    }
  }

  lemma TimesSum(t: real, x: real, y: real)
    ensures t * (x + y) == t * x + t * y
  {
  }

  /** The normal-equation form of the least-squares numerator: the samples weighted by time, less the mean
      time for each. */
  lemma NumeratorMoments(ys: seq<real>)
    requires ys != []
    ensures Numerator(ys) == Moment(ys, |ys|) - (|ys| as real - 1.0) / 2.0 * Total(ys)
  {
    AnyLevel(ys, 0.0);
    TermsAboutZero(ys, TimeMean(|ys|), |ys|);
    assert ys[..|ys|] == ys;
  }

  lemma FewMoments(x: real, y: real, z: real)
    ensures Moment([x, y, z], 3) == y + 2.0 * z && Total([x, y, z]) == x + y + z
  {
    var ys := [x, y, z];
    assert ys[..2] == [x, y] && ys[..2][..1] == [x];
    assert Total([x]) == x && Total([x, y]) == x + y;
    assert Moment(ys, 1) == 0.0 && Moment(ys, 2) == y;
  }

  lemma OffsetsCancel(n: nat)
    ensures Offsets(TimeMean(n), n) == 0.0
  {
    OffsetsClosedForm(TimeMean(n), n);
    var x := n as real;
    assert 2.0 * x * ((x - 1.0) / 2.0) == x * (x - 1.0);
  }

  lemma Distribute(a: real, y: real, m: real, c: real)
    ensures a * (y - m) == a * (y - c) + (c - m) * a
  {
  }

  lemma Spread(x: real, y: real, z: real)
    ensures x * (y + z) == x * y + x * z
  {
  }

  function Product(x: real, y: real): real { x * y }

  lemma RelevelTerm(k: nat, y: real, t: real, m: real, c: real)
    requires k > 0
    ensures Term(k - 1, y, t, m) + Product(c - m, Offsets(t, k - 1)) == Term(k - 1, y, t, c) + Product(c - m, Offsets(t, k))
  {
    var a, o := (k - 1) as real - t, Offsets(t, k - 1);
    Distribute(a, y, m, c);
    Spread(c - m, o, a);
    assert Offsets(t, k) == o + a;
  }

  lemma {:induction false} TermsRelevel(ys: seq<real>, t: real, m: real, c: real, k: nat)
    requires k <= |ys|
    ensures Terms(ys, t, m, k) == Terms(ys, t, c, k) + Product(c - m, Offsets(t, k))
  {
    hide Term, Product;
    if k == 0 {
      NoProduct(c - m);
    } else {
      TermsRelevel(ys, t, m, c, k - 1);
      RelevelTerm(k, ys[k - 1], t, m, c);
    }
  }

  lemma NoProduct(x: real)
    ensures Product(x, 0.0) == 0.0
  {
  }

  /** Over the whole history the level subtracted makes no difference. */
  lemma AnyLevel(ys: seq<real>, c: real)
    requires ys != []
    ensures Numerator(ys) == Terms(ys, TimeMean(|ys|), c, |ys|)
  {
    TermsRelevel(ys, TimeMean(|ys|), LevelMean(ys), c, |ys|);
    OffsetsCancel(|ys|);
    assert (c - LevelMean(ys)) * 0.0 == 0.0;
  }

  function Raised(ys: seq<real>, c: real): (r: seq<real>)
    ensures |r| == |ys| && forall i :: 0 <= i < |ys| ==> r[i] == ys[i] + c
  {
    seq(|ys|, i requires 0 <= i < |ys| => ys[i] + c)
  }

  lemma {:induction false} TermsOfRaised(ys: seq<real>, c: real, t: real, m: real, k: nat)
    requires k <= |ys|
    ensures Terms(Raised(ys, c), t, m + c, k) == Terms(ys, t, m, k)
  {
    if k > 0 {
      TermsOfRaised(ys, c, t, m, k - 1);
      assert Raised(ys, c)[k - 1] - (m + c) == ys[k - 1] - m;
    }
  }

  /** Adding a constant to every sample leaves the slope unchanged. */
  lemma SlopeShiftInvariant(ys: seq<real>, c: real)
    requires ys != []
    ensures Numerator(Raised(ys, c)) == Numerator(ys)
  {
    AnyLevel(ys, 0.0);
    AnyLevel(Raised(ys, c), 0.0 + c);
    TermsOfRaised(ys, c, TimeMean(|ys|), 0.0, |ys|);
  }

  lemma SameSign(i: nat, y: real, t: real, m: real)
    requires (i as real >= t && y >= m) || (i as real <= t && y <= m)
    ensures Term(i, y, t, m) >= 0.0
  {
    var a, b := i as real - t, y - m;
    assert a * b >= 0.0;
  }

  lemma {:induction false} TermsAboutMiddle(ys: seq<real>, k: nat)
    requires k <= |ys| && forall i, j :: 0 <= i <= j < |ys| ==> ys[i] <= ys[j]
    requires ys != []
    ensures Terms(ys, TimeMean(|ys|), ys[(|ys| - 1) / 2], k) >= 0.0
  {
    hide Term;
    if k > 0 {
      TermsAboutMiddle(ys, k - 1);
      var mid := (|ys| - 1) / 2;
      SameSign(k - 1, ys[k - 1], TimeMean(|ys|), ys[mid]);
    }
  }

  /** A history that never falls has a non-negative slope. */
  lemma RisingHistory(ys: seq<real>)
    requires ys != [] && forall i, j :: 0 <= i <= j < |ys| ==> ys[i] <= ys[j]
    ensures Numerator(ys) >= 0.0
  {
    AnyLevel(ys, ys[(|ys| - 1) / 2]);
    TermsAboutMiddle(ys, |ys|);
  }
}
