// The one-dimensional Kalman filter, with fixed and with adaptive noise parameters.
// Floating-point numbers are modelled as real numbers, with infinities and NaN where a division by zero
// can make them. A predicate compared with true is handed on as a whole, so that the products in its
// definition are not multiplied out where they are not needed.
module Kalman {
  import opened Common
  import opened Floats

  // The estimate, its covariance, the two noise parameters and the last gain.
  datatype Est = Est(x: real, p: real, q: real, r: real, k: real)

  datatype Tuning = Tuning(qMin: real, qMax: real, rMin: real, rMax: real, threshold: real)

  const DEFAULT := Tuning(0.001, 0.1, 0.5, 5.0, 10.0)

  predicate Proper(t: Tuning) { 0.0 < t.qMin <= t.qMax && 0.0 < t.rMin <= t.rMax }

  function Abs(a: real): (r: real)
    ensures r >= 0.0 && (r == a || r == -a)
  {
    if a < 0.0 then -a else a
  }

  function Fmin(a: real, b: real): real { if a < b then a else b }
  function Fmax(a: real, b: real): real { if a > b then a else b }

  // The covariances of prediction and measurement do not cancel.
  predicate Divides(s: Est) { s.p + s.q + s.r != 0.0 }

  function Gain(p: real, r: real): real
    requires p + r != 0.0
  {
    p / (p + r)
  }

  function Corrected(s: Est, z: real): Est
    requires Divides(s)
  {
    var k := Gain(s.p + s.q, s.r);
    Est(s.x + k * (z - s.x), (1.0 - k) * (s.p + s.q), s.q, s.r, k)
  }

  // The noise parameters after a large and after a small innovation.
  function RetunedNoise(t: Tuning, q: real, r: real, large: bool): (real, real) {
    if large then (Fmin(q * 1.2, t.qMax), Fmax(r * 0.8, t.rMin)) else (Fmax(q * 0.8, t.qMin), Fmin(r * 1.2, t.rMax))
  }

  function Retuned(t: Tuning, s: Est, innovation: real): Est {
    var (q, r) := RetunedNoise(t, s.q, s.r, Abs(innovation) > t.threshold);
    s.(q := q, r := r)
  }

  function Adapted(t: Tuning, s: Est, z: real): Est
    requires Divides(s)
  {
    Retuned(t, Corrected(s, z), z - s.x)
  }

  // ----- the code ----------------------------------------------------------------------------------

  class KalmanFilter {
    var xEst: Float
    var pEst: Float
    var q: real
    var r: real
    var k: Float
    var tuning: Tuning

    // All numbers, or, after a division by zero, neither covariance nor estimate one.
    predicate Valid()
      reads this
    {
      if pEst.Num? then xEst.Num? && k.Num? else !xEst.Num?
    }

    predicate Finite() reads this { xEst.Num? && pEst.Num? && k.Num? }

    function State(): Est
      reads this
    {
      Est(ValueOf(xEst), ValueOf(pEst), q, r, ValueOf(k))
    }

    constructor (processNoise: real, measurementNoise: real)
      ensures Finite() && State() == Est(0.0, 1.0, processNoise, measurementNoise, 0.0)
    {
      xEst, pEst, q, r, k := Num(0.0), Num(1.0), processNoise, measurementNoise, Num(0.0);
    }

    constructor Adaptive(processNoise: real, measurementNoise: real)
      ensures Finite() && State() == Est(0.0, 1.0, processNoise, measurementNoise, 0.0) && tuning == DEFAULT
    {
      xEst, pEst, q, r, k := Num(0.0), Num(1.0), processNoise, measurementNoise, Num(0.0);
      tuning := DEFAULT;
    }

    method Update(measurement: real) returns (x: Float)
      requires Valid()
      modifies this`xEst, this`pEst, this`k
      ensures Valid() && x == xEst
      ensures IsCorrection(old(State()), !old(pEst.Num?), measurement, xEst, pEst, k) == true
    {
      CorrectionMeans(State(), xEst, pEst, measurement);
      var pPred := Add(pEst, Num(q));
      k := Div(pPred, Add(pPred, Num(r)));
      xEst := Add(xEst, Mul(k, Sub(Num(measurement), xEst)));
      pEst := Mul(Sub(Num(1.0), k), pPred);
      x := xEst;
    }

    method UpdateAdaptive(measurement: real) returns (x: Float)
      requires Valid()
      modifies this`xEst, this`pEst, this`k, this`q, this`r
      ensures Valid() && x == xEst
      ensures IsCorrection(old(State()), !old(pEst.Num?), measurement, xEst, pEst, k) == true
      ensures (q, r) == RetunedNoise(tuning, old(q), old(r),
        if old(xEst.Num?) then Abs(measurement - old(xEst.v)) > tuning.threshold else old(xEst.Inf?))
    {
      var innovation := Sub(Num(measurement), xEst);
      Correct(measurement, innovation);
      Retune(Below(Num(tuning.threshold), AbsOf(innovation)));
      x := xEst;
    }

    // The normal update within the adaptive one.
    method Correct(ghost measurement: real, innovation: Float)
      requires Valid() && innovation == Sub(Num(measurement), xEst)
      modifies this`xEst, this`pEst, this`k
      ensures Valid() && IsCorrection(old(State()), !old(pEst.Num?), measurement, xEst, pEst, k) == true
    {
      CorrectionMeans(State(), xEst, pEst, measurement);
      pEst := Add(pEst, Num(q));
      k := Div(pEst, Add(pEst, Num(r)));
      xEst := Add(xEst, Mul(k, innovation));
      Commute(pEst, Sub(Num(1.0), k));
      pEst := Mul(pEst, Sub(Num(1.0), k));
    }

    method Retune(large: bool)
      modifies this`q, this`r
      ensures (q, r) == RetunedNoise(tuning, old(q), old(r), large)
    {
      if large {
        q := Fmin(q * 1.2, tuning.qMax);
        r := Fmax(r * 0.8, tuning.rMin);
      } else {
        q := Fmax(q * 0.8, tuning.qMin);
        r := Fmin(r * 1.2, tuning.rMax);
      }
    }
  }

  // What becomes of estimate, covariance and gain: the correction, infinities after a division by zero,
  // and then no numbers for good.
  predicate IsCorrection(s: Est, lost: bool, measurement: real, x': Float, p': Float, k': Float) {
    if lost then x' == p' == k' == NaN
    else if Divides(s) then
      var s' := Corrected(s, measurement);
      x' == Num(s'.x) && p' == Num(s'.p) && k' == Num(s'.k)
    else IsDivided(s, measurement, x', p', k')
  }

  // After a division by zero: predicted covariance p and noise -p give an infinite gain of the sign of p,
  // which takes the estimate toward the measurement for positive p; with p == 0 nothing is a number.
  predicate IsDivided(s: Est, measurement: real, x': Float, p': Float, k': Float) {
    var p := s.p + s.q;
    k' == (if p == 0.0 then NaN else Inf(p > 0.0))
    && p' == (if p == 0.0 then NaN else Inf(false))
    && x' == (if p == 0.0 || measurement == s.x then NaN else Inf(p > 0.0 <==> measurement > s.x))
  }

  lemma Commute(a: Float, b: Float)
    ensures Mul(a, b) == Mul(b, a)
  {
  }

  // The arithmetic of an update.
  lemma {:induction false} CorrectionMeans(s: Est, x: Float, p: Float, measurement: real)
    requires s.x == ValueOf(x) && s.p == ValueOf(p) && x.Num? == p.Num?
    ensures var pPred := Add(p, Num(s.q));
      var k := Div(pPred, Add(pPred, Num(s.r)));
      IsCorrection(s, !p.Num?, measurement, Add(x, Mul(k, Sub(Num(measurement), x))), Mul(Sub(Num(1.0), k), pPred), k) == true
  {
    if p.Num? {
      if Divides(s) {
        FiniteCorrection(s, measurement);
      } else {
        InfiniteCorrection(s, measurement);
      }
    }
  }

  lemma FiniteCorrection(s: Est, measurement: real)
    requires Divides(s)
    ensures var (x, p) := (Num(s.x), Num(s.p));
      var pPred := Add(p, Num(s.q));
      var k := Div(pPred, Add(pPred, Num(s.r)));
      IsCorrection(s, false, measurement, Add(x, Mul(k, Sub(Num(measurement), x))), Mul(Sub(Num(1.0), k), pPred), k) == true
  {
    FiniteGain(s.p + s.q, s.r, s.x, measurement - s.x);
  }

  lemma InfiniteCorrection(s: Est, measurement: real)
    requires !Divides(s)
    ensures var (x, p) := (Num(s.x), Num(s.p));
      var pPred := Add(p, Num(s.q));
      var k := Div(pPred, Add(pPred, Num(s.r)));
      IsCorrection(s, false, measurement, Add(x, Mul(k, Sub(Num(measurement), x))), Mul(Sub(Num(1.0), k), pPred), k) == true
  {
    InfiniteGain(s.p + s.q, measurement - s.x);
  }

  lemma FiniteGain(p: real, r: real, x: real, d: real)
    requires p + r != 0.0
    ensures var k := Div(Num(p), Num(p + r));
      k == Num(Gain(p, r)) && Add(Num(x), Mul(k, Num(d))) == Num(x + Gain(p, r) * d)
      && Mul(Sub(Num(1.0), k), Num(p)) == Num((1.0 - Gain(p, r)) * p)
  {
  }

  lemma InfiniteGain(p: real, d: real)
    ensures var k := Div(Num(p), Num(0.0));
      k == (if p == 0.0 then NaN else Inf(p > 0.0))
      && Mul(k, Num(d)) == (if p == 0.0 || d == 0.0 then NaN else Inf(p > 0.0 <==> d > 0.0))
      && Mul(Sub(Num(1.0), k), Num(p)) == (if p == 0.0 then NaN else Inf(false))
  {
  }

  // ----- real arithmetic -----------------------------------------------------------------------------

  // Comparisons of products are proved by the product of two differences.
  lemma Product(a: real, b: real)
    requires a >= 0.0 && b >= 0.0
    ensures a * b >= 0.0
  {
  }

  lemma Positive(a: real, b: real)
    requires a > 0.0 && b > 0.0
    ensures a * b > 0.0
  {
  }

  lemma CancelLe(a: real, b: real, c: real)
    requires c > 0.0 && a * c <= b * c
    ensures a <= b
  {
    if a > b {
      CancelLess(b, a, c);
    }
  }

  lemma CancelLess(a: real, b: real, c: real)
    requires c > 0.0 && a * c < b * c
    ensures a < b
  {
    var d := a - b;
    if d >= 0.0 {
      Product(d, c);
      assert d * c == a * c - b * c;
    }
  }

  // ----- the gain --------------------------------------------------------------------------------------

  // The gain k of covariance p over noise r is the share of p in p + r.
  predicate IsShare(k: real, p: real, r: real) { k * (p + r) == p }

  lemma GainIsShare(p: real, r: real)
    requires p + r != 0.0
    ensures IsShare(Gain(p, r), p, r) == true
  {
  }

  lemma ShareFacts(k: real, p: real, r: real)
    requires IsShare(k, p, r) && p >= 0.0 && r > 0.0
    ensures 0.0 <= k < 1.0 && (p > 0.0 ==> k > 0.0)
    ensures (1.0 - k) * (p + r) == r
    ensures (1.0 - k) * p == k * r && 0.0 <= k * r < r
  {
    var w := p + r;
    assert k * w == p && k * w == k * p + k * r;
    CancelLess(k, 1.0, w);
    CancelLe(0.0, k, w);
    if p > 0.0 {
      CancelLess(0.0, k, w);
    }
    var u := 1.0 - k;
    Product(k, r);
    Positive(u, r);
    assert u * r == r - k * r;
  }

  lemma SharesCompared(k: real, u: real, p: real, p': real, d: real, r: real, r': real, e: real)
    requires u == 1.0 - k && p' == p + d && r == r' + e && u * p' == k * r' && d >= 0.0 && e >= 0.0 && u >= 0.0 && k >= 0.0
    ensures p <= k * (p + r)
  {
    Product(u, d);
    Product(k, e);
    assert u * p' == u * p + u * d;
    assert k * r == k * r' + k * e;
    assert p == u * p + k * p;
    assert k * (p + r) == k * p + k * r;
  }

  // More covariance makes for more gain, more noise for less.
  lemma ShareIsMonotone(k: real, p: real, r: real, k': real, p': real, r': real)
    requires IsShare(k, p, r) && IsShare(k', p', r') == true && 0.0 <= p <= p' && 0.0 < r' <= r
    ensures k <= k'
  {
    ShareFacts(k', p', r');
    SharesCompared(k', 1.0 - k', p, p', p' - p, r, r', r - r');
    CancelLe(k, k', p + r);
  }

  // ----- one update ------------------------------------------------------------------------------------

  // s' is s drawn toward z by a gain strictly between 0 and 1.
  predicate Drawn(x: real, z: real, k: real, x': real) { 0.0 < k < 1.0 && x' == x + k * (z - x) }

  lemma CorrectedIs(s: Est, z: real)
    requires s.p + s.q > 0.0 && s.r > 0.0
    ensures var s' := Corrected(s, z);
      IsShare(s'.k, s.p + s.q, s.r) == true && Drawn(s.x, z, s'.k, s'.x) == true && 0.0 <= s'.p < s.r && s'.p == s'.k * s.r
      && s'.q == s.q && s'.r == s.r
  {
    GainIsShare(s.p + s.q, s.r);
    ShareFacts(Gain(s.p + s.q, s.r), s.p + s.q, s.r);
  }

  predicate Good(t: Tuning, s: Est) { s.p >= 0.0 && s.q >= t.qMin && t.rMin <= s.r <= t.rMax }

  // The most of an error that one adaptive update leaves.
  function Rate(t: Tuning): real
    requires Proper(t)
  {
    t.rMax / (t.rMax + t.qMin)
  }

  lemma RateIsLess(t: Tuning)
    requires Proper(t)
    ensures 0.0 < Rate(t) < 1.0 && IsShare(1.0 - Rate(t), t.qMin, t.rMax)
  {
    var a, w := Rate(t), t.rMax + t.qMin;
    assert a * w == t.rMax;
    CancelLess(0.0, a, w);
    CancelLess(a, 1.0, w);
    assert (1.0 - a) * w == w - a * w;
  }

  lemma RateBoundsGain(t: Tuning, k: real, p: real, r: real)
    requires Proper(t) && IsShare(k, p, r) == true && p >= t.qMin && 0.0 < r <= t.rMax
    ensures 1.0 - k <= Rate(t)
  {
    RateIsLess(t);
    ShareIsMonotone(1.0 - Rate(t), t.qMin, t.rMax, k, p, r);
  }

  // What every adaptive update keeps: the covariance is not negative and less than the noise it used,
  // the noise parameters stay in their ranges, and the gain stays between 0 and 1.
  lemma {:induction false} StepKeepsGood(t: Tuning, s: Est, z: real)
    requires Proper(t) && Good(t, s)
    ensures Divides(s)
    ensures var s' := Adapted(t, s, z);
      Good(t, s') && s'.p < s.r && Drawn(s.x, z, s'.k, s'.x) == true && 1.0 - s'.k <= Rate(t)
  {
    CorrectedIs(s, z);
    RateBoundsGain(t, Corrected(s, z).k, s.p + s.q, s.r);
  }

  // With noise parameters that are not negative, a filter never divides by zero and its estimate never
  // leaves the range between estimate and measurement.
  predicate Usable(s: Est) { s.p >= 0.0 && s.q >= 0.0 && s.r >= 0.0 && s.p + s.q + s.r > 0.0 }

  predicate Between(x: real, z: real, x': real) { x <= x' <= z || z <= x' <= x }

  lemma PartlyDrawn(x: real, z: real, k: real)
    requires 0.0 <= k <= 1.0
    ensures Between(x, z, x + k * (z - x))
  {
    var e, u := z - x, 1.0 - k;
    if e >= 0.0 {
      Product(k, e);
      Product(u, e);
    } else {
      var f := -e;
      Product(k, f);
      Product(u, f);
      assert k * (x - z) >= 0.0;
      assert u * (x - z) >= 0.0;
    }
    assert k * (z - x) == -(k * (x - z));
    assert u * (z - x) == z - x - k * (z - x);
  }

  lemma ShareLimits(k: real, p: real, r: real)
    requires IsShare(k, p, r) && p >= 0.0 && r >= 0.0 && p + r > 0.0
    ensures 0.0 <= k <= 1.0 && (1.0 - k) * p >= 0.0
  {
    var w, u := p + r, 1.0 - k;
    CancelLe(0.0, k, w);
    CancelLe(k, 1.0, w);
    Product(u, p);
  }

  lemma {:induction false} CorrectedStays(s: Est, z: real)
    requires Usable(s)
    ensures var s' := Corrected(s, z);
      s'.p >= 0.0 && s'.q == s.q && s'.r == s.r && Between(s.x, z, s'.x) == true
  {
    var p := s.p + s.q;
    var k := Gain(p, s.r);
    GainIsShare(p, s.r);
    ShareLimits(k, p, s.r);
    PartlyDrawn(s.x, z, k);
  }

  lemma RetunedStays(t: Tuning, s: Est, innovation: real)
    requires Proper(t) && s.p >= 0.0 && s.q >= 0.0 && s.r >= 0.0
    ensures Usable(Retuned(t, s, innovation)) && Retuned(t, s, innovation).x == s.x
  {
  }

  lemma {:induction false} StaysUsable(t: Tuning, s: Est, z: real)
    requires Proper(t) && Usable(s)
    ensures Divides(s) && Usable(Adapted(t, s, z)) && Between(s.x, z, Adapted(t, s, z).x) == true
  {
    CorrectedStays(s, z);
    RetunedStays(t, Corrected(s, z), z - s.x);
  }

  // ----- runs ------------------------------------------------------------------------------------------

  type Update = (Est, real) -> Est

  function Adaptive(t: Tuning): Update { (s: Est, z: real) => if Divides(s) then Adapted(t, s, z) else s }
  function Fixed(): Update { (s: Est, z: real) => if Divides(s) then Corrected(s, z) else s }

  // The filter after a series of measurements.
  function Tracked(f: Update, s: Est, zs: seq<real>): Est {
    if zs == [] then s else f(Tracked(f, s, zs[..|zs| - 1]), zs[|zs| - 1])
  }

  // Every update from a good state draws the estimate toward the measurement, leaving at most the given
  // part of the error, and ends in a good state.
  ghost predicate Contracts(f: Update, good: Est -> bool, rate: real) {
    forall s: Est, z: real {:trigger f(s, z)} :: good(s) ==>
      good(f(s, z)) && Drawn(s.x, z, f(s, z).k, f(s, z).x) == true && 1.0 - f(s, z).k <= rate
  }

  lemma {:induction false} AdaptiveContracts(t: Tuning)
    requires Proper(t)
    ensures Contracts(Adaptive(t), (s: Est) => Good(t, s), Rate(t))
  {
    forall s: Est, z: real | Good(t, s)
      ensures var s' := Adaptive(t)(s, z); Good(t, s') && Drawn(s.x, z, s'.k, s'.x) == true && 1.0 - s'.k <= Rate(t)
    {
      StepKeepsGood(t, s, z);
    }
  }

  lemma {:induction false} StaysGood(f: Update, good: Est -> bool, rate: real, s: Est, zs: seq<real>)
    requires Contracts(f, good, rate) && good(s)
    ensures good(Tracked(f, s, zs))
  {
    if zs != [] {
      StaysGood(f, good, rate, s, zs[..|zs| - 1]);
      var s1, z := Tracked(f, s, zs[..|zs| - 1]), zs[|zs| - 1];
      assert good(s1);
      assert good(f(s1, z));
    }
  }

  // a to the n-th power times e.
  function Scaled(a: real, n: nat, e: real): real { if n == 0 then e else a * Scaled(a, n - 1, e) }

  lemma {:induction false} ScaledPositive(a: real, n: nat, e: real)
    requires a > 0.0 && e >= 0.0
    ensures Scaled(a, n, e) >= 0.0
  {
    if n > 0 {
      ScaledPositive(a, n - 1, e);
      Product(a, Scaled(a, n - 1, e));
    }
  }

  predicate Close(x: real, z: real, bound: real) { Abs(x - z) <= bound }
  predicate Near(zs: seq<real>, z: real, d: real) { forall i :: 0 <= i < |zs| ==> Close(zs[i], z, d) }

  lemma UpperErrorStep(e: real, w: real, k: real, e': real, rate: real, b: real, d: real)
    requires 0.0 < k < 1.0 && e' == e + k * (w - e) && 1.0 - k <= rate && b >= 0.0 && d >= 0.0
    requires e <= b + d && w <= d
    ensures e' <= rate * b + d
  {
    var u, f, g, h := 1.0 - k, b + d - e, d - w, rate - 1.0 + k;
    Product(u, f);
    Product(k, g);
    Product(h, b);
    assert u * f == b + d - e - k * b - k * d + k * e;
    assert k * g == k * d - k * w;
    assert h * b == rate * b - b + k * b;
  }

  // One update: what is left of the error, and at most the error of the measurement.
  lemma ErrorStep(x: real, zi: real, k: real, x': real, z: real, rate: real, b: real, d: real)
    requires Drawn(x, zi, k, x') == true && 1.0 - k <= rate && b >= 0.0 && d >= 0.0
    requires Close(x, z, b + d) == true && Close(zi, z, d) == true
    ensures Close(x', z, rate * b + d) == true
  {
    UpperErrorStep(x - z, zi - z, k, x' - z, rate, b, d);
    UpperErrorStep(z - x, z - zi, k, z - x', rate, b, d);
  }

  // Convergence: for measurements that stay within d of z, the error shrinks geometrically down to d.
  lemma {:induction false} Converges(f: Update, good: Est -> bool, rate: real, s: Est, zs: seq<real>, z: real, d: real)
    requires Contracts(f, good, rate) && good(s) && rate > 0.0 && d >= 0.0 && Near(zs, z, d)
    ensures Close(Tracked(f, s, zs).x, z, Scaled(rate, |zs|, Abs(s.x - z)) + d) == true
  {
    if zs != [] {
      var n := |zs|;
      var front := zs[..n - 1];
      Converges(f, good, rate, s, front, z, d);
      StaysGood(f, good, rate, s, front);
      var s1 := Tracked(f, s, front);
      var s2 := f(s1, zs[n - 1]);
      var b := Scaled(rate, n - 1, Abs(s.x - z));
      ScaledPositive(rate, n - 1, Abs(s.x - z));
      ErrorStep(s1.x, zs[n - 1], s2.k, s2.x, z, rate, b, d);
      assert Scaled(rate, n, Abs(s.x - z)) == rate * b;
    }
  }

  // Whatever the adaptation does to the noise parameters on the way.
  lemma {:induction false} AdaptiveConvergence(t: Tuning, s: Est, zs: seq<real>, z: real, d: real)
    requires Proper(t) && Good(t, s) && d >= 0.0 && Near(zs, z, d)
    ensures Good(t, Tracked(Adaptive(t), s, zs))
    ensures Abs(Tracked(Adaptive(t), s, zs).x - z) <= Scaled(Rate(t), |zs|, Abs(s.x - z)) + d
  {
    AdaptiveContracts(t);
    RateIsLess(t);
    var good := (s: Est) => Good(t, s);
    assert good(s);
    StaysGood(Adaptive(t), good, Rate(t), s, zs);
    Converges(Adaptive(t), good, Rate(t), s, zs, z, d);
  }

  // ----- how the noise parameters go -------------------------------------------------------------------

  predicate IsLarge(t: Tuning, s: Est, z: real) { Abs(z - s.x) > t.threshold }

  // In range, a large innovation never lowers q and never raises r, any other never raises q and never
  // lowers r.
  lemma NoiseFollowsInnovation(t: Tuning, s: Est, z: real)
    requires Proper(t) && Divides(s) && t.qMin <= s.q <= t.qMax && t.rMin <= s.r <= t.rMax
    ensures var s' := Adapted(t, s, z); if IsLarge(t, s, z) then s'.q >= s.q && s'.r <= s.r else s'.q <= s.q && s'.r >= s.r
  {
  }

  // All innovations of a run are large, or none is.
  predicate AllLarge(t: Tuning, s: Est, zs: seq<real>, large: bool) {
    forall i :: 0 <= i < |zs| ==> (IsLarge(t, Tracked(Adaptive(t), s, zs[..i]), zs[i]) <==> large)
  }

  lemma {:induction false} LastOfRun(t: Tuning, s: Est, zs: seq<real>, large: bool)
    requires Proper(t) && Good(t, s) && zs != [] && AllLarge(t, s, zs, large)
    ensures var front, z := zs[..|zs| - 1], zs[|zs| - 1];
      var s1 := Tracked(Adaptive(t), s, front);
      AllLarge(t, s, front, large) && Divides(s1) && (IsLarge(t, s1, z) <==> large)
      && Tracked(Adaptive(t), s, zs) == Adapted(t, s1, z)
  {
    var front := zs[..|zs| - 1];
    forall i | 0 <= i < |front|
      ensures IsLarge(t, Tracked(Adaptive(t), s, front[..i]), front[i]) <==> large
    {
      assert front[..i] == zs[..i] && front[i] == zs[i];
    }
    var good := (s: Est) => Good(t, s);
    AdaptiveContracts(t);
    assert good(s);
    StaysGood(Adaptive(t), good, Rate(t), s, front);
    StepKeepsGood(t, Tracked(Adaptive(t), s, front), zs[|zs| - 1]);
  }

  // n small innovations in a row take q down by the factor 0.8 each, to qMin at least, and r up by 1.2, to
  // rMax at most.
  lemma {:induction false} QuietRunRetunes(t: Tuning, s: Est, zs: seq<real>)
    requires Proper(t) && Good(t, s) && AllLarge(t, s, zs, false)
    ensures var s' := Tracked(Adaptive(t), s, zs);
      s'.q == Fmax(Scaled(0.8, |zs|, s.q), t.qMin) && s'.r == Fmin(Scaled(1.2, |zs|, s.r), t.rMax)
  {
    if zs != [] {
      LastOfRun(t, s, zs, false);
      QuietRunRetunes(t, s, zs[..|zs| - 1]);
    }
  }

  // n large ones take q up by 1.2 each, to qMax at most, and r down by 0.8, to rMin at least.
  lemma {:induction false} LoudRunRetunes(t: Tuning, s: Est, zs: seq<real>)
    requires Proper(t) && Good(t, s) && s.q <= t.qMax && AllLarge(t, s, zs, true)
    ensures var s' := Tracked(Adaptive(t), s, zs);
      s'.q == Fmin(Scaled(1.2, |zs|, s.q), t.qMax) && s'.r == Fmax(Scaled(0.8, |zs|, s.r), t.rMin)
  {
    if zs != [] {
      LastOfRun(t, s, zs, true);
      LoudRunRetunes(t, s, zs[..|zs| - 1]);
    }
  }

  // With the default ranges and threshold: 100 after 0 is large, 10 is not.
  lemma DefaultRetuning(s: Est)
    requires s == Est(0.0, 1.0, 0.5, 1.0, 0.0)
    ensures Adapted(DEFAULT, s, 100.0).q == 0.1 && Adapted(DEFAULT, s, 100.0).r == 0.8
    ensures Adapted(DEFAULT, s, 10.0).q == 0.4 && Adapted(DEFAULT, s, 10.0).r == 1.2
  {
  }

  function Constant(z: real, n: nat): seq<real> { seq(n, _ => z) }

  lemma DrawnUp(x: real, z: real, k: real, x': real)
    requires Drawn(x, z, k, x') && x < z
    ensures x < x' < z
  {
    var e, u := z - x, 1.0 - k;
    Positive(k, e);
    Positive(u, e);
    assert k * (z - x) > 0.0;
    assert u * (z - x) > 0.0;
    assert u * (z - x) == z - x - k * (z - x);
  }

  lemma DrawnDown(x: real, z: real, k: real, x': real)
    requires Drawn(x, z, k, x') && z < x
    ensures z < x' < x
  {
    DrawnUp(-x, -z, k, -x');
  }

  lemma KeepsItsSide(x: real, z: real, k: real, x': real)
    requires Drawn(x, z, k, x') == true
    ensures (x > z ==> z < x' < x) && (x < z ==> x < x' < z) && (x == z ==> x' == z)
  {
    if x < z {
      DrawnUp(x, z, k, x');
    } else if z < x {
      DrawnDown(x, z, k, x');
    }
  }

  // For a constant measurement the estimate approaches from one side: it never gets there and never
  // gets past it.
  lemma {:induction false} NeverOvershoots(f: Update, good: Est -> bool, rate: real, s: Est, z: real, n: nat)
    requires Contracts(f, good, rate) && good(s)
    ensures var x := Tracked(f, s, Constant(z, n)).x;
      (s.x > z ==> z < x <= s.x) && (s.x < z ==> s.x <= x < z) && (s.x == z ==> x == z)
  {
    if n > 0 {
      NeverOvershoots(f, good, rate, s, z, n - 1);
      assert Constant(z, n)[..n - 1] == Constant(z, n - 1);
      StaysGood(f, good, rate, s, Constant(z, n - 1));
      var s1 := Tracked(f, s, Constant(z, n - 1));
      KeepsItsSide(s1.x, z, f(s1, z).k, f(s1, z).x);
    }
  }

  lemma {:induction false} AdaptiveNeverOvershoots(t: Tuning, s: Est, z: real, n: nat)
    requires Proper(t) && Good(t, s)
    ensures var x := Tracked(Adaptive(t), s, Constant(z, n)).x;
      (s.x > z ==> z < x <= s.x) && (s.x < z ==> s.x <= x < z) && (s.x == z ==> x == z)
  {
    AdaptiveContracts(t);
    var good := (s: Est) => Good(t, s);
    assert good(s);
    NeverOvershoots(Adaptive(t), good, Rate(t), s, z, n);
  }

  // The estimate stays in every range that holds the start and the measurements.
  lemma {:induction false} StaysWithin(f: Update, good: Est -> bool, rate: real, s: Est, zs: seq<real>, lo: real, hi: real)
    requires Contracts(f, good, rate) && good(s) && lo <= s.x <= hi && forall i :: 0 <= i < |zs| ==> lo <= zs[i] <= hi
    ensures lo <= Tracked(f, s, zs).x <= hi
  {
    if zs != [] {
      var front, zi := zs[..|zs| - 1], zs[|zs| - 1];
      StaysWithin(f, good, rate, s, front, lo, hi);
      StaysGood(f, good, rate, s, front);
      var s1 := Tracked(f, s, front);
      KeepsItsSide(s1.x, zi, f(s1, zi).k, f(s1, zi).x);
    }
  }

  // ----- how soon --------------------------------------------------------------------------------------

  // Bernoulli's inequality, for a rate a = 1 / (1 + c).
  lemma {:induction false} ScaledShrinks(a: real, c: real, n: nat, e: real)
    requires a > 0.0 && c >= 0.0 && a * (1.0 + c) == 1.0 && e >= 0.0
    ensures Scaled(a, n, e) * (1.0 + (n as real) * c) <= e
  {
    if n > 0 {
      ScaledShrinks(a, c, n - 1, e);
      ScaledPositive(a, n - 1, e);
      var b, m := Scaled(a, n - 1, e), (n - 1) as real;
      BernoulliStep(a, c, b, m, e);
      assert n as real == m + 1.0;
      assert Scaled(a, n, e) == a * b;
    }
  }

  lemma BernoulliStep(a: real, c: real, b: real, m: real, e: real)
    requires a > 0.0 && c >= 0.0 && m >= 0.0 && b >= 0.0 && a * (1.0 + c) == 1.0 && b * (1.0 + m * c) <= e
    ensures a * b * (1.0 + (m + 1.0) * c) <= e
  {
    var cc, ab := c * c, a * b;
    Product(c, c);
    Product(a, b);
    Product(m, cc);
    var f := m * cc;
    Product(ab, f);
    var u, v, w := 1.0 + (m + 1.0) * c, 1.0 + m * c, 1.0 + c;
    assert v * w == u + f;
    assert ab * (v * w) == b * v * (a * w);
    assert ab * (u + f) == ab * u + ab * f;
  }

  lemma RateInverse(t: Tuning)
    requires Proper(t)
    ensures t.qMin / t.rMax > 0.0 && Rate(t) * (1.0 + t.qMin / t.rMax) == 1.0
  {
    var c, a, r, q := t.qMin / t.rMax, Rate(t), t.rMax, t.qMin;
    assert c * r == q && a * (r + q) == r;
    CancelLess(0.0, c, r);
    var v := 1.0 + c;
    assert v * r == r + q;
    var av := a * v;
    assert av * r == a * (v * r);
    CancelLe(av, 1.0, r);
    CancelLe(1.0, av, r);
  }

  lemma {:induction false} ScaledBelow(a: real, c: real, n: nat, e: real, eps: real)
    requires a > 0.0 && c > 0.0 && a * (1.0 + c) == 1.0 && eps > 0.0
    requires 0.0 <= e <= (n as real) * c * eps
    ensures Scaled(a, n, e) <= eps
  {
    ScaledShrinks(a, c, n, e);
    var b, m := Scaled(a, n, e), (n as real) * c;
    Product(n as real, c);
    var w := 1.0 + m;
    assert eps * w == eps + m * eps;
    CancelLe(b, eps, w);
  }

  // How many readings suffice: once n * qMin / rMax reaches |x - z| / eps, the error is at most eps + d.
  lemma {:induction false} SettlesWithin(t: Tuning, s: Est, zs: seq<real>, z: real, d: real, eps: real)
    requires Proper(t) && Good(t, s) && d >= 0.0 && Near(zs, z, d)
    requires eps > 0.0 && Abs(s.x - z) <= (|zs| as real) * (t.qMin / t.rMax) * eps
    ensures Abs(Tracked(Adaptive(t), s, zs).x - z) <= eps + d
  {
    RateInverse(t);
    RateIsLess(t);
    ScaledBelow(Rate(t), t.qMin / t.rMax, |zs|, Abs(s.x - z), eps);
    AdaptiveConvergence(t, s, zs, z, d);
  }

  // ----- the gain is the best gain -------------------------------------------------------------------

  // The covariance of x + k * (z - x) when x has covariance p and z has r.
  function Posterior(p: real, r: real, k: real): real { (1.0 - k) * (1.0 - k) * p + k * k * r }

  // The covariance for gain k, with d and f for the difference of k and the share g.
  lemma PosteriorOf(g: real, p: real, r: real, k: real, d: real, f: real, w: real)
    requires IsShare(g, p, r) && w == p + r && d == k - g == f
    ensures Posterior(p, r, k) == (1.0 - g) * p + d * f * w
  {
    assert g * w == p;
    assert (1.0 - k) * (1.0 - k) * p == p - 2.0 * (k * p) + k * k * p;
    assert k * k * r == k * k * w - k * k * p;
    assert d * f * w == k * k * w - 2.0 * (k * (g * w)) + g * (g * w);
    assert (1.0 - g) * p == p - g * p;
  }

  lemma SameSign(d: real, f: real)
    requires (d > 0.0 && f > 0.0) || (d < 0.0 && f < 0.0)
    ensures d * f > 0.0
  {
    if d > 0.0 {
      Positive(d, f);
    } else {
      Positive(-d, -f);
      assert (-d) * (-f) == d * f;
    }
  }

  lemma SquareTimes(d: real, f: real, w: real)
    requires ((d > 0.0 && f > 0.0) || (d < 0.0 && f < 0.0)) && w > 0.0
    ensures d * f * w > 0.0
  {
    SameSign(d, f);
    Positive(d * f, w);
  }

  lemma OtherGainsAreWorse(g: real, p: real, r: real, k: real, d: real, f: real, w: real)
    requires IsShare(g, p, r) == true && w == p + r > 0.0 && d == k - g == f && d != 0.0
    ensures Posterior(p, r, k) > (1.0 - g) * p
  {
    SquareTimes(d, f, w);
    PosteriorOf(g, p, r, k, d, f, w);
  }

  lemma GainAttains(g: real, p: real, r: real)
    requires IsShare(g, p, r) == true
    ensures Posterior(p, r, g) == (1.0 - g) * p
  {
    PosteriorOf(g, p, r, g, 0.0, 0.0, p + r);
  }

  // Of all gains the one used leaves the least covariance, and the covariance kept is that one.
  lemma {:induction false} GainIsOptimal(s: Est, z: real, k: real)
    requires s.p + s.q >= 0.0 && s.r > 0.0
    ensures var s', p := Corrected(s, z), s.p + s.q;
      s'.p == Posterior(p, s.r, s'.k) && s'.p <= Posterior(p, s.r, k)
      && (s'.p == Posterior(p, s.r, k) <==> k == s'.k)
  {
    var p := s.p + s.q;
    var g := Gain(p, s.r);
    GainIsShare(p, s.r);
    GainAttains(g, p, s.r);
    if k != g {
      OtherGainsAreWorse(g, p, s.r, k, k - g, k - g, p + s.r);
    }
  }

  // ----- the covariance forgets its start ------------------------------------------------------------

  predicate Sound(q: real, r: real, s: Est) { s.p >= 0.0 && q > 0.0 && r > 0.0 && s.q == q && s.r == r }

  lemma CrossDifference(gu: real, gv: real, u: real, v: real, r: real)
    requires gu * (u + r) == r && gv * (v + r) == r
    ensures gv * r - gu * r == gu * gv * (u - v)
  {
    assert gv * r == gv * (gu * (u + r)) == gu * gv * (u + r);
    assert gu * r == gu * (gv * (v + r)) == gu * gv * (v + r);
    assert gu * gv * (u + r) - gu * gv * (v + r) == gu * gv * (u - v);
  }

  lemma BelowTheSquare(gu: real, gv: real, c: real, d: real)
    requires 0.0 <= gu <= c && 0.0 <= gv <= c && d >= 0.0
    ensures 0.0 <= gu * gv * d <= c * (c * d)
  {
    var f, h, i := gu * gv, c - gu, c - gv;
    Product(gu, gv);
    Product(f, d);
    Product(h, gv);
    Product(i, c);
    var j := c * c - f;
    assert j == h * gv + i * c;
    Product(j, d);
    assert j * d == c * (c * d) - f * d;
  }

  lemma Complements(k: real, u: real, h: real, q: real, r: real)
    requires IsShare(k, u, r) == true && IsShare(h, q, r) == true && 0.0 < q <= u && r > 0.0
    ensures 0.0 <= 1.0 - k <= 1.0 - h && (1.0 - k) * (u + r) == r
  {
    ShareFacts(k, u, r);
    ShareIsMonotone(h, q, r, k, u, r);
  }

  function Twice(c: real, d: real): real { c * (c * d) }

  lemma DifferenceStep(u: real, v: real, r: real, gu: real, gv: real, c: real, d: real, difference: real)
    requires gu * (u + r) == r && gv * (v + r) == r && d == u - v >= 0.0
    requires 0.0 <= gu <= c && 0.0 <= gv <= c && difference == gv * r - gu * r
    ensures 0.0 <= difference <= Twice(c, d)
  {
    CrossDifference(gu, gv, u, v, r);
    BelowTheSquare(gu, gv, c, d);
  }

  // One update takes the difference of two covariances times the product of two complements of gains.
  lemma CovarianceStep(a: Est, b: Est, q: real, r: real, a': Est, b': Est, c: real)
    requires a.p >= b.p >= 0.0 && q > 0.0 && r > 0.0
    requires IsShare(a'.k, a.p + q, r) == true && IsShare(b'.k, b.p + q, r) == true && IsShare(1.0 - c, q, r) == true
    requires a'.p == a'.k * r && b'.p == b'.k * r
    ensures 0.0 <= a'.p - b'.p <= Twice(c, a.p - b.p)
  {
    var ka, kb, u, v := a'.k, b'.k, a.p + q, b.p + q;
    var gu, gv := 1.0 - ka, 1.0 - kb;
    Complements(ka, u, 1.0 - c, q, r);
    Complements(kb, v, 1.0 - c, q, r);
    DifferenceStep(u, v, r, gu, gv, c, a.p - b.p, a'.p - b'.p);
  }

  lemma ForgottenPart(q: real, r: real)
    requires q > 0.0 && r > 0.0
    ensures r / (q + r) > 0.0 && IsShare(1.0 - r / (q + r), q, r) == true
  {
    var c, w := r / (q + r), q + r;
    assert c * w == r;
    CancelLess(0.0, c, w);
    assert (1.0 - c) * w == w - c * w;
  }

  // Two updates keep the order of the covariances and leave at most the square of c of their difference.
  ghost predicate Forgets(f: Update, q: real, r: real, c: real) {
    forall a: Est, b: Est, za: real, zb: real {:trigger f(a, za), f(b, zb)} :: Sound(q, r, a) && Sound(q, r, b) && a.p >= b.p ==>
      Sound(q, r, f(a, za)) && Sound(q, r, f(b, zb)) && 0.0 <= f(a, za).p - f(b, zb).p <= Twice(c, a.p - b.p)
  }

  lemma {:induction false} FixedStep(q: real, r: real, c: real, a: Est, b: Est, za: real, zb: real)
    requires Sound(q, r, a) && Sound(q, r, b) && a.p >= b.p && IsShare(1.0 - c, q, r) == true
    ensures 0.0 <= Corrected(a, za).p - Corrected(b, zb).p <= Twice(c, a.p - b.p)
  {
    CorrectedIs(a, za);
    CorrectedIs(b, zb);
    CovarianceStep(a, b, q, r, Corrected(a, za), Corrected(b, zb), c);
  }

  lemma {:induction false} FixedForgets(q: real, r: real, c: real)
    requires q > 0.0 && r > 0.0 && IsShare(1.0 - c, q, r) == true
    ensures Forgets(Fixed(), q, r, c)
  {
    forall a: Est, b: Est, za: real, zb: real | Sound(q, r, a) && Sound(q, r, b) && a.p >= b.p
      ensures var a', b' := Fixed()(a, za), Fixed()(b, zb);
        Sound(q, r, a') && Sound(q, r, b') && 0.0 <= a'.p - b'.p <= Twice(c, a.p - b.p)
    {
      CorrectedIs(a, za);
      CorrectedIs(b, zb);
      FixedStep(q, r, c, a, b, za, zb);
    }
  }

  lemma TwiceIsMonotone(c: real, d: real, e: real)
    requires c > 0.0 && d <= e
    ensures Twice(c, d) <= Twice(c, e)
  {
    var f := e - d;
    Product(c, f);
    var g := c * f;
    Product(c, g);
    assert g == c * e - c * d;
    assert c * g == c * (c * e) - c * (c * d);
  }

  lemma TwiceScaled(c: real, n: nat, e: real)
    requires n > 0
    ensures Twice(c, Scaled(c, 2 * (n - 1), e)) == Scaled(c, 2 * n, e)
  {
    assert Scaled(c, 2 * n, e) == c * Scaled(c, 2 * n - 1, e);
  }

  lemma {:induction false} DifferenceShrinks(f: Update, q: real, r: real, c: real, s: Est, s': Est, zs: seq<real>, zs': seq<real>)
    requires Forgets(f, q, r, c) && c > 0.0
    requires Sound(q, r, s) && Sound(q, r, s') && s.p >= s'.p && |zs| == |zs'|
    ensures Sound(q, r, Tracked(f, s, zs)) && Sound(q, r, Tracked(f, s', zs'))
    ensures 0.0 <= Tracked(f, s, zs).p - Tracked(f, s', zs').p <= Scaled(c, 2 * |zs|, s.p - s'.p)
  {
    if zs != [] {
      var n := |zs|;
      DifferenceShrinks(f, q, r, c, s, s', zs[..n - 1], zs'[..n - 1]);
      var a, b := Tracked(f, s, zs[..n - 1]), Tracked(f, s', zs'[..n - 1]);
      var za, zb := zs[n - 1], zs'[n - 1];
      assert 0.0 <= f(a, za).p - f(b, zb).p <= Twice(c, a.p - b.p);
      TwiceIsMonotone(c, a.p - b.p, Scaled(c, 2 * (n - 1), s.p - s'.p));
      TwiceScaled(c, n, s.p - s'.p);
    }
  }

  // With fixed noise parameters two runs forget where they started, whatever they measured, and keep
  // the order of their covariances.
  lemma {:induction false} CovarianceForgets(s: Est, s': Est, zs: seq<real>, zs': seq<real>)
    requires Sound(s.q, s.r, s) && Sound(s.q, s.r, s') && s.p >= s'.p && |zs| == |zs'|
    ensures 0.0 <= Tracked(Fixed(), s, zs).p - Tracked(Fixed(), s', zs').p
             <= Scaled(s.r / (s.q + s.r), 2 * |zs|, s.p - s'.p)
  {
    ForgottenPart(s.q, s.r);
    FixedForgets(s.q, s.r, s.r / (s.q + s.r));
    DifferenceShrinks(Fixed(), s.q, s.r, s.r / (s.q + s.r), s, s', zs, zs');
  }

  // ----- without process noise: recursive averaging ----------------------------------------------------

  function Sum(zs: seq<real>): real { if zs == [] then 0.0 else Sum(zs[..|zs| - 1]) + zs[|zs| - 1] }

  function Weight(s: Est, n: real): real { s.r + n * s.p }
  function Weighted(s: Est, zs: seq<real>): real { s.r * s.x + s.p * Sum(zs) }

  // s' is the mean of the start s, weighted by r / p, and of all the measurements.
  ghost predicate Averages(s: Est, zs: seq<real>, s': Est) {
    s'.q == 0.0 && s'.r == s.r && s'.p > 0.0
    && forall k {:trigger Look(k)} :: Look(k) ==>
         IsMean(Weight(s, |zs| as real), s.p * s.r, Weighted(s, zs), s'.p, s'.x) == true
  }

  predicate IsMean(weight: real, noise: real, total: real, p: real, x: real) { p * weight == noise && x * weight == total }

  lemma WeightedMore(s: Est, zs: seq<real>, z: real)
    ensures Weighted(s, zs + [z]) == Weighted(s, zs) + s.p * z
    ensures Weight(s, |zs + [z]| as real) == Weight(s, |zs| as real) + s.p
  {
    assert (zs + [z])[..|zs|] == zs;
    var a, n := Sum(zs), |zs| as real;
    assert s.p * (a + z) == s.p * a + s.p * z;
    assert |zs + [z]| as real == n + 1.0;
    assert (n + 1.0) * s.p == n * s.p + s.p;
  }

  lemma AverageStep(p: real, r: real, v: real, w: real, noise: real, total: real, p1: real, x1: real, z: real, k: real,
                    total': real, p2: real, x2: real)
    requires p > 0.0 && r > 0.0 && p1 > 0.0 && IsShare(k, p1, r) == true && w == v + p && noise == p * r
    requires IsMean(v, noise, total, p1, x1) == true
    requires total' == total + p * z && p2 == k * r && Drawn(x1, z, k, x2) == true
    ensures IsMean(w, noise, total', p2, x2) == true
  {
    GainOverWeights(p, r, p1, v, w, k);
    assert k * r * w == k * w * r;
    assert (x1 + k * (z - x1)) * w == x1 * w + k * w * (z - x1);
    assert x1 * w == x1 * v + x1 * p;
    assert p * (z - x1) == p * z - p * x1;
  }

  lemma {:induction false} FixedAverages(s: Est, zs: seq<real>, s1: Est, z: real)
    requires s.p > 0.0 && s.r > 0.0 && Averages(s, zs, s1) == true
    ensures Averages(s, zs + [z], Corrected(s1, z)) == true
  {
    CorrectedIs(s1, z);
    AverageOfMore(s, zs, s1, z, Corrected(s1, z));
  }

  lemma {:induction false} AverageOfMore(s: Est, zs: seq<real>, s1: Est, z: real, s2: Est)
    requires s.p > 0.0 && s.r > 0.0 && Averages(s, zs, s1) == true
    requires IsShare(s2.k, s1.p, s.r) == true && Drawn(s1.x, z, s2.k, s2.x) == true
    requires s2.p == s2.k * s.r && s2.q == s1.q && s2.r == s1.r
    ensures Averages(s, zs + [z], s2) == true
  {
    assert Look(0);
    Positive(s2.k, s.r);
    WeightedMore(s, zs, z);
    AverageStep(s.p, s.r, Weight(s, |zs| as real), Weight(s, |zs + [z]| as real), s.p * s.r, Weighted(s, zs), s1.p, s1.x, z,
                s2.k, Weighted(s, zs + [z]), s2.p, s2.x);
  }

  lemma GainOverWeights(p: real, r: real, p1: real, v: real, w: real, k: real)
    requires r > 0.0 && w == v + p && p1 * v == p * r && k * (p1 + r) == p1
    ensures k * w == p
  {
    assert (p1 + r) * v == p1 * v + r * v == r * w;
    assert k * (r * w) == k * ((p1 + r) * v) == k * (p1 + r) * v == p1 * v;
    var kw := k * w;
    assert kw * r == k * (r * w);
    CancelLe(kw, p, r);
    CancelLe(p, kw, r);
  }

  ghost predicate KeepsAverage(f: Update, s: Est) {
    forall zs: seq<real>, s1: Est, z: real {:trigger Averages(s, zs, s1), f(s1, z)} ::
      Averages(s, zs, s1) == true ==> Averages(s, zs + [z], f(s1, z)) == true
  }

  lemma {:induction false} AveragesWhenKept(f: Update, s: Est, zs: seq<real>)
    requires KeepsAverage(f, s) && Averages(s, [], s) == true
    ensures Averages(s, zs, Tracked(f, s, zs)) == true
  {
    if zs != [] {
      var front, z := zs[..|zs| - 1], zs[|zs| - 1];
      AveragesWhenKept(f, s, front);
      var s1 := Tracked(f, s, front);
      assert Averages(s, front + [z], f(s1, z)) == true;
      assert front + [z] == zs;
    }
  }

  // With q = 0 the filter computes, one measurement at a time, the mean of the start, weighted by r / p,
  // and all the measurements.
  lemma {:induction false} WithoutProcessNoiseAnAverage(s: Est, zs: seq<real>)
    requires s.p > 0.0 && s.q == 0.0 && s.r > 0.0
    ensures Averages(s, zs, Tracked(Fixed(), s, zs))
  {
    forall front: seq<real>, s1: Est, z: real | Averages(s, front, s1) == true
      ensures Averages(s, front + [z], Fixed()(s1, z)) == true
    {
      FixedAverages(s, front, s1, z);
    }
    var none: seq<real> := [];
    assert Weight(s, |none| as real) == s.r && Weighted(s, none) == s.r * s.x;
    AveragesWhenKept(Fixed(), s, zs);
  }
}
