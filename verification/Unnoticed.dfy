// A load that starts no boost: how soon it is recognized all the same.
module Unnoticed {
  import opened Common
  import opened MovingAverage
  import opened Hx711
  import opened Pipeline
  import K = Kalman
  import W = WeightManager
  import opened Floats
  import Calibration

  // ----- runs of plain readings --------------------------------------------------------------------------

  // The chain after these raw values.
  function Then(c: Chain, raws: seq<int>): (c': Chain)
    requires Bounded(c, LOWEST as real, HIGHEST as real) && RawsIn(raws, LOWEST, HIGHEST)
    ensures Bounded(c', LOWEST as real, HIGHEST as real)
  {
    PlainsAreValid(raws, LOWEST, HIGHEST);
    After(c, Plains(raws), LOWEST, HIGHEST)
  }

  lemma PlainsGrow(raws: seq<int>, front: seq<int>, raw: int)
    requires raws == front + [raw]
    ensures Plains(raws) == Plains(front) + [Plain(raw)]
  {
  }

  lemma {:induction false} LastReading(c: Chain, rds: seq<Reading>, rd: Reading, all: seq<Reading>)
    requires Bounded(c, LOWEST as real, HIGHEST as real) && all == rds + [rd] && ValidRun(all, LOWEST, HIGHEST)
    ensures ValidRun(rds, LOWEST, HIGHEST) && ValidReading(rd)
    ensures After(c, all, LOWEST, HIGHEST) == Hx711.Next(After(c, rds, LOWEST, HIGHEST), rd)
  {
    assert all[..|rds|] == rds && all[|rds|] == rd;
    assert forall i :: 0 <= i < |rds| ==> rds[i] == all[i];
  }

  lemma RawsBefore(raws: seq<int>, front: seq<int>, raw: int, a: int, b: int)
    requires raws == front + [raw] && RawsIn(raws, a, b)
    ensures RawsIn(front, a, b) && a <= raw <= b
  {
    assert forall i :: 0 <= i < |front| ==> front[i] == raws[i];
    assert raws[|front|] == raw;
  }

  lemma {:induction false} ThenNext(c: Chain, raws: seq<int>, front: seq<int>, raw: int)
    requires Bounded(c, LOWEST as real, HIGHEST as real) && RawsIn(raws, LOWEST, HIGHEST) && raws == front + [raw]
    ensures RawsIn(front, LOWEST, HIGHEST) && LOWEST <= raw <= HIGHEST
    ensures Then(c, raws) == Filtered(Then(c, front), raw)
  {
    RawsBefore(raws, front, raw, LOWEST, HIGHEST);
    PlainsGrow(raws, front, raw);
    PlainsAreValid(raws, LOWEST, HIGHEST);
    LastReading(c, Plains(front), Plain(raw), Plains(raws));
  }

  lemma {:induction false} ThenConcat(c: Chain, xs: seq<int>, ys: seq<int>)
    requires Bounded(c, LOWEST as real, HIGHEST as real) && RawsIn(xs, LOWEST, HIGHEST) && RawsIn(ys, LOWEST, HIGHEST)
    ensures RawsIn(xs + ys, LOWEST, HIGHEST) && Then(c, xs + ys) == Then(Then(c, xs), ys)
  {
    if ys == [] {
      assert xs + ys == xs;
    } else {
      var front, y := ys[..|ys| - 1], ys[|ys| - 1];
      ThenConcat(c, xs, front);
      assert ys == front + [y] && xs + ys == xs + front + [y];
      ThenNext(c, xs + ys, xs + front, y);
      ThenNext(Then(c, xs), ys, front, y);
    }
  }

  // ----- a filter with some covariance -------------------------------------------------------------------

  // The covariance is not below 0.02, and the noise parameters are in their ranges.
  predicate Lively(s: K.Est) { s.p >= 0.02 && K.Good(K.DEFAULT, s) }

  const RATE: real := 5.0 / 5.021

  lemma ShareKeepsCovariance(k: real, p: real, r: real, p': real)
    requires K.IsShare(k, p, r) == true && p >= 0.021 && r >= 0.5 && p' == k * r
    ensures p' >= 0.02
  {
    var u, v := p - 0.021, r - 0.02;
    K.Product(u, v);
    assert u * v == p * r - 0.02 * p - 0.021 * r + 0.00042;
    assert p' * (p + r) == k * (p + r) * r == p * r;
    K.CancelLe(0.02, p', p + r);
  }

  lemma ShareIsLarge(k: real, p: real, r: real)
    requires K.IsShare(k, p, r) == true && p >= 0.021 && 0.0 < r <= 5.0
    ensures 1.0 - k <= RATE
  {
    K.ShareIsMonotone(1.0 - RATE, 0.021, 5.0, k, p, r);
  }

  lemma {:induction false} StepKeepsLively(s: K.Est, z: real)
    requires Lively(s)
    ensures K.Divides(s)
    ensures var s' := K.Adapted(K.DEFAULT, s, z);
      Lively(s') && K.Drawn(s.x, z, s'.k, s'.x) == true && 1.0 - s'.k <= RATE
  {
    K.StepKeepsGood(K.DEFAULT, s, z);
    K.CorrectedIs(s, z);
    var s1 := K.Corrected(s, z);
    ShareKeepsCovariance(s1.k, s.p + s.q, s.r, s1.p);
    ShareIsLarge(s1.k, s.p + s.q, s.r);
  }

  lemma {:induction false} LivelyContracts()
    ensures K.Contracts(K.Adaptive(K.DEFAULT), Lively, RATE)
  {
    forall s: K.Est, z: real | Lively(s)
      ensures var s' := K.Adaptive(K.DEFAULT)(s, z);
        Lively(s') && K.Drawn(s.x, z, s'.k, s'.x) == true && 1.0 - s'.k <= RATE
    {
      StepKeepsLively(s, z);
    }
  }

  lemma {:induction false} FilteredStaysLively(c: Chain, raw: int)
    requires Ready(c) && c.useKf && Lively(c.kf)
    ensures Filtered(c, raw).useKf && Lively(Filtered(c, raw).kf) && Filtered(c, raw).window == c.window
  {
    var w := raw as real;
    var a := Averaged(c, w, c.boost > 0 || IsStep(c, w)).(last := c.last);
    var v := Averaged(c, w, c.boost > 0 || IsStep(c, w)).last;
    StepKeepsLively(Tuned(a, v).kf, v);
  }

  lemma {:induction false} ThenStaysLively(c: Chain, raws: seq<int>)
    requires Bounded(c, LOWEST as real, HIGHEST as real) && RawsIn(raws, LOWEST, HIGHEST) && c.useKf && Lively(c.kf)
    ensures var c' := Then(c, raws); c'.useKf && Lively(c'.kf) && c'.window == c.window
  {
    if raws != [] {
      var front, raw := raws[..|raws| - 1], raws[|raws| - 1];
      assert raws == front + [raw];
      ThenNext(c, raws, front, raw);
      ThenStaysLively(c, front);
      FilteredStaysLively(Then(c, front), raw);
    }
  }

  // ----- how soon an error vanishes ------------------------------------------------------------------------

  lemma {:induction false} ScaledTwice(a: real, m: nat, n: nat, e: real)
    ensures K.Scaled(a, m + n, e) == K.Scaled(a, n, K.Scaled(a, m, e))
  {
    if n > 0 {
      ScaledTwice(a, m, n - 1, e);
    }
  }

  const HALF_TIME: nat := 240

  lemma {:induction false} Halved(n: nat, e: real)
    requires n == HALF_TIME && e >= 0.0
    ensures 0.0 <= K.Scaled(RATE, n, e) <= e / 2.0
  {
    K.ScaledPositive(RATE, n, e);
    K.ScaledShrinks(RATE, 0.0042, n, e);
    var s := K.Scaled(RATE, n, e);
    assert s * (1.0 + (n as real) * 0.0042) == s * 2.008;
  }

  // 240 readings halve an error, or better.
  lemma {:induction false} HalvedOften(k: nat, e: real)
    requires e >= 0.0
    ensures 0.0 <= K.Scaled(RATE, k * HALF_TIME, e) && K.Scaled(RATE, k * HALF_TIME, e) * (Power(2, k) as real) <= e
  {
    if k > 0 {
      var n: nat := (k - 1) * HALF_TIME;
      var s, t := K.Scaled(RATE, n, e), K.Scaled(RATE, k * HALF_TIME, e);
      HalvedOften(k - 1, e);
      ScaledTwice(RATE, n, HALF_TIME, e);
      Halved(HALF_TIME, s);
      OneMoreHalf(s, t, Power(2, k - 1) as real, e);
    }
  }

  lemma OneMoreHalf(s: real, t: real, p: real, e: real)
    requires 0.0 <= t <= s / 2.0 && s * p <= e && p >= 0.0
    ensures t * (2.0 * p) <= e
  {
    var d := s / 2.0 - t;
    K.Product(d, p);
    assert d * p == s * p / 2.0 - t * p;
  }

  // ----- runs without a boost --------------------------------------------------------------------------------

  // What the moving average passes on, reading by reading, when nothing starts it afresh.
  function Means(accepted: seq<real>, window: nat, raws: seq<int>): (ms: seq<real>)
    ensures |ms| == |raws|
  {
    if raws == [] then []
    else
      Means(accepted, window, raws[..|raws| - 1])
      + [if window > 0 then Average(accepted + Reals(raws), window) else raws[|raws| - 1] as real]
  }

  // A reading without a step leaves the boost count at 0, any other does not.
  lemma {:induction false} QuietReading(c: Chain, raw: int)
    requires Ready(c) && c.useKf && BoostIsRegular(c) && Filtered(c, raw).boost == 0
    ensures var a := Averaged(c, raw as real, false); var c' := Filtered(c, raw);
      c.boost == 0 && !IsStep(c, raw as real) && K.Divides(c.kf)
      && c'.kf == K.Adapted(K.DEFAULT, c.kf, a.last) && c'.last == c'.kf.x && c'.accepted == a.accepted
  {
    if BoostIsFull(c) {
      BoostBypassesAverage(c, raw);
      assert false;
    }
    if IsStep(c, raw as real) {
      StepStartsBoost(c, raw);
      assert false;
    }
  }

  lemma {:induction false} StaysRegular(c: Chain, raws: seq<int>)
    requires Bounded(c, LOWEST as real, HIGHEST as real) && RawsIn(raws, LOWEST, HIGHEST) && BoostIsRegular(c)
    ensures BoostIsRegular(Then(c, raws)) && Then(c, raws).useKf == c.useKf
  {
    PlainsAreValid(raws, LOWEST, HIGHEST);
    BoostNeverEnds(c, Plains(raws), LOWEST, HIGHEST);
  }

  // What c becomes when the adaptive filter tracks the averages.
  predicate Reached(c: Chain, raws: seq<int>, c': Chain) {
    c'.useKf && c'.window == c.window && c'.kf == K.Tracked(K.Adaptive(K.DEFAULT), c.kf, Means(c.accepted, c.window, raws))
    && (c.window > 0 ==> c'.accepted == c.accepted + Reals(raws)) && (raws != [] ==> c'.last == c'.kf.x)
  }

  lemma {:induction false} ReachesNext(c: Chain, front: seq<int>, raw: int, raws: seq<int>, c1: Chain, c2: Chain)
    requires raws == front + [raw] && Reached(c, front, c1) && Ready(c1) && BoostIsRegular(c1)
    requires c2 == Filtered(c1, raw) && c2.boost == 0
    ensures c1.boost == 0 && Reached(c, raws, c2)
  {
    QuietReading(c1, raw);
    MeansGrow(c, front, raw, raws);
    var ms, m := Means(c.accepted, c.window, front), Averaged(c1, raw as real, false).last;
    assert Means(c.accepted, c.window, raws) == ms + [m];
    assert (ms + [m])[..|ms|] == ms;
  }

  // A run that ends with the boost count at 0 is one of the adaptive filter over the averages.
  lemma {:induction false} QuietRun(c: Chain, raws: seq<int>)
    requires Bounded(c, LOWEST as real, HIGHEST as real) && RawsIn(raws, LOWEST, HIGHEST)
    requires c.useKf && BoostIsRegular(c) && Then(c, raws).boost == 0
    ensures c.boost == 0 && Reached(c, raws, Then(c, raws))
  {
    if raws == [] {
      assert c.accepted + Reals(raws) == c.accepted;
    } else {
      var front, raw := raws[..|raws| - 1], raws[|raws| - 1];
      assert raws == front + [raw];
      ThenNext(c, raws, front, raw);
      StaysRegular(c, front);
      QuietBefore(Then(c, front), raw);
      QuietRun(c, front);
      ReachesNext(c, front, raw, raws, Then(c, front), Then(c, raws));
    }
  }

  lemma {:induction false} QuietBefore(c: Chain, raw: int)
    requires Ready(c) && c.useKf && BoostIsRegular(c) && Filtered(c, raw).boost == 0
    ensures c.boost == 0
  {
    QuietReading(c, raw);
  }

  lemma {:induction false} MeansGrow(c: Chain, front: seq<int>, raw: int, raws: seq<int>)
    requires raws == front + [raw]
    ensures Reals(raws) == Reals(front) + [raw as real]
    ensures var a := Averaged(c.(accepted := c.accepted + Reals(front)), raw as real, false);
      Means(c.accepted, c.window, raws) == Means(c.accepted, c.window, front) + [a.last]
      && (c.window > 0 ==> a.accepted == c.accepted + Reals(raws))
  {
    assert raws[..|raws| - 1] == front;
    assert c.accepted + Reals(front) + [raw as real] == c.accepted + (Reals(front) + [raw as real]);
  }

  // Every part of a run without a boost is one.
  lemma {:induction false} QuietPart(c: Chain, xs: seq<int>, ys: seq<int>)
    requires Bounded(c, LOWEST as real, HIGHEST as real) && RawsIn(xs, LOWEST, HIGHEST) && RawsIn(ys, LOWEST, HIGHEST)
    requires c.useKf && BoostIsRegular(c) && Then(Then(c, xs), ys).boost == 0
    ensures Then(c, xs).boost == 0 && Then(c, xs).useKf
  {
    StaysRegular(c, xs);
    QuietRun(Then(c, xs), ys);
  }

  // ----- a window of new values --------------------------------------------------------------------------------

  // The values averaged last lie between a and b.
  predicate Recent(accepted: seq<real>, window: nat, a: int, b: int) {
    window > 0 ==> accepted != [] && Within(Last(accepted, window), a as real, b as real)
  }

  lemma {:induction false} OneMoreRecent(accepted: seq<real>, window: nat, w: real, a: int, b: int)
    requires window > 0 && a as real <= w <= b as real
    requires Recent(accepted, window, a, b)
    ensures Recent(accepted + [w], window, a, b)
  {
    OneMoreWithin(accepted, window, w, a as real, b as real);
  }

  lemma {:induction false} OneMoreWithin(accepted: seq<real>, window: nat, w: real, lo: real, hi: real)
    requires window > 0 && lo <= w <= hi && Within(Last(accepted, window), lo, hi)
    ensures Within(Last(accepted + [w], window), lo, hi)
  {
    var s, t := Last(accepted, window), Last(accepted + [w], window);
    forall i | 0 <= i < |t|
      ensures lo <= t[i] <= hi
    {
      if i < |t| - 1 {
        assert t[i] == s[i + |s| + 1 - |t|];
      }
    }
  }

  lemma {:induction false} NewWindow(accepted: seq<real>, window: nat, raws: seq<int>, a: int, b: int)
    requires |raws| >= window && raws != [] && RawsIn(raws, a, b)
    ensures Recent(accepted + Reals(raws), window, a, b)
  {
    var all, new' := accepted + Reals(raws), Reals(raws);
    if window > 0 {
      assert Last(all, window) == new'[|new'| - window..];
    }
  }

  lemma {:induction false} RecentAverage(accepted: seq<real>, window: nat, a: int, b: int)
    requires window > 0 && Recent(accepted, window, a, b)
    ensures a as real <= Average(accepted, window) <= b as real
  {
    MeanWithin(Last(accepted, window), a as real, b as real);
  }

  lemma {:induction false} MeansWithin(accepted: seq<real>, window: nat, raws: seq<int>, a: int, b: int)
    requires Recent(accepted, window, a, b) && RawsIn(raws, a, b)
    ensures Within(Means(accepted, window, raws), a as real, b as real)
    ensures Recent(accepted + Reals(raws), window, a, b)
  {
    if raws == [] {
      assert accepted + Reals(raws) == accepted;
    } else {
      var front, raw := raws[..|raws| - 1], raws[|raws| - 1];
      assert raws == front + [raw];
      RawsBefore(raws, front, raw, a, b);
      MeansWithin(accepted, window, front, a, b);
      PlainsGrow(raws, front, raw);
      assert accepted + Reals(raws) == accepted + Reals(front) + [raw as real];
      if window > 0 {
        OneMoreRecent(accepted + Reals(front), window, raw as real, a, b);
        RecentAverage(accepted + Reals(raws), window, a, b);
      }
    }
  }

  // ----- the output arrives ----------------------------------------------------------------------------------

  // Everything is within one count of the range from a to b.
  predicate Arrived(c: Chain, a: int, b: int) {
    c.useKf && Recent(c.accepted, c.window, a, b) && (a - 1) as real < c.kf.x < (b + 1) as real
  }

  lemma {:induction false} FreshIsRecent(window: nat, w: real, a: int, b: int)
    requires window > 0 && a as real <= w <= b as real
    ensures Recent([w] + [w], window, a, b)
  {
    var t := Last([w] + [w], window);
    assert forall i :: 0 <= i < |t| ==> t[i] == w;
  }

  lemma {:induction false} AveragedIsRecent(c: Chain, w: real, afresh: bool, a: int, b: int)
    requires Recent(c.accepted, c.window, a, b) && a as real <= w <= b as real
    ensures var t := Averaged(c, w, afresh);
      a as real <= t.last <= b as real && Recent(t.accepted, c.window, a, b) && t.window == c.window
  {
    if c.window > 0 {
      if afresh {
        FreshIsRecent(c.window, w, a, b);
      } else {
        OneMoreRecent(c.accepted, c.window, w, a, b);
      }
      RecentAverage(Averaged(c, w, afresh).accepted, c.window, a, b);
    }
  }

  lemma {:induction false} StaysArrived(c: Chain, raw: int, a: int, b: int)
    requires Ready(c) && Arrived(c, a, b) && a <= raw <= b
    ensures Arrived(Filtered(c, raw), a, b) && Filtered(c, raw).last == Filtered(c, raw).kf.x
  {
    var w := raw as real;
    var afresh := c.boost > 0 || IsStep(c, w);
    AveragedIsRecent(c, w, afresh, a, b);
    var t := Averaged(c, w, afresh);
    K.StaysUsable(K.DEFAULT, Tuned(t.(last := c.last), t.last).kf, t.last);
  }

  lemma {:induction false} ThenArrived(c: Chain, raws: seq<int>, a: int, b: int)
    requires Bounded(c, LOWEST as real, HIGHEST as real) && LOWEST <= a <= b <= HIGHEST && RawsIn(raws, a, b)
    requires Arrived(c, a, b)
    ensures var c' := Then(c, raws); Arrived(c', a, b) && (raws != [] ==> c'.last == c'.kf.x)
  {
    if raws != [] {
      var front, raw := raws[..|raws| - 1], raws[|raws| - 1];
      assert raws == front + [raw];
      ThenNext(c, raws, front, raw);
      RawsBefore(raws, front, raw, a, b);
      ThenArrived(c, front, a, b);
      StaysArrived(Then(c, front), raw, a, b);
    }
  }

  // k halvings take an error of 1000 counts, the threshold, and half the range of the raw values below one
  // count: 10 of them for a range of at most 46 counts, 24 for every range.
  predicate Suffices(k: nat, a: int, b: int) { 2 * Power(2, k) >= 2002 + b - a }

  lemma {:induction false} ErrorVanishes(x: real, a: int, b: int, k: nat, e: real)
    requires a <= b && (a - 1000) as real <= x <= (b + 1000) as real && e == K.Abs(x - (a + b) as real / 2.0)
    requires Suffices(k, a, b)
    ensures K.Scaled(RATE, k * HALF_TIME, e) < 1.0
  {
    HalvedOften(k, e);
    assert e < Power(2, k) as real;
    K.CancelLess(K.Scaled(RATE, k * HALF_TIME, e), 1.0, Power(2, k) as real);
  }

  lemma CloseIsInside(x: real, a: int, b: int, bound: real)
    requires K.Close(x, (a + b) as real / 2.0, bound + (b - a) as real / 2.0) == true && bound < 1.0
    ensures (a - 1) as real < x < (b + 1) as real
  {
  }

  // The first reading of a run without a boost is no step, so the filter starts near it.
  lemma {:induction false} StartsNear(c: Chain, raws: seq<int>, a: int, b: int)
    requires Bounded(c, LOWEST as real, HIGHEST as real) && LOWEST <= a <= b <= HIGHEST && RawsIn(raws, a, b)
    requires c.useKf && BoostIsRegular(c) && c.last == c.kf.x && raws != [] && Then(c, raws).boost == 0
    ensures (a - 1000) as real <= c.kf.x <= (b + 1000) as real
  {
    var x, rest := raws[0], raws[1..];
    assert raws == [x] + rest && [x] == [] + [x];
    ThenConcat(c, [x], rest);
    QuietPart(c, [x], rest);
    ThenNext(c, [x], [], x);
    QuietReading(c, x);
  }

  lemma {:induction false} QuietArrives(c: Chain, raws: seq<int>, a: int, b: int, k: nat)
    requires Bounded(c, LOWEST as real, HIGHEST as real) && LOWEST <= a <= b <= HIGHEST && RawsIn(raws, a, b)
    requires c.useKf && BoostIsRegular(c) && Lively(c.kf) && c.last == c.kf.x && Recent(c.accepted, c.window, a, b)
    requires |raws| == k * HALF_TIME && k > 0 && Suffices(k, a, b) && Then(c, raws).boost == 0
    ensures Arrived(Then(c, raws), a, b)
  {
    var e := K.Abs(c.kf.x - (a + b) as real / 2.0);
    StartsNear(c, raws, a, b);
    QuietRun(c, raws);
    MeansWithin(c.accepted, c.window, raws, a, b);
    MeansConverge(c.kf, Means(c.accepted, c.window, raws), a, b);
    ErrorVanishes(c.kf.x, a, b, k, e);
    CloseIsInside(Then(c, raws).kf.x, a, b, K.Scaled(RATE, |raws|, e));
  }

  lemma {:induction false} MeansConverge(s: K.Est, ms: seq<real>, a: int, b: int)
    requires a <= b && Lively(s) && Within(ms, a as real, b as real)
    ensures var z, d := (a + b) as real / 2.0, (b - a) as real / 2.0;
      K.Close(K.Tracked(K.Adaptive(K.DEFAULT), s, ms).x, z, K.Scaled(RATE, |ms|, K.Abs(s.x - z)) + d) == true
  {
    var z, d := (a + b) as real / 2.0, (b - a) as real / 2.0;
    assert K.Near(ms, z, d);
    LivelyContracts();
    K.Converges(K.Adaptive(K.DEFAULT), Lively, RATE, s, ms, z, d);
  }

  // A window of readings, the halvings, and sixteen more.
  function LongEnough(window: nat, k: nat): nat { window + 1 + k * HALF_TIME + 16 }

  lemma {:induction false} AnyLoadArrives(c: Chain, raws: seq<int>, a: int, b: int, k: nat)
    requires Bounded(c, LOWEST as real, HIGHEST as real) && c.useKf && BoostIsRegular(c) && Lively(c.kf)
    requires LOWEST <= a <= b <= HIGHEST && RawsIn(raws, a, b)
    requires Suffices(k, a, b) && |raws| >= LongEnough(c.window, k)
    ensures a - 1 <= Truncated(Output(c, raws)) <= b + 1
  {
    var xs, rest := CutRaws(raws, c.window + 1, a, b);
    var ys, zs := CutRaws(rest, k * HALF_TIME, a, b);
    ThenConcat(c, xs, rest);
    ThenConcat(Then(c, xs), ys, zs);
    ThreePhases(c, xs, ys, zs, a, b, k);
  }

  lemma CutRaws(raws: seq<int>, n: nat, a: int, b: int) returns (xs: seq<int>, ys: seq<int>)
    requires n <= |raws| && RawsIn(raws, a, b)
    ensures raws == xs + ys && |xs| == n && RawsIn(xs, a, b) && RawsIn(ys, a, b)
  {
    xs, ys := raws[..n], raws[n..];
  }

  lemma {:induction false} ThreePhases(c: Chain, xs: seq<int>, ys: seq<int>, zs: seq<int>, a: int, b: int, k: nat)
    requires Bounded(c, LOWEST as real, HIGHEST as real) && c.useKf && BoostIsRegular(c) && Lively(c.kf)
    requires LOWEST <= a <= b <= HIGHEST && RawsIn(xs, a, b) && RawsIn(ys, a, b) && RawsIn(zs, a, b)
    requires Suffices(k, a, b) && |xs| == c.window + 1 && |ys| == k * HALF_TIME && |zs| >= 16
    ensures a - 1 <= Truncated(Then(Then(Then(c, xs), ys), zs).last) <= b + 1
  {
    var c1 := Then(c, xs);
    var c2 := Then(c1, ys);
    ThenStaysLively(c, xs);
    ThenStaysLively(c1, ys);
    StaysRegular(c, xs);
    StaysRegular(c1, ys);
    if BoostIsFull(c2) {
      BoostedOutput(c2, zs, a, b);
    } else {
      FirstWindow(c, xs, ys, a, b);
      QuietArrives(c1, ys, a, b, k);
      ThenArrived(c2, zs, a, b);
      TruncatedNear(Then(c2, zs).last, a, b);
    }
  }

  lemma {:induction false} FirstWindow(c: Chain, xs: seq<int>, ys: seq<int>, a: int, b: int)
    requires Bounded(c, LOWEST as real, HIGHEST as real) && c.useKf && BoostIsRegular(c)
    requires LOWEST <= a <= b <= HIGHEST && RawsIn(xs, a, b) && RawsIn(ys, a, b) && |xs| == c.window + 1
    requires Then(Then(c, xs), ys).boost == 0
    ensures var c1 := Then(c, xs); c1.last == c1.kf.x && Recent(c1.accepted, c1.window, a, b)
  {
    QuietPart(c, xs, ys);
    QuietRun(c, xs);
    NewWindow(c.accepted, c.window, xs, a, b);
  }

  // ----- any load is recognized --------------------------------------------------------------------------------

  lemma {:induction false} LateWeightOfAny(c: Chain, raws: seq<int>, a: int, b: int, k: nat, slope: real, intercept: real, i: nat)
    requires Bounded(c, LOWEST as real, HIGHEST as real) && c.useKf && BoostIsRegular(c) && Lively(c.kf)
    requires LOWEST <= a <= b <= HIGHEST && RawsIn(raws, a, b)
    requires Suffices(k, a, b) && LongEnough(c.window, k) <= i < |raws|
    ensures exists t: int :: a - 1 <= t <= b + 1 && Weights(c, raws, slope, intercept)[i] == Num(Calibration.Line(slope, intercept, t))
  {
    WeightAt(c, raws, slope, intercept, i);
    AnyLoadArrives(c, raws[..i + 1], a, b, k);
    assert a - 1 <= Truncated(Output(c, raws[..i + 1])) <= b + 1;
  }

  // Whether a load is noticed or not: after enough raw values between a and b the weight manager has
  // recognized it, whatever the chain and the manager held before.
  lemma {:induction false} AnyLoadIsRecognized(c: Chain, raws: seq<int>, a: int, b: int, k: nat,
                                               slope: real, intercept: real, before: seq<Float>)
    requires Bounded(c, LOWEST as real, HIGHEST as real) && c.useKf && BoostIsRegular(c) && Lively(c.kf)
    requires LOWEST <= a <= b <= HIGHEST && RawsIn(raws, a, b)
    requires Suffices(k, a, b) && |raws| >= LongEnough(c.window, k) + W.NEEDED
    ensures (forall t: int :: a - 1 <= t <= b + 1 ==> W.Heavy(Num(Calibration.Line(slope, intercept, t)))) ==>
      W.Run(before + Weights(c, raws, slope, intercept)).state == W.Measuring
    ensures (forall t: int :: a - 1 <= t <= b + 1 ==> W.Light(Num(Calibration.Line(slope, intercept, t)))) ==>
      W.Run(before + Weights(c, raws, slope, intercept)).state == W.NoWeight
  {
    var all := before + Weights(c, raws, slope, intercept);
    forall i | |all| - W.NEEDED <= i < |all|
      ensures exists t: int :: a - 1 <= t <= b + 1 && all[i] == Num(Calibration.Line(slope, intercept, t))
    {
      LateWeightOfAny(c, raws, a, b, k, slope, intercept, i - |before|);
    }
    W.EnoughReadingsDecide(all);
  }

  lemma {:induction false} AfterStaysLively(c: Chain, rds: seq<Reading>, lo: int, hi: int)
    requires Bounded(c, lo as real, hi as real) && ValidRun(rds, lo, hi) && c.useKf && Lively(c.kf)
    ensures var c' := After(c, rds, lo, hi); c'.useKf && Lively(c'.kf) && c'.window == c.window
  {
    if rds != [] {
      var front := After(c, rds[..|rds| - 1], lo, hi);
      AfterStaysLively(c, rds[..|rds| - 1], lo, hi);
      match rds[|rds| - 1]
      case Plain(raw) => FilteredStaysLively(front, raw);
      case Medians(raws) =>
    }
  }

  lemma {:induction false} BeginsLively(first: int)
    ensures var c := Begin(MA_WINDOW, true, KF_Q_INIT, KF_R_INIT, first);
      c.useKf && Lively(c.kf) && c.boost == 0 && c.window == MA_WINDOW
  {
    StepKeepsLively(StartOfKf(true, KF_Q_INIT, KF_R_INIT), first as real);
  }

  // With the firmware's parameters every reachable chain will do.
  lemma {:induction false} FirmwareRecognizesAnyLoad(first: int, rds: seq<Reading>, raws: seq<int>, a: int, b: int, k: nat,
                                                     slope: real, intercept: real, before: seq<Float>)
    requires LOWEST <= first <= HIGHEST && ValidRun(rds, LOWEST, HIGHEST)
    requires LOWEST <= a <= b <= HIGHEST && RawsIn(raws, a, b)
    requires Suffices(k, a, b) && |raws| >= LongEnough(MA_WINDOW, k) + W.NEEDED
    ensures RawsIn(raws, LOWEST, HIGHEST)
    ensures (forall t: int :: a - 1 <= t <= b + 1 ==> W.Heavy(Num(Calibration.Line(slope, intercept, t)))) ==>
      W.Run(before + Weights(FirmwareChain(first, rds), raws, slope, intercept)).state == W.Measuring
    ensures (forall t: int :: a - 1 <= t <= b + 1 ==> W.Light(Num(Calibration.Line(slope, intercept, t)))) ==>
      W.Run(before + Weights(FirmwareChain(first, rds), raws, slope, intercept)).state == W.NoWeight
  {
    var begun := Begin(MA_WINDOW, true, KF_Q_INIT, KF_R_INIT, first);
    BeginIsBounded(MA_WINDOW, true, KF_Q_INIT, KF_R_INIT, first, LOWEST, HIGHEST);
    BeginsLively(first);
    AfterStaysLively(begun, rds, LOWEST, HIGHEST);
    BoostNeverEnds(begun, rds, LOWEST, HIGHEST);
    AnyLoadIsRecognized(FirmwareChain(first, rds), raws, a, b, k, slope, intercept, before);
  }

  lemma {:induction false} TenHalvings(k: nat, a: int, b: int)
    requires k == 10 && b - a <= 46
    ensures Suffices(k, a, b)
  {
    assert Power(2, 2) == 4;
    assert Power(2, 4) == 2 * (2 * Power(2, 2)) == 16;
    assert Power(2, 7) == 2 * (2 * (2 * Power(2, 4))) == 128;
    assert Power(2, 10) == 2 * (2 * (2 * Power(2, 7))) == 1024;
  }

  // In numbers: 2429 raw values within 46 counts of each other, each of which converts to at least 20 grams with
  // one count more or less, take the weight manager to Measuring; to at most 10 grams, to NoWeight.
  lemma {:induction false} SteadyLoadIsRecognized(first: int, rds: seq<Reading>, raws: seq<int>, a: int, b: int,
                                                  slope: real, intercept: real, before: seq<Float>)
    requires LOWEST <= first <= HIGHEST && ValidRun(rds, LOWEST, HIGHEST)
    requires LOWEST <= a <= b <= HIGHEST && RawsIn(raws, a, b) && b - a <= 46 && |raws| >= 2429
    ensures RawsIn(raws, LOWEST, HIGHEST)
    ensures (forall t: int :: a - 1 <= t <= b + 1 ==> Calibration.Line(slope, intercept, t) >= 20.0) ==>
      W.Run(before + Weights(FirmwareChain(first, rds), raws, slope, intercept)).state == W.Measuring
    ensures (forall t: int :: a - 1 <= t <= b + 1 ==> Calibration.Line(slope, intercept, t) <= 10.0) ==>
      W.Run(before + Weights(FirmwareChain(first, rds), raws, slope, intercept)).state == W.NoWeight
  {
    var k := 10;
    TenHalvings(k, a, b);
    FirmwareRecognizesAnyLoad(first, rds, raws, a, b, k, slope, intercept, before);
  }
}
