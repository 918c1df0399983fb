// From converter to state machine: how soon a changed load is recognized.
module Pipeline {
  import opened Hx711
  import K = Kalman
  import W = WeightManager
  import opened Floats
  import Calibration

  const LOWEST: int := -0x80_0000
  const HIGHEST: int := 0x7F_FFFF

  predicate RawsIn(raws: seq<int>, a: int, b: int) { forall i :: 0 <= i < |raws| ==> a <= raws[i] <= b }

  lemma PlainsAreValid(raws: seq<int>, a: int, b: int)
    requires RawsIn(raws, a, b) && LOWEST <= a && b <= HIGHEST
    ensures ValidRun(Plains(raws), LOWEST, HIGHEST)
  {
  }

  // The driver's output after these raw values.
  function Output(c: Chain, raws: seq<int>): real
    requires Bounded(c, LOWEST as real, HIGHEST as real) && RawsIn(raws, LOWEST, HIGHEST)
  {
    PlainsAreValid(raws, LOWEST, HIGHEST);
    After(c, Plains(raws), LOWEST, HIGHEST).last
  }

  function Converted(slope: real, intercept: real, output: real): Float {
    Num(Calibration.Line(slope, intercept, Truncated(output)))
  }

  // What the weight manager makes of the outputs one by one.
  function Weights(c: Chain, raws: seq<int>, slope: real, intercept: real): (ws: seq<Float>)
    requires Bounded(c, LOWEST as real, HIGHEST as real) && RawsIn(raws, LOWEST, HIGHEST)
    ensures |ws| == |raws|
  {
    if raws == [] then []
    else
      Weights(c, raws[..|raws| - 1], slope, intercept) + [Converted(slope, intercept, Output(c, raws))]
  }

  lemma {:induction false} WeightAt(c: Chain, raws: seq<int>, slope: real, intercept: real, i: nat)
    requires Bounded(c, LOWEST as real, HIGHEST as real) && RawsIn(raws, LOWEST, HIGHEST) && i < |raws|
    ensures Weights(c, raws, slope, intercept)[i] == Converted(slope, intercept, Output(c, raws[..i + 1]))
  {
    var front := raws[..|raws| - 1];
    if i < |raws| - 1 {
      assert front[..i + 1] == raws[..i + 1];
      WeightAt(c, front, slope, intercept, i);
      assert Weights(c, raws, slope, intercept)[i] == Weights(c, front, slope, intercept)[i];
    } else {
      assert raws[..i + 1] == raws;
    }
  }

  // ----- sixteen readings ------------------------------------------------------------------------------

  lemma {:induction false} FourThirds(n: nat, e: real)
    ensures K.Scaled(THIRD, n + 4, e) == K.Scaled(THIRD, n, e) / 81.0
  {
    var s := K.Scaled(THIRD, n, e);
    assert K.Scaled(THIRD, n + 1, e) == THIRD * s;
    assert K.Scaled(THIRD, n + 2, e) == THIRD * K.Scaled(THIRD, n + 1, e);
    assert K.Scaled(THIRD, n + 3, e) == THIRD * K.Scaled(THIRD, n + 2, e);
    assert K.Scaled(THIRD, n + 4, e) == THIRD * K.Scaled(THIRD, n + 3, e);
  }

  // 3^16 is more than 2^24.
  lemma {:induction false} SixteenSuffice(n: nat, e: real)
    requires n >= 16 && 0.0 <= e <= 16777216.0
    ensures 0.0 <= K.Scaled(THIRD, n, e) < 1.0
    decreases n
  {
    if n == 16 {
      var zero: nat := 0;
      FourThirds(zero, e);
      FourThirds(4, e);
      FourThirds(8, e);
      FourThirds(12, e);
      assert K.Scaled(THIRD, zero, e) == e;
    } else {
      SixteenSuffice(n - 1, e);
      assert K.Scaled(THIRD, n, e) == THIRD * K.Scaled(THIRD, n - 1, e);
    }
  }

  // ----- after a step ----------------------------------------------------------------------------------

  lemma {:induction false} FilteredStaysSettled(c: Chain, raw: int)
    requires Ready(c) && c.useKf && Settled(c.kf)
    ensures Filtered(c, raw).useKf && Settled(Filtered(c, raw).kf)
  {
    var w := raw as real;
    var a := Averaged(c, w, c.boost > 0 || IsStep(c, w)).(last := c.last);
    var v := Averaged(c, w, c.boost > 0 || IsStep(c, w)).last;
    K.CorrectedStays(Tuned(a, v).kf, v);
  }

  lemma {:induction false} AfterFirst(c: Chain, rd: Reading, rds: seq<Reading>, lo: int, hi: int)
    requires Bounded(c, lo as real, hi as real) && ValidRun([rd] + rds, lo, hi)
    ensures ValidReading(rd) && RawsWithin(rd, lo, hi) && ValidRun(rds, lo, hi)
    ensures Bounded(Next(c, rd), lo as real, hi as real)
    ensures After(c, [rd] + rds, lo, hi) == After(Next(c, rd), rds, lo, hi)
  {
    assert ([rd] + rds)[0] == rd;
    assert forall i :: 0 <= i < |rds| ==> rds[i] == ([rd] + rds)[i + 1];
    NextStaysBounded(c, rd, lo, hi);
    if rds == [] {
      assert [rd] + rds == [rd] && [rd][..0] == [];
      assert After(c, [], lo, hi) == c;
    } else {
      var n := |rds|;
      assert ([rd] + rds)[..n] == [rd] + rds[..n - 1];
      AfterFirst(c, rd, rds[..n - 1], lo, hi);
      assert ([rd] + rds)[n] == rds[n - 1];
    }
  }

  // The chain notices the change: it is more than the threshold away from the last output, or a step
  // has been seen before.
  predicate Noticed(c: Chain, raw: int) { BoostIsFull(c) || IsStep(c, raw as real) }

  lemma {:induction false} NoticedStartsBoost(c: Chain, raw: int)
    requires Ready(c) && c.useKf && Settled(c.kf) && Noticed(c, raw)
    ensures var c' := Filtered(c, raw); BoostIsFull(c') && c'.useKf && Settled(c'.kf)
  {
    FilteredStaysSettled(c, raw);
    if BoostIsFull(c) {
      BoostBypassesAverage(c, raw);
    } else {
      StepStartsBoost(c, raw);
    }
  }

  lemma NearMiddle(raws: seq<int>, a: int, b: int)
    requires RawsIn(raws, a, b)
    ensures K.Near(Reals(raws), (a + b) as real / 2.0, (b - a) as real / 2.0) == true
  {
  }

  lemma TruncatedNear(x: real, a: int, b: int)
    requires (a - 1) as real < x < (b + 1) as real
    ensures a - 1 <= Truncated(x) <= b + 1
  {
  }

  lemma RangeOfError(x: real, a: int, b: int)
    requires LOWEST as real <= x <= HIGHEST as real && LOWEST <= a <= b <= HIGHEST
    ensures K.Abs(x - (a + b) as real / 2.0) <= 16777216.0
  {
  }

  lemma CloseIsNear(x: real, a: int, b: int, bound: real)
    requires K.Close(x, (a + b) as real / 2.0, bound + (b - a) as real / 2.0) == true && bound < 1.0
    ensures a - 1 <= Truncated(x) <= b + 1
  {
    TruncatedNear(x, a, b);
  }

  lemma {:induction false} BoostedClose(c: Chain, raws: seq<int>, z: real, d: real)
    requires Bounded(c, LOWEST as real, HIGHEST as real) && c.useKf && BoostIsFull(c) && Settled(c.kf)
    requires raws != [] && RawsIn(raws, LOWEST, HIGHEST) && d >= 0.0 && K.Near(Reals(raws), z, d) == true
    ensures K.Close(Output(c, raws), z, K.Scaled(THIRD, |raws|, K.Abs(c.kf.x - z)) + d) == true
  {
    PlainsAreValid(raws, LOWEST, HIGHEST);
    BoostedConvergence(c, raws, LOWEST, HIGHEST, z, d);
  }

  lemma {:induction false} BoostedOutput(c: Chain, raws: seq<int>, a: int, b: int)
    requires Bounded(c, LOWEST as real, HIGHEST as real) && c.useKf && BoostIsFull(c) && Settled(c.kf)
    requires LOWEST <= a <= b <= HIGHEST && RawsIn(raws, a, b) && |raws| >= 16
    ensures a - 1 <= Truncated(Output(c, raws)) <= b + 1
  {
    var z, d := (a + b) as real / 2.0, (b - a) as real / 2.0;
    var e := K.Abs(c.kf.x - z);
    NearMiddle(raws, a, b);
    BoostedClose(c, raws, z, d);
    RangeOfError(c.kf.x, a, b);
    SixteenSuffice(|raws|, e);
    CloseIsNear(Output(c, raws), a, b, K.Scaled(THIRD, |raws|, e));
  }

  // Seventeen readings after the change, the output is within one count of the raw values.
  lemma {:induction false} OutputFollows(c: Chain, raws: seq<int>, a: int, b: int)
    requires Bounded(c, LOWEST as real, HIGHEST as real) && c.useKf && Settled(c.kf)
    requires LOWEST <= a <= b <= HIGHEST && RawsIn(raws, a, b) && |raws| >= 17 && Noticed(c, raws[0])
    ensures a - 1 <= Truncated(Output(c, raws)) <= b + 1
  {
    var rest := raws[1..];
    PlainsAreValid(raws, a, b);
    assert Plains(raws) == [Plain(raws[0])] + Plains(rest);
    AfterFirst(c, Plain(raws[0]), Plains(rest), LOWEST, HIGHEST);
    NoticedStartsBoost(c, raws[0]);
    BoostedOutput(Filtered(c, raws[0]), rest, a, b);
  }

  const ENOUGH: nat := 20

  lemma {:induction false} LateWeight(c: Chain, raws: seq<int>, a: int, b: int, slope: real, intercept: real, i: nat)
    requires Bounded(c, LOWEST as real, HIGHEST as real) && c.useKf && Settled(c.kf)
    requires LOWEST <= a <= b <= HIGHEST && RawsIn(raws, a, b) && raws != [] && Noticed(c, raws[0]) && 16 <= i < |raws|
    ensures exists t: int :: a - 1 <= t <= b + 1 && Weights(c, raws, slope, intercept)[i] == Num(Calibration.Line(slope, intercept, t))
  {
    WeightAt(c, raws, slope, intercept, i);
    OutputFollows(c, raws[..i + 1], a, b);
    assert a - 1 <= Truncated(Output(c, raws[..i + 1])) <= b + 1;
  }

  // A load that is noticed and then gives raw values between a and b: if every count from a - 1 to
  // b + 1 converts to at least the wake threshold, 20 readings take the weight manager to Measuring,
  // whatever it was told before; if they all convert to at most the sleep threshold, to NoWeight.
  lemma {:induction false} LoadIsRecognized(c: Chain, raws: seq<int>, a: int, b: int, slope: real, intercept: real, before: seq<Float>)
    requires Bounded(c, LOWEST as real, HIGHEST as real) && c.useKf && Settled(c.kf)
    requires LOWEST <= a <= b <= HIGHEST && RawsIn(raws, a, b) && |raws| >= ENOUGH && Noticed(c, raws[0])
    ensures (forall t: int :: a - 1 <= t <= b + 1 ==> W.Heavy(Num(Calibration.Line(slope, intercept, t)))) ==>
      W.Run(before + Weights(c, raws, slope, intercept)).state == W.Measuring
    ensures (forall t: int :: a - 1 <= t <= b + 1 ==> W.Light(Num(Calibration.Line(slope, intercept, t)))) ==>
      W.Run(before + Weights(c, raws, slope, intercept)).state == W.NoWeight
  {
    var ws := Weights(c, raws, slope, intercept);
    var all := before + ws;
    forall i | |all| - W.NEEDED <= i < |all|
      ensures exists t: int :: a - 1 <= t <= b + 1 && all[i] == Num(Calibration.Line(slope, intercept, t))
    {
      LateWeight(c, raws, a, b, slope, intercept, i - |before|);
    }
    W.EnoughReadingsDecide(all);
  }

  // ----- a calibrated scale ------------------------------------------------------------------------------

  const KNOWN_WEIGHT_G: real := 200.0

  lemma SlopeIsSmall(slope: real, d: real)
    requires slope * d == KNOWN_WEIGHT_G && (d >= 20.0 || d <= -20.0)
    ensures -10.0 <= slope <= 10.0
  {
    var e := -d;
    assert slope * e == -(slope * d);
    if d >= 20.0 {
      BoundedFactor(slope, d);
    } else {
      BoundedFactor(-slope, e);
    }
  }

  lemma BoundedFactor(slope: real, d: real)
    requires slope * d == 200.0 && d >= 20.0
    ensures 0.0 <= slope <= 10.0
  {
    K.CancelLe(slope, 10.0, d);
    K.CancelLe(0.0, slope, d);
  }

  lemma OneCountAway(slope: real, intercept: real, x: int, t: int)
    requires x - 1 <= t <= x + 1 && -10.0 <= slope <= 10.0
    ensures -10.0 <= Calibration.Line(slope, intercept, t) - Calibration.Line(slope, intercept, x) <= 10.0
  {
    var tx := (t - x) as real;
    assert slope * (t as real) == slope * (x as real) + slope * tx;
    if t == x {
      assert tx == 0.0;
    } else if t == x + 1 {
      assert tx == 1.0;
    } else {
      assert tx == -1.0;
    }
  }

  // With the line through the tare z and the raw value r of the known weight, 20 readings of r take the
  // weight manager to Measuring and 20 readings of z take it to NoWeight, provided that the change is
  // noticed and the two are at least 20 counts apart.
  lemma {:induction false} CalibratedScaleRecognizes(c: Chain, raws: seq<int>, z: int, r: int, slope: real, intercept: real, before: seq<Float>)
    requires Bounded(c, LOWEST as real, HIGHEST as real) && c.useKf && Settled(c.kf)
    requires LOWEST <= z <= HIGHEST && LOWEST <= r <= HIGHEST && |raws| >= ENOUGH && Noticed(c, raws[0])
    requires Calibration.Line(slope, intercept, z) == 0.0 && Calibration.Line(slope, intercept, r) == KNOWN_WEIGHT_G
    requires r - z >= 20 || r - z <= -20
    requires RawsIn(raws, r, r) || RawsIn(raws, z, z)
    ensures RawsIn(raws, LOWEST, HIGHEST)
    ensures W.Run(before + Weights(c, raws, slope, intercept)).state == if RawsIn(raws, r, r) then W.Measuring else W.NoWeight
  {
    var x := if RawsIn(raws, r, r) then r else z;
    var d := (r - z) as real;
    assert slope * d == slope * (r as real) - slope * (z as real);
    SlopeIsSmall(slope, d);
    forall t: int | x - 1 <= t <= x + 1
      ensures -10.0 <= Calibration.Line(slope, intercept, t) - Calibration.Line(slope, intercept, x) <= 10.0
    {
      OneCountAway(slope, intercept, x, t);
    }
    LoadIsRecognized(c, raws, x, x, slope, intercept, before);
  }

  // ----- the firmware's own chain ------------------------------------------------------------------------

  const MA_WINDOW: nat := 8
  const KF_Q_INIT: real := 0.5
  const KF_R_INIT: real := 1.0

  // The chain as the firmware starts it, after any readings.
  function FirmwareChain(first: int, rds: seq<Reading>): (c: Chain)
    requires LOWEST <= first <= HIGHEST && ValidRun(rds, LOWEST, HIGHEST)
    ensures Bounded(c, LOWEST as real, HIGHEST as real)
  {
    BeginIsBounded(MA_WINDOW, true, KF_Q_INIT, KF_R_INIT, first, LOWEST, HIGHEST);
    After(Begin(MA_WINDOW, true, KF_Q_INIT, KF_R_INIT, first), rds, LOWEST, HIGHEST)
  }

  lemma {:induction false} StaysSettled(c: Chain, rds: seq<Reading>, lo: int, hi: int)
    requires Bounded(c, lo as real, hi as real) && ValidRun(rds, lo, hi) && c.useKf && Settled(c.kf)
    ensures After(c, rds, lo, hi).useKf && Settled(After(c, rds, lo, hi).kf)
  {
    if rds != [] {
      var front := After(c, rds[..|rds| - 1], lo, hi);
      StaysSettled(c, rds[..|rds| - 1], lo, hi);
      match rds[|rds| - 1]
      case Plain(raw) => FilteredStaysSettled(front, raw);
      case Medians(raws) =>
    }
  }

  lemma {:induction false} BeginsSettled(first: int)
    ensures var c := Begin(MA_WINDOW, true, KF_Q_INIT, KF_R_INIT, first); c.useKf && Settled(c.kf)
  {
    K.CorrectedStays(StartOfKf(true, KF_Q_INIT, KF_R_INIT), first as real);
  }

  // With the firmware's parameters every reachable chain will do: whatever was read before, a noticed
  // load is recognized within 20 readings.
  lemma {:induction false} FirmwareRecognizesLoad(first: int, rds: seq<Reading>, raws: seq<int>, a: int, b: int,
                                                  slope: real, intercept: real, before: seq<Float>)
    requires LOWEST <= first <= HIGHEST && ValidRun(rds, LOWEST, HIGHEST)
    requires LOWEST <= a <= b <= HIGHEST && RawsIn(raws, a, b) && |raws| >= ENOUGH
    requires Noticed(FirmwareChain(first, rds), raws[0])
    ensures RawsIn(raws, LOWEST, HIGHEST)
    ensures (forall t: int :: a - 1 <= t <= b + 1 ==> W.Heavy(Num(Calibration.Line(slope, intercept, t)))) ==>
      W.Run(before + Weights(FirmwareChain(first, rds), raws, slope, intercept)).state == W.Measuring
    ensures (forall t: int :: a - 1 <= t <= b + 1 ==> W.Light(Num(Calibration.Line(slope, intercept, t)))) ==>
      W.Run(before + Weights(FirmwareChain(first, rds), raws, slope, intercept)).state == W.NoWeight
  {
    BeginIsBounded(MA_WINDOW, true, KF_Q_INIT, KF_R_INIT, first, LOWEST, HIGHEST);
    BeginsSettled(first);
    StaysSettled(Begin(MA_WINDOW, true, KF_Q_INIT, KF_R_INIT, first), rds, LOWEST, HIGHEST);
    LoadIsRecognized(FirmwareChain(first, rds), raws, a, b, slope, intercept, before);
  }
}
