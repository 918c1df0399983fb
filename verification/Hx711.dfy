// The scale's converter: 24-bit samples, and the chain of moving average and Kalman filter over them.
module Hx711 {
  import opened Common
  import opened MovingAverage
  import K = Kalman

  const STEP_THRESHOLD: real := 1000.0
  const BOOSTED_Q: real := 10.0
  const NORMAL_Q: real := 0.5
  const BOOST_SAMPLES: nat := 5
  const MEDIAN_MIN_SAMPLES: nat := 3
  const MEDIAN_MAX_SAMPLES: nat := 11
  const MEDIAN_STEP_INCREASE: nat := 2
  const SAMPLE_BITS: nat := 24

  // ----- one raw sample ------------------------------------------------------------------------------

  function Bit(b: bool): nat { if b then 1 else 0 }

  // The unsigned number of a row of bits, most significant first.
  function Unsigned(bits: seq<bool>): nat {
    if bits == [] then 0 else 2 * Unsigned(bits[..|bits| - 1]) + Bit(bits[|bits| - 1])
  }

  // The two's-complement number: the first bit counts negative.
  function Signed(bits: seq<bool>): int
    requires bits != []
  {
    Unsigned(bits[1..]) - Bit(bits[0]) * Power(2, |bits| - 1)
  }

  lemma {:induction false} UnsignedIsBelow(bits: seq<bool>)
    ensures Unsigned(bits) < Power(2, |bits|)
  {
    if bits != [] {
      UnsignedIsBelow(bits[..|bits| - 1]);
    }
  }

  lemma {:induction false} FirstBit(bits: seq<bool>)
    requires bits != []
    ensures Unsigned(bits) == Bit(bits[0]) * Power(2, |bits| - 1) + Unsigned(bits[1..])
    decreases |bits|
  {
    var n := |bits|;
    if n == 1 {
      assert bits[..0] == [] && bits[1..] == [];
    } else {
      FirstBit(bits[..n - 1]);
      assert bits[..n - 1][1..] == bits[1..][..n - 2];
    }
  }

  lemma TwentyFourBits(bits: seq<bool>)
    requires |bits| == SAMPLE_BITS
    ensures Power(2, |bits|) == 0x100_0000 && Power(2, |bits| - 1) == 0x80_0000
  {
    assert Power(2, 8) == 256;
    assert Power(2, 16) == 0x1_0000;
    assert Power(2, 23) == 0x80_0000;
  }

  // The bits of a number, most significant first.
  function Bits(v: nat, n: nat): (bits: seq<bool>)
    ensures |bits| == n
  {
    if n == 0 then [] else Bits(v / 2, n - 1) + [v % 2 == 1]
  }

  lemma {:induction false} BitsOfUnsigned(bits: seq<bool>)
    ensures Bits(Unsigned(bits), |bits|) == bits
  {
    if bits != [] {
      var front, last := bits[..|bits| - 1], bits[|bits| - 1];
      BitsOfUnsigned(front);
      OneMoreBit(Unsigned(front), |front|, last);
      assert bits == front + [last];
    }
  }

  lemma OneMoreBit(v: nat, n: nat, b: bool)
    ensures Bits(2 * v + Bit(b), n + 1) == Bits(v, n) + [b]
  {
    LastBit(v, b);
  }

  lemma LastBit(v: nat, b: bool)
    ensures (2 * v + Bit(b)) / 2 == v && ((2 * v + Bit(b)) % 2 == 1 <==> b)
  {
  }

  lemma {:induction false} UnsignedOfBits(v: nat, n: nat)
    requires v < Power(2, n)
    ensures Unsigned(Bits(v, n)) == v
  {
    if n > 0 {
      var half := v / 2;
      HalfIsBelow(v, Power(2, n), Power(2, n - 1));
      UnsignedOfBits(half, n - 1);
      assert Bits(v, n)[..n - 1] == Bits(half, n - 1);
    }
  }

  lemma HalfIsBelow(v: nat, p: nat, q: nat)
    requires v < p == 2 * q
    ensures v / 2 < q
  {
  }

  // What a converter that holds v puts on the wire.
  function Wire(v: int): seq<bool>
    requires -0x80_0000 <= v < 0x80_0000
  {
    Bits(if v < 0 then v + 0x100_0000 else v, SAMPLE_BITS)
  }

  lemma {:induction false} SignedIsUnsignedLess(bits: seq<bool>)
    requires |bits| == SAMPLE_BITS
    ensures Unsigned(bits) < 0x100_0000
    ensures Signed(bits) == if Unsigned(bits) >= 0x80_0000 then Unsigned(bits) - 0x100_0000 else Unsigned(bits)
  {
    UnsignedIsBelow(bits);
    UnsignedIsBelow(bits[1..]);
    FirstBit(bits);
    TwentyFourBits(bits);
  }

  // Every 24-bit number is read as what it is, and every reading is one.
  lemma {:induction false} SamplesRoundTrip(v: int, bits: seq<bool>)
    requires -0x80_0000 <= v < 0x80_0000 && |bits| == SAMPLE_BITS
    ensures Signed(Wire(v)) == v
    ensures -0x80_0000 <= Signed(bits) < 0x80_0000 && Wire(Signed(bits)) == bits
  {
    var u := if v < 0 then v + 0x100_0000 else v;
    TwentyFourBits(bits);
    UnsignedOfBits(u, SAMPLE_BITS);
    SignedIsUnsignedLess(Wire(v));
    SignedIsUnsignedLess(bits);
    BitsOfUnsigned(bits);
  }

  // Each bit has its weight: the first one counts -2^23, and the i-th after it 2^(23 - i).
  lemma {:induction false} BitWeight(bits: seq<bool>, i: nat)
    requires i < |bits| == SAMPLE_BITS && !bits[i]
    ensures Signed(bits[i := true]) - Signed(bits) == if i == 0 then -0x80_0000 else Power(2, 23 - i)
  {
    TwentyFourBits(bits);
    if i > 0 {
      assert bits[i := true][1..] == bits[1..][i - 1 := true];
      UnsignedWeight(bits[1..], i - 1);
    } else {
      assert bits[i := true][1..] == bits[1..];
    }
  }

  lemma {:induction false} UnsignedWeight(bits: seq<bool>, i: nat)
    requires i < |bits| && !bits[i]
    ensures Unsigned(bits[i := true]) - Unsigned(bits) == Power(2, |bits| - 1 - i)
  {
    var n := |bits| - 1;
    if i < n {
      assert bits[i := true][..n] == bits[..n][i := true];
      UnsignedWeight(bits[..n], i);
    } else {
      assert bits[i := true][..n] == bits[..n];
    }
  }

  // Without any bit the number is zero.
  lemma {:induction false} NoBits(n: nat)
    ensures Unsigned(seq(n, _ => false)) == 0
  {
    if n > 0 {
      assert seq(n, _ => false)[..n - 1] == seq(n - 1, _ => false);
      NoBits(n - 1);
    }
  }

  // The bits are shifted into a 32-bit word; a set bit 23 is extended over the upper byte and the word
  // read as a signed one.
  method ReadRaw(levels: seq<bool>) returns (raw: int)
    requires |levels| == SAMPLE_BITS
    ensures raw == Signed(levels)
  {
    var val: nat := 0;
    var i := 0;
    SignedIsUnsignedLess(levels);
    while i < SAMPLE_BITS
      invariant 0 <= i <= SAMPLE_BITS
      invariant val == Unsigned(levels[..i]) && val < 0x100_0000
    {
      assert levels[..i + 1][..i] == levels[..i];
      PrefixIsBelow(levels, i + 1);
      val := (2 * val) % 0x1_0000_0000 + Bit(levels[i]);
      i := i + 1;
    }
    assert levels[..i] == levels;
    if val / 0x80_0000 % 2 == 1 {
      var extended := val + 0xFF00_0000;
      raw := extended - 0x1_0000_0000;
    } else {
      raw := val;
    }
  }

  lemma {:induction false} PrefixIsBelow(bits: seq<bool>, i: nat)
    requires i <= |bits|
    ensures Unsigned(bits[..i]) <= Unsigned(bits)
    decreases |bits| - i
  {
    if i == |bits| {
      assert bits[..i] == bits;
    } else {
      PrefixIsBelow(bits, i + 1);
      assert bits[..i + 1][..i] == bits[..i];
    }
  }

  // ----- the median cascade --------------------------------------------------------------------------

  function MedianOf3(a: int, b: int, c: int): int { Median(a as real, b as real, c as real).Floor }

  // The samples when those before place n have been replaced, each by the median of itself and the two
  // before it as they are by then.
  function Cascade(s: seq<int>, n: nat): (r: seq<int>)
    requires n <= |s|
    ensures |r| == |s| && forall k :: n <= k < |s| ==> r[k] == s[k]
  {
    if n <= 2 then s
    else
      var t := Cascade(s, n - 1);
      t[n - 1 := MedianOf3(t[n - 3], t[n - 2], t[n - 1])]
  }

  lemma MedianIsBetween(a: int, b: int, c: int, lo: int, hi: int)
    requires lo <= a <= hi && lo <= b <= hi
    ensures lo <= MedianOf3(a, b, c) <= hi
  {
  }

  // The cascade never leaves the range of its first two samples, however many follow.
  lemma {:induction false} CascadeStays(s: seq<int>, n: nat, lo: int, hi: int, k: nat)
    requires 2 <= n <= |s| && lo <= s[0] <= hi && lo <= s[1] <= hi && k < n
    ensures lo <= Cascade(s, n)[k] <= hi
    decreases n, k
  {
    if n > 2 {
      var t := Cascade(s, n - 1);
      if k < n - 1 {
        CascadeStays(s, n - 1, lo, hi, k);
      } else {
        CascadeStays(s, n - 1, lo, hi, n - 3);
        CascadeStays(s, n - 1, lo, hi, n - 2);
        MedianIsBetween(t[n - 3], t[n - 2], t[n - 1], lo, hi);
      }
    }
  }

  method CascadeInPlace(samples: array<int>) returns (last: int)
    requires samples.Length >= MEDIAN_MIN_SAMPLES
    modifies samples
    ensures samples[..] == Cascade(old(samples[..]), samples.Length)
    ensures last == samples[samples.Length - 1]
  {
    var i := 2;
    while i < samples.Length
      invariant 2 <= i <= samples.Length
      invariant samples[..] == Cascade(old(samples[..]), i)
    {
      var m := Median3(samples[i - 2] as real, samples[i - 1] as real, samples[i] as real);
      samples[i] := m.Floor;
      i := i + 1;
    }
    last := samples[samples.Length - 1];
  }

  // ----- the chain -----------------------------------------------------------------------------------

  // The values averaged since the last reset, the Kalman filter, the boost count, the last output, and
  // the window of the median reader.
  datatype Chain = Chain(window: nat, useKf: bool, accepted: seq<real>, kf: K.Est, boost: nat, last: real, samples: nat)

  predicate IsStep(c: Chain, w: real) { K.Abs(w - c.last) > STEP_THRESHOLD }

  predicate Ready(c: Chain) { c.useKf ==> K.Usable(c.kf) }

  function StartOfKf(useKf: bool, q: real, r: real): K.Est {
    if useKf then K.Est(0.0, 1.0, q, r, 0.0) else K.Est(0.0, 1.0, 0.0, 0.0, 0.0)
  }

  // The first reading goes to both filters.
  function Primed(c: Chain, z: real): Chain
    requires Ready(c)
  {
    var kf := if c.useKf then K.Adapted(K.DEFAULT, c.kf, z) else c.kf;
    var accepted := if c.window > 0 then c.accepted + [z] else c.accepted;
    var last := if c.useKf then kf.x else if c.window > 0 then Average(accepted, c.window) else z;
    c.(kf := kf, accepted := accepted, last := last)
  }

  function Begin(window: nat, useKf: bool, q: real, r: real, raw: int): Chain
    requires useKf ==> q >= 0.0 && r >= 0.0
  {
    Primed(Chain(window, useKf, [], StartOfKf(useKf, q, r), 0, 0.0, MEDIAN_MIN_SAMPLES), raw as real)
  }

  // The moving average: a step, or a boost, starts it afresh.
  function Averaged(c: Chain, w: real, afresh: bool): Chain {
    if c.window > 0 then
      var accepted := (if afresh then [w] else c.accepted) + [w];
      c.(accepted := accepted, last := Average(accepted, c.window))
    else c.(last := w)
  }

  // The Kalman filter: a step of its input, or a boost, raises the process noise and the count. The
  // branch that would set the noise back is never taken.
  function Tuned(c: Chain, w: real): (t: Chain)
    ensures c.boost > 0 || IsStep(c, w) ==> t.boost == BOOST_SAMPLES && t == c.(kf := c.kf.(q := BOOSTED_Q), boost := t.boost)
    ensures c.boost == 0 && !IsStep(c, w) ==> t == c
  {
    if c.boost > 0 || IsStep(c, w) then c.(kf := c.kf.(q := BOOSTED_Q), boost := BOOST_SAMPLES)
    else if c.boost == 1 then c.(kf := c.kf.(q := NORMAL_Q))
    else c
  }

  function Smoothed(c: Chain, w: real): Chain
    requires c.useKf && Ready(c)
  {
    var t := Tuned(c, w);
    var kf := K.Adapted(K.DEFAULT, t.kf, w);
    t.(kf := kf, boost := if t.boost > 0 then t.boost - 1 else t.boost, last := kf.x)
  }

  function Filtered(c: Chain, raw: int): Chain
    requires Ready(c)
  {
    var w := raw as real;
    var a := Averaged(c, w, c.boost > 0 || IsStep(c, w));
    if c.useKf then Smoothed(a.(last := c.last), a.last) else a
  }

  function NextSamples(c: Chain): nat {
    if c.boost > 0 then
      if MEDIAN_MAX_SAMPLES < c.samples + MEDIAN_STEP_INCREASE then MEDIAN_MAX_SAMPLES else c.samples + MEDIAN_STEP_INCREASE
    else if MEDIAN_MIN_SAMPLES > c.samples - 1 then MEDIAN_MIN_SAMPLES
    else c.samples - 1
  }

  // During a boost the window grows by 2 up to 11, else it shrinks by 1 down to 3.
  lemma WindowFollowsBoost(c: Chain)
    requires 3 <= c.samples <= 11
    ensures c.boost > 0 ==> NextSamples(c) >= c.samples && (NextSamples(c) == c.samples + 2 || (NextSamples(c) == 11 && c.samples >= 9))
    ensures c.boost == 0 ==> NextSamples(c) <= c.samples && (NextSamples(c) == c.samples - 1 || NextSamples(c) == c.samples == 3)
  {
  }

  predicate WindowInRange(c: Chain) { MEDIAN_MIN_SAMPLES <= c.samples <= MEDIAN_MAX_SAMPLES }

  // The median reader: as many of the coming raw values as its window takes.
  function Medianed(c: Chain, raws: seq<int>): Chain
    requires WindowInRange(c) && |raws| == MEDIAN_MAX_SAMPLES
  {
    var n := NextSamples(c);
    var w := Cascade(raws[..n], n)[n - 1] as real;
    Averaged(c, w, IsStep(c, w)).(samples := n)
  }

  // ----- runs ----------------------------------------------------------------------------------------

  datatype Reading = Plain(raw: int) | Medians(raws: seq<int>)

  predicate ValidReading(rd: Reading) { rd.Medians? ==> |rd.raws| == MEDIAN_MAX_SAMPLES }

  predicate RawsWithin(rd: Reading, lo: int, hi: int) {
    match rd
    case Plain(raw) => lo <= raw <= hi
    case Medians(raws) => forall i :: 0 <= i < |raws| ==> lo <= raws[i] <= hi
  }

  function Next(c: Chain, rd: Reading): Chain
    requires Ready(c) && WindowInRange(c) && ValidReading(rd)
  {
    match rd
    case Plain(raw) => Filtered(c, raw)
    case Medians(raws) => Medianed(c, raws)
  }

  // Ready, and all its values within bounds.
  predicate Bounded(c: Chain, lo: real, hi: real) {
    && Ready(c) && WindowInRange(c) && lo <= c.last <= hi
    && Within(c.accepted, lo, hi) && (c.window > 0 ==> c.accepted != [])
    && (c.useKf ==> lo <= c.kf.x <= hi)
  }

  lemma {:induction false} AveragedStays(c: Chain, w: real, afresh: bool, lo: real, hi: real)
    requires Bounded(c, lo, hi) && lo <= w <= hi
    ensures var a := Averaged(c, w, afresh); Bounded(a, lo, hi) && a.kf == c.kf && a.boost == c.boost
  {
    if c.window > 0 {
      AverageWithin((if afresh then [w] else c.accepted) + [w], c.window, lo, hi);
    }
  }

  lemma {:induction false} SmoothedStays(c: Chain, w: real, lo: real, hi: real)
    requires Bounded(c, lo, hi) && lo <= w <= hi && c.useKf
    ensures Bounded(Smoothed(c, w), lo, hi)
  {
    K.StaysUsable(K.DEFAULT, Tuned(c, w).kf, w);
  }

  lemma {:induction false} NextStaysBounded(c: Chain, rd: Reading, lo: int, hi: int)
    requires Bounded(c, lo as real, hi as real) && ValidReading(rd) && RawsWithin(rd, lo, hi)
    ensures Bounded(Next(c, rd), lo as real, hi as real)
  {
    match rd
    case Plain(raw) =>
      var w := raw as real;
      var afresh := c.boost > 0 || IsStep(c, w);
      AveragedStays(c, w, afresh, lo as real, hi as real);
      var a := Averaged(c, w, afresh);
      if c.useKf {
        SmoothedStays(a.(last := c.last), a.last, lo as real, hi as real);
      }
    case Medians(raws) =>
      var n := NextSamples(c);
      CascadeStays(raws[..n], n, lo, hi, n - 1);
      var w := Cascade(raws[..n], n)[n - 1] as real;
      AveragedStays(c, w, IsStep(c, w), lo as real, hi as real);
  }

  lemma {:induction false} BeginIsBounded(window: nat, useKf: bool, q: real, r: real, raw: int, lo: int, hi: int)
    requires useKf ==> q >= 0.0 && r >= 0.0 && lo <= 0 <= hi
    requires lo <= raw <= hi
    ensures Bounded(Begin(window, useKf, q, r, raw), lo as real, hi as real)
  {
    if useKf {
      K.StaysUsable(K.DEFAULT, StartOfKf(useKf, q, r), raw as real);
    }
    if window > 0 {
      assert [] + [raw as real] == [raw as real];
      AverageWithin([raw as real], window, lo as real, hi as real);
    }
  }

  predicate ValidRun(rds: seq<Reading>, lo: int, hi: int) {
    forall i :: 0 <= i < |rds| ==> ValidReading(rds[i]) && RawsWithin(rds[i], lo, hi)
  }

  // The chain after a run of readings.
  function After(c: Chain, rds: seq<Reading>, lo: int, hi: int): (c': Chain)
    requires Bounded(c, lo as real, hi as real) && ValidRun(rds, lo, hi)
    ensures Bounded(c', lo as real, hi as real)
  {
    if rds == [] then c
    else
      var front := After(c, rds[..|rds| - 1], lo, hi);
      NextStaysBounded(front, rds[|rds| - 1], lo, hi);
      Next(front, rds[|rds| - 1])
  }

  // Conversion to int32_t: the fraction is dropped.
  function Truncated(x: real): int { if x >= 0.0 then x.Floor else -((-x).Floor) }

  // Toward zero, and off by less than one.
  lemma TruncatedIsTowardZero(x: real)
    ensures x >= 0.0 ==> 0 <= Truncated(x) && Truncated(x) as real <= x < Truncated(x) as real + 1.0
    ensures x <= 0.0 ==> Truncated(x) <= 0 && Truncated(x) as real - 1.0 < x <= Truncated(x) as real
  {
  }

  // Whatever mix of readers runs, with any noise parameters that are not negative, every output lies
  // in the hull of zero and the raw values so far, and its conversion does too.
  lemma {:induction false} WholeChainStaysInHull(window: nat, useKf: bool, q: real, r: real, raw: int,
                                                rds: seq<Reading>, lo: int, hi: int)
    requires useKf ==> q >= 0.0 && r >= 0.0 && lo <= 0 <= hi
    requires lo <= raw <= hi && ValidRun(rds, lo, hi)
    ensures Bounded(Begin(window, useKf, q, r, raw), lo as real, hi as real)
    ensures var out := After(Begin(window, useKf, q, r, raw), rds, lo, hi).last;
      lo as real <= out <= hi as real && lo <= Truncated(out) <= hi
  {
    BeginIsBounded(window, useKf, q, r, raw, lo, hi);
  }

  // ----- the boost -----------------------------------------------------------------------------------

  predicate BoostIsFull(c: Chain) { c.boost == BOOST_SAMPLES - 1 }
  predicate BoostIsRegular(c: Chain) { c.boost == 0 || (c.useKf && BoostIsFull(c)) }

  // Between readings the boost count is 0 or full; once full it stays so, because every reading sets it
  // again. So the process noise is never set back to NORMAL_Q.
  lemma {:induction false} BoostNeverEnds(c: Chain, rds: seq<Reading>, lo: int, hi: int)
    requires Bounded(c, lo as real, hi as real) && ValidRun(rds, lo, hi) && BoostIsRegular(c)
    ensures BoostIsRegular(After(c, rds, lo, hi)) && After(c, rds, lo, hi).useKf == c.useKf
    ensures BoostIsFull(c) ==> BoostIsFull(After(c, rds, lo, hi))
  {
    if rds != [] {
      BoostNeverEnds(c, rds[..|rds| - 1], lo, hi);
    }
  }

  // Starting afresh, the moving average passes its input on.
  lemma {:induction false} AfreshPassesOn(c: Chain, w: real)
    ensures Averaged(c, w, true).last == w
  {
    if c.window > 0 {
      var n := if c.window == 1 then 1 else 2;
      assert Last([w] + [w], c.window) == seq(n, _ => w);
      AverageWithin([w] + [w], c.window, w, w);
    }
  }

  // A raw value more than the threshold away from the last output starts the boost.
  lemma {:induction false} StepStartsBoost(c: Chain, raw: int)
    requires Ready(c) && c.useKf && IsStep(c, raw as real)
    ensures BoostIsFull(Filtered(c, raw))
  {
    AfreshPassesOn(c, raw as real);
  }

  // A step is a raw value more than 1000 counts off the last output. The filter then takes it with process
  // noise 10, and the boost is due for four more readings.
  lemma {:induction false} StepMeans(c: Chain, raw: int)
    requires Ready(c) && c.useKf && c.boost == 0
    ensures IsStep(c, raw as real) <==> raw as real < c.last - 1000.0 || raw as real > c.last + 1000.0
    ensures IsStep(c, raw as real) ==> Tuned(c, raw as real).kf.q == 10.0 && Filtered(c, raw).boost == 4
  {
    AfreshPassesOn(c, raw as real);
  }

  // The update of the Kalman filter during a boost.
  function Boosted(): K.Update {
    (s: K.Est, z: real) => if K.Divides(s.(q := BOOSTED_Q)) then K.Adapted(K.DEFAULT, s.(q := BOOSTED_Q), z) else s
  }

  predicate Settled(s: K.Est) { s.p >= 0.0 && K.DEFAULT.rMin <= s.r <= K.DEFAULT.rMax }

  const THIRD: real := 1.0 / 3.0

  lemma {:induction false} BoostedContracts()
    ensures K.Contracts(Boosted(), Settled, THIRD)
  {
    forall s: K.Est, z: real | Settled(s)
      ensures var s' := Boosted()(s, z); Settled(s') && K.Drawn(s.x, z, s'.k, s'.x) == true && 1.0 - s'.k <= THIRD
    {
      var b := s.(q := BOOSTED_Q);
      K.StepKeepsGood(K.DEFAULT, b, z);
      K.CorrectedIs(b, z);
      ThirdBoundsGain(K.Corrected(b, z).k, b.p + b.q, b.r);
    }
  }

  lemma ThirdBoundsGain(k: real, p: real, r: real)
    requires K.IsShare(k, p, r) == true && p >= 10.0 && 0.0 < r <= 5.0
    ensures 1.0 - k <= THIRD
  {
    K.ShareIsMonotone(1.0 - THIRD, 10.0, 5.0, k, p, r);
  }

  // During a boost the chain is the boosted Kalman filter over the raw values themselves.
  lemma {:induction false} BoostBypassesAverage(c: Chain, raw: int)
    requires Ready(c) && c.useKf && BoostIsFull(c)
    ensures var c' := Filtered(c, raw); BoostIsFull(c') && c'.kf == Boosted()(c.kf, raw as real) && c'.last == c'.kf.x
  {
    AfreshPassesOn(c, raw as real);
  }

  function Plains(raws: seq<int>): (rds: seq<Reading>)
    ensures |rds| == |raws| && forall i :: 0 <= i < |raws| ==> rds[i] == Plain(raws[i])
  {
    seq(|raws|, i requires 0 <= i < |raws| => Plain(raws[i]))
  }

  function Reals(raws: seq<int>): (zs: seq<real>)
    ensures |zs| == |raws| && forall i :: 0 <= i < |raws| ==> zs[i] == raws[i] as real
  {
    seq(|raws|, i requires 0 <= i < |raws| => raws[i] as real)
  }

  lemma {:induction false} BoostedRun(c: Chain, raws: seq<int>, lo: int, hi: int)
    requires Bounded(c, lo as real, hi as real) && c.useKf && BoostIsFull(c) && ValidRun(Plains(raws), lo, hi)
    ensures var c' := After(c, Plains(raws), lo, hi);
      BoostIsFull(c') && c'.useKf && c'.kf == K.Tracked(Boosted(), c.kf, Reals(raws)) && (raws != [] ==> c'.last == c'.kf.x)
  {
    if raws != [] {
      var front := raws[..|raws| - 1];
      assert Plains(raws)[..|raws| - 1] == Plains(front) && Reals(raws)[..|raws| - 1] == Reals(front);
      BoostedRun(c, front, lo, hi);
      BoostBypassesAverage(After(c, Plains(front), lo, hi), raws[|raws| - 1]);
    }
  }

  lemma {:induction false} BoostedTracking(s: K.Est, zs: seq<real>, n: nat, z: real, d: real)
    requires n == |zs| && Settled(s) && d >= 0.0 && K.Near(zs, z, d) == true
    ensures K.Close(K.Tracked(Boosted(), s, zs).x, z, K.Scaled(THIRD, n, K.Abs(s.x - z)) + d) == true
  {
    BoostedContracts();
    K.Converges(Boosted(), Settled, THIRD, s, zs, z, d);
  }

  // After a step each reading leaves at most a third of the error: for raw values within d of z, the
  // output closes in on z geometrically, down to d.
  lemma {:induction false} BoostedConvergence(c: Chain, raws: seq<int>, lo: int, hi: int, z: real, d: real)
    requires Bounded(c, lo as real, hi as real) && c.useKf && BoostIsFull(c) && Settled(c.kf)
    requires raws != [] && ValidRun(Plains(raws), lo, hi) && d >= 0.0 && K.Near(Reals(raws), z, d) == true
    ensures K.Close(After(c, Plains(raws), lo, hi).last, z, K.Scaled(THIRD, |raws|, K.Abs(c.kf.x - z)) + d) == true
  {
    BoostedLast(c, raws, lo, hi, After(c, Plains(raws), lo, hi));
    BoostedEnds(c.kf, Reals(raws), After(c, Plains(raws), lo, hi).last, |raws|, z, d);
  }

  lemma {:induction false} BoostedLast(c: Chain, raws: seq<int>, lo: int, hi: int, c': Chain)
    requires Bounded(c, lo as real, hi as real) && c.useKf && BoostIsFull(c)
    requires raws != [] && ValidRun(Plains(raws), lo, hi) && c' == After(c, Plains(raws), lo, hi)
    ensures c'.last == K.Tracked(Boosted(), c.kf, Reals(raws)).x
  {
    BoostedRun(c, raws, lo, hi);
  }

  lemma {:induction false} BoostedEnds(s: K.Est, zs: seq<real>, x: real, n: nat, z: real, d: real)
    requires n == |zs| && x == K.Tracked(Boosted(), s, zs).x && Settled(s) && d >= 0.0 && K.Near(zs, z, d) == true
    ensures K.Close(x, z, K.Scaled(THIRD, n, K.Abs(s.x - z)) + d) == true
  {
    BoostedTracking(s, zs, n, z, d);
  }

  // ----- the driver's state --------------------------------------------------------------------------

  class Driver {
    const ma: MovingAvg
    const kf: K.KalmanFilter
    const maWindow: nat
    const useKf: bool
    var boostCount: nat
    var lastOutput: real
    var adaptiveWindow: nat

    ghost function State(): Chain
      reads this, ma, kf
    {
      Chain(maWindow, useKf, ma.accepted, kf.State(), boostCount, lastOutput, adaptiveWindow)
    }

    ghost predicate Valid()
      reads this, ma, ma.buffer, kf
    {
      ma.Valid() && maWindow == ma.buffer.Length && kf.tuning == K.DEFAULT && kf.Finite() && Ready(State())
      && WindowInRange(State())
    }

    // hx711_init, with the level samples of the priming read. An allocation that fails leaves the
    // moving average out.
    constructor (window: int, allocates: bool, useKf: bool, qInit: real, rInit: real, levels: seq<bool>)
      requires |levels| == SAMPLE_BITS && (useKf ==> qInit >= 0.0 && rInit >= 0.0)
      ensures Valid() && fresh(ma) && fresh(ma.buffer) && fresh(kf)
      ensures State() == Begin(if window > 0 && allocates then window else 0, useKf, qInit, rInit, Signed(levels))
    {
      var n: nat := if window > 0 && allocates then window else 0;
      var buffer := new real[n];
      ma := new MovingAvg(buffer);
      if useKf {
        kf := new K.KalmanFilter.Adaptive(qInit, rInit);
      } else {
        kf := new K.KalmanFilter.Adaptive(0.0, 0.0);
      }
      maWindow, this.useKf := n, useKf;
      boostCount, lastOutput, adaptiveWindow := 0, 0.0, MEDIAN_MIN_SAMPLES;
      new;
      var raw := ReadRaw(levels);
      Prime(raw);
    }

    method Prime(raw: int)
      requires ma.Valid() && maWindow == ma.buffer.Length && kf.tuning == K.DEFAULT && kf.Finite() && Ready(State())
      modifies this`lastOutput, ma, ma.buffer, kf
      ensures ma.Valid() && kf.tuning == K.DEFAULT && kf.Finite() && Ready(State())
      ensures State() == Primed(old(State()), raw as real)
    {
      if maWindow > 0 {
        var _ := ma.Update(raw as real);
      }
      if useKf {
        K.StaysUsable(K.DEFAULT, kf.State(), raw as real);
        var _ := kf.UpdateAdaptive(raw as real);
      }
      if useKf {
        lastOutput := kf.xEst.v;
      } else if maWindow > 0 {
        lastOutput := ma.Value();
      } else {
        lastOutput := raw as real;
      }
    }

    // The step-aware moving average.
    method AverageStage(w: real, afresh: bool) returns (w': real)
      requires Valid()
      modifies ma, ma.buffer
      ensures Valid()
      ensures var a := Averaged(old(State()), w, afresh); State() == a.(last := lastOutput) && w' == a.last
    {
      w' := w;
      if maWindow > 0 {
        if afresh {
          ma.Reset(w);
        }
        w' := ma.Update(w);
      }
    }

    // The step-aware Kalman filter.
    method SmoothStage(w: real) returns (w': real)
      requires Valid() && useKf
      modifies this`boostCount, kf
      ensures Valid()
      ensures var s := Smoothed(old(State()), w); State() == s.(last := lastOutput) && w' == s.last
    {
      if boostCount > 0 || K.Abs(w - lastOutput) > STEP_THRESHOLD {
        kf.q := BOOSTED_Q;
        boostCount := BOOST_SAMPLES;
      } else if boostCount == 1 {
        // where the process noise would be set back to NORMAL_Q
        assert false;
      }
      if boostCount > 0 {
        boostCount := boostCount - 1;
      }
      K.StaysUsable(K.DEFAULT, kf.State(), w);
      var x := kf.UpdateAdaptive(w);
      w' := x.v;
    }

    method ReadFiltered(levels: seq<bool>) returns (w: real)
      requires Valid() && |levels| == SAMPLE_BITS
      modifies this, ma, ma.buffer, kf
      ensures Valid() && State() == Filtered(old(State()), Signed(levels)) && w == lastOutput
    {
      var raw := ReadRaw(levels);
      w := raw as real;
      w := AverageStage(w, boostCount > 0 || K.Abs(w - lastOutput) > STEP_THRESHOLD);
      if useKf {
        w := SmoothStage(w);
      }
      lastOutput := w;
    }

    // The window grows during a boost and shrinks by one otherwise.
    method AdjustWindow()
      requires Valid()
      modifies this`adaptiveWindow
      ensures Valid() && State() == old(State()).(samples := NextSamples(old(State())))
    {
      if boostCount > 0 {
        adaptiveWindow := if MEDIAN_MAX_SAMPLES < adaptiveWindow + MEDIAN_STEP_INCREASE then MEDIAN_MAX_SAMPLES
                          else adaptiveWindow + MEDIAN_STEP_INCREASE;
      } else {
        adaptiveWindow := if MEDIAN_MIN_SAMPLES > adaptiveWindow - 1 then MEDIAN_MIN_SAMPLES else adaptiveWindow - 1;
      }
    }

    // The readings taken while the window is filled are given as rows of levels; locked is whether the
    // mutex was obtained.
    method ReadMedian(locked: bool, levels: seq<seq<bool>>) returns (r: int, used: nat)
      requires Valid() && |levels| == MEDIAN_MAX_SAMPLES && forall i :: 0 <= i < |levels| ==> |levels[i]| == SAMPLE_BITS
      modifies this, ma, ma.buffer
      ensures Valid()
      ensures !locked ==> r == 0 && State() == old(State())
      ensures locked ==> State() == Medianed(old(State()), Raws(levels)) && r == Truncated(lastOutput) && used == adaptiveWindow
    {
      if !locked { return 0, 0; }
      AdjustWindow();
      used := adaptiveWindow;
      var samples := ReadSamples(levels, used);
      var m := CascadeInPlace(samples);
      var w := m as real;
      var afresh := K.Abs(w - lastOutput) > STEP_THRESHOLD;
      w := AverageStage(w, afresh);
      lastOutput := w;
      r := Truncated(w);
    }
  }

  function Raws(levels: seq<seq<bool>>): (raws: seq<int>)
    requires forall i :: 0 <= i < |levels| ==> |levels[i]| == SAMPLE_BITS
    ensures |raws| == |levels| && forall i :: 0 <= i < |levels| ==> raws[i] == Signed(levels[i])
  {
    seq(|levels|, i requires 0 <= i < |levels| => Signed(levels[i]))
  }

  method ReadSamples(levels: seq<seq<bool>>, n: nat) returns (samples: array<int>)
    requires n <= |levels| && forall i :: 0 <= i < |levels| ==> |levels[i]| == SAMPLE_BITS
    ensures fresh(samples) && samples[..] == Raws(levels)[..n]
  {
    samples := new int[n];
    var i := 0;
    while i < n
      invariant 0 <= i <= n && samples.Length == n
      invariant forall k :: 0 <= k < i ==> samples[k] == Signed(levels[k])
    {
      samples[i] := ReadRaw(levels[i]);
      i := i + 1;
    }
  }
}
