// The moving average: a ring buffer with a running sum, and a median-of-three prefilter.
// Floating-point numbers are modelled as real numbers.
module MovingAverage {

  // ----- medians ---------------------------------------------------------------------------------

  function Min(a: real, b: real): real { if a < b then a else b }
  function Max(a: real, b: real): real { if a > b then a else b }

  // One of the three, with one of the other two on each side.
  predicate IsMiddle(m: real, a: real, b: real, c: real) {
    (m == a && (b <= m <= c || c <= m <= b))
    || (m == b && (a <= m <= c || c <= m <= a))
    || (m == c && (a <= m <= b || b <= m <= a))
  }

  function Median(a: real, b: real, c: real): (m: real)
    ensures IsMiddle(m, a, b, c)
  {
    Max(Min(a, b), Min(Max(a, b), c))
  }

  lemma MiddleIsUnique(m: real, n: real, a: real, b: real, c: real)
    requires IsMiddle(m, a, b, c) && IsMiddle(n, a, b, c)
    ensures m == n
  {
  }

  // Three conditional swaps sort the three values.
  method Median3(a0: real, b0: real, c0: real) returns (m: real)
    ensures m == Median(a0, b0, c0)
  {
    var a, b, c := a0, b0, c0;
    if a > b { a, b := b, a; }
    if b > c { b, c := c, b; }
    if a > b { a, b := b, a; }
    m := b;
    MiddleIsUnique(m, Median(a0, b0, c0), a0, b0, c0);
  }

  // ----- windows -----------------------------------------------------------------------------------

  function Sum(s: seq<real>): real { if s == [] then 0.0 else s[0] + Sum(s[1..]) }

  function Mean(s: seq<real>): real
    requires s != []
  {
    Sum(s) / (|s| as real)
  }

  // The last n elements, or all if there are fewer.
  function Last<T>(s: seq<T>, n: nat): (r: seq<T>)
    ensures |r| <= n && |r| <= |s|
  {
    if |s| <= n then s else s[|s| - n..]
  }

  lemma {:induction false} SumConcat(s: seq<real>, t: seq<real>)
    ensures Sum(s + t) == Sum(s) + Sum(t)
  {
    if s == [] {
      assert s + t == t;
    } else {
      SumConcat(s[1..], t);
      assert (s + t)[1..] == s[1..] + t;
    }
  }

  lemma {:induction false} SumUpdate(s: seq<real>, i: nat, v: real)
    requires i < |s|
    ensures Sum(s[i := v]) == Sum(s) - s[i] + v
  {
    assert s == s[..i] + ([s[i]] + s[i + 1..]);
    assert s[i := v] == s[..i] + ([v] + s[i + 1..]);
    SumConcat(s[..i], [s[i]] + s[i + 1..]);
    SumConcat(s[..i], [v] + s[i + 1..]);
  }

  lemma {:induction false} SumOfZeros(s: seq<real>)
    requires forall i :: 0 <= i < |s| ==> s[i] == 0.0
    ensures Sum(s) == 0.0
  {
    if s != [] {
      SumOfZeros(s[1..]);
    }
  }

  predicate Within(s: seq<real>, lo: real, hi: real) { forall i :: 0 <= i < |s| ==> lo <= s[i] <= hi }

  lemma {:induction false} SumWithin(s: seq<real>, lo: real, hi: real)
    requires Within(s, lo, hi)
    ensures lo * (|s| as real) <= Sum(s) <= hi * (|s| as real)
  {
    if s != [] {
      SumWithin(s[1..], lo, hi);
      assert |s| as real == 1.0 + (|s[1..]| as real);
    }
  }

  // A mean lies between any bounds of what it is the mean of.
  lemma {:induction false} MeanWithin(s: seq<real>, lo: real, hi: real)
    requires s != [] && Within(s, lo, hi)
    ensures lo <= Mean(s) <= hi
  {
    SumWithin(s, lo, hi);
    QuotientBounds(lo, Sum(s), |s| as real);
    QuotientBounds(Sum(s), hi, |s| as real);
  }

  lemma QuotientBounds(lo: real, sum: real, n: real)
    requires n > 0.0
    ensures lo * n <= sum ==> lo <= sum / n
    ensures lo <= sum * n ==> lo / n <= sum
  {
    assert sum / n * n == sum;
    assert lo / n * n == lo;
  }

  // ----- the prefilter -------------------------------------------------------------------------------

  // What is passed on when the last value of h arrives.
  function Prefiltered(h: seq<real>): real
    requires h != []
  {
    if |h| >= 3 then Median(h[|h| - 3], h[|h| - 2], h[|h| - 1]) else h[|h| - 1]
  }

  // What a run of inputs xs, after the inputs h, passes on.
  function PassedOn(h: seq<real>, xs: seq<real>): (r: seq<real>)
    ensures |r| == |xs|
  {
    if xs == [] then [] else PassedOn(h, xs[..|xs| - 1]) + [Prefiltered(h + xs)]
  }

  lemma {:induction false} FilteredAt(h: seq<real>, xs: seq<real>, i: nat)
    requires i < |xs|
    ensures PassedOn(h, xs)[i] == Prefiltered(h + xs[..i + 1])
  {
    if i < |xs| - 1 {
      FilteredAt(h, xs[..|xs| - 1], i);
      assert xs[..|xs| - 1][..i + 1] == xs[..i + 1];
    } else {
      assert xs[..i + 1] == xs;
    }
  }

  // From the start, the first two inputs pass through and then the median of the last three does.
  // After a reset to z the first value passed on is z, whatever the input.
  lemma {:induction false} MediansFromTheStart(xs: seq<real>, z: real, i: nat)
    requires i < |xs|
    ensures PassedOn([], xs)[i] == if i < 2 then xs[i] else Median(xs[i - 2], xs[i - 1], xs[i])
    ensures PassedOn([z, z, z], xs)[i]
         == if i == 0 then z else Median(if i == 1 then z else xs[i - 2], xs[i - 1], xs[i])
  {
    FilteredAt([], xs, i);
    FilteredAt([z, z, z], xs, i);
    assert [] + xs[..i + 1] == xs[..i + 1];
    var h := [z, z, z] + xs[..i + 1];
    assert h[|h| - 1] == xs[i] && h[|h| - 2] == (if i == 0 then z else xs[i - 1]);
    assert h[|h| - 3] == if i <= 1 then z else xs[i - 2];
  }

  predicate In(x: real, lo: real, hi: real) { lo <= x <= hi }

  // Two of the three values up to h[i] are in range.
  predicate TwoIn(h: seq<real>, i: nat, lo: real, hi: real)
    requires 2 <= i < |h|
  {
    (In(h[i - 2], lo, hi) && (In(h[i - 1], lo, hi) || In(h[i], lo, hi))) || (In(h[i - 1], lo, hi) && In(h[i], lo, hi))
  }

  // Of any three values in a row at most one is out of range, and none of the first two.
  predicate LoneSpikes(h: seq<real>, lo: real, hi: real) {
    (forall i :: 0 <= i < |h| && i < 2 ==> In(h[i], lo, hi)) && (forall i :: 2 <= i < |h| ==> TwoIn(h, i, lo, hi))
  }

  lemma {:induction false} FewerSpikes(h: seq<real>, lo: real, hi: real)
    requires h != [] && LoneSpikes(h, lo, hi)
    ensures LoneSpikes(h[..|h| - 1], lo, hi) && In(Prefiltered(h), lo, hi)
  {
    var front := h[..|h| - 1];
    forall i | 2 <= i < |front|
      ensures TwoIn(front, i, lo, hi)
    {
      assert TwoIn(h, i, lo, hi);
    }
    if |h| >= 3 {
      assert TwoIn(h, |h| - 1, lo, hi);
    }
  }

  // Lone spikes never get through: every value passed on is in range.
  lemma {:induction false} SpikesAreRejected(h: seq<real>, xs: seq<real>, lo: real, hi: real)
    requires LoneSpikes(h + xs, lo, hi)
    ensures Within(PassedOn(h, xs), lo, hi)
  {
    if xs != [] {
      assert h + xs[..|xs| - 1] == (h + xs)[..|h + xs| - 1];
      FewerSpikes(h + xs, lo, hi);
      SpikesAreRejected(h, xs[..|xs| - 1], lo, hi);
    }
  }

  // ----- the ring --------------------------------------------------------------------------------------

  // The values in a ring whose next slot to be written is index, oldest first.
  function Window(ring: seq<real>, index: nat, count: nat): seq<real>
    requires index <= |ring| && count <= |ring|
  {
    if count < |ring| then ring[..count] else ring[index..] + ring[..index]
  }

  // The ring holds the last values accepted, and zeros in the slots not used yet.
  predicate Holds(ring: seq<real>, index: nat, count: nat, accepted: seq<real>) {
    && index <= |ring| && (ring != [] ==> index < |ring|) && count <= |ring|
    && (count < |ring| ==> index == count && forall k :: count <= k < |ring| ==> ring[k] == 0.0)
    && Window(ring, index, count) == Last(accepted, |ring|)
  }

  lemma LastOfMore<T>(s: seq<T>, v: T, n: nat)
    requires n > 0
    ensures Last(s + [v], n) == if |s| < n then s + [v] else Last(s, n)[1..] + [v]
  {
  }

  function Next(index: nat, n: nat): (i: nat)
    requires index < n
    ensures i == if index + 1 == n then 0 else index + 1
  {
    (index + 1) % n
  }

  lemma WindowFills(ring: seq<real>, count: nat, v: real)
    requires count < |ring|
    ensures Window(ring[count := v], Next(count, |ring|), count + 1) == Window(ring, count, count) + [v]
  {
    assert ring[count := v][..count + 1] == ring[..count] + [v];
  }

  lemma WindowSlides(ring: seq<real>, index: nat, v: real)
    requires index < |ring|
    ensures Window(ring[index := v], Next(index, |ring|), |ring|) == Window(ring, index, |ring|)[1..] + [v]
  {
    assert (ring[index..] + ring[..index])[1..] == ring[index + 1..] + ring[..index];
    assert ring[index := v][..index + 1] == ring[..index] + [v];
  }

  lemma {:induction false} RingTakesOneMore(ring: seq<real>, index: nat, count: nat, accepted: seq<real>, v: real)
    requires Holds(ring, index, count, accepted) && ring != []
    ensures Holds(ring[index := v], Next(index, |ring|), Counted(count, |ring|), accepted + [v])
  {
    LastOfMore(accepted, v, |ring|);
    if count < |ring| {
      WindowFills(ring, count, v);
    } else {
      WindowSlides(ring, index, v);
    }
  }

  // The running sum is the sum of the window.
  lemma {:induction false} RingSum(ring: seq<real>, index: nat, count: nat, accepted: seq<real>)
    requires Holds(ring, index, count, accepted)
    ensures Sum(ring) == Sum(Last(accepted, |ring|))
  {
    if count < |ring| {
      assert ring == ring[..count] + ring[count..];
      SumConcat(ring[..count], ring[count..]);
      SumOfZeros(ring[count..]);
    } else {
      assert ring == ring[..index] + ring[index..];
      SumConcat(ring[..index], ring[index..]);
      SumConcat(ring[index..], ring[..index]);
    }
  }

  // An average lies in every range that the last n values lie in.
  lemma {:induction false} AverageWithin(accepted: seq<real>, n: nat, lo: real, hi: real)
    requires Within(accepted, lo, hi) && accepted != [] && n > 0
    ensures lo <= Average(accepted, n) <= hi
  {
    MeanWithin(Last(accepted, n), lo, hi);
  }

  // The average of the last n values accepted; 0 when there are none.
  function Average(accepted: seq<real>, n: nat): real {
    if Last(accepted, n) == [] then 0.0 else Mean(Last(accepted, n))
  }

  function Counted(count: nat, n: nat): nat { if count < n then count + 1 else count }

  lemma {:induction false} RingAverages(ring: seq<real>, index: nat, count: nat, accepted: seq<real>)
    requires Holds(ring, index, count, accepted)
    ensures Average(accepted, |ring|) == if count == 0 then 0.0 else Sum(ring) / (count as real)
  {
    RingSum(ring, index, count, accepted);
  }

  lemma {:induction false} FreshRing(ring: seq<real>)
    requires forall k :: 0 <= k < |ring| ==> ring[k] == 0.0
    ensures Holds(ring, 0, 0, []) && Sum(ring) == 0.0
  {
    SumOfZeros(ring);
  }

  // ----- the filter ------------------------------------------------------------------------------------

  class MovingAvg {
    const buffer: array<real>
    var index: nat
    var sum: real
    var count: nat
    var lastVals: seq<real>
    var lastCount: nat

    // The values averaged since the start or the last reset, and the inputs of the prefilter, which a
    // reset primes with three copies of its value.
    ghost var accepted: seq<real>
    ghost var history: seq<real>

    ghost predicate Valid()
      reads this, buffer
    {
      Holds(buffer[..], index, count, accepted) && sum == Sum(buffer[..]) && ValidHistory()
    }

    ghost predicate ValidHistory()
      reads this
    {
      |lastVals| == 3 && lastCount == |Last(history, 3)| && lastVals[..lastCount] == Last(history, 3)
    }

    constructor (buffer: array<real>)
      modifies buffer
      ensures this.buffer == buffer && Valid() && accepted == [] && history == []
    {
      this.buffer := buffer;
      index, sum, count, lastCount := 0, 0.0, 0, 0;
      lastVals := [0.0, 0.0, 0.0];
      accepted, history := [], [];
      new;
      Zero();
      FreshRing(buffer[..]);
    }

    // memset
    method Zero()
      modifies buffer
      ensures forall k :: 0 <= k < buffer.Length ==> buffer[k] == 0.0
    {
      forall k | 0 <= k < buffer.Length {
        buffer[k] := 0.0;
      }
    }

    method Update(v: real) returns (r: real)
      requires Valid()
      modifies this`index, this`sum, this`count, this`accepted, buffer
      ensures Valid() && accepted == old(accepted) + [v]
      ensures r == Average(accepted, buffer.Length)
    {
      if buffer.Length == 0 {
        accepted := accepted + [v];
        return 0.0;
      }
      RingTakesOneMore(buffer[..], index, count, accepted, v);
      SumUpdate(buffer[..], index, v);
      Overwrite(index, v);
      index := Next(index, buffer.Length);
      if count < buffer.Length {
        count := count + 1;
      }
      accepted := accepted + [v];
      RingAverages(buffer[..], index, count, accepted);
      r := sum / (count as real);
    }

    // The outgoing value leaves the sum and the ring, the incoming one enters them.
    method Overwrite(i: nat, v: real)
      requires i < buffer.Length
      modifies this`sum, buffer
      ensures buffer[..] == old(buffer[..])[i := v] && sum == old(sum) - old(buffer[i]) + v
    {
      sum := sum - buffer[i];
      buffer[i] := v;
      sum := sum + v;
    }

    // The median of the last three inputs, or the input itself while there are fewer.
    method Prefilter(v: real) returns (med: real)
      requires ValidHistory()
      modifies this`lastVals, this`lastCount, this`history
      ensures ValidHistory() && history == old(history) + [v]
      ensures med == Prefiltered(history)
    {
      LastOfMore(history, v, 3);
      if lastCount < 3 {
        lastVals := lastVals[lastCount := v];
        lastCount := lastCount + 1;
      } else {
        lastVals := [lastVals[1], lastVals[2], v];
      }
      history := history + [v];
      med := v;
      if lastCount == 3 {
        med := Median3(lastVals[0], lastVals[1], lastVals[2]);
      }
    }

    method UpdateMedian3(v: real) returns (r: real)
      requires Valid()
      modifies this, buffer
      ensures Valid() && history == old(history) + [v]
      ensures accepted == old(accepted) + [Prefiltered(history)]
      ensures r == Average(accepted, buffer.Length)
    {
      var med := Prefilter(v);
      r := Update(med);
    }

    method Reset(init: real)
      requires Valid()
      modifies this, buffer
      ensures Valid()
      ensures buffer.Length > 0 ==> accepted == [init] && history == [init, init, init]
      ensures buffer.Length == 0 ==> accepted == old(accepted) && history == old(history)
    {
      if buffer.Length == 0 { return; }
      Zero();
      FreshRing(buffer[..]);
      RingTakesOneMore(buffer[..], 0, 0, [], init);
      SumUpdate(buffer[..], 0, init);
      ghost var ring := buffer[..][0 := init];
      buffer[0] := init;
      assert buffer[..] == ring;
      sum, count, index := init, 1, 1 % buffer.Length;
      lastVals, lastCount := [init, init, init], 3;
      accepted, history := [] + [init], [init, init, init];
    }

    // get_moving_average_value in the driver.
    method Value() returns (r: real)
      requires Valid()
      ensures r == Average(accepted, buffer.Length)
    {
      RingAverages(buffer[..], index, count, accepted);
      if count == 0 { return 0.0; }
      r := sum / (count as real);
    }
  }
}
