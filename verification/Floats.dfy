// Floating-point numbers without rounding: real numbers, the two infinities, and not a number. There is one
// zero; a denominator that vanishes here is the difference of equal numbers, which is a positive zero in C.
module Floats {
  datatype Float = Num(v: real) | Inf(positive: bool) | NaN

  function ValueOf(a: Float): real { if a.Num? then a.v else 0.0 }

  function Neg(a: Float): Float {
    match a case Num(v) => Num(-v) case Inf(s) => Inf(!s) case NaN => NaN
  }

  function Add(a: Float, b: Float): Float {
    if a.NaN? || b.NaN? || (a.Inf? && b == Inf(!a.positive)) then NaN
    else if a.Inf? then a
    else if b.Inf? then b
    else Num(a.v + b.v)
  }

  function Sub(a: Float, b: Float): Float { Add(a, Neg(b)) }

  predicate IsPositive(a: Float) { a == Inf(true) || (a.Num? && a.v > 0.0) }

  predicate IsZero(a: Float) { a == Num(0.0) }

  // The product of two positive or two negative factors is positive.
  function Mul(a: Float, b: Float): Float {
    if a.Num? && b.Num? then Num(a.v * b.v)
    else if a.NaN? || b.NaN? || IsZero(a) || IsZero(b) then NaN
    else Inf(IsPositive(a) == IsPositive(b))
  }

  function Div(a: Float, b: Float): Float {
    if a.NaN? || b.NaN? || (a.Inf? && b.Inf?) || (IsZero(a) && IsZero(b)) then NaN
    else if b.Inf? then Num(0.0)
    else if IsZero(b) then Inf(IsPositive(a))
    else if a.Inf? then Inf(a.positive == IsPositive(b))
    else Num(a.v / b.v)
  }

  function AbsOf(a: Float): Float {
    match a case Num(v) => Num(if v < 0.0 then -v else v) case Inf(_) => Inf(true) case NaN => NaN
  }

  // a <= b and a < b, which are false when one of them is not a number.
  predicate AtMost(a: Float, b: Float) {
    match (a, b)
    case (Num(v), Num(w)) => v <= w
    case (Num(_), Inf(s)) => s
    case (Inf(s), Num(_)) => !s
    case (Inf(s), Inf(t)) => !s || t
    case _ => false
  }

  predicate Below(a: Float, b: Float) { AtMost(a, b) && a != b }

  // ----- laws ----------------------------------------------------------------------------------------

  // On numbers the operations are those of the real numbers; division undoes multiplication.
  lemma NumbersAreReals(x: real, y: real)
    ensures Add(Num(x), Num(y)) == Num(x + y) && Sub(Num(x), Num(y)) == Num(x - y) && Mul(Num(x), Num(y)) == Num(x * y)
    ensures y != 0.0 ==> Mul(Div(Num(x), Num(y)), Num(y)) == Num(x)
    ensures AbsOf(Num(x)) == if x < 0.0 then Num(-x) else Num(x)
    ensures (AtMost(Num(x), Num(y)) <==> x <= y) && (Below(Num(x), Num(y)) <==> x < y)
  {
    if y != 0.0 {
      assert x / y * y == x;
    }
  }

  // An infinity takes in every number, and its sign follows that of a factor; what has no value is not a number.
  lemma InfinitiesAbsorb(s: bool, x: real)
    ensures Add(Inf(s), Num(x)) == Add(Num(x), Inf(s)) == Add(Inf(s), Inf(s)) == Inf(s) && Add(Inf(s), Inf(!s)) == NaN
    ensures Mul(Inf(s), Num(x)) == Mul(Num(x), Inf(s)) == if x > 0.0 then Inf(s) else if x < 0.0 then Inf(!s) else NaN
    ensures Mul(Inf(s), Inf(s)) == Inf(true) && Mul(Inf(s), Inf(!s)) == Inf(false)
    ensures Div(Num(x), Num(0.0)) == if x > 0.0 then Inf(true) else if x < 0.0 then Inf(false) else NaN
    ensures Div(Num(x), Inf(s)) == Num(0.0) && Div(Inf(s), Inf(s)) == Div(Inf(s), Inf(!s)) == NaN
    ensures Below(Num(x), Inf(true)) && Below(Inf(false), Num(x)) && !AtMost(Inf(true), Num(x)) && !AtMost(Num(x), Inf(false))
  {
  }

  // Once not a number, never again one, and in no order with anything.
  lemma NaNSpreads(a: Float)
    ensures Add(a, NaN) == Add(NaN, a) == Sub(a, NaN) == Sub(NaN, a) == Mul(a, NaN) == Mul(NaN, a) == Div(a, NaN) == Div(NaN, a) == NaN
    ensures !AtMost(a, NaN) && !AtMost(NaN, a)
  {
  }
}
