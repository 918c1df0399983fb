// Calibration: tare, the line through two points, and the least-squares line through many.
// Floating-point numbers are modelled as real numbers, with infinities and NaN where a division by zero
// can make them. A predicate compared with true is handed on as a whole, so that the products in its
// definition are not multiplied out where they are not needed.
module Calibration {
  import opened Common
  import opened Floats

  // ----- tare ----------------------------------------------------------------------------------------

  function SumOf(s: seq<int>): int { if s == [] then 0 else SumOf(s[..|s| - 1]) + s[|s| - 1] }

  lemma {:induction false} SumInRange(s: seq<int>, lo: int, hi: int)
    requires forall i :: 0 <= i < |s| ==> lo <= s[i] <= hi
    ensures lo * |s| <= SumOf(s) <= hi * |s|
  {
    if s != [] {
      SumInRange(s[..|s| - 1], lo, hi);
      assert lo * |s| == lo * (|s| - 1) + lo && hi * |s| == hi * (|s| - 1) + hi;
    }
  }

  lemma QuotientInRange(a: int, b: int, lo: int, hi: int)
    requires b > 0 && lo * b <= a <= hi * b
    ensures lo <= Quotient(a, b) <= hi
  {
    if a >= 0 {
      FloorInRange(a, b, lo, hi);
    } else {
      assert -hi * b == -(hi * b) && -lo * b == -(lo * b);
      FloorInRange(-a, b, -hi, -lo);
    }
  }

  lemma FloorInRange(a: int, b: int, lo: int, hi: int)
    requires b > 0 && a >= 0 && lo * b <= a <= hi * b
    ensures lo <= a / b <= hi
  {
    var q, r := a / b, a % b;
    assert a == q * b + r;
    CancelLess(lo, q + 1, b);
    CancelLess(q, hi + 1, b);
  }

  lemma CancelLess(x: int, y: int, b: int)
    requires b > 0 && x * b < y * b
    ensures x < y
  {
    var d := x - y;
    assert d * b == x * b - y * b;
    if d >= 0 {
      NaturalProduct(d, b);
    }
  }

  lemma NaturalProduct(a: int, b: int)
    requires a >= 0 && b >= 0
    ensures a * b >= 0
  {
  }

  // The tare is the mean with its fraction dropped, and lies in every range the samples lie in.
  lemma {:induction false} TareIsInHull(raw: seq<int>, lo: int, hi: int)
    requires raw != [] && forall i :: 0 <= i < |raw| ==> lo <= raw[i] <= hi
    ensures lo <= Quotient(SumOf(raw), |raw|) <= hi
  {
    SumInRange(raw, lo, hi);
    QuotientInRange(SumOf(raw), |raw|, lo, hi);
  }

  lemma QuotientTruncates(a: int, b: int)
    requires b > 0
    ensures var q := Quotient(a, b);
      -b < a - q * b < b && (a >= 0 ==> 0 <= q * b <= a) && (a <= 0 ==> a <= q * b <= 0)
  {
    if a >= 0 {
      FloorRemainder(a, b, a / b);
    } else {
      FloorRemainder(-a, b, -a / b);
      NegatedProduct(-a / b, b);
    }
  }

  lemma FloorRemainder(a: int, b: int, q: int)
    requires b > 0 && a >= 0 && q == a / b
    ensures 0 <= a - q * b < b && 0 <= q * b
  {
    assert a == q * b + a % b;
    NaturalProduct(q, b);
  }

  lemma NegatedProduct(q: int, b: int)
    ensures -q * b == -(q * b)
  {
  }

  method Tare(raw: seq<int>) returns (status: int, zero: int)
    ensures raw == [] ==> status == -1
    ensures raw != [] ==> status == 0 && zero == Quotient(SumOf(raw), |raw|)
  {
    if |raw| == 0 {
      return -1, 0;
    }
    var sum := 0;
    var i := 0;
    while i < |raw|
      invariant 0 <= i <= |raw| && sum == SumOf(raw[..i])
    {
      assert raw[..i + 1][..i] == raw[..i];
      sum := sum + raw[i];
      i := i + 1;
    }
    assert raw[..i] == raw;
    zero := Quotient(sum, |raw|);
    status := 0;
  }

  // ----- sums over points ----------------------------------------------------------------------------

  datatype Point = Point(x: real, y: real)

  function Total(f: Point -> real, ps: seq<Point>): real {
    if ps == [] then 0.0 else Total(f, ps[..|ps| - 1]) + f(ps[|ps| - 1])
  }

  function X(): Point -> real { (p: Point) => p.x }
  function Y(): Point -> real { (p: Point) => p.y }
  function XY(): Point -> real { (p: Point) => p.x * p.y }
  function XX(): Point -> real { (p: Point) => p.x * p.x }
  function One(): Point -> real { (p: Point) => 1.0 }
  function Zero(): Point -> real { (p: Point) => 0.0 }

  // h is a combination of e, u, v and w.
  predicate IsCombination(h: real, e: real, c: real, u: real, d: real, v: real, w: real) { h == e + c * u + d * v + w }

  lemma CombinationsAdd(h: real, e: real, c: real, u: real, d: real, v: real, w: real,
                        h': real, e': real, u': real, v': real, w': real)
    requires IsCombination(h, e, c, u, d, v, w) && IsCombination(h', e', c, u', d, v', w')
    ensures IsCombination(h + h', e + e', c, u + u', d, v + v', w + w') == true
  {
    assert c * (u + u') == c * u + c * u' && d * (v + v') == d * v + d * v';
  }

  // Totals are linear.
  lemma {:induction false} Combined(h: Point -> real, e: Point -> real, c: real, u: Point -> real, d: real, v: Point -> real,
                                    w: Point -> real, ps: seq<Point>)
    requires forall p: Point {:trigger h(p)} :: IsCombination(h(p), e(p), c, u(p), d, v(p), w(p)) == true
    ensures IsCombination(Total(h, ps), Total(e, ps), c, Total(u, ps), d, Total(v, ps), Total(w, ps)) == true
  {
    if ps != [] {
      var front, p := ps[..|ps| - 1], ps[|ps| - 1];
      Combined(h, e, c, u, d, v, w, front);
      assert IsCombination(h(p), e(p), c, u(p), d, v(p), w(p)) == true;
      CombinationsAdd(Total(h, front), Total(e, front), c, Total(u, front), d, Total(v, front), Total(w, front),
                      h(p), e(p), u(p), v(p), w(p));
    }
  }

  lemma {:induction false} TotalOfOnes(ps: seq<Point>)
    ensures Total(One(), ps) == |ps| as real && Total(Zero(), ps) == 0.0
  {
    if ps != [] {
      TotalOfOnes(ps[..|ps| - 1]);
    }
  }

  lemma {:induction false} TotalSign(f: Point -> real, ps: seq<Point>)
    requires forall p: Point :: f(p) >= 0.0
    ensures Total(f, ps) >= 0.0
  {
    if ps != [] {
      TotalSign(f, ps[..|ps| - 1]);
    }
  }

  lemma {:induction false} TotalPositive(f: Point -> real, ps: seq<Point>, i: nat)
    requires (forall p: Point :: f(p) >= 0.0) && i < |ps| && f(ps[i]) > 0.0
    ensures Total(f, ps) > 0.0
  {
    if i < |ps| - 1 {
      TotalPositive(f, ps[..|ps| - 1], i);
    } else {
      TotalSign(f, ps[..|ps| - 1]);
    }
  }

  lemma {:induction false} TotalZero(f: Point -> real, ps: seq<Point>)
    requires forall i :: 0 <= i < |ps| ==> f(ps[i]) == 0.0
    ensures Total(f, ps) == 0.0
  {
    if ps != [] {
      TotalZero(f, ps[..|ps| - 1]);
    }
  }

  function Times(a: real, b: real): real { a * b }
  function Square(a: real): real { Times(a, a) }

  lemma SquareSign(a: real)
    ensures Square(a) >= 0.0
  {
  }

  lemma PositiveTimes(a: real, b: real)
    requires a > 0.0 && b > 0.0
    ensures Times(a, b) > 0.0
  {
  }

  lemma TimesItself(a: real, b: real)
    requires a == b && a != 0.0
    ensures Times(a, b) > 0.0
  {
    if a > 0.0 {
      PositiveTimes(a, b);
    } else {
      PositiveTimes(-a, -b);
      assert Times(-a, -b) == Times(a, b);
    }
  }

  lemma SquarePositive(a: real)
    requires a != 0.0
    ensures Square(a) > 0.0
  {
    TimesItself(a, a);
  }

  lemma ProductNotZero(a: real, b: real)
    requires a != 0.0 && b != 0.0
    ensures a * b != 0.0
  {
    var c, d := -a, -b;
    if a > 0.0 && b > 0.0 {
      assert a * b > 0.0;
    } else if a > 0.0 {
      assert a * d > 0.0;
      assert a * b == -(a * d);
    } else if b > 0.0 {
      assert c * b > 0.0;
      assert a * b == -(c * b);
    } else {
      assert c * d > 0.0;
      assert a * b == c * d;
    }
  }

  // ----- when no fit is possible -----------------------------------------------------------------------

  // The squared distances of the points from v, along x, and of all pairs of points from each other.
  function DistanceTo(v: real): Point -> real { (p: Point) => Square(p.x - v) }

  function Pairs(ps: seq<Point>): real {
    if ps == [] then 0.0 else Pairs(ps[..|ps| - 1]) + Total(DistanceTo(ps[|ps| - 1].x), ps[..|ps| - 1])
  }

  predicate SameX(ps: seq<Point>) { forall i, j :: 0 <= i < j < |ps| ==> ps[i].x == ps[j].x }

  lemma DistanceExpands(p: Point, v: real)
    ensures IsCombination(DistanceTo(v)(p), XX()(p), -2.0 * v, X()(p), v * v, One()(p), Zero()(p)) == true
  {
    var x := p.x;
    assert Square(x - v) == x * x - 2.0 * (v * x) + v * v;
  }

  lemma {:induction false} DistancesExpand(ps: seq<Point>, v: real, u: real, w: real)
    requires u == -2.0 * v && w == v * v
    ensures IsCombination(Total(DistanceTo(v), ps), Total(XX(), ps), u, Total(X(), ps), w, |ps| as real, 0.0) == true
  {
    forall p: Point
      ensures IsCombination(DistanceTo(v)(p), XX()(p), u, X()(p), w, One()(p), Zero()(p)) == true
    {
      DistanceExpands(p, v);
    }
    Combined(DistanceTo(v), XX(), u, X(), w, One(), Zero(), ps);
    TotalOfOnes(ps);
  }

  // The denominator of the fit.
  predicate IsSpread(d: real, n: real, xx: real, x: real) { d == n * xx - x * x }
  function Spread(ps: seq<Point>): real { (|ps| as real) * Total(XX(), ps) - Total(X(), ps) * Total(X(), ps) }

  lemma SpreadGrows(d: real, n: real, xx: real, x: real, v: real, u: real, w: real, distances: real,
                    d': real, n': real, xx': real, x': real)
    requires u == -2.0 * v && w == v * v
    requires IsSpread(d, n, xx, x) == true && IsCombination(distances, xx, u, x, w, n, 0.0) == true
    requires d' == d + distances && n' == n + 1.0 && xx' == xx + w && x' == x + v
    ensures IsSpread(d', n', xx', x') == true
  {
    assert (n + 1.0) * (xx + w) == n * xx + n * w + xx + w;
    assert (x + v) * (x + v) == x * x + 2.0 * (v * x) + w;
    assert w * n == n * w && u * x == -2.0 * (v * x);
    assert n' * xx' == (n + 1.0) * (xx + w) && x' * x' == (x + v) * (x + v);
  }

  lemma TotalsGrow(ps: seq<Point>, front: seq<Point>, v: real, w: real)
    requires ps != [] && front == ps[..|ps| - 1] && v == ps[|ps| - 1].x && w == v * v
    ensures |ps| as real == |front| as real + 1.0
    ensures Total(XX(), ps) == Total(XX(), front) + w && Total(X(), ps) == Total(X(), front) + v
    ensures Pairs(ps) == Pairs(front) + Total(DistanceTo(v), front)
  {
  }

  lemma {:induction false} PairsAreTheSpread(ps: seq<Point>)
    ensures IsSpread(Pairs(ps), |ps| as real, Total(XX(), ps), Total(X(), ps)) == true
  {
    if ps == [] {
      assert IsSpread(0.0, 0.0, 0.0, 0.0);
    } else {
      var front, v := ps[..|ps| - 1], ps[|ps| - 1].x;
      var u, w := -2.0 * v, v * v;
      PairsAreTheSpread(front);
      DistancesExpand(front, v, u, w);
      TotalsGrow(ps, front, v, w);
      SpreadGrows(Pairs(front), |front| as real, Total(XX(), front), Total(X(), front), v, u, w, Total(DistanceTo(v), front),
                  Pairs(ps), |ps| as real, Total(XX(), ps), Total(X(), ps));
    }
  }

  // It is the sum over all pairs of squared differences.
  lemma {:induction false} SpreadIsPairs(ps: seq<Point>)
    ensures Spread(ps) == Pairs(ps)
  {
    PairsAreTheSpread(ps);
  }

  lemma {:induction false} DistanceSign(v: real)
    ensures forall p: Point :: DistanceTo(v)(p) >= 0.0
    ensures forall p: Point :: p.x != v ==> DistanceTo(v)(p) > 0.0
  {
    forall p: Point
      ensures DistanceTo(v)(p) >= 0.0 && (p.x != v ==> DistanceTo(v)(p) > 0.0)
    {
      SquareSign(p.x - v);
      if p.x - v != 0.0 {
        SquarePositive(p.x - v);
      }
    }
  }

  lemma {:induction false} PairsSign(ps: seq<Point>)
    ensures Pairs(ps) >= 0.0
  {
    if ps != [] {
      PairsSign(ps[..|ps| - 1]);
      DistanceSign(ps[|ps| - 1].x);
      TotalSign(DistanceTo(ps[|ps| - 1].x), ps[..|ps| - 1]);
    }
  }

  lemma {:induction false} PairsPositive(ps: seq<Point>, i: nat, j: nat)
    requires i < j < |ps| && ps[i].x != ps[j].x
    ensures Pairs(ps) > 0.0
  {
    var front, v := ps[..|ps| - 1], ps[|ps| - 1].x;
    PairsSign(front);
    DistanceSign(v);
    if j < |ps| - 1 {
      PairsPositive(front, i, j);
      TotalSign(DistanceTo(v), front);
    } else {
      TotalPositive(DistanceTo(v), front, i);
    }
  }

  lemma {:induction false} PairsZero(ps: seq<Point>)
    requires SameX(ps)
    ensures Pairs(ps) == 0.0
  {
    if ps != [] {
      var front, v := ps[..|ps| - 1], ps[|ps| - 1].x;
      PairsZero(front);
      assert forall i :: 0 <= i < |front| ==> front[i].x == v;
      TotalZero(DistanceTo(v), front);
    }
  }

  lemma {:induction false} NoSpreadExactlyWhenSameX(ps: seq<Point>)
    ensures Spread(ps) == 0.0 <==> SameX(ps)
  {
    SpreadIsPairs(ps);
    if SameX(ps) {
      PairsZero(ps);
    } else {
      var i, j :| 0 <= i < j < |ps| && ps[i].x != ps[j].x;
      PairsPositive(ps, i, j);
    }
  }

  // ----- the best line ---------------------------------------------------------------------------------

  function Residual(a: real, b: real): Point -> real { (p: Point) => p.y - (a * p.x + b) }
  function ResidualX(a: real, b: real): Point -> real { (p: Point) => p.x * Residual(a, b)(p) }
  function SquaredResidual(a: real, b: real): Point -> real { (p: Point) => Square(Residual(a, b)(p)) }
  function SquaredValue(a: real, b: real): Point -> real { (p: Point) => Square(a * p.x + b) }

  // The sum of the squared residuals of the line with the given slope and intercept.
  function Error(ps: seq<Point>, slope: real, intercept: real): real { Total(SquaredResidual(slope, intercept), ps) }

  lemma OneResidual(x: real, y: real, a: real, b: real, da: real, db: real, e: real, v: real, f: real)
    requires e == y - (a * x + b) && v == da * x + db && f == y - ((a + da) * x + (b + db))
    ensures IsCombination(Square(f), Square(e), -2.0 * da, x * e, -2.0 * db, e, Square(v)) == true
  {
    assert f == e - v;
    assert Square(e - v) == Square(e) - 2.0 * (v * e) + Square(v);
    assert v * e == da * (x * e) + db * e;
  }

  lemma SquareAtPoint(p: Point, a: real, b: real, da: real, db: real)
    ensures IsCombination(SquaredResidual(a + da, b + db)(p), SquaredResidual(a, b)(p), -2.0 * da, ResidualX(a, b)(p),
                          -2.0 * db, Residual(a, b)(p), SquaredValue(da, db)(p)) == true
  {
    var e, v, f := Residual(a, b)(p), da * p.x + db, Residual(a + da, b + db)(p);
    OneResidual(p.x, p.y, a, b, da, db, e, v, f);
    assert SquaredResidual(a + da, b + db)(p) == Square(f) && SquaredResidual(a, b)(p) == Square(e);
    assert SquaredValue(da, db)(p) == Square(v) && ResidualX(a, b)(p) == p.x * e;
  }

  // The error of another line: what the residuals add up to decides the rest.
  lemma {:induction false} ErrorOfAnother(ps: seq<Point>, a: real, b: real, da: real, db: real)
    ensures IsCombination(Error(ps, a + da, b + db), Error(ps, a, b), -2.0 * da, Total(ResidualX(a, b), ps),
                          -2.0 * db, Total(Residual(a, b), ps), Total(SquaredValue(da, db), ps)) == true
  {
    forall p: Point
      ensures IsCombination(SquaredResidual(a + da, b + db)(p), SquaredResidual(a, b)(p), -2.0 * da, ResidualX(a, b)(p),
                            -2.0 * db, Residual(a, b)(p), SquaredValue(da, db)(p)) == true
    {
      SquareAtPoint(p, a, b, da, db);
    }
    Combined(SquaredResidual(a + da, b + db), SquaredResidual(a, b), -2.0 * da, ResidualX(a, b), -2.0 * db, Residual(a, b),
             SquaredValue(da, db), ps);
  }

  lemma ResidualAtPoint(p: Point, a: real, b: real)
    ensures IsCombination(Residual(a, b)(p), Y()(p), -a, X()(p), -b, One()(p), Zero()(p)) == true
  {
  }

  lemma ResidualTimesX(x: real, y: real, a: real, b: real, e: real, xx: real, xy: real)
    requires e == y - (a * x + b) && xx == x * x && xy == x * y
    ensures IsCombination(x * e, xy, -a, xx, -b, x, 0.0) == true
  {
    assert x * e == x * y - a * (x * x) - b * x;
    assert a * xx == a * (x * x);
  }

  lemma ResidualXAtPoint(p: Point, a: real, b: real)
    ensures IsCombination(ResidualX(a, b)(p), XY()(p), -a, XX()(p), -b, X()(p), Zero()(p)) == true
  {
    var e, xx, xy := Residual(a, b)(p), XX()(p), XY()(p);
    ResidualTimesX(p.x, p.y, a, b, e, xx, xy);
    assert ResidualX(a, b)(p) == p.x * e;
  }

  lemma {:induction false} ResidualsExpand(ps: seq<Point>, a: real, b: real)
    ensures IsCombination(Total(Residual(a, b), ps), Total(Y(), ps), -a, Total(X(), ps), -b, |ps| as real, 0.0) == true
  {
    forall p: Point
      ensures IsCombination(Residual(a, b)(p), Y()(p), -a, X()(p), -b, One()(p), Zero()(p)) == true
    {
      ResidualAtPoint(p, a, b);
    }
    Combined(Residual(a, b), Y(), -a, X(), -b, One(), Zero(), ps);
    TotalOfOnes(ps);
  }

  lemma {:induction false} ResidualXsExpand(ps: seq<Point>, a: real, b: real)
    ensures IsCombination(Total(ResidualX(a, b), ps), Total(XY(), ps), -a, Total(XX(), ps), -b, Total(X(), ps), 0.0) == true
  {
    forall p: Point
      ensures IsCombination(ResidualX(a, b)(p), XY()(p), -a, XX()(p), -b, X()(p), Zero()(p)) == true
    {
      ResidualXAtPoint(p, a, b);
    }
    Combined(ResidualX(a, b), XY(), -a, XX(), -b, X(), Zero(), ps);
    TotalOfOnes(ps);
  }

  // What the fit computes from its sums.
  predicate Solves(n: real, x: real, y: real, xy: real, d: real, slope: real, intercept: real) {
    slope * d == n * xy - x * y && intercept * n == y - slope * x
  }

  predicate IsFit(ps: seq<Point>, slope: real, intercept: real) {
    ps != [] && Spread(ps) != 0.0
    && Solves(|ps| as real, Total(X(), ps), Total(Y(), ps), Total(XY(), ps), Spread(ps), slope, intercept) == true
  }

  lemma NormalEquations(n: real, x: real, y: real, xy: real, xx: real, d: real, a: real, b: real, r: real, rx: real)
    requires n > 0.0 && IsSpread(d, n, xx, x) && Solves(n, x, y, xy, d, a, b)
    requires IsCombination(r, y, -a, x, -b, n, 0.0) && IsCombination(rx, xy, -a, xx, -b, x, 0.0)
    ensures r == 0.0 && rx == 0.0
  {
    assert n * rx == n * xy - a * (n * xx) - x * (b * n);
    assert x * (b * n) == x * y - a * (x * x);
    assert a * d == a * (n * xx) - a * (x * x);
    assert n * rx == 0.0;
    if rx != 0.0 {
      ProductNotZero(n, rx);
    }
  }

  lemma {:induction false} FitBalances(ps: seq<Point>, a: real, b: real)
    requires IsFit(ps, a, b) == true
    ensures Total(Residual(a, b), ps) == 0.0 && Total(ResidualX(a, b), ps) == 0.0
  {
    ResidualsExpand(ps, a, b);
    ResidualXsExpand(ps, a, b);
    SpreadIsPairs(ps);
    PairsAreTheSpread(ps);
    NormalEquations(|ps| as real, Total(X(), ps), Total(Y(), ps), Total(XY(), ps), Total(XX(), ps), Pairs(ps), a, b,
                    Total(Residual(a, b), ps), Total(ResidualX(a, b), ps));
  }

  lemma NotBothZero(x: real, x': real, a: real, b: real)
    requires x != x' && (a != 0.0 || b != 0.0)
    ensures a * x + b != 0.0 || a * x' + b != 0.0
  {
    if a == 0.0 {
      assert a * x == 0.0;
    } else {
      var d := x - x';
      ProductNotZero(a, d);
      assert a * d == (a * x + b) - (a * x' + b);
    }
  }

  lemma {:induction false} ValuesSign(a: real, b: real)
    ensures forall p: Point :: SquaredValue(a, b)(p) >= 0.0
    ensures forall p: Point :: a * p.x + b != 0.0 ==> SquaredValue(a, b)(p) > 0.0
  {
    forall p: Point
      ensures SquaredValue(a, b)(p) >= 0.0 && (a * p.x + b != 0.0 ==> SquaredValue(a, b)(p) > 0.0)
    {
      SquareSign(a * p.x + b);
      if a * p.x + b != 0.0 {
        SquarePositive(a * p.x + b);
      }
    }
  }

  lemma {:induction false} SomeValue(ps: seq<Point>, a: real, b: real, i: nat, j: nat)
    requires i < j < |ps| && ps[i].x != ps[j].x && (a != 0.0 || b != 0.0)
    ensures Total(SquaredValue(a, b), ps) > 0.0
  {
    ValuesSign(a, b);
    NotBothZero(ps[i].x, ps[j].x, a, b);
    TotalPositive(SquaredValue(a, b), ps, if a * ps[i].x + b != 0.0 then i else j);
  }

  lemma {:induction false} NoValue(ps: seq<Point>)
    ensures Total(SquaredValue(0.0, 0.0), ps) == 0.0
  {
    forall p: Point
      ensures SquaredValue(0.0, 0.0)(p) == 0.0
    {
      assert 0.0 * p.x + 0.0 == 0.0;
      assert Square(0.0) == 0.0;
    }
    TotalZero(SquaredValue(0.0, 0.0), ps);
  }

  lemma BalancedCombination(h: real, e: real, c: real, u: real, d: real, v: real, w: real)
    requires IsCombination(h, e, c, u, d, v, w) && u == 0.0 && v == 0.0
    ensures h == e + w
  {
  }

  // Against the fit, another line loses the squared values of the difference of the two.
  lemma {:induction false} ErrorAgainstFit(ps: seq<Point>, a: real, b: real, da: real, db: real)
    requires IsFit(ps, a, b) == true
    ensures Error(ps, a + da, b + db) == Error(ps, a, b) + Total(SquaredValue(da, db), ps)
  {
    FitBalances(ps, a, b);
    ErrorOfAnother(ps, a, b, da, db);
    BalancedCombination(Error(ps, a + da, b + db), Error(ps, a, b), -2.0 * da, Total(ResidualX(a, b), ps),
                        -2.0 * db, Total(Residual(a, b), ps), Total(SquaredValue(da, db), ps));
  }

  // Least squares: no line has a smaller error than the fit, and no other line has the same error.
  lemma {:induction false} FitIsTheBest(ps: seq<Point>, a: real, b: real, slope: real, intercept: real)
    requires IsFit(ps, a, b) == true
    ensures Error(ps, a, b) <= Error(ps, slope, intercept)
    ensures Error(ps, a, b) == Error(ps, slope, intercept) <==> slope == a && intercept == b
  {
    var da, db := slope - a, intercept - b;
    assert a + da == slope && b + db == intercept;
    ErrorAgainstFit(ps, a, b, da, db);
    NoSpreadExactlyWhenSameX(ps);
    if da == 0.0 && db == 0.0 {
      NoValue(ps);
    } else {
      var i, j :| 0 <= i < j < |ps| && ps[i].x != ps[j].x;
      SomeValue(ps, da, db, i, j);
    }
  }

  lemma {:induction false} BestOfAll(ps: seq<Point>, a: real, b: real)
    requires IsFit(ps, a, b) == true
    ensures forall s: real, i: real {:trigger Error(ps, s, i)} :: Error(ps, a, b) <= Error(ps, s, i)
  {
    forall s: real, i: real
      ensures Error(ps, a, b) <= Error(ps, s, i)
    {
      FitIsTheBest(ps, a, b, s, i);
    }
  }

  // Data on a line give that line back.
  lemma {:induction false} FitOfALine(ps: seq<Point>, a: real, b: real, slope: real, intercept: real)
    requires IsFit(ps, a, b) == true && forall i :: 0 <= i < |ps| ==> ps[i].y == slope * ps[i].x + intercept
    ensures a == slope && b == intercept
  {
    forall i | 0 <= i < |ps|
      ensures SquaredResidual(slope, intercept)(ps[i]) == 0.0
    {
      assert Residual(slope, intercept)(ps[i]) == 0.0;
      assert Square(0.0) == 0.0;
    }
    TotalZero(SquaredResidual(slope, intercept), ps);
    FitIsTheBest(ps, a, b, slope, intercept);
    ErrorSign(ps, a, b);
  }

  lemma {:induction false} ErrorSign(ps: seq<Point>, a: real, b: real)
    ensures Error(ps, a, b) >= 0.0
  {
    var f := SquaredResidual(a, b);
    forall p: Point
      ensures f(p) >= 0.0
    {
      SquareSign(Residual(a, b)(p));
    }
    TotalSign(f, ps);
  }

  // ----- the code ------------------------------------------------------------------------------------

  function PointOf(raw: int, weight: real): Point { Point(raw as real, weight) }

  function PointsOf(raw: seq<int>, weight: seq<real>): (ps: seq<Point>)
    requires |raw| == |weight|
    ensures |ps| == |raw| && forall i :: 0 <= i < |raw| ==> ps[i] == PointOf(raw[i], weight[i])
  {
    seq(|raw|, i requires 0 <= i < |raw| => PointOf(raw[i], weight[i]))
  }

  predicate AllEqual(raw: seq<int>) { forall i, j :: 0 <= i < j < |raw| ==> raw[i] == raw[j] }

  lemma {:induction false} NoFitExactlyWhenAllEqual(raw: seq<int>, weight: seq<real>)
    requires |raw| == |weight|
    ensures Spread(PointsOf(raw, weight)) == 0.0 <==> AllEqual(raw)
  {
    var ps := PointsOf(raw, weight);
    NoSpreadExactlyWhenSameX(ps);
    if SameX(ps) {
      forall i, j | 0 <= i < j < |raw|
        ensures raw[i] == raw[j]
      {
        assert ps[i].x == ps[j].x;
      }
    }
  }

  method Sums(raw: seq<int>, weight: seq<real>) returns (x: real, y: real, xy: real, xx: real)
    requires |raw| == |weight|
    ensures var ps := PointsOf(raw, weight);
      x == Total(X(), ps) && y == Total(Y(), ps) && xy == Total(XY(), ps) && xx == Total(XX(), ps)
  {
    x, y, xy, xx := 0.0, 0.0, 0.0, 0.0;
    ghost var ps := PointsOf(raw, weight);
    var i := 0;
    while i < |raw|
      invariant 0 <= i <= |raw|
      invariant x == Total(X(), ps[..i]) && y == Total(Y(), ps[..i])
      invariant xy == Total(XY(), ps[..i]) && xx == Total(XX(), ps[..i])
    {
      assert ps[..i + 1][..i] == ps[..i];
      var xi, yi := raw[i] as real, weight[i];
      x := x + xi;
      y := y + yi;
      xy := xy + xi * yi;
      xx := xx + xi * xi;
      i := i + 1;
    }
    assert ps[..i] == ps;
  }

  method Solve(n: real, x: real, y: real, xy: real, denom: real) returns (slope: real, intercept: real)
    requires n != 0.0 && denom != 0.0
    ensures Solves(n, x, y, xy, denom, slope, intercept) == true
  {
    slope := (n * xy - x * y) / denom;
    intercept := (y - slope * x) / n;
  }

  function Line(slope: real, intercept: real, raw: int): real { slope * (raw as real) + intercept }

  class Calibration {
    var slope: Float
    var intercept: Float

    // The multi-point fit.
    method ComputeMany(raw: seq<int>, weight: seq<real>) returns (status: int)
      requires |raw| == |weight|
      modifies this
      ensures status == if |raw| < 2 then -1 else if AllEqual(raw) then -2 else 0
      ensures status != 0 ==> slope == old(slope) && intercept == old(intercept)
      ensures status == 0 ==> slope.Num? && intercept.Num? && IsFit(PointsOf(raw, weight), slope.v, intercept.v) == true
      ensures status == 0 ==> forall s: real, i: real {:trigger Error(PointsOf(raw, weight), s, i)} ::
        Error(PointsOf(raw, weight), slope.v, intercept.v) <= Error(PointsOf(raw, weight), s, i)
    {
      if |raw| < 2 { return -1; }
      var x, y, xy, xx := Sums(raw, weight);
      NoFitExactlyWhenAllEqual(raw, weight);
      var n := |raw| as real;
      var denom := n * xx - x * x;
      if denom == 0.0 { return -2; }
      assert n == |PointsOf(raw, weight)| as real && denom == Spread(PointsOf(raw, weight));
      var s, i := Solve(n, x, y, xy, denom);
      slope, intercept := Num(s), Num(i);
      BestOfAll(PointsOf(raw, weight), s, i);
      status := 0;
    }

    // The line through the tare and one known weight. Equal readings divide by zero.
    method ComputeOne(zeroRaw: int, rawAtWeight: int, weight: real) returns (status: int)
      modifies this
      ensures status == if weight == 0.0 then -1 else 0
      ensures status != 0 ==> slope == old(slope) && intercept == old(intercept)
      ensures status == 0 && rawAtWeight != zeroRaw ==> slope.Num? && intercept.Num?
      ensures status == 0 && rawAtWeight != zeroRaw ==> Convert(zeroRaw) == Num(0.0) && Convert(rawAtWeight) == Num(weight)
      ensures status == 0 && rawAtWeight == zeroRaw ==> IsBroken(slope, intercept, zeroRaw, weight > 0.0)
    {
      if weight == 0.0 { return -1; }
      status := 0;
      var d := (rawAtWeight - zeroRaw) as real;
      slope := Div(Num(weight), Num(d));
      intercept := Mul(Neg(slope), Num(zeroRaw as real));
      if d != 0.0 {
        ThroughBoth(slope.v, d, zeroRaw as real, rawAtWeight as real, weight);
      }
    }

    function Convert(raw: int): Float
      reads this
    {
      Add(Mul(slope, Num(raw as real)), intercept)
    }
  }

  // A line of numbers converts to numbers.
  lemma LineConverts(s: real, i: real, raw: int)
    ensures Add(Mul(Num(s), Num(raw as real)), Num(i)) == Num(Line(s, i, raw))
  {
  }

  // What equal readings z leave behind: an infinite slope, and an intercept that is infinite or, for z == 0,
  // no number.
  predicate IsBroken(slope: Float, intercept: Float, z: int, positive: bool) {
    slope == Inf(positive) && intercept == if z == 0 then NaN else Inf(positive <==> z < 0)
  }

  // Such a line converts no reading to a number: readings on the other side of zero to an infinity, all
  // others to no number.
  lemma BrokenLineConverts(slope: Float, intercept: Float, z: int, positive: bool, raw: int)
    requires IsBroken(slope, intercept, z, positive)
    ensures Add(Mul(slope, Num(raw as real)), intercept)
         == if z < 0 < raw then Inf(positive) else if raw < 0 < z then Inf(!positive) else NaN
  {
    if raw == 0 {
      assert raw as real == 0.0;
    } else if raw > 0 {
      assert raw as real > 0.0;
    } else {
      assert raw as real < 0.0;
    }
  }

  lemma ThroughBoth(s: real, d: real, z: real, r: real, weight: real)
    requires d == r - z && s * d == weight
    ensures s * z + -s * z == 0.0 && s * r + -s * z == weight
  {
    assert s * d == s * r - s * z;
  }

  // Two points fix the line, so what ComputeOne promises determines slope and intercept.
  lemma TwoPointsFixTheLine(x: real, x': real, s: real, i: real, s': real, i': real)
    requires x != x' && s * x + i == s' * x + i' && s * x' + i == s' * x' + i'
    ensures s == s' && i == i'
  {
    var a, b := s - s', i - i';
    assert a * x + b == 0.0 && a * x' + b == 0.0;
    if a != 0.0 || b != 0.0 {
      NotBothZero(x, x', a, b);
    }
  }
}
