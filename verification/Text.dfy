// Numbers as text: numerals in a base, and what they determine.
module Text {
  import opened Common
  import opened Bytes

  function DigitChar(d: nat, caps: bool): (c: Byte)
    requires d < 16
  {
    if d < 10 then ('0' as int + d) as char
    else if caps then ('A' as int + d - 10) as char
    else ('a' as int + d - 10) as char
  }

  function DigitValue(c: char): (d: nat)
    ensures d < 16
  {
    if '0' <= c <= '9' then c as int - '0' as int
    else if 'a' <= c <= 'f' then c as int - 'a' as int + 10
    else if 'A' <= c <= 'F' then c as int - 'A' as int + 10
    else 0
  }

  // The numeral of n without leading zeros, most significant digit first.
  function Numeral(n: nat, base: nat, caps: bool): (t: seq<Byte>)
    requires 2 <= base <= 16
    ensures t != []
    decreases n
  {
    if n < base then [DigitChar(n, caps)]
    else Numeral(n / base, base, caps) + [DigitChar(n % base, caps)]
  }

  function Value(t: seq<char>, base: nat): nat {
    if t == [] then 0 else base * Value(t[..|t| - 1], base) + DigitValue(t[|t| - 1])
  }

  lemma {:induction false} ValueAppend(t: seq<char>, c: char, base: nat)
    ensures Value(t + [c], base) == base * Value(t, base) + DigitValue(c)
  {
    assert (t + [c])[..|t|] == t;
  }

  lemma DigitRoundTrip(d: nat, caps: bool)
    requires d < 16
    ensures DigitValue(DigitChar(d, caps)) == d
  {
  }

  lemma OneDigit(c: char, base: nat)
    ensures Value([c], base) == DigitValue(c)
  {
    assert base * Value([], base) == 0;
    assert [c][..0] == [];
  }

  lemma Euclid(n: nat, b: nat, q: nat, r: nat)
    requires b > 0 && q == n / b && r == n % b
    ensures n == b * q + r && r < b
  {
  }

  // A numeral denotes its number.
  lemma {:induction false} NumeralValue(n: nat, base: nat, caps: bool)
    requires 2 <= base <= 16
    ensures Value(Numeral(n, base, caps), base) == n
    decreases n
  {
    if n < base {
      DigitRoundTrip(n, caps);
      OneDigit(DigitChar(n, caps), base);
    } else {
      NumeralValue(n / base, base, caps);
      LastDigitValue(n, base, caps, n / base, n % base);
    }
  }

  lemma {:induction false} LastDigitValue(n: nat, base: nat, caps: bool, q: nat, r: nat)
    requires 2 <= base <= 16 && q == n / base && r == n % base
    requires Value(Numeral(q, base, caps), base) == q
    ensures Value(Numeral(q, base, caps) + [DigitChar(r, caps)], base) == n
  {
    Euclid(n, base, q, r);
    DigitRoundTrip(r, caps);
    ValueAppend(Numeral(q, base, caps), DigitChar(r, caps), base);
  }

  // A numeral has at most k digits exactly when the number is below base^k.
  lemma {:induction false} NumeralLength(n: nat, base: nat, caps: bool, k: nat)
    requires 2 <= base <= 16 && k >= 1
    ensures |Numeral(n, base, caps)| <= k <==> n < Power(base, k)
    decreases k
  {
    PowerStep(base, k);
    if n >= base {
      var q := OneDigitMore(n, base, caps);
      if k > 1 {
        NumeralLength(q, base, caps, k - 1);
        DivisionBound(n, base, Power(base, k - 1));
      }
    }
  }

  lemma {:induction false} OneDigitMore(n: nat, base: nat, caps: bool) returns (q: nat)
    requires 2 <= base <= 16 && n >= base
    ensures q == n / base && |Numeral(n, base, caps)| == |Numeral(q, base, caps)| + 1
    ensures 1 <= |Numeral(q, base, caps)|
  {
    q := n / base;
  }

  lemma PowerStep(base: nat, k: nat)
    requires base >= 2 && k >= 1
    ensures Power(base, k) == base * Power(base, k - 1) >= base
    ensures k == 1 ==> Power(base, k) == base
  {
    var p := Power(base, k - 1);
    assert base * p >= base * 1;
  }

  lemma {:induction false} DivisionBound(n: nat, b: nat, p: nat)
    requires b > 0
    ensures n / b < p <==> n < b * p
  {
    Euclid(n, b, n / b, n % b);
    Multiples(b, n / b, p);
    if n / b > p { Multiples(b, p, n / b); }
  }

  predicate AllDecimal(t: seq<char>) {
    forall i :: 0 <= i < |t| ==> '0' <= t[i] <= '9'
  }

  // "%u"
  function DecimalText(n: nat): (t: seq<Byte>)
    ensures t != []
  {
    Numeral(n, 10, false)
  }

  lemma {:induction false} DecimalDigits(n: nat)
    ensures AllDecimal(DecimalText(n))
  {
    if n >= 10 { DecimalDigits(n / 10); }
  }

  // A uint32 has at most ten digits.
  lemma {:induction false} CountDigits(n: Word)
    ensures |DecimalText(n)| <= 10
  {
    var ten: nat := 10;
    assert Power(ten, 1) == 10 && Power(ten, 2) == 10 * Power(ten, 1) && Power(ten, 3) == 10 * Power(ten, 2);
    assert Power(ten, 4) == 10 * Power(ten, 3) && Power(ten, 5) == 10 * Power(ten, 4) && Power(ten, 6) == 10 * Power(ten, 5);
    assert Power(ten, 7) == 10 * Power(ten, 6) && Power(ten, 8) == 10 * Power(ten, 7) && Power(ten, 9) == 10 * Power(ten, 8);
    assert Power(ten, 10) == 10 * Power(ten, 9);
    NumeralLength(n, 10, false, 10);
  }

  // "%02x"
  function HexByte(b: Byte): (h: seq<Byte>)
    ensures |h| == 2
  {
    [DigitChar(b as int / 16, false), DigitChar(b as int % 16, false)]
  }

  function HexText(d: seq<Byte>): (h: seq<Byte>)
    ensures |h| == 2 * |d|
  {
    if d == [] then [] else HexByte(d[0]) + HexText(d[1..])
  }

  lemma {:induction false} HexTextConcat(a: seq<Byte>, b: seq<Byte>)
    ensures HexText(a + b) == HexText(a) + HexText(b)
  {
    if a == [] {
      assert a + b == b;
    } else {
      assert (a + b)[1..] == a[1..] + b;
      HexTextConcat(a[1..], b);
    }
  }

  lemma {:induction false} HexTextOfOne(b: Byte)
    ensures HexText([b]) == HexByte(b)
  {
    assert HexText([b]) == HexByte(b) + HexText([b][1..]);
  }

  lemma {:induction false} HexTextInjective(a: seq<Byte>, b: seq<Byte>)
    requires HexText(a) == HexText(b)
    ensures a == b
  {
    assert |a| == |b|;
    if a != [] {
      var x, y := a[0] as int, b[0] as int;
      assert HexText(a)[..2] == HexByte(a[0]) && HexText(b)[..2] == HexByte(b[0]);
      assert HexText(a)[2..] == HexText(a[1..]) && HexText(b)[2..] == HexText(b[1..]);
      assert HexByte(a[0])[0] == HexByte(b[0])[0] && HexByte(a[0])[1] == HexByte(b[0])[1];
      assert x / 16 == y / 16 && x % 16 == y % 16;
      HexTextInjective(a[1..], b[1..]);
      assert a == [a[0]] + a[1..] && b == [b[0]] + b[1..];
    }
  }
}
