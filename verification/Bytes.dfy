// Bytes, 32-bit words and little-endian encodings shared by the compiler-cache modules.
module Bytes {
  import opened Common

  // An unsigned char. Characters are used so that program text can be written as string literals.
  type Byte = c: char | (c as int) < 256 witness '\0'

  // A uint32 / unsigned int; every wrap-around is written out with Wrap.
  const WORD_MOD: int := 0x1_0000_0000
  type Word = w: int | 0 <= w < 0x1_0000_0000

  function Wrap(n: nat): (w: Word) { n % 0x1_0000_0000 }

  lemma WrapAdd(a: nat, b: nat)
    ensures Wrap(Wrap(a) + b) == Wrap(a + b)
  {
  }

  lemma WrapTimes8(a: nat)
    ensures Wrap(8 * Wrap(a)) == Wrap(8 * a)
  {
  }

  // The word stored least significant byte first in four bytes.
  function LittleEndianWord(b: seq<Byte>): Word
    requires |b| == 4
  {
    b[0] as int + 0x100 * (b[1] as int) + 0x1_0000 * (b[2] as int) + 0x100_0000 * (b[3] as int)
  }

  // The k least significant bytes of n, least significant byte first.
  function LittleEndianBytes(n: nat, k: nat): (b: seq<Byte>)
    ensures |b| == k
  {
    if k == 0 then [] else [(n % 256) as char] + LittleEndianBytes(n / 256, k - 1)
  }

  // The widths of a uint32 and of the length field of RFC 1320.
  const WORD_BYTES: nat := 4
  const LENGTH_BYTES: nat := 8

  // The bytes of a word one by one: x & 0xFF, (x >> 8) & 0xFF, (x >> 16) & 0xFF, (x >> 24) & 0xFF.
  lemma {:induction false} FourBytes(x: Word)
    ensures LittleEndianBytes(x, WORD_BYTES)
         == [(x % 256) as char, (x / 0x100 % 256) as char, (x / 0x1_0000 % 256) as char, (x / 0x100_0000 % 256) as char]
  {
    var x1, x2, x3 := x / 0x100, x / 0x1_0000, x / 0x100_0000;
    assert x1 / 256 == x2 && x2 / 256 == x3;
    assert LittleEndianBytes(x3, 1) == [(x3 % 256) as char] + LittleEndianBytes(x3 / 256, 0);
    assert LittleEndianBytes(x2, 2) == [(x2 % 256) as char] + LittleEndianBytes(x3, 1);
    assert LittleEndianBytes(x1, 3) == [(x1 % 256) as char] + LittleEndianBytes(x2, 2);
    assert LittleEndianBytes(x, 4) == [(x % 256) as char] + LittleEndianBytes(x1, 3);
  }

  lemma {:induction false} BytesOfWord(w: Word)
    ensures LittleEndianWord(LittleEndianBytes(w, WORD_BYTES)) == w
  {
    FourBytes(w);
    var w1, w2, w3 := w / 0x100, w / 0x1_0000, w / 0x100_0000;
    assert w == w % 256 + 256 * w1;
    assert w1 == w1 % 256 + 256 * w2 && w2 == w2 % 256 + 256 * w3 && w3 % 256 == w3;
  }

  // n with its j least significant bytes dropped.
  function Shifted(n: nat, j: nat): nat {
    if j == 0 then n else Shifted(n / 256, j - 1)
  }

  lemma {:induction false} SplitBytes(n: nat, j: nat, k: nat)
    ensures LittleEndianBytes(n, j + k) == LittleEndianBytes(n, j) + LittleEndianBytes(Shifted(n, j), k)
  {
    if j > 0 {
      SplitBytes(n / 256, j - 1, k);
    }
  }

  // Taking the remainder by 256 * p only cuts the quotient by 256.
  lemma {:induction false} RemainderOfProduct(n: nat, p: nat)
    requires p > 0
    ensures n % (256 * p) % 256 == n % 256
    ensures n % (256 * p) / 256 == n / 256 % p
    ensures n / (256 * p) == n / 256 / p
  {
    var h, r := n / 256, n % 256;
    var q, t := h / p, h % p;
    assert h == p * q + t;
    assert n == 256 * (p * q) + (256 * t + r);
    assert 256 * (p * q) == (256 * p) * q;
    assert 0 <= 256 * t + r < 256 * p;
    DivisionIsUnique(n, 256 * p, q, 256 * t + r);
  }

  // The k-byte encoding only sees the number modulo 256^k.
  lemma {:induction false} TruncatedBytes(n: nat, k: nat)
    ensures LittleEndianBytes(n % Power(256, k), k) == LittleEndianBytes(n, k)
    ensures Shifted(n, k) == n / Power(256, k)
  {
    if k > 0 {
      RemainderOfProduct(n, Power(256, k - 1));
      TruncatedBytes(n / 256, k - 1);
    }
  }

  lemma {:induction false} EightBytesSplit(n: nat)
    ensures LittleEndianBytes(n, LENGTH_BYTES)
         == LittleEndianBytes(Wrap(n), WORD_BYTES) + LittleEndianBytes(n / WORD_MOD, WORD_BYTES)
  {
    FourByteModulus();
    SplitBytes(n, WORD_BYTES, WORD_BYTES);
    TruncatedBytes(n, WORD_BYTES);
  }

  lemma {:induction false} FourByteModulus()
    ensures Power(256, WORD_BYTES) == WORD_MOD
  {
    assert Power(256, 4) == 256 * Power(256, 3) == 0x1_0000 * Power(256, 2);
  }

  // k zero bytes encode exactly the multiples of 256^k.
  lemma {:induction false} ZeroBytes(n: nat, k: nat)
    ensures LittleEndianBytes(n, k) == Zeros(k) <==> n % Power(256, k) == 0
  {
    if k > 0 {
      var p := Power(256, k - 1);
      RemainderOfProduct(n, p);
      ZeroBytes(n / 256, k - 1);
      assert n % (256 * p) == 256 * (n / 256 % p) + n % 256;
      var b := LittleEndianBytes(n, k);
      assert b == [b[0]] + LittleEndianBytes(n / 256, k - 1);
      assert Zeros(k) == ['\0'] + Zeros(k - 1);
      assert b == Zeros(k) <==> b[0] == '\0' && b[1..] == Zeros(k)[1..];
    }
  }

  function Zeros(k: nat): (z: seq<Byte>)
    ensures |z| == k
  {
    seq(k, _ => '\0')
  }
}
