// The MD4 compression function: section 3.4 of RFC 1320 as three rounds of 16 tabulated
// operations, and the unrolled form of mdfour64 with its words kept in A, B, C, D.
module Md4Block {
  // A uint32 that is only combined bit by bit or added modulo 2^32.
  datatype W = W(bits: bv32)
  datatype Chain = Chain(a: W, b: W, c: W, d: W)

  function F(x: W, y: W, z: W): W { W((x.bits & y.bits) | (!x.bits & z.bits)) }

  function G(x: W, y: W, z: W): W { W((x.bits & y.bits) | (x.bits & z.bits) | (y.bits & z.bits)) }

  function H(x: W, y: W, z: W): W { W(x.bits ^ y.bits ^ z.bits) }

  // What they compute, bit by bit: F takes y where x is set and z elsewhere, G the bit that at least two of
  // the three have, H the bits of all three and of one alone.
  lemma FSelects(x: W, y: W, z: W)
    ensures F(x, y, z).bits & x.bits == y.bits & x.bits && F(x, y, z).bits & !x.bits == z.bits & !x.bits
  {
  }

  lemma GIsMajority(x: W, y: W, z: W)
    ensures G(x, y, z) == G(y, x, z) == G(x, z, y) == G(z, y, x) && G(x, x, z) == x
  {
    FirstTwo(x, y, z);
    LastTwo(x, y, z);
    LastTwo(y, x, z);
    FirstTwo(y, z, x);
    TwiceTheSame(x, z);
  }

  lemma FirstTwo(x: W, y: W, z: W)
    ensures G(x, y, z) == G(y, x, z)
  {
    assert G(x, y, z).bits == G(y, x, z).bits;
  }

  lemma LastTwo(x: W, y: W, z: W)
    ensures G(x, y, z) == G(x, z, y)
  {
    assert G(x, y, z).bits == G(x, z, y).bits;
  }

  lemma TwiceTheSame(x: W, z: W)
    ensures G(x, x, z) == x
  {
    assert G(x, x, z).bits == x.bits;
  }

  lemma HIsParity(x: W, y: W, z: W)
    ensures H(x, y, z).bits == (x.bits & y.bits & z.bits) | (x.bits & !y.bits & !z.bits)
                             | (!x.bits & y.bits & !z.bits) | (!x.bits & !y.bits & z.bits)
  {
  }

  // Addition modulo 2^32, kept as a function so that equal sums are recognised by their arguments.
  function Add(x: W, y: W): W { W(x.bits + y.bits) }

  function Lshift(x: W, s: nat): W
    requires 0 < s < 32
  {
    W((x.bits << s) | (x.bits >> (32 - s)))
  }

  // The message word used by operation j of a round: in order, by columns, and as listed.
  function MessageIndex(round: nat, j: nat): (k: nat)
    requires j < 16
    ensures k < 16
  {
    if round == 1 then j
    else if round == 2 then j % 4 * 4 + j / 4
    else
      match j
      case 0 => 0 case 1 => 8 case 2 => 4 case 3 => 12
      case 4 => 2 case 5 => 10 case 6 => 6 case 7 => 14
      case 8 => 1 case 9 => 9 case 10 => 5 case 11 => 13
      case 12 => 3 case 13 => 11 case 14 => 7 case _ => 15
  }

  function Shift(round: nat, j: nat): (s: nat)
    ensures 0 < s < 32
  {
    match j % 4
    case 0 => 3
    case 1 => if round == 1 then 7 else if round == 2 then 5 else 9
    case 2 => if round == 2 then 9 else 11
    case _ => if round == 1 then 19 else if round == 2 then 13 else 15
  }

  // The sum rotated by an operation of the three rounds.
  function Sum(round: nat, s: Chain, m: W): W {
    if round == 1 then Add(Add(s.a, F(s.b, s.c, s.d)), m)
    else if round == 2 then Add(Add(Add(s.a, G(s.b, s.c, s.d)), m), W(0x5A827999))
    else Add(Add(Add(s.a, H(s.b, s.c, s.d)), m), W(0x6ED9EBA1))
  }

  // Operation j of a round on the words in the roles [abcd]; the next one has the roles [dabc].
  function Operation(round: nat, j: nat, s: Chain, x: seq<W>): Chain
    requires j < 16 && |x| == 16
  {
    Chain(s.d, Lshift(Sum(round, s, x[MessageIndex(round, j)]), Shift(round, j)), s.b, s.c)
  }

  // The first n operations of a round.
  function Round(round: nat, n: nat, s: Chain, x: seq<W>): Chain
    requires n <= 16 && |x| == 16
  {
    if n == 0 then s else Operation(round, n - 1, Round(round, n - 1, s, x), x)
  }

  // RFC 1320, section 3.4: process one 16-word block.
  function Compress(s: Chain, x: seq<W>): Chain
    requires |x| == 16
  {
    var n := |x|;
    var t := Round(3, n, Round(2, n, Round(1, n, s, x), x), x);
    Chain(Add(t.a, s.a), Add(t.b, s.b), Add(t.c, s.c), Add(t.d, s.d))
  }

  // The macros ROUND1, ROUND2 and ROUND3. The ghost arguments say which operation of the round
  // that starts from the chain s the statement performs.
  method Round1(ghost j: nat, ghost s: Chain, M: seq<W>,
                 a: W, b: W, c: W, d: W, k: nat, shift: nat) returns (a': W)
    requires j < 16 && |M| == 16 && k == MessageIndex(1, j) && shift == Shift(1, j)
    requires Chain(a, b, c, d) == Round(1, j, s, M)
    ensures Chain(d, a', b, c) == Round(1, j + 1, s, M)
  {
    a' := Lshift(Add(Add(a, F(b, c, d)), M[k]), shift);
  }

  method Round2(ghost j: nat, ghost s: Chain, M: seq<W>,
                 a: W, b: W, c: W, d: W, k: nat, shift: nat) returns (a': W)
    requires j < 16 && |M| == 16 && k == MessageIndex(2, j) && shift == Shift(2, j)
    requires Chain(a, b, c, d) == Round(2, j, s, M)
    ensures Chain(d, a', b, c) == Round(2, j + 1, s, M)
  {
    a' := Lshift(Add(Add(Add(a, G(b, c, d)), M[k]), W(0x5A827999)), shift);
  }

  method Round3(ghost j: nat, ghost s: Chain, M: seq<W>,
                 a: W, b: W, c: W, d: W, k: nat, shift: nat) returns (a': W)
    requires j < 16 && |M| == 16 && k == MessageIndex(3, j) && shift == Shift(3, j)
    requires Chain(a, b, c, d) == Round(3, j, s, M)
    ensures Chain(d, a', b, c) == Round(3, j + 1, s, M)
  {
    a' := Lshift(Add(Add(Add(a, H(b, c, d)), M[k]), W(0x6ED9EBA1)), shift);
  }

  method FirstRound(s: Chain, M: seq<W>) returns (A: W, B: W, C: W, D: W)
    requires |M| == 16
    ensures Chain(A, B, C, D) == Round(1, 16, s, M)
  {
    A, B, C, D := s.a, s.b, s.c, s.d;
    A := Round1(0, s, M, A, B, C, D, 0, 3);  D := Round1(1, s, M, D, A, B, C, 1, 7);
    C := Round1(2, s, M, C, D, A, B, 2, 11);  B := Round1(3, s, M, B, C, D, A, 3, 19);
    A := Round1(4, s, M, A, B, C, D, 4, 3);  D := Round1(5, s, M, D, A, B, C, 5, 7);
    C := Round1(6, s, M, C, D, A, B, 6, 11);  B := Round1(7, s, M, B, C, D, A, 7, 19);
    A := Round1(8, s, M, A, B, C, D, 8, 3);  D := Round1(9, s, M, D, A, B, C, 9, 7);
    C := Round1(10, s, M, C, D, A, B, 10, 11);  B := Round1(11, s, M, B, C, D, A, 11, 19);
    A := Round1(12, s, M, A, B, C, D, 12, 3);  D := Round1(13, s, M, D, A, B, C, 13, 7);
    C := Round1(14, s, M, C, D, A, B, 14, 11);  B := Round1(15, s, M, B, C, D, A, 15, 19);
  }

  method SecondRound(s: Chain, M: seq<W>) returns (A: W, B: W, C: W, D: W)
    requires |M| == 16
    ensures Chain(A, B, C, D) == Round(2, 16, s, M)
  {
    A, B, C, D := s.a, s.b, s.c, s.d;
    A := Round2(0, s, M, A, B, C, D, 0, 3);  D := Round2(1, s, M, D, A, B, C, 4, 5);
    C := Round2(2, s, M, C, D, A, B, 8, 9);  B := Round2(3, s, M, B, C, D, A, 12, 13);
    A := Round2(4, s, M, A, B, C, D, 1, 3);  D := Round2(5, s, M, D, A, B, C, 5, 5);
    C := Round2(6, s, M, C, D, A, B, 9, 9);  B := Round2(7, s, M, B, C, D, A, 13, 13);
    A := Round2(8, s, M, A, B, C, D, 2, 3);  D := Round2(9, s, M, D, A, B, C, 6, 5);
    C := Round2(10, s, M, C, D, A, B, 10, 9);  B := Round2(11, s, M, B, C, D, A, 14, 13);
    A := Round2(12, s, M, A, B, C, D, 3, 3);  D := Round2(13, s, M, D, A, B, C, 7, 5);
    C := Round2(14, s, M, C, D, A, B, 11, 9);  B := Round2(15, s, M, B, C, D, A, 15, 13);
  }

  method ThirdRound(s: Chain, M: seq<W>) returns (A: W, B: W, C: W, D: W)
    requires |M| == 16
    ensures Chain(A, B, C, D) == Round(3, 16, s, M)
  {
    A, B, C, D := s.a, s.b, s.c, s.d;
    A := Round3(0, s, M, A, B, C, D, 0, 3);  D := Round3(1, s, M, D, A, B, C, 8, 9);
    C := Round3(2, s, M, C, D, A, B, 4, 11);  B := Round3(3, s, M, B, C, D, A, 12, 15);
    A := Round3(4, s, M, A, B, C, D, 2, 3);  D := Round3(5, s, M, D, A, B, C, 10, 9);
    C := Round3(6, s, M, C, D, A, B, 6, 11);  B := Round3(7, s, M, B, C, D, A, 14, 15);
    A := Round3(8, s, M, A, B, C, D, 1, 3);  D := Round3(9, s, M, D, A, B, C, 9, 9);
    C := Round3(10, s, M, C, D, A, B, 5, 11);  B := Round3(11, s, M, B, C, D, A, 13, 15);
    A := Round3(12, s, M, A, B, C, D, 3, 3);  D := Round3(13, s, M, D, A, B, C, 11, 9);
    C := Round3(14, s, M, C, D, A, B, 7, 11);  B := Round3(15, s, M, B, C, D, A, 15, 15);
  }

  // mdfour64: the 48 statements on four variables are the 48 operations of the RFC.
  method Mdfour64(s: Chain, M: seq<W>) returns (s': Chain)
    requires |M| == 16
    ensures s' == Compress(s, M)
  {
    var A, B, C, D := FirstRound(s, M);
    A, B, C, D := SecondRound(Chain(A, B, C, D), M);
    A, B, C, D := ThirdRound(Chain(A, B, C, D), M);
    s' := Chain(Add(A, s.a), Add(B, s.b), Add(C, s.c), Add(D, s.d));
  }
}
