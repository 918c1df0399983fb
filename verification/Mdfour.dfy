// Incremental MD4: the streaming form with a 64-byte tail buffer, and the one-shot definition of
// sections 3.1 to 3.5 of RFC 1320 that it refines.
module Mdfour {
  import opened Common
  import opened Bytes
  import opened Md4Block

  // ----- blocks ------------------------------------------------------------------------------

  // The sixteen words of a 64-byte block.
  function Words(block: seq<Byte>): (x: seq<W>)
    requires |block| == 64
    ensures |x| == 16
  {
    seq(16, i requires 0 <= i < 16 => W(LittleEndianWord(block[4 * i..4 * i + 4]) as bv32))
  }

  // A function of the chain and a 64-byte block. Everything about buffering and padding holds for
  // any such function; MD4 uses the one below.
  type Compression = (Chain, seq<Byte>) -> Chain

  function Md4(s: Chain, block: seq<Byte>): Chain {
    if |block| == 64 then Compress(s, Words(block)) else s
  }

  // f agrees with MD4 on all blocks. The trigger makes the definition available only where Md4 is
  // named.
  ghost predicate ComputesMd4(f: Compression) {
    forall s, block {:trigger Md4(s, block)} :: |block| == 64 ==> f(s, block) == Md4(s, block)
  }

  // RFC 1320, section 3.4: all blocks of a message in order.
  function Blocks(f: Compression, s: Chain, data: seq<Byte>): Chain
    decreases |data|
  {
    if |data| < 64 then s else Blocks(f, f(s, data[..64]), data[64..])
  }

  lemma {:induction false} BlocksConcat(f: Compression, s: Chain, a: seq<Byte>, b: seq<Byte>)
    requires |a| % 64 == 0
    ensures Blocks(f, s, a + b) == Blocks(f, Blocks(f, s, a), b)
    decreases |a|
  {
    if a == [] {
      assert a + b == b;
    } else {
      assert (a + b)[..64] == a[..64] && (a + b)[64..] == a[64..] + b;
      BlocksConcat(f, f(s, a[..64]), a[64..], b);
    }
  }

  lemma {:induction false} SameBlocks(f: Compression, s: Chain, data: seq<Byte>)
    requires ComputesMd4(f)
    ensures Blocks(f, s, data) == Blocks(Md4, s, data)
    decreases |data|
  {
    if |data| >= 64 {
      assert f(s, data[..64]) == Md4(s, data[..64]);
      SameBlocks(f, f(s, data[..64]), data[64..]);
    }
  }

  // ----- the one-shot definition ---------------------------------------------------------------

  const INITIAL := Chain(W(0x67452301), W(0xefcdab89), W(0x98badcfe), W(0x10325476))

  // Section 3.1: the zero bytes after the one bit that make the length congruent to 448 bits
  // modulo 512.
  function ZeroCount(n: nat): (z: nat)
    ensures z < 64 && (n + 1 + z) % 64 == 56
  {
    var t := n % 64;
    if t <= 55 then 55 - t else 119 - t
  }

  // Sections 3.1 and 3.2: padding bits, then the bit length modulo 2^64, low-order word first.
  function RfcPadded(m: seq<Byte>): (p: seq<Byte>)
    ensures |p| % 64 == 0
  {
    m + ['\U{80}'] + Zeros(ZeroCount(|m|)) + LittleEndianBytes(8 * |m|, LENGTH_BYTES)
  }

  // Section 3.5: the four words of the chain, low-order byte first.
  function Value(w: W): Word { w.bits as int }

  function Output(s: Chain): (d: seq<Byte>)
    ensures |d| == 16
  {
    OutputWords(Value(s.a), Value(s.b), Value(s.c), Value(s.d))
  }

  function OutputWords(a: Word, b: Word, c: Word, d: Word): (o: seq<Byte>)
    ensures |o| == 16
  {
    LittleEndianBytes(a, WORD_BYTES) + LittleEndianBytes(b, WORD_BYTES)
    + LittleEndianBytes(c, WORD_BYTES) + LittleEndianBytes(d, WORD_BYTES)
  }

  lemma SameBits(v: W, w: W)
    requires Value(v) == Value(w)
    ensures v == w
  {
    assert (v.bits as int) as bv32 == v.bits;
  }

  lemma {:induction false} SameBytes(v: Word, w: Word)
    requires LittleEndianBytes(v, WORD_BYTES) == LittleEndianBytes(w, WORD_BYTES)
    ensures v == w
  {
    BytesOfWord(v);
    BytesOfWord(w);
  }

  lemma {:induction false} OutputTellsWords(a: Word, b: Word, c: Word, d: Word, a': Word, b': Word, c': Word, d': Word)
    requires OutputWords(a, b, c, d) == OutputWords(a', b', c', d')
    ensures a == a' && b == b' && c == c' && d == d'
  {
    var o, o' := OutputWords(a, b, c, d), OutputWords(a', b', c', d');
    assert o[..4] == LittleEndianBytes(a, WORD_BYTES) && o'[..4] == LittleEndianBytes(a', WORD_BYTES);
    assert o[4..8] == LittleEndianBytes(b, WORD_BYTES) && o'[4..8] == LittleEndianBytes(b', WORD_BYTES);
    assert o[8..12] == LittleEndianBytes(c, WORD_BYTES) && o'[8..12] == LittleEndianBytes(c', WORD_BYTES);
    assert o[12..] == LittleEndianBytes(d, WORD_BYTES) && o'[12..] == LittleEndianBytes(d', WORD_BYTES);
    SameBytes(a, a');
    SameBytes(b, b');
    SameBytes(c, c');
    SameBytes(d, d');
  }

  // The output tells chains apart.
  lemma {:induction false} OutputIsFaithful(s: Chain, t: Chain)
    ensures Output(s) == Output(t) <==> s == t
  {
    if Output(s) == Output(t) {
      OutputTellsWords(Value(s.a), Value(s.b), Value(s.c), Value(s.d), Value(t.a), Value(t.b), Value(t.c), Value(t.d));
      SameBits(s.a, t.a);
      SameBits(s.b, t.b);
      SameBits(s.c, t.c);
      SameBits(s.d, t.d);
    }
  }

  // Sections 3.3 and 3.4: the words A, B, C, D after the last block.
  function RfcChain(f: Compression, m: seq<Byte>): Chain {
    Blocks(f, INITIAL, RfcPadded(m))
  }

  // ----- the streaming form on values ------------------------------------------------------------

  // The contents of struct mdfour; the tail holds the bytes not yet compressed.
  datatype Md = Md(chain: Chain, totalN: Word, tail: seq<Byte>)

  predicate Valid(m: Md) { |m.tail| < 64 }

  const BEGIN := Md(INITIAL, 0, [])

  function WholeBlocks(n: nat): (k: nat)
    ensures k % 64 == 0 && k <= n < k + 64
  {
    n - n % 64
  }

  // Receiving data: all whole blocks of what is pending are compressed and counted.
  function Absorb(f: Compression, m: Md, data: seq<Byte>): (m': Md)
    requires Valid(m)
    ensures Valid(m')
  {
    var all := m.tail + data;
    var k := WholeBlocks(|all|);
    Md(Blocks(f, m.chain, all[..k]), Wrap(m.totalN + k), all[k..])
  }

  // The last one or two blocks of a message, whose bit length is written in 32 bits only.
  function LastBlocks(tail: seq<Byte>, bits: Word): (p: seq<Byte>)
    requires |tail| < 64
    ensures |p| == if |tail| <= 55 then 64 else 128
  {
    tail + ['\U{80}'] + Zeros(if |tail| <= 55 then 55 - |tail| else 119 - |tail|)
    + LittleEndianBytes(bits, WORD_BYTES) + Zeros(4)
  }

  // Finalising compresses the padded tail and counts it, but keeps the tail itself.
  function Finish(f: Compression, m: Md): (m': Md)
    requires Valid(m)
    ensures Valid(m')
  {
    var n := Wrap(m.totalN + |m.tail|);
    Md(Blocks(f, m.chain, LastBlocks(m.tail, Wrap(8 * n))), n, m.tail)
  }

  function AbsorbAll(f: Compression, m: Md, chunks: seq<seq<Byte>>): (m': Md)
    requires Valid(m)
    ensures Valid(m')
    decreases |chunks|
  {
    if chunks == [] then m else AbsorbAll(f, Absorb(f, m, chunks[0]), chunks[1..])
  }

  function Joined(chunks: seq<seq<Byte>>): seq<Byte> {
    if chunks == [] then [] else chunks[0] + Joined(chunks[1..])
  }

  // ----- chunking does not matter ---------------------------------------------------------------

  lemma {:induction false} AbsorbNothing(f: Compression, m: Md)
    requires Valid(m)
    ensures Absorb(f, m, []) == m
  {
    assert m.tail + [] == m.tail;
    assert m.tail[0..] == m.tail;
  }

  lemma WholeBlocksAdd(n: nat, m: nat)
    ensures WholeBlocks(n + m) == WholeBlocks(n) + WholeBlocks(n % 64 + m)
  {
  }

  lemma {:induction false} AbsorbConcat(f: Compression, m: Md, a: seq<Byte>, b: seq<Byte>)
    requires Valid(m)
    ensures Absorb(f, Absorb(f, m, a), b) == Absorb(f, m, a + b)
  {
    var all := m.tail + a;
    AbsorbMore(f, m.chain, m.totalN, all, WholeBlocks(|all|), b);
    assert m.tail + (a + b) == all + b;
  }

  // Data behind bytes of which the whole blocks have been compressed.
  lemma {:induction false} AbsorbMore(f: Compression, s: Chain, n: nat, all: seq<Byte>, k: nat, b: seq<Byte>)
    requires k == WholeBlocks(|all|)
    ensures var j := WholeBlocks(|all + b|);
      Absorb(f, Md(Blocks(f, s, all[..k]), Wrap(n + k), all[k..]), b)
      == Md(Blocks(f, s, (all + b)[..j]), Wrap(n + j), (all + b)[j..])
  {
    var rest := all[k..];
    var k1 := WholeBlocks(|rest + b|);
    assert |rest| == |all| % 64;
    WholeBlocksAdd(|all|, |b|);
    assert WholeBlocks(|all + b|) == k + k1;
    WrapAdd(n + k, k1);
    AppendedBlocks(f, s, all, k, b, k1);
  }

  lemma {:induction false} AppendedBlocks(f: Compression, s: Chain, all: seq<Byte>, k: nat, b: seq<Byte>, k1: nat)
    requires k <= |all| && k % 64 == 0 && k1 <= |all| - k + |b|
    ensures Blocks(f, Blocks(f, s, all[..k]), (all[k..] + b)[..k1]) == Blocks(f, s, (all + b)[..k + k1])
    ensures (all[k..] + b)[k1..] == (all + b)[k + k1..]
  {
    var rest := all[k..] + b;
    assert all + b == all[..k] + rest;
    assert (all + b)[..k + k1] == all[..k] + rest[..k1];
    BlocksConcat(f, s, all[..k], rest[..k1]);
  }

  // m' is what the data makes of m.
  ghost predicate Absorbed(f: Compression, m: Md, data: seq<Byte>, m': Md) {
    forall k {:trigger Look(k)} :: Look(k) ==> Valid(m) && m' == Absorb(f, m, data)
  }

  lemma {:induction false} AbsorbedInTurn(f: Compression, m: Md, a: seq<Byte>, m1: Md, b: seq<Byte>, m2: Md, data: seq<Byte>)
    requires Absorbed(f, m, a, m1) == true && Absorbed(f, m1, b, m2) == true && data == a + b
    ensures Absorbed(f, m, data, m2) == true
  {
    assert Look(0);
    AbsorbConcat(f, m, a, b);
  }

  // Absorbing a message piece by piece is absorbing it at once, for every way of splitting it.
  lemma {:induction false} ChunkingIsInvisible(f: Compression, m: Md, chunks: seq<seq<Byte>>)
    requires Valid(m)
    ensures AbsorbAll(f, m, chunks) == Absorb(f, m, Joined(chunks))
    decreases |chunks|
  {
    if chunks == [] {
      AbsorbNothing(f, m);
    } else {
      ChunkingIsInvisible(f, Absorb(f, m, chunks[0]), chunks[1..]);
      AbsorbConcat(f, m, chunks[0], Joined(chunks[1..]));
    }
  }

  // ----- the streaming form refines the one-shot definition -----------------------------------------

  function TailOf(m: seq<Byte>): (t: seq<Byte>)
    ensures |t| < 64
  {
    m[WholeBlocks(|m|)..]
  }

  // A message whose length field holds the given number of bits.
  function PaddedWith(m: seq<Byte>, bits: Word): (p: seq<Byte>)
    ensures |p| % 64 == 0
  {
    m[..WholeBlocks(|m|)] + LastBlocks(TailOf(m), bits)
  }

  // All bytes compressed by the code for the message m.
  function CodePadded(m: seq<Byte>): (p: seq<Byte>)
    ensures |p| % 64 == 0
  {
    PaddedWith(m, Wrap(8 * |m|))
  }

  // Data absorbed on top of a tail t after n counted bytes, and then finished.
  lemma {:induction false} FinishedStream(f: Compression, s: Chain, n: nat, t: seq<Byte>, data: seq<Byte>)
    requires |t| < 64
    ensures var all := t + data;
      Finish(f, Absorb(f, Md(s, Wrap(n), t), data))
      == Md(Blocks(f, s, PaddedWith(all, Wrap(8 * (n + |all|)))), Wrap(n + |all|), TailOf(all))
  {
    var all := t + data;
    var k := WholeBlocks(|all|);
    WrapAdd(n, k);
    FinishedTail(f, Blocks(f, s, all[..k]), n + k, all[k..]);
    BlocksConcat(f, s, all[..k], LastBlocks(all[k..], Wrap(8 * (n + |all|))));
  }

  lemma {:induction false} FinishedTail(f: Compression, s: Chain, n: nat, t: seq<Byte>)
    requires |t| < 64
    ensures Finish(f, Md(s, Wrap(n), t)) == Md(Blocks(f, s, LastBlocks(t, Wrap(8 * (n + |t|)))), Wrap(n + |t|), t)
  {
    WrapAdd(n, |t|);
    WrapTimes8(n + |t|);
  }

  // The padding written by the code is the padding of the RFC exactly when the length fits.
  lemma {:induction false} PaddingAgrees(m: seq<Byte>)
    ensures CodePadded(m) == RfcPadded(m) <==> |m| % 0x2000_0000_0000_0000 < 0x2000_0000
  {
    var high := LittleEndianBytes(8 * |m| / WORD_MOD, WORD_BYTES);
    var front, zeros := RfcFront(m), Zeros(WORD_BYTES);
    RfcPaddedParts(m, high);
    CodePaddedParts(m);
    PrefixCancels(front, zeros, high);
    HighBytesAreZero(|m|);
  }

  lemma {:induction false} HighBytesAreZero(n: nat)
    ensures Zeros(WORD_BYTES) == LittleEndianBytes(8 * n / WORD_MOD, WORD_BYTES) <==> n % 0x2000_0000_0000_0000 < 0x2000_0000
  {
    ZeroBytes(8 * n / WORD_MOD, WORD_BYTES);
    FourByteModulus();
    HighWordIsZero(n);
  }

  lemma {:induction false} RfcPaddedParts(m: seq<Byte>, high: seq<Byte>)
    requires high == LittleEndianBytes(8 * |m| / WORD_MOD, WORD_BYTES)
    ensures RfcPadded(m) == RfcFront(m) + high
  {
    EightBytesSplit(8 * |m|);
  }

  // Everything but the high-order word of the length.
  function RfcFront(m: seq<Byte>): seq<Byte> {
    m + ['\U{80}'] + Zeros(ZeroCount(|m|)) + LittleEndianBytes(Wrap(8 * |m|), WORD_BYTES)
  }

  lemma {:induction false} PaddingParts(m: seq<Byte>, bits: Word)
    ensures PaddedWith(m, bits)
         == m + ['\U{80}'] + Zeros(ZeroCount(|m|)) + LittleEndianBytes(bits, WORD_BYTES) + Zeros(WORD_BYTES)
  {
    var t := TailOf(m);
    assert m == m[..WholeBlocks(|m|)] + t && |t| == |m| % 64;
    assert LastBlocks(t, bits)
        == t + ['\U{80}'] + Zeros(ZeroCount(|m|)) + LittleEndianBytes(bits, WORD_BYTES) + Zeros(WORD_BYTES);
  }

  lemma {:induction false} CodePaddedParts(m: seq<Byte>)
    ensures CodePadded(m) == RfcFront(m) + Zeros(WORD_BYTES)
  {
    PaddingParts(m, Wrap(8 * |m|));
  }

  lemma HighWordIsZero(n: nat)
    ensures 8 * n / 0x1_0000_0000 % 0x1_0000_0000 == 0 <==> n % 0x2000_0000_0000_0000 < 0x2000_0000
  {
    assert 8 * n / 0x1_0000_0000 == n / 0x2000_0000;
  }

  lemma SmallLength(n: nat)
    requires n < 0x2000_0000
    ensures n % 0x2000_0000_0000_0000 < 0x2000_0000
  {
  }

  lemma {:induction false} PrefixCancels(a: seq<Byte>, b: seq<Byte>, c: seq<Byte>)
    ensures a + b == a + c <==> b == c
  {
    assert (a + b)[|a|..] == b && (a + c)[|a|..] == c;
  }

  lemma {:induction false} LastBlockLast(f: Compression, s: Chain, p: seq<Byte>)
    requires p != [] && |p| % 64 == 0
    ensures Blocks(f, s, p) == f(Blocks(f, s, p[..|p| - 64]), p[|p| - 64..])
  {
    var front, last := p[..|p| - 64], p[|p| - 64..];
    assert p == front + last;
    BlocksConcat(f, s, front, last);
    OneBlock(f, Blocks(f, s, front), last);
  }

  lemma {:induction false} LastBlocksDiffer(front: seq<Byte>, a: seq<Byte>, b: seq<Byte>)
    requires |a| == |b| == 4 && |front| >= 60 && a != b
    ensures var n := |front| + 4; (front + a)[n - 64..] != (front + b)[n - 64..]
  {
    var n := |front| + 4;
    assert (front + a)[n - 64..] == front[n - 64..] + a;
    assert (front + b)[n - 64..] == front[n - 64..] + b;
    PrefixCancels(front[n - 64..], a, b);
  }

  // The compression that tells one block from all others.
  function Telling(block: seq<Byte>): Compression {
    (s: Chain, b: seq<Byte>) => if b == block then INITIAL else Chain(W(0), W(0), W(0), W(0))
  }

  lemma {:induction false} TellsPaddings(m: seq<Byte>)
    requires CodePadded(m) != RfcPadded(m)
    ensures exists f: Compression :: Blocks(f, INITIAL, CodePadded(m)) != RfcChain(f, m)
  {
    var front, high := RfcFront(m), LittleEndianBytes(8 * |m| / WORD_MOD, WORD_BYTES);
    var p, q := RfcPadded(m), CodePadded(m);
    var n := |front| + 4;
    RfcPaddedParts(m, high);
    CodePaddedParts(m);
    LastBlocksDiffer(front, Zeros(WORD_BYTES), high);
    var f := Telling(p[n - 64..]);
    LastBlockLast(f, INITIAL, p);
    LastBlockLast(f, INITIAL, q);
    assert Blocks(f, INITIAL, q) != RfcChain(f, m);
  }

  // What the code computes is the chain of the RFC, for every compression function, exactly when the
  // length fits.
  lemma {:induction false} ChainAgrees(m: seq<Byte>)
    ensures (forall f: Compression :: Blocks(f, INITIAL, CodePadded(m)) == RfcChain(f, m))
       <==> |m| % 0x2000_0000_0000_0000 < 0x2000_0000
  {
    PaddingAgrees(m);
    if CodePadded(m) != RfcPadded(m) {
      TellsPaddings(m);
    }
  }

  lemma {:induction false} FinishedMessage(f: Compression, m: seq<Byte>)
    ensures Finish(f, Absorb(f, BEGIN, m)) == Md(Blocks(f, INITIAL, CodePadded(m)), Wrap(|m|), TailOf(m))
  {
    FinishedStream(f, INITIAL, 0, [], m);
    assert [] + m == m;
  }

  lemma {:induction false} ShortPadding(m: seq<Byte>)
    requires |m| < 0x2000_0000
    ensures CodePadded(m) == RfcPadded(m)
  {
    SmallLength(|m|);
    PaddingAgrees(m);
  }

  lemma {:induction false} OneShotIsRfc1320(f: Compression, m: seq<Byte>)
    requires |m| < 0x2000_0000
    ensures Finish(f, Absorb(f, BEGIN, m)).chain == RfcChain(f, m)
  {
    FinishedMessage(f, m);
    ShortPadding(m);
  }

  // For every message below 2^29 bytes and every way of splitting it, the streamed chain is the
  // chain of the RFC.
  lemma {:induction false} StreamingIsRfc1320(f: Compression, chunks: seq<seq<Byte>>)
    requires |Joined(chunks)| < 0x2000_0000
    ensures Finish(f, AbsorbAll(f, BEGIN, chunks)).chain == RfcChain(f, Joined(chunks))
  {
    ChunkingIsInvisible(f, BEGIN, chunks);
    OneShotIsRfc1320(f, Joined(chunks));
  }

  // What is left of two messages when the first one was finished in mid-stream: its tail is
  // compressed once padded and once more as data in front of the second message, and it is
  // counted twice.
  function FinishedTwice(f: Compression, m1: seq<Byte>, m2: seq<Byte>): Md {
    var again := TailOf(m1) + m2;
    Md(Blocks(f, INITIAL, CompressedTwice(m1, m2)), Wrap(|m1| + |again|), TailOf(again))
  }

  function CompressedTwice(m1: seq<Byte>, m2: seq<Byte>): seq<Byte> {
    var again := TailOf(m1) + m2;
    CodePadded(m1) + PaddedWith(again, Wrap(8 * (|m1| + |again|)))
  }

  lemma {:induction false} MidStreamFinish(f: Compression, c1: seq<seq<Byte>>, c2: seq<seq<Byte>>)
    ensures Finish(f, AbsorbAll(f, Finish(f, AbsorbAll(f, BEGIN, c1)), c2)) == FinishedTwice(f, Joined(c1), Joined(c2))
  {
    ChunkingIsInvisible(f, BEGIN, c1);
    ChunkingIsInvisible(f, Finish(f, Absorb(f, BEGIN, Joined(c1))), c2);
    FinishedAgain(f, Joined(c1), Joined(c2));
  }

  lemma {:induction false} FinishedAgain(f: Compression, m1: seq<Byte>, m2: seq<Byte>)
    ensures Finish(f, Absorb(f, Finish(f, Absorb(f, BEGIN, m1)), m2)) == FinishedTwice(f, m1, m2)
  {
    var first, s := CodePadded(m1), Blocks(f, INITIAL, CodePadded(m1));
    var again := TailOf(m1) + m2;
    var second := PaddedWith(again, Wrap(8 * (|m1| + |again|)));
    FinishedMessage(f, m1);
    assert Finish(f, Absorb(f, BEGIN, m1)) == Md(s, Wrap(|m1|), TailOf(m1));
    FinishedStream(f, s, |m1|, TailOf(m1), m2);
    BlocksConcat(f, INITIAL, first, second);
  }

  // ----- the code --------------------------------------------------------------------------------

  // One word of a block, least significant byte first.
  method CopyWord(input: seq<Byte>, i: nat, ghost words: seq<W>) returns (w: W)
    requires |input| == 64 && i < 16 && words == Words(input)
    ensures w == words[i]
  {
    w := W(LittleEndianWord(input[4 * i..4 * i + 4]) as bv32);
  }

  method Copy64(M: array<W>, input: seq<Byte>)
    requires M.Length == 16 && |input| == 64
    modifies M
    ensures M[..] == Words(input)
  {
    ghost var words := Words(input);
    for i := 0 to 16
      invariant M[..i] == words[..i]
    {
      M[i] := CopyWord(input, i, words);
    }
    assert words[..16] == words;
  }

  // The four bytes of x written at out[at..at+4].
  method Copy4(out: array<Byte>, at: nat, x: Word)
    requires at + 4 <= out.Length
    modifies out
    ensures out[..] == old(out[..at]) + LittleEndianBytes(x, WORD_BYTES) + old(out[at + 4..])
  {
    FourBytes(x);
    out[at] := (x % 256) as char;
    out[at + 1] := (x / 0x100 % 256) as char;
    out[at + 2] := (x / 0x1_0000 % 256) as char;
    out[at + 3] := (x / 0x100_0000 % 256) as char;
    assert out[at..at + 4] == LittleEndianBytes(x, WORD_BYTES);
    assert out[..] == out[..at] + out[at..at + 4] + out[at + 4..];
  }

  // The bytes copied over dst[at..].
  function Overlay(dst: seq<Byte>, at: nat, src: seq<Byte>): seq<Byte>
    requires at + |src| <= |dst|
  {
    dst[..at] + src + dst[at + |src|..]
  }

  method Memcpy(dst: array<Byte>, at: nat, src: seq<Byte>)
    requires at + |src| <= dst.Length
    modifies dst
    ensures dst[..] == Overlay(old(dst[..]), at, src)
  {
    ghost var first := dst[..];
    for i := 0 to |src|
      invariant dst[..] == Overlay(first, at, src[..i])
    {
      ghost var before := dst[..];
      dst[at + i] := src[i];
      assert dst[..] == before[at + i := src[i]];
      OverlayMore(first, at, src, i);
    }
    assert src[..|src|] == src;
  }

  lemma OverlayMore(dst: seq<Byte>, at: nat, src: seq<Byte>, i: nat)
    requires at + |src| <= |dst| && i < |src|
    ensures Overlay(dst, at, src[..i])[at + i := src[i]] == Overlay(dst, at, src[..i + 1])
  {
    assert src[..i + 1] == src[..i] + [src[i]];
  }

  // The buffer of mdfour_tail: 128 zero bytes overwritten by the data, the mark and the bit count.
  method PadBuffer(input: seq<Byte>, bits: Word) returns (buf: array<Byte>)
    requires |input| < 64
    ensures fresh(buf) && buf.Length == 128
    ensures buf[..|LastBlocks(input, bits)|] == LastBlocks(input, bits)
  {
    var n := |input|;
    buf := new Byte[128](_ => '\0');
    Memcpy(buf, 0, input);
    buf[n] := '\U{80}';
    assert buf[..] == input + ['\U{80}'] + Zeros(127 - n);
    var at := if n <= 55 then 56 else 120;
    Copy4(buf, at, bits);
    PaddedParts(input, bits, at);
  }

  lemma {:induction false} PaddedParts(input: seq<Byte>, bits: Word, at: nat)
    requires |input| < 64 && at == if |input| <= 55 then 56 else 120
    ensures var z := input + ['\U{80}'] + Zeros(127 - |input|);
      (z[..at] + LittleEndianBytes(bits, WORD_BYTES) + z[at + 4..])[..at + 8] == LastBlocks(input, bits)
  {
    var z := input + ['\U{80}'] + Zeros(127 - |input|);
    assert z[..at] == input + ['\U{80}'] + Zeros(at - 1 - |input|);
    assert z[at + 4..at + 8] == Zeros(4);
  }

  // struct mdfour and the functions that update it in place.
  class MdState {
    // The function computed by Mdfour64.
    ghost const f: Compression
    var chain: Chain
    var totalN: Word
    const tail: array<Byte>
    var tailLen: nat

    ghost predicate Valid()
      reads this
    {
      ComputesMd4(f) && tail.Length == 64 && tailLen < 64
    }

    ghost function Contents(): (m: Md)
      requires Valid()
      reads this, tail
      ensures |m.tail| == tailLen < 64
    {
      Md(chain, totalN, tail[..tailLen])
    }

    // Allocation of the struct, followed by mdfour_begin.
    constructor ()
      ensures Valid() && fresh(tail) && Contents() == BEGIN
    {
      f := Md4;
      tail := new Byte[64];
      chain, totalN, tailLen := INITIAL, 0, 0;
    }

    method Begin()
      requires Valid()
      modifies this
      ensures Valid() && Contents() == BEGIN
    {
      chain, totalN, tailLen := INITIAL, 0, 0;
    }

    method Mdfour64(M: array<W>, ghost block: seq<Byte>)
      requires ComputesMd4(f)
      requires |block| == 64 && M[..] == Words(block)
      modifies this`chain
      ensures chain == f(old(chain), block)
    {
      assert f(chain, block) == Md4(chain, block) == Compress(chain, M[..]);
      chain := Md4Block.Mdfour64(chain, M[..]);
    }

    // mdfour_tail: the data does not go through the tail buffer, which keeps its bytes.
    method Tail(input: seq<Byte>)
      requires Valid() && |input| < 64
      modifies this
      ensures Valid() && tailLen == old(tailLen)
      ensures totalN == Wrap(old(totalN) + |input|)
      ensures chain == Blocks(f, old(chain), LastBlocks(input, Wrap(8 * totalN)))
    {
      totalN := Wrap(totalN + |input|);
      var b := Wrap(8 * totalN);
      var buf := PadBuffer(input, b);
      ghost var p := LastBlocks(input, b);
      var M := new W[16];
      if |input| <= 55 {
        assert |p| == 64;
        Copy64(M, buf[..64]);
        Mdfour64(M, p);
        OneBlock(f, old(chain), p);
      } else {
        assert |p| == 128 && buf[..] == buf[..128] == p;
        assert buf[..64] == p[..64] && buf[64..] == p[64..];
        Copy64(M, buf[..64]);
        Mdfour64(M, p[..64]);
        Copy64(M, buf[64..]);
        Mdfour64(M, p[64..]);
        OneBlock(f, f(old(chain), p[..64]), p[64..]);
      }
    }

    // mdfour_update: a null pointer finalises, anything else is data.
    method Update(input: Option<seq<Byte>>)
      requires Valid()
      modifies this, tail
      ensures Valid()
      ensures Contents() == match input
        case None => Finish(f, old(Contents()))
        case Some(data) => Absorb(f, old(Contents()), data)
    {
      if input == None {
        Tail(tail[..tailLen]);
      } else {
        Receive(input.value);
        assert Look(0);
      }
    }

    method Receive(data: seq<Byte>)
      requires Valid()
      modifies this, tail
      ensures Valid() && Absorbed(f, old(Contents()), data, Contents()) == true
    {
      ghost var start := Contents();
      var at := FillTail(data);
      ghost var filled := Contents();
      ReceiveRest(data[at..]);
      assert data == data[..at] + data[at..];
      AbsorbedInTurn(f, start, data[..at], filled, data[at..], Contents(), data);
    }

    // The second and the third part of mdfour_update.
    method ReceiveRest(rest: seq<Byte>)
      requires Valid() && (tailLen != 0 ==> rest == [])
      modifies this, tail
      ensures Valid() && Absorbed(f, old(Contents()), rest, Contents()) == true
    {
      ghost var filled := Contents();
      var i := CompressBlocks(rest);
      ghost var compressed := Contents();
      KeepPart(rest[i..]);
      assert rest == rest[..i] + rest[i..];
      AbsorbedInTurn(f, filled, rest[..i], compressed, rest[i..], Contents(), rest);
    }

    // The first part of mdfour_update: top up a tail that is in use.
    method FillTail(data: seq<Byte>) returns (at: nat)
      requires Valid()
      modifies this, tail
      ensures Valid() && at <= |data|
      ensures Absorbed(f, old(Contents()), data[..at], Contents()) == true
      ensures tailLen != 0 ==> at == |data|
    {
      ghost var start := Contents();
      if tailLen == 0 {
        AbsorbNothing(f, start);
        assert data[..0] == [];
        return 0;
      }
      at := if 64 - tailLen > |data| then |data| else 64 - tailLen;
      Memcpy(tail, tailLen, data[..at]);
      ghost var pending := start.tail + data[..at];
      tailLen := tailLen + at;
      assert tail[..tailLen] == pending;
      if tailLen == 64 {
        var M := new W[16];
        assert tail[..] == pending;
        Copy64(M, tail[..]);
        Mdfour64(M, pending);
        totalN := Wrap(totalN + 64);
        tailLen := 0;
        OneBlock(f, start.chain, pending);
        assert pending[64..] == [] && pending[..64] == pending;
      } else {
        assert pending[..0] == [] && pending[0..] == pending;
      }
    }

    // The loop of mdfour_update over the whole blocks of the input.
    method CompressBlocks(input: seq<Byte>) returns (i: nat)
      requires Valid() && (tailLen != 0 ==> input == [])
      modifies this
      ensures Valid() && tailLen == old(tailLen) && i <= |input| < i + 64
      ensures Absorbed(f, old(Contents()), input[..i], Contents()) == true
    {
      var M := new W[16];
      i := 0;
      ghost var start := Contents();
      AbsorbNothing(f, start);
      assert input[..0] == [];
      while |input| - i >= 64
        invariant i <= |input| && Valid() && tailLen == old(tailLen)
        invariant Absorbed(f, start, input[..i], Contents()) == true
        modifies this, M
      {
        var block := input[i..i + 64];
        ghost var before := Contents();
        Copy64(M, block);
        Mdfour64(M, block);
        totalN := Wrap(totalN + 64);
        AbsorbBlock(f, before, block);
        assert Absorbed(f, before, block, Contents()) == true;
        assert input[..i + 64] == input[..i] + block;
        AbsorbedInTurn(f, start, input[..i], before, block, Contents(), input[..i + 64]);
        i := i + 64;
      }
    }

    // The last part of mdfour_update: what is less than a block goes into the tail.
    method KeepPart(part: seq<Byte>)
      requires Valid() && |part| < 64 && (tailLen != 0 ==> part == [])
      modifies this, tail
      ensures Valid() && Absorbed(f, old(Contents()), part, Contents()) == true
    {
      ghost var before := Contents();
      if part != [] {
        Memcpy(tail, 0, part);
        tailLen := |part|;
        AbsorbPart(f, before, part);
      } else {
        AbsorbNothing(f, before);
      }
    }

    method Result(out: array<Byte>)
      requires out.Length == 16
      modifies out
      ensures out[..] == Output(chain)
    {
      WriteWords(out, Value(chain.a), Value(chain.b), Value(chain.c), Value(chain.d));
    }
  }

  method WriteWords(out: array<Byte>, a: Word, b: Word, c: Word, d: Word)
    requires out.Length == 16
    modifies out
    ensures out[..] == OutputWords(a, b, c, d)
  {
    ghost var w, x := LittleEndianBytes(a, WORD_BYTES), LittleEndianBytes(b, WORD_BYTES);
    ghost var y, z := LittleEndianBytes(c, WORD_BYTES), LittleEndianBytes(d, WORD_BYTES);
    ghost var o := out[..];
    Copy4(out, 0, a);
    assert out[..] == w + o[4..];
    Copy4(out, 4, b);
    assert out[..] == w + x + o[8..];
    Copy4(out, 8, c);
    assert out[..] == w + x + y + o[12..];
    Copy4(out, 12, d);
    assert out[..] == w + x + y + z;
  }

  lemma {:induction false} OneBlock(f: Compression, s: Chain, block: seq<Byte>)
    requires |block| == 64
    ensures Blocks(f, s, block) == f(s, block)
  {
    assert block[..64] == block && block[64..] == [];
    assert Blocks(f, f(s, block), []) == f(s, block);
  }

  lemma {:induction false} AbsorbBlock(f: Compression, m: Md, block: seq<Byte>)
    requires m.tail == [] && |block| == 64
    ensures Absorb(f, m, block) == Md(f(m.chain, block), Wrap(m.totalN + 64), [])
  {
    OneBlock(f, m.chain, block);
    assert m.tail + block == block;
    assert block[..64] == block && block[64..] == [];
  }

  lemma {:induction false} AbsorbPart(f: Compression, m: Md, part: seq<Byte>)
    requires m.tail == [] && |part| < 64
    ensures Absorb(f, m, part) == m.(tail := part)
  {
    assert m.tail + part == part;
    assert part[..0] == [] && part[0..] == part;
  }

  // The convenience function of mdfour.c: one update, one finalise, the result.
  method Mdfour(out: array<Byte>, input: seq<Byte>)
    requires out.Length == 16
    modifies out
    ensures out[..] == Output(Blocks(Md4, INITIAL, CodePadded(input)))
    ensures CodePadded(input) == RfcPadded(input) <==> |input| % 0x2000_0000_0000_0000 < 0x2000_0000
  {
    var md := new MdState();
    md.Update(Some(input));
    md.Update(None);
    md.Result(out);
    FinishedMessage(md.f, input);
    SameBlocks(md.f, INITIAL, CodePadded(input));
    PaddingAgrees(input);
  }
}
