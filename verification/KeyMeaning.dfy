// What a cache key tells apart: the bytes compressed for it, and what they say of the source.
module KeyMeaning {
  import opened Common
  import opened Bytes
  import opened Mdfour
  import opened Unify
  import opened UnifyNormal
  import opened UnifyCode

  // The byte behind a message.
  const MARK: Byte := '\U{80}'

  // ----- one padded message --------------------------------------------------------------------------

  lemma {:induction false} MessageIsFront(m: seq<Byte>, bits: Word)
    ensures |PaddedWith(m, bits)| == |m| + 9 + ZeroCount(|m|) && PaddedWith(m, bits)[..|m|] == m
  {
    PaddingParts(m, bits);
  }

  lemma {:induction false} BitsAreBehind(m: seq<Byte>, bits: Word)
    ensures var p := PaddedWith(m, bits); |p| >= 8 && p[|p| - 8..|p| - 4] == LittleEndianBytes(bits, WORD_BYTES)
  {
    PaddingParts(m, bits);
  }

  // Padded lengths are whole blocks, so two messages of the same padded length differ by less than 64
  // bytes, which the written part of their length tells.
  lemma SameLength(n: nat, a: nat, b: nat)
    requires Wrap(8 * (n + a)) == Wrap(8 * (n + b)) && a + ZeroCount(a) == b + ZeroCount(b)
    ensures a == b
  {
    assert -64 < a - b < 64;
    Congruent(8 * (n + a), 8 * (n + b), 8 * (a - b));
  }

  lemma Congruent(x: nat, y: nat, d: int)
    requires Wrap(x) == Wrap(y) && d == x - y && -0x1_0000_0000 < d < 0x1_0000_0000
    ensures d == 0
  {
  }

  // Behind n counted bytes the padding tells every message, however long.
  lemma {:induction false} PaddingTells(n: nat, a: seq<Byte>, b: seq<Byte>)
    requires PaddedWith(a, Wrap(8 * (n + |a|))) == PaddedWith(b, Wrap(8 * (n + |b|)))
    ensures a == b
  {
    var u, v := Wrap(8 * (n + |a|)), Wrap(8 * (n + |b|));
    SameBitsBehind(a, b, u, v);
    MessageIsFront(a, u);
    MessageIsFront(b, v);
    SameLength(n, |a|, |b|);
    assert a == PaddedWith(a, u)[..|a|];
  }

  lemma {:induction false} SameBitsBehind(a: seq<Byte>, b: seq<Byte>, u: Word, v: Word)
    requires PaddedWith(a, u) == PaddedWith(b, v)
    ensures u == v
  {
    BitsAreBehind(a, u);
    BitsAreBehind(b, v);
    SameBytes(u, v);
  }

  // ----- two messages, the first one finished in mid-stream --------------------------------------------------

  lemma {:induction false} MarkBehind(m: seq<Byte>)
    ensures |CodePadded(m)| > |m| && CodePadded(m)[|m|] == '\U{80}'
  {
    PaddingParts(m, Wrap(8 * |m|));
  }

  lemma {:induction false} ZeroBehind(m: seq<Byte>, k: nat)
    requires |m| < k <= |m| + ZeroCount(|m|)
    ensures k < |CodePadded(m)| && CodePadded(m)[k] == '\0'
  {
    PaddingParts(m, Wrap(8 * |m|));
  }

  // Without zeros in between, the mark is followed by a multiple of 8, and the block by four zeros.
  lemma {:induction false} LengthBehind(m: seq<Byte>)
    requires ZeroCount(|m|) == 0
    ensures |CodePadded(m)| == |m| + 9 && CodePadded(m)[|m| + 1] as int % 8 == 0 && CodePadded(m)[|m| + 5] == '\0'
  {
    PaddingParts(m, Wrap(8 * |m|));
    FourBytes(Wrap(8 * |m|));
    LowByte(|m|);
  }

  lemma LowByte(n: nat)
    ensures Wrap(8 * n) % 256 % 8 == 0
  {
  }

  // When m' goes on behind m with the padding mark, it does so without zero bytes, and m does not end in
  // one unless a newline follows the mark.
  predicate GoesOnOtherwise(m: seq<Byte>, m': seq<Byte>) {
    |m| < |m'| && m'[|m|] == MARK ==>
      '\0' !in m'[|m|..] && ((m != [] && m[|m| - 1] == '\0') ==> |m'| > |m| + 1 && m'[|m| + 1] == '\n')
  }

  lemma {:induction false} FrontOfBoth(m1: seq<Byte>, m2: seq<Byte>, k: nat)
    requires k < |CodePadded(m1)|
    ensures k < |CompressedTwice(m1, m2)| && CompressedTwice(m1, m2)[k] == CodePadded(m1)[k]
    ensures k < |m1| ==> CodePadded(m1)[k] == m1[k]
  {
    MessageIsFront(m1, Wrap(8 * |m1|));
    assert k < |m1| ==> CodePadded(m1)[..|m1|][k] == m1[k];
  }

  lemma {:induction false} TailComesAgain(m1: seq<Byte>, m2: seq<Byte>, k: nat)
    requires k < |TailOf(m1)|
    ensures |CodePadded(m1)| + k < |CompressedTwice(m1, m2)|
    ensures CompressedTwice(m1, m2)[|CodePadded(m1)| + k] == TailOf(m1)[k]
  {
    var again := TailOf(m1) + m2;
    var bits := Wrap(8 * (|m1| + |again|));
    MessageIsFront(again, bits);
    assert PaddedWith(again, bits)[..|again|][k] == again[k];
  }

  // A first message is not taken for a longer one that goes on otherwise.
  lemma {:induction false} NotTheLonger(m1: seq<Byte>, m2: seq<Byte>, m1': seq<Byte>, m2': seq<Byte>)
    requires |m1| < |m1'| && GoesOnOtherwise(m1, m1')
    ensures CompressedTwice(m1, m2) != CompressedTwice(m1', m2')
  {
    if m1'[|m1|] != MARK {
      MarkBehind(m1);
      FrontOfBoth(m1, m2, |m1|);
      MarkBehind(m1');
      FrontOfBoth(m1', m2', |m1|);
    } else if ZeroCount(|m1|) > 0 {
      SecondByteDiffers(m1, m2, m1', m2');
    } else if |m1'| > |m1| + 1 && m1'[|m1| + 1] == '\n' {
      LengthBehind(m1);
      FrontOfBoth(m1, m2, |m1| + 1);
      MarkBehind(m1');
      FrontOfBoth(m1', m2', |m1| + 1);
    } else if |m1'| >= |m1| + 5 {
      LengthBehind(m1);
      FrontOfBoth(m1, m2, |m1| + 5);
      NotZeroUpTo(m1, m1', m2', |m1| + 5);
    } else {
      LastByteDiffers(m1, m2, m1', m2');
    }
  }

  // Behind m1 the longer message and its mark hold no zero byte.
  lemma {:induction false} NotZeroUpTo(m1: seq<Byte>, m1': seq<Byte>, m2': seq<Byte>, k: nat)
    requires |m1| <= k <= |m1'| && '\0' !in m1'[|m1|..]
    ensures k < |CompressedTwice(m1', m2')| && CompressedTwice(m1', m2')[k] != '\0'
  {
    MarkBehind(m1');
    FrontOfBoth(m1', m2', k);
    if k < |m1'| {
      assert m1'[k] == m1'[|m1|..][k - |m1|];
    }
  }

  lemma {:induction false} SecondByteDiffers(m1: seq<Byte>, m2: seq<Byte>, m1': seq<Byte>, m2': seq<Byte>)
    requires |m1| < |m1'| && '\0' !in m1'[|m1|..] && ZeroCount(|m1|) > 0
    ensures CompressedTwice(m1, m2) != CompressedTwice(m1', m2')
  {
    ZeroBehind(m1, |m1| + 1);
    FrontOfBoth(m1, m2, |m1| + 1);
    NotZeroUpTo(m1, m1', m2', |m1| + 1);
  }

  // The last byte of m1 comes again where the padding of the other has a zero.
  lemma {:induction false} LastByteDiffers(m1: seq<Byte>, m2: seq<Byte>, m1': seq<Byte>, m2': seq<Byte>)
    requires ZeroCount(|m1|) == 0 && (m1 != [] ==> m1[|m1| - 1] != '\0') && |m1| < |m1'| < |m1| + 5
    ensures CompressedTwice(m1, m2) != CompressedTwice(m1', m2')
  {
    LengthBehind(m1);
    LastOfTail(m1);
    TailComesAgain(m1, m2, 54);
    ManyZeros(|m1|, |m1'|);
    ZeroBehind(m1', |m1| + 63);
    FrontOfBoth(m1', m2', |m1| + 63);
  }

  lemma LastOfTail(m: seq<Byte>)
    requires ZeroCount(|m|) == 0
    ensures m != [] && |TailOf(m)| == 55 && TailOf(m)[54] == m[|m| - 1]
  {
    assert |m| % 64 == 55;
  }

  lemma ManyZeros(n: nat, n': nat)
    requires ZeroCount(n) == 0 && n < n' < n + 5
    ensures n + 63 <= n' + ZeroCount(n')
  {
    assert n % 64 == 55 && n' % 64 == 55 + (n' - n);
  }

  // The bytes compressed tell both messages, unless one first message goes on like the other with its
  // padding.
  lemma {:induction false} BytesTellMessages(m1: seq<Byte>, m2: seq<Byte>, m1': seq<Byte>, m2': seq<Byte>)
    requires GoesOnOtherwise(m1, m1') && GoesOnOtherwise(m1', m1)
    ensures CompressedTwice(m1, m2) == CompressedTwice(m1', m2') <==> m1 == m1' && m2 == m2'
  {
    if CompressedTwice(m1, m2) == CompressedTwice(m1', m2') {
      if |m1| < |m1'| {
        NotTheLonger(m1, m2, m1', m2');
      } else if |m1'| < |m1| {
        NotTheLonger(m1', m2', m1, m2);
      }
      SameFirst(m1, m2, m1', m2');
    }
  }

  lemma {:induction false} SameFirst(m1: seq<Byte>, m2: seq<Byte>, m1': seq<Byte>, m2': seq<Byte>)
    requires |m1| == |m1'| && CompressedTwice(m1, m2) == CompressedTwice(m1', m2')
    ensures m1 == m1' && m2 == m2'
  {
    var p, p' := CodePadded(m1), CodePadded(m1');
    MessageIsFront(m1, Wrap(8 * |m1|));
    MessageIsFront(m1', Wrap(8 * |m1|));
    var again, again' := TailOf(m1) + m2, TailOf(m1') + m2';
    SplitEqual(p, PaddedWith(again, Wrap(8 * (|m1| + |again|))), p', PaddedWith(again', Wrap(8 * (|m1| + |again'|))));
    assert m1 == p[..|m1|] == m1';
    PaddingTells(|m1|, again, again');
    SplitEqual(TailOf(m1), m2, TailOf(m1'), m2');
  }

  lemma SplitEqual(a: seq<Byte>, b: seq<Byte>, a': seq<Byte>, b': seq<Byte>)
    requires |a| == |a'| && a + b == a' + b'
    ensures a == a' && b == b'
  {
    assert a == (a + b)[..|a|] && b == (a + b)[|a|..];
  }

  // The family that it shuts out: an empty first message and one that is the padding of nothing, in front
  // of any second message. Every compression function gives them the same chain and the same count.
  lemma {:induction false} MessagesCollide(f: Compression, m: seq<Byte>)
    ensures var first, second := LastBlocks([], 0), LastBlocks([], 512);
      CompressedTwice([], second + m) == CompressedTwice(first, m)
      && FinishedTwice(f, [], second + m).chain == FinishedTwice(f, first, m).chain
      && FinishedTwice(f, [], second + m).totalN == FinishedTwice(f, first, m).totalN
      && !GoesOnOtherwise([], first)
  {
    var first, second := LastBlocks([], 0), LastBlocks([], 512);
    var bits := Wrap(8 * (64 + |m|));
    NothingPadded([], 0, second + m);
    BlockPadded(first, m);
    BlockInFront(second, m, bits);
    Grouped(first, second, PaddedWith(m, bits));
    assert first[1] == '\0' && first[1] in first[0..];
  }

  lemma Grouped(a: seq<Byte>, b: seq<Byte>, c: seq<Byte>)
    ensures a + (b + c) == a + b + c
  {
  }

  lemma {:induction false} ShortPadded(t: seq<Byte>, bits: Word)
    requires |t| < 64
    ensures PaddedWith(t, bits) == LastBlocks(t, bits) && TailOf(t) == t
  {
    var none, last := t[..WholeBlocks(|t|)], LastBlocks(t, bits);
    assert WholeBlocks(|t|) == 0 && TailOf(t) == t && none == [];
    assert none + last == last;
  }

  lemma {:induction false} NothingPadded(none: seq<Byte>, zero: Word, m: seq<Byte>)
    requires |none| == zero == 0
    ensures CodePadded(none) == LastBlocks(none, zero) && TailOf(none) + m == m
  {
    ShortPadded(none, zero);
    assert Wrap(8 * |none|) == zero;
    assert none + m == m;
  }

  lemma {:induction false} BlockPadded(block: seq<Byte>, m: seq<Byte>)
    requires |block| == 64
    ensures CodePadded(block) == block + LastBlocks([], 512) && TailOf(block) + m == m
  {
    assert WholeBlocks(|block|) == 64 && block[..64] == block && TailOf(block) == [];
    assert [] + m == m;
  }

  lemma {:induction false} BlockInFront(block: seq<Byte>, m: seq<Byte>, bits: Word)
    requires |block| == 64
    ensures PaddedWith(block + m, bits) == block + PaddedWith(m, bits)
  {
    assert WholeBlocks(|block + m|) == 64 + WholeBlocks(|m|);
    assert (block + m)[..64 + WholeBlocks(|m|)] == block + m[..WholeBlocks(|m|)];
    assert TailOf(block + m) == TailOf(m);
  }

  // ----- the key of a source -----------------------------------------------------------------------------

  // What is compressed for the key of a source without zero bytes whose literals are closed.
  function KeyBytes(args: seq<Byte>, p: seq<Byte>, past: Byte, err: seq<Byte>): seq<Byte> {
    CompressedTwice(args + Unified(p, past), err)
  }

  lemma {:induction false} KeyBytesAreCompressed(f: Compression, args: seq<Byte>, p: seq<Byte>, past: Byte, err: seq<Byte>)
    requires '\0' !in p && Closed(p)
    ensures KeyState(f, args, p, past, err).chain == Blocks(f, INITIAL, KeyBytes(args, p, past, err))
  {
    KeyOfClosedSource(f, args, p, past, err);
  }

  lemma {:induction false} LinesEnd(ts: seq<seq<Byte>>)
    ensures Lines(ts) == [] || Lines(ts)[|Lines(ts)| - 1] == '\n'
  {
    if ts != [] {
      LinesEnd(ts[1..]);
    }
  }

  lemma {:induction false} MarkIsNoToken(s: seq<Byte>, past: Byte, mark: Byte)
    requires mark == MARK && s != [] && s[0] == mark
    ensures Next(s, past) == Emit([mark], 1)
  {
    var k := FirstMatch(s, 0);
    if k < TOKEN_COUNT {
      TokenChars(k);
      assert false;
    }
    assert s[..1] == [mark];
  }

  // A token that starts with the padding mark is nothing but the mark.
  lemma {:induction false} MarkStandsAlone(s: seq<Byte>, past: Byte, mark: Byte)
    requires mark == MARK && Closed(s)
    ensures var ts := Tokens(s, past); ts != [] ==> ts[0] != [] && (ts[0][0] == mark ==> ts[0] == [mark])
    decreases |s|
  {
    if s != [] {
      var t := Next(s, past);
      if t.Emit? {
        if s[0] == mark {
          MarkIsNoToken(s, past, mark);
        } else {
          StartsTheSame(s, past);
        }
      } else {
        SameUsed(s, past);
        MarkStandsAlone(Drop(s, t.used), past, mark);
      }
    }
  }

  lemma {:induction false} StartsTheSame(s: seq<Byte>, past: Byte)
    requires s != [] && Next(s, past).Emit?
    ensures Next(s, past).text != [] && Next(s, past).text[0] == s[0]
  {
  }

  lemma {:induction false} SecondIsNewline(p: seq<Byte>, past: Byte)
    requires Closed(p) && Unified(p, past) != [] && Unified(p, past)[0] == MARK
    ensures |Unified(p, past)| > 1 && Unified(p, past)[1] == '\n'
  {
    MarkStandsAlone(p, past, MARK);
  }

  // A unified text has no zero bytes and a newline at its end and behind a mark. So no unified text goes on
  // like another with its padding, whatever was hashed before them.
  lemma {:induction false} UnifiedGoesOnOtherwise(args: seq<Byte>, p: seq<Byte>, p': seq<Byte>, past: Byte)
    requires '\0' !in p' && Closed(p')
    ensures GoesOnOtherwise(args + Unified(p, past), args + Unified(p', past))
  {
    var u, u' := Unified(p, past), Unified(p', past);
    LinesEnd(Tokens(p, past));
    UnifiedHasNoZero(p', past);
    if |u'| > 0 && u'[0] == MARK {
      SecondIsNewline(p', past);
    }
    TextsGoOnOtherwise(args, u, u');
  }

  lemma {:induction false} TextsGoOnOtherwise(args: seq<Byte>, u: seq<Byte>, u': seq<Byte>)
    requires '\0' !in u' && (u == [] || u[|u| - 1] == '\n')
    requires |u'| > 0 && u'[0] == MARK ==> |u'| > 1 && u'[1] == '\n'
    ensures GoesOnOtherwise(args + u, args + u')
  {
    var m, m' := args + u, args + u';
    if |u| < |u'| {
      assert m'[|m|..] == u'[|u|..];
      assert u != [] ==> m[|m| - 1] == u[|u| - 1];
      assert u == [] ==> m'[|m|] == u'[0] && (|u'| > 1 ==> m'[|m| + 1] == u'[1]);
    }
  }

  // For the same arguments, sources without zero bytes and with closed literals: what is compressed for
  // their keys is the same exactly when they have the same tokens and the same error output.
  lemma {:induction false} KeyTellsTokens(args: seq<Byte>, p: seq<Byte>, p': seq<Byte>, past: Byte, err: seq<Byte>, err': seq<Byte>)
    requires '\0' !in p && Closed(p) && '\0' !in p' && Closed(p')
    ensures KeyBytes(args, p, past, err) == KeyBytes(args, p', past, err') <==> Tokens(p, past) == Tokens(p', past) && err == err'
  {
    var u, u' := Unified(p, past), Unified(p', past);
    UnifiedGoesOnOtherwise(args, p, p', past);
    UnifiedGoesOnOtherwise(args, p', p, past);
    BytesTellMessages(args + u, err, args + u', err');
    UnifiedSeparatesTokens(p, p', past);
    assert (args + u)[|args|..] == u && (args + u')[|args|..] == u';
  }
}
