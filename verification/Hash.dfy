// The front end over the MD4 state, and the push buffer in front of it whose byte 0 is a command to
// flush and finalise.
module Hash {
  import opened Common
  import opened Bytes
  import opened Mdfour
  import opened Text

  // What one pushed character does to a state in which nothing is buffered.
  function FeedByte(f: Compression, m: Md, c: Byte): (m': Md)
    requires Valid(m)
    ensures Valid(m')
  {
    if c == '\0' then Finish(f, m) else Absorb(f, m, [c])
  }

  function Feed(f: Compression, m: Md, s: seq<Byte>): (m': Md)
    requires Valid(m)
    ensures Valid(m')
  {
    if s == [] then m else FeedByte(f, Feed(f, m, s[..|s| - 1]), s[|s| - 1])
  }

  lemma {:induction false} FeedOne(f: Compression, m: Md, s: seq<Byte>, c: Byte)
    requires Valid(m)
    ensures Feed(f, m, s + [c]) == FeedByte(f, Feed(f, m, s), c)
  {
    assert (s + [c])[..|s|] == s;
  }

  lemma {:induction false} FeedConcat(f: Compression, m: Md, a: seq<Byte>, b: seq<Byte>)
    requires Valid(m)
    ensures Feed(f, m, a + b) == Feed(f, Feed(f, m, a), b)
    decreases |b|
  {
    if b == [] {
      assert a + b == a;
    } else {
      var front := b[..|b| - 1];
      FeedConcat(f, m, a, front);
      assert (a + b)[..|a + b| - 1] == a + front;
    }
  }

  // Without zero bytes the push buffer delivers every character exactly once and in order.
  lemma {:induction false} FeedWithoutZero(f: Compression, m: Md, s: seq<Byte>)
    requires Valid(m) && '\0' !in s
    ensures Feed(f, m, s) == Absorb(f, m, s)
  {
    if s == [] {
      AbsorbNothing(f, m);
    } else {
      var front, c := s[..|s| - 1], s[|s| - 1];
      FeedWithoutZero(f, m, front);
      AbsorbConcat(f, m, front, [c]);
      assert front + [c] == s;
    }
  }

  lemma {:induction false} FeedMessage(f: Compression, m: Md, s: seq<Byte>)
    requires Valid(m) && '\0' !in s
    ensures Feed(f, m, s + ['\0']) == Finish(f, Absorb(f, m, s))
  {
    FeedOne(f, m, s, '\0');
    FeedWithoutZero(f, m, s);
  }

  // The state after a unified text m1 with its closing flush, further data m2 hashed directly in any
  // pieces, and the finalise of hash_result.
  lemma {:induction false} UnifiedThenHashed(f: Compression, m1: seq<Byte>, c2: seq<seq<Byte>>)
    requires '\0' !in m1
    ensures Finish(f, AbsorbAll(f, Feed(f, BEGIN, m1 + ['\0']), c2)) == FinishedTwice(f, m1, Joined(c2))
  {
    FeedMessage(f, BEGIN, m1);
    ChunkingIsInvisible(f, Finish(f, Absorb(f, BEGIN, m1)), c2);
    FinishedAgain(f, m1, Joined(c2));
  }

  // ----- the text of a hash ----------------------------------------------------------------------

  // hash_result: 32 hexadecimal digits of the digest, a dash and the byte count.
  function ResultText(m: Md): seq<Byte> {
    HexText(Output(m.chain)) + ['-'] + DecimalText(m.totalN)
  }

  // The text identifies chain and count, and fits its 53-byte buffer with the terminating zero.
  lemma {:induction false} ResultTextIsFaithful(m: Md, m': Md)
    ensures ResultText(m) == ResultText(m') <==> m.chain == m'.chain && m.totalN == m'.totalN
    ensures |ResultText(m)| + 1 <= 53
  {
    var t, t' := ResultText(m), ResultText(m');
    assert t[..32] == HexText(Output(m.chain)) && t'[..32] == HexText(Output(m'.chain));
    assert t[33..] == DecimalText(m.totalN) && t'[33..] == DecimalText(m'.totalN);
    if t == t' {
      HexTextInjective(Output(m.chain), Output(m'.chain));
      OutputIsFaithful(m.chain, m'.chain);
      NumeralValue(m.totalN, 10, false);
      NumeralValue(m'.totalN, 10, false);
    }
    CountDigits(m.totalN);
  }

  // ----- the code --------------------------------------------------------------------------------

  // The static state of hash.c together with the static buffer of pushchar.
  class PushBuffer {
    const md: MdState
    const buf: array<Byte>
    var len: nat

    // The characters pushed since the state `origin`, in which nothing was buffered.
    ghost var origin: Md
    ghost var log: seq<Byte>

    ghost predicate Valid()
      reads this, md, md.tail, buf
    {
      md.Valid() && buf.Length == 64 && len < 64 && buf != md.tail
      && '\0' !in buf[..len] && Mdfour.Valid(origin) && Delivered()
    }

    // Delivering the buffered characters gives the state that the whole log should give.
    ghost predicate Delivered()
      requires md.Valid() && buf.Length == 64 && len < 64 && Mdfour.Valid(origin)
      reads this, md, md.tail, buf
    {
      forall k {:trigger Look(k)} :: Look(k) ==> Flushed() == Feed(md.f, origin, log)
    }

    ghost function Flushed(): (m: Md)
      requires md.Valid() && buf.Length == 64 && len < 64
      reads this, md, md.tail, buf
      ensures Mdfour.Valid(m)
    {
      Absorb(md.f, md.Contents(), buf[..len])
    }

    // hash_start on a fresh state.
    constructor ()
      ensures Valid() && fresh(md) && fresh(md.tail) && fresh(buf)
      ensures len == 0 && md.Contents() == BEGIN && origin == BEGIN && log == []
    {
      md := new MdState();
      buf := new Byte[64];
      len := 0;
      origin, log := BEGIN, [];
      new;
      assert buf[..0] == [];
      Restart();
    }

    // When nothing is buffered, the state is what the log makes of the origin.
    lemma EmptyBuffer()
      requires Valid() && len == 0
      ensures md.Contents() == Feed(md.f, origin, log)
    {
      AbsorbNothing(md.f, md.Contents());
      assert buf[..0] == [] && Look(0);
    }

    // hash_buffer with data, past the push buffer: what is still buffered comes after the data.
    method HashBuffer(s: seq<Byte>)
      requires Valid()
      modifies this, md, md.tail
      ensures Valid() && len == old(len) && log == old(buf[..len])
      ensures md.Contents() == origin == Absorb(md.f, old(md.Contents()), s)
    {
      md.Update(Some(s));
      Restart();
    }

    // What is buffered is all that was pushed since the state as it is now.
    ghost method Restart()
      requires md.Valid() && buf.Length == 64 && len < 64 && buf != md.tail && '\0' !in buf[..len]
      modifies this`origin, this`log
      ensures Valid() && origin == md.Contents() && log == buf[..len]
    {
      origin, log := md.Contents(), buf[..len];
      FeedWithoutZero(md.f, origin, log);
    }

    method PushChar(c: Byte)
      requires Valid()
      modifies this, md, md.tail, buf
      ensures Valid() && log == old(log) + [c] && origin == old(origin)
      ensures c == '\0' ==> len == 0
    {
      FeedOne(md.f, origin, log, c);
      assert Look(0);
      ghost var before := md.Contents();
      ghost var pending := buf[..len];
      log := log + [c];
      if c == '\0' {
        AbsorbNothing(md.f, before);
        if len > 0 {
          md.Update(Some(buf[..len]));
          len := 0;
        }
        md.Update(None);
        AbsorbNothing(md.f, md.Contents());
        assert buf[..0] == [];
        return;
      }
      AbsorbConcat(md.f, before, pending, [c]);
      buf[len] := c;
      len := len + 1;
      assert buf[..len] == pending + [c];
      if len == 64 {
        md.Update(Some(buf[..64]));
        len := 0;
        AbsorbNothing(md.f, md.Contents());
        assert buf[..0] == [];
      }
    }

    method HashResult() returns (ret: seq<Byte>)
      requires Valid()
      modifies this, md, md.tail
      ensures Valid() && len == old(len) && log == old(buf[..len])
      ensures md.Contents() == origin == Finish(md.f, old(md.Contents()))
      ensures ret == ResultText(md.Contents())
    {
      var sum := new Byte[16];
      md.Update(None);
      md.Result(sum);
      ret := HexOf(sum);
      ret := ret + ['-'] + DecimalText(md.totalN);
      Restart();
    }
  }

  // The loop of hash_result: two digits for each byte.
  method HexOf(sum: array<Byte>) returns (ret: seq<Byte>)
    ensures ret == HexText(sum[..])
  {
    ret := [];
    for i := 0 to sum.Length
      invariant ret == HexText(sum[..i])
    {
      ret := ret + HexByte(sum[i]);
      HexTextConcat(sum[..i], [sum[i]]);
      assert sum[..i + 1] == sum[..i] + [sum[i]];
      HexTextOfOne(sum[i]);
    }
    assert sum[..sum.Length] == sum[..];
  }
}
