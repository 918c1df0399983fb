// snprintf.c: the loops that write into a bounded buffer and count everything.
module FormatCode {
  import opened Common
  import opened Bytes
  import opened Text
  import opened Format

  // The first n characters, or all of them.
  function Take(s: seq<Byte>, n: nat): seq<Byte> {
    if |s| <= n then s else s[..n]
  }

  function Reversed(s: seq<Byte>): (r: seq<Byte>)
    ensures |r| == |s|
  {
    if s == [] then [] else Reversed(s[1..]) + [s[0]]
  }

  lemma {:induction false} ReversedAppend(s: seq<Byte>, c: Byte)
    ensures Reversed(s + [c]) == [c] + Reversed(s)
  {
    if s == [] {
      assert [c][1..] == [];
    } else {
      assert (s + [c])[1..] == s[1..] + [c];
      ReversedAppend(s[1..], c);
    }
  }

  // The first maxlen - 1 characters of the text and a zero byte, in an array at index `at`.
  function Bounded(old': seq<Byte>, at: nat, maxlen: nat, text: seq<Byte>): seq<Byte>
    requires at + maxlen <= |old'|
  {
    if maxlen == 0 then old'
    else
      var t := Take(text, maxlen - 1);
      old'[..at] + t + ['\0'] + old'[at + |t| + 1..]
  }

  // A zero byte set behind the front of the output, or over its last character.
  lemma {:induction false} TerminatedText(orig: seq<Byte>, at: nat, maxlen: nat, out: seq<Byte>, b: seq<Byte>)
    requires 0 < maxlen && at + maxlen <= |orig|
    requires b == orig[..at] + Take(out, maxlen) + orig[at + |Take(out, maxlen)|..]
    ensures var k := if |out| < maxlen - 1 then |out| else maxlen - 1;
      b[at + k := '\0'] == Bounded(orig, at, maxlen, out)
  {
    var front, t := orig[..at], Take(out, maxlen);
    if |out| < maxlen {
      assert t == out && orig[at + |t|..][1..] == orig[at + |t| + 1..];
      ReplaceBehind(front, t, orig[at + |t|..], '\0');
    } else {
      assert t == out[..maxlen] && t[..maxlen - 1] == out[..maxlen - 1];
      ReplaceLast(front, t, orig[at + maxlen..], '\0');
    }
  }

  lemma ReplaceBehind(a: seq<Byte>, t: seq<Byte>, b: seq<Byte>, c: Byte)
    requires b != []
    ensures (a + t + b)[|a| + |t| := c] == a + t + [c] + b[1..]
  {
  }

  lemma ReplaceLast(a: seq<Byte>, t: seq<Byte>, b: seq<Byte>, c: Byte)
    requires t != []
    ensures (a + t + b)[|a| + |t| - 1 := c] == a + t[..|t| - 1] + [c] + b
  {
  }

  lemma {:induction false} OneMoreCharacter(orig: seq<Byte>, at: nat, maxlen: nat, out: seq<Byte>, b: seq<Byte>, c: Byte)
    requires at + maxlen <= |orig| && b == orig[..at] + Take(out, maxlen) + orig[at + |Take(out, maxlen)|..]
    ensures var t := Take(out + [c], maxlen);
      (if |out| < maxlen then b[at + |out| := c] else b) == orig[..at] + t + orig[at + |t|..]
  {
    if |out| < maxlen {
      assert orig[at + |out|..][1..] == orig[at + |out| + 1..];
      ReplaceBehind(orig[..at], out, orig[at + |out|..], c);
      assert orig[..at] + out + [c] == orig[..at] + (out + [c]);
    } else {
      assert (out + [c])[..maxlen] == out[..maxlen];
    }
  }

  // The parameters buffer, currlen and maxlen of the C functions: maxlen bytes of an array from
  // index `at` on.
  class Sink {
    const buffer: array<Byte>
    const at: nat
    const maxlen: nat
    var currlen: nat

    // Everything put out, and the array before that.
    ghost var out: seq<Byte>
    ghost const orig: seq<Byte>

    ghost predicate Valid()
      reads this, buffer
    {
      at + maxlen <= buffer.Length == |orig| && currlen == |out| && Written()
    }

    // The front of the output stands in the buffer, and nothing else has changed.
    ghost predicate Written()
      requires at + maxlen <= buffer.Length == |orig|
      reads this, buffer
    {
      forall k {:trigger Look(k)} :: Look(k) ==>
        buffer[..] == orig[..at] + Take(out, maxlen) + orig[at + |Take(out, maxlen)|..]
    }

    constructor (buffer: array<Byte>, at: nat, maxlen: nat)
      requires at + maxlen <= buffer.Length
      ensures Valid() && this.buffer == buffer && this.at == at && this.maxlen == maxlen
      ensures currlen == 0 && out == [] && orig == buffer[..]
    {
      this.buffer, this.at, this.maxlen := buffer, at, maxlen;
      currlen := 0;
      out, orig := [], buffer[..];
    }

    // dopr_outch
    method Outch(c: Byte)
      requires Valid()
      modifies this, buffer
      ensures Valid() && out == old(out) + [c]
    {
      assert Look(0);
      ghost var b: seq<Byte> := buffer[..];
      OneMoreCharacter(orig, at, maxlen, out, b, c);
      if currlen < maxlen {
        buffer[at + currlen] := c;
        assert buffer[..] == b[at + currlen := c];
      }
      currlen := currlen + 1;
      out := out + [c];
    }

    // The end of dopr: a zero byte behind the text, or at the end of the buffer.
    method Terminate()
      requires Valid()
      modifies buffer
      ensures buffer[..] == Bounded(orig, at, maxlen, out)
    {
      assert Look(0);
      ghost var b: seq<Byte> := buffer[..];
      if maxlen != 0 {
        TerminatedText(orig, at, maxlen, out, b);
        if currlen < maxlen - 1 {
          buffer[at + currlen] := '\0';
          assert buffer[..] == b[at + currlen := '\0'];
        } else {
          buffer[at + maxlen - 1] := '\0';
          assert buffer[..] == b[at + maxlen - 1 := '\0'];
        }
      }
    }

    method OutAll(s: seq<Byte>)
      requires Valid()
      modifies this, buffer
      ensures Valid() && out == old(out) + s
    {
      assert out + s[..0] == out;
      for i := 0 to |s|
        invariant Valid() && out == old(out) + s[..i]
      {
        Outch(s[i]);
        assert s[..i] + [s[i]] == s[..i + 1];
      }
      assert s[..|s|] == s;
    }

    method OutFill(n: int, c: Byte)
      requires Valid()
      modifies this, buffer
      ensures Valid() && out == old(out) + Fill(n, c)
    {
      var k := n;
      assert out + Fill(0, c) == out;
      while k > 0
        invariant n > 0 ==> 0 <= k <= n
        invariant n <= 0 ==> k == n
        invariant Valid() && out == old(out) + Fill(n - Max(k, 0), c)
      {
        Outch(c);
        assert Fill(n - k, c) + [c] == Fill(n - k + 1, c);
        k := k - 1;
      }
    }

    // The padding loops of fmtstr: while (padlen > 0 && cnt < max).
    method OutBlanks(padlen: int, cnt: int, max: int) returns (cnt': int)
      requires Valid()
      modifies this, buffer
      ensures Valid() && cnt' == cnt + |Prefix(Fill(padlen, ' '), max - cnt)|
      ensures out == old(out) + Prefix(Fill(padlen, ' '), max - cnt)
    {
      var k := 0;
      assert out + Fill(0, ' ') == out;
      while padlen > k && cnt + k < max
        invariant 0 <= k && (k > 0 ==> k <= padlen && cnt + k <= max)
        invariant Valid() && out == old(out) + Fill(k, ' ')
      {
        Outch(' ');
        assert Fill(k, ' ') + [' '] == Fill(k + 1, ' ');
        k := k + 1;
      }
      cnt' := cnt + k;
      assert Prefix(Fill(padlen, ' '), max - cnt) == Fill(k, ' ');
    }

    // The text loop of fmtstr: while (*value && cnt < max).
    method OutText(value: seq<Byte>, cnt: int, max: int) returns (cnt': int)
      requires Valid()
      modifies this, buffer
      ensures Valid() && cnt' == cnt + |Prefix(value, max - cnt)|
      ensures out == old(out) + Prefix(value, max - cnt)
    {
      var k := 0;
      assert out + value[..0] == out;
      while k < |value| && cnt + k < max
        invariant 0 <= k <= |value| && (k > 0 ==> cnt + k <= max)
        invariant Valid() && out == old(out) + value[..k]
      {
        Outch(value[k]);
        assert value[..k] + [value[k]] == value[..k + 1];
        k := k + 1;
      }
      cnt' := cnt + k;
      assert Prefix(value, max - cnt) == value[..k];
    }

    // fmtstr
    method Fmtstr(value: seq<Byte>, spec: Spec)
      requires Valid()
      modifies this, buffer
      ensures Valid() && out == old(out) + StrText(value, spec)
    {
      var padlen := Max(spec.min - |value|, 0);
      if MINUS in spec.flags { padlen := -padlen; }
      var cnt := OutBlanks(padlen, 0, spec.max);
      cnt := OutText(value, cnt, spec.max);
      cnt := OutBlanks(-padlen, cnt, spec.max);
      StrTextParts(value, spec, padlen);
      ghost var a := Prefix(Fill(padlen, ' '), spec.max);
      ghost var b := Prefix(value, spec.max - |a|);
      ThreeParts(old(out), a, b, Prefix(Fill(-padlen, ' '), spec.max - |a| - |b|));
    }

    // The digit loop of fmtint: at most 20 digits, least significant first, and the last of 20 is
    // given up.
    static method Convert(uvalue: nat, base: nat, caps: bool) returns (convert: array<Byte>, place: nat)
      requires 2 <= base <= 16
      ensures fresh(convert) && 1 <= place < convert.Length == 20
      ensures Reversed(convert[..place]) == Digits(uvalue, base, caps)
    {
      ghost var high: seq<Byte>;
      convert, place, high := Produce(uvalue, base, caps);
      LastNineteen(Numeral(uvalue, base, caps), high, convert[..place]);
      if place == 20 {
        place := 19;
        assert convert[..20][..19] == convert[..19];
      }
    }

    static method NextDigit(u: nat, base: nat, caps: bool) returns (rest: nat, c: Byte)
      requires 2 <= base <= 16
      ensures rest == u / base && c == DigitChar(u % base, caps)
    {
      c := DigitChar(u % base, caps);
      rest := u / base;
    }

    // One digit of u, in front of which `high` is still to come.
    static method PutDigit(convert: array<Byte>, place: nat, u: nat, base: nat, caps: bool, ghost all: seq<Byte>)
      returns (rest: nat, ghost high: seq<Byte>)
      requires 2 <= base <= 16 && place < 20 == convert.Length
      requires all == Numeral(u, base, caps) + Reversed(convert[..place])
      modifies convert
      ensures rest == u / base && all == high + Reversed(convert[..place + 1])
      ensures high == if rest == 0 then [] else Numeral(rest, base, caps)
    {
      ghost var done := convert[..place];
      var c: Byte;
      rest, c := NextDigit(u, base, caps);
      high := DigitStep(all, u, base, caps, done, rest, c);
      convert[place] := c;
      assert convert[..place + 1] == done + [c];
    }

    static method Produce(uvalue: nat, base: nat, caps: bool) returns (convert: array<Byte>, place: nat, ghost high: seq<Byte>)
      requires 2 <= base <= 16
      ensures fresh(convert) && 1 <= place <= convert.Length == 20 && (high == [] || place == 20)
      ensures Numeral(uvalue, base, caps) == high + Reversed(convert[..place])
    {
      convert := new Byte[20];
      place := 0;
      var u: nat := uvalue;
      var more := true;
      ghost var all := Numeral(uvalue, base, caps);
      high := all;
      assert all == high + Reversed(convert[..0]);
      while more
        invariant 0 <= place <= 20 && (if more then place < 20 else place > 0)
        invariant all == high + Reversed(convert[..place])
        invariant if more then high == Numeral(u, base, caps) else high == [] || place == 20
        decreases 20 - place, more
      {
        u, high := PutDigit(convert, place, u, base, caps, all);
        place := place + 1;
        more := u != 0 && place < 20;
      }
    }

    // The digits are put out from the last to the first.
    method OutDigits(convert: array<Byte>, place: nat)
      requires Valid() && convert != buffer && place <= convert.Length
      modifies this, buffer
      ensures Valid() && out == old(out) + Reversed(convert[..place])
    {
      var k: nat := place;
      ghost var start := out;
      ghost var digits := convert[..place];
      assert digits[..place] == digits && start + [] == start;
      ghost var done := [];
      while k > 0
        invariant k <= place && Valid() && convert[..place] == digits
        invariant out == start + done && Reversed(digits) == done + Reversed(digits[..k])
      {
        k := k - 1;
        ghost var c := digits[k];
        assert digits[..k + 1] == digits[..k] + [c];
        ReversedAppend(digits[..k], c);
        Outch(convert[k]);
        assert start + done + [c] == start + (done + [c]);
        assert done + ([c] + Reversed(digits[..k])) == done + [c] + Reversed(digits[..k]);
        done := done + [c];
      }
      assert digits[..0] == [];
    }

    // fmtint
    method Fmtint(value: int, base: nat, spec: Spec)
      requires Valid() && 2 <= base <= 16
      modifies this, buffer
      ensures Valid() && out == old(out) + IntText(value, base, spec)
    {
      var max := Max(spec.max, 0);
      var sign := SignText(value, spec.flags);
      var convert, place := Convert(Magnitude(value, spec.flags), base, UP in spec.flags);
      ghost var digits := Reversed(convert[..place]);
      var zpadlen := Max(max - place, 0);
      var spadlen := Max(spec.min - Max(max, place) - |sign|, 0);
      if ZERO in spec.flags {
        zpadlen := Max(zpadlen, spadlen);
        spadlen := 0;
      }
      if MINUS in spec.flags {
        spadlen := -spadlen;
      }
      OutField(spadlen, sign, zpadlen, convert, place);
      assert IntField(value, base, spec)
          == Field(Fill(spadlen, ' '), sign, Fill(zpadlen, '0'), digits, Fill(-spadlen, ' '));
    }

    method OutField(spadlen: int, sign: seq<Byte>, zpadlen: int, convert: array<Byte>, place: nat)
      requires Valid() && |sign| <= 1 && convert != buffer && place <= convert.Length
      modifies this, buffer
      ensures Valid() && out == old(out)
        + FieldText(Field(Fill(spadlen, ' '), sign, Fill(zpadlen, '0'), old(Reversed(convert[..place])), Fill(-spadlen, ' ')))
    {
      ghost var start, digits := out, Reversed(convert[..place]);
      OutFill(spadlen, ' ');
      if sign != [] {
        Outch(sign[0]);
      }
      assert out == start + Fill(spadlen, ' ') + sign;
      OutFill(zpadlen, '0');
      OutDigits(convert, place);
      OutFill(-spadlen, ' ');
      FieldParts(start, Field(Fill(spadlen, ' '), sign, Fill(zpadlen, '0'), digits, Fill(-spadlen, ' ')));
    }
  }

  lemma {:induction false} ThreeParts(start: seq<Byte>, a: seq<Byte>, b: seq<Byte>, c: seq<Byte>)
    ensures start + a + b + c == start + (a + b + c)
  {
  }

  lemma {:induction false} FieldParts(start: seq<Byte>, f: Field)
    ensures start + f.lead + f.sign + f.zeros + f.digits + f.trail == start + FieldText(f)
  {
  }

  lemma {:induction false} DigitStep(all: seq<Byte>, u: nat, base: nat, caps: bool, done: seq<Byte>, rest: nat, c: Byte)
    returns (high: seq<Byte>)
    requires 2 <= base <= 16 && all == Numeral(u, base, caps) + Reversed(done)
    requires rest == u / base && c == DigitChar(u % base, caps)
    ensures all == high + Reversed(done + [c])
    ensures high == if rest == 0 then [] else Numeral(rest, base, caps)
  {
    ReversedAppend(done, c);
    if u < base {
      SmallQuotient(u, base);
      high := [];
      assert all == [c] + Reversed(done);
    } else {
      LargeQuotient(u, base);
      high := Numeral(rest, base, caps);
      assert all == high + [c] + Reversed(done);
    }
  }

  lemma SmallQuotient(u: nat, base: nat)
    requires base > 0 && u < base
    ensures u / base == 0 && u % base == u
  {
  }

  lemma LargeQuotient(u: nat, base: nat)
    requires 0 < base <= u
    ensures u / base >= 1
  {
  }

  // The digits left in the buffer when 20 were produced, or fewer.
  lemma {:induction false} LastNineteen(all: seq<Byte>, high: seq<Byte>, convert: seq<Byte>)
    requires all == high + Reversed(convert) && 1 <= |convert| <= 20 && (|convert| < 20 ==> high == [])
    ensures |convert| < 20 ==> Reversed(convert) == all && |all| <= MAX_DIGITS
    ensures |convert| == 20 ==> |all| > MAX_DIGITS && Reversed(convert[..19]) == all[|all| - MAX_DIGITS..]
  {
    if |convert| < 20 {
      assert [] + Reversed(convert) == Reversed(convert);
    } else {
      var c := convert[19];
      assert convert == convert[..19] + [c];
      ReversedAppend(convert[..19], c);
      assert all == high + [c] + Reversed(convert[..19]);
    }
  }

  // ----- dopr ------------------------------------------------------------------------------------

  // The local variables of dopr; f is the format from the current character on.
  class Formatter {
    const fp: FloatText
    const sink: Sink
    var state: State
    var f: seq<Byte>
    var args: seq<Arg>
    var flags: set<Flag>
    var min: int
    var max: int
    var cflags: Modifier

    ghost function Now(): Machine
      reads this
    {
      Machine(state, f, args, Spec(flags, min, max, cflags))
    }

    constructor (fp: FloatText, sink: Sink, format: seq<Byte>, args: seq<Arg>)
      ensures this.fp == fp && this.sink == sink && Now() == Machine(DEFAULT, format, args, NO_SPEC)
    {
      this.fp, this.sink := fp, sink;
      state, f, this.args := DEFAULT, format, args;
      flags, min, max, cflags := {}, 0, -1, NoMod;
    }

    // ch = *format++
    method NextChar()
      requires f != []
      modifies this`f
      ensures f == old(f)[1..]
    {
      f := f[1..];
    }

    method NextArg() returns (a: Arg)
      modifies this`args
      ensures a == FirstArg(old(args)) && args == RestArgs(old(args))
    {
      a := FirstArg(args);
      args := RestArgs(args);
    }

    // One turn of the while loop.
    method Turn()
      requires state != DONE && sink.Valid()
      modifies this, sink, sink.buffer
      ensures sink.Valid() && (Now(), sink.out) == (Step(fp, old(Now())).0, old(sink.out) + Step(fp, old(Now())).1)
    {
      ghost var before := sink.out;
      assert before + [] == before;
      if f == [] {
        state := DONE;
        return;
      }
      var ch := f[0];
      match state
      case DEFAULT =>
        if ch == '%' {
          state := FLAGS;
        } else {
          sink.Outch(ch);
        }
        NextChar();
      case FLAGS =>
        if FlagOf(ch).Some? {
          flags := flags + {FlagOf(ch).value};
          NextChar();
        } else {
          state := MIN;
        }
      case MIN =>
        ReadWidth();
      case DOT =>
        if ch == '.' {
          state := MAX;
          NextChar();
        } else {
          state := MOD;
        }
      case MAX =>
        ReadPrecision();
      case MOD =>
        ReadModifier();
      case CONV =>
        Conversion();
    }

    method ReadWidth()
      requires f != [] && state == MIN
      modifies this
      ensures (Now(), []) == Step(fp, old(Now()))
    {
      var ch := f[0];
      if IsDigit(ch) {
        min := 10 * min + CharToInt(ch);
        NextChar();
      } else if ch == '*' {
        var a := NextArg();
        min := Signed32(IntOf(a));
        NextChar();
        state := DOT;
      } else {
        state := DOT;
      }
    }

    method ReadPrecision()
      requires f != [] && state == MAX
      modifies this
      ensures (Now(), []) == Step(fp, old(Now()))
    {
      var ch := f[0];
      if IsDigit(ch) {
        if max < 0 { max := 0; }
        max := 10 * max + CharToInt(ch);
        NextChar();
      } else if ch == '*' {
        var a := NextArg();
        max := Signed32(IntOf(a));
        NextChar();
        state := MOD;
      } else {
        state := MOD;
      }
    }

    method ReadModifier()
      requires f != []
      modifies this
      ensures Now() == ModifierStep(old(Now()))
    {
      var ch := f[0];
      if ch == 'h' {
        cflags := Short;
        NextChar();
      } else if ch == 'l' {
        cflags := Long;
        NextChar();
        if f != [] && f[0] == 'l' {
          cflags := LLong;
          NextChar();
          assert f == old(f)[2..];
        }
      } else if ch == 'L' {
        cflags := LDouble;
        NextChar();
      }
      state := CONV;
    }

    method Conversion()
      requires f != [] && sink.Valid()
      modifies this, sink, sink.buffer
      ensures sink.Valid() && sink.out == old(sink.out) + ConvText(fp, old(f)[0], old(Now().spec), FirstArg(old(args)))
      ensures f == if old(f)[0] == 'w' && |old(f)| > 1 then old(f)[2..] else old(f)[1..]
      ensures args == if TakesArg(old(f)[0]) then RestArgs(old(args)) else old(args)
      ensures state == DEFAULT && Spec(flags, min, max, cflags) == NO_SPEC
    {
      var ch := f[0];
      Print(ch, Spec(flags, min, max, cflags), FirstArg(args));
      Proceed();
    }

    // What the conversion state does besides printing.
    method Proceed()
      requires f != []
      modifies this
      ensures f == if old(f)[0] == 'w' && |old(f)| > 1 then old(f)[2..] else old(f)[1..]
      ensures args == if TakesArg(old(f)[0]) then RestArgs(old(args)) else old(args)
      ensures state == DEFAULT && Spec(flags, min, max, cflags) == NO_SPEC
    {
      var ch := f[0];
      if TakesArg(ch) {
        args := RestArgs(args);
      }
      NextChar();
      if ch == 'w' && f != [] {
        NextChar();
        assert f == old(f)[2..];
      }
      state := DEFAULT;
      flags, min, max, cflags := {}, 0, -1, NoMod;
    }

    // The switch of the conversion state.
    method Print(ch: Byte, spec: Spec, a: Arg)
      requires sink.Valid()
      modifies sink, sink.buffer
      ensures sink.Valid() && sink.out == old(sink.out) + ConvText(fp, ch, spec, a)
    {
      var unsigned := spec.(flags := spec.flags + {UNSIGNED});
      assert sink.out + [] == sink.out;
      match ch
      case 'd' => sink.Fmtint(SignedArg(a, spec.cflags), 10, spec);
      case 'i' => sink.Fmtint(SignedArg(a, spec.cflags), 10, spec);
      case 'o' => sink.Fmtint(UnsignedArg(a, spec.cflags), 8, unsigned);
      case 'u' => sink.Fmtint(UnsignedArg(a, spec.cflags), 10, unsigned);
      case 'x' => sink.Fmtint(UnsignedArg(a, spec.cflags), 16, unsigned);
      case 'X' => sink.Fmtint(UnsignedArg(a, spec.cflags), 16, unsigned.(flags := unsigned.flags + {UP}));
      case 'f' => sink.OutAll(fp(a, spec));
      case 'c' => sink.Outch((IntOf(a) % 256) as char);
      case 's' =>
        var value: seq<Byte> := if StrOf(a).Some? then StrOf(a).value else "(NULL)";
        var max := spec.max;
        if max == -1 { max := |value|; }
        if spec.min > 0 && max >= 0 && spec.min > max { max := spec.min; }
        sink.Fmtstr(value, spec.(max := max));
      case 'p' => sink.Fmtint(Signed64(IntOf(a)), 16, spec);
      case '%' => sink.Outch(ch);
      case _ =>
    }
  }

  // A machine m that has put out `out` will in all put out `total`.
  ghost predicate Leads(fp: FloatText, out: seq<Byte>, m: Machine, total: seq<Byte>) {
    forall k {:trigger Look(k)} :: Look(k) ==> out + Output(fp, m) == total
  }

  lemma {:induction false} LeadsOn(fp: FloatText, out: seq<Byte>, m: Machine, total: seq<Byte>)
    requires m.state != DONE && Leads(fp, out, m, total)
    ensures Leads(fp, out + Step(fp, m).1, Step(fp, m).0, total)
  {
    assert Look(0);
    var (next, text) := Step(fp, m);
    assert out + (text + Output(fp, next)) == out + text + Output(fp, next);
  }

  lemma {:induction false} LeadsToAll(fp: FloatText, out: seq<Byte>, m: Machine, total: seq<Byte>)
    requires m.state == DONE && Leads(fp, out, m, total)
    ensures out == total
  {
    assert Look(0);
    assert out + [] == out;
  }

  method TurnOf(d: Formatter, ghost total: seq<Byte>)
    requires d.state != DONE && d.sink.Valid() && Leads(d.fp, d.sink.out, d.Now(), total) == true
    modifies d, d.sink, d.sink.buffer
    ensures d.sink.Valid() && Leads(d.fp, d.sink.out, d.Now(), total) == true
    ensures |d.f| < old(|d.f|) || (|d.f| == old(|d.f|) && Rank(d.state) < old(Rank(d.state)))
  {
    LeadsOn(d.fp, d.sink.out, d.Now(), total);
    d.Turn();
  }

  // The loop of dopr.
  method RunOf(d: Formatter, ghost total: seq<Byte>)
    requires d.sink.Valid() && Leads(d.fp, d.sink.out, d.Now(), total) == true
    modifies d, d.sink, d.sink.buffer
    ensures d.sink.Valid() && d.sink.out == total
  {
    while d.state != DONE
      invariant d.sink.Valid() && Leads(d.fp, d.sink.out, d.Now(), total) == true
      decreases |d.f|, Rank(d.state)
    {
      TurnOf(d, total);
    }
    LeadsToAll(d.fp, d.sink.out, d.Now(), total);
  }

  // dopr: what lands in the buffer is the bounded front of the unbounded output; what is returned
  // is the length of the unbounded output, whatever the bound.
  method Dopr(fp: FloatText, buffer: array<Byte>, at: nat, maxlen: nat, format: seq<Byte>, args: seq<Arg>)
    returns (len: nat)
    requires at + maxlen <= buffer.Length && '\0' !in format
    modifies buffer
    ensures len == |Render(fp, format, args)|
    ensures buffer[..] == Bounded(old(buffer[..]), at, maxlen, Render(fp, format, args))
  {
    var sink := new Sink(buffer, at, maxlen);
    RenderInto(fp, sink, format, args);
    sink.Terminate();
    len := sink.currlen;
  }

  method RenderInto(fp: FloatText, sink: Sink, format: seq<Byte>, args: seq<Arg>)
    requires sink.Valid() && sink.out == []
    modifies sink, sink.buffer
    ensures sink.Valid() && sink.out == Render(fp, format, args)
  {
    ghost var total := Render(fp, format, args);
    var d := new Formatter(fp, sink, format, args);
    assert [] + total == total;
    RunOf(d, total);
  }

  // vasprintf: one pass to measure, one into a buffer of that size. Nothing is allocated for an
  // empty text.
  method Vasprintf(fp: FloatText, format: seq<Byte>, args: seq<Arg>) returns (ret: nat, ptr: Option<array<Byte>>)
    requires '\0' !in format
    ensures ret == |Render(fp, format, args)|
    ensures ptr == None <==> Render(fp, format, args) == []
    ensures ptr.Some? ==> fresh(ptr.value) && ptr.value[..] == Render(fp, format, args) + ['\0']
  {
    var nothing := new Byte[0];
    ret := Dopr(fp, nothing, 0, 0, format, args);
    if ret == 0 {
      return ret, None;
    }
    var p := new Byte[ret + 1];
    ret := Dopr(fp, p, 0, ret + 1, format, args);
    assert Take(Render(fp, format, args), ret) == Render(fp, format, args);
    ptr := Some(p);
  }

  // Cutting the padded text is cutting its parts one after the other.
  lemma {:induction false} StrTextParts(value: seq<Byte>, spec: Spec, padlen: int)
    requires padlen == if MINUS in spec.flags then -Max(spec.min - |value|, 0) else Max(spec.min - |value|, 0)
    ensures var a := Prefix(Fill(padlen, ' '), spec.max);
      var b := Prefix(value, spec.max - |a|);
      StrText(value, spec) == a + b + Prefix(Fill(-padlen, ' '), spec.max - |a| - |b|)
  {
    var pad := Fill(spec.min - |value|, ' ');
    PrefixConcat(value, pad, spec.max);
    PrefixConcat(pad, value, spec.max);
    if MINUS in spec.flags {
      assert Fill(-padlen, ' ') == pad && Fill(padlen, ' ') == [];
    } else {
      assert Fill(padlen, ' ') == pad && Fill(-padlen, ' ') == [];
    }
  }

  lemma {:induction false} PrefixConcat(a: seq<Byte>, b: seq<Byte>, n: int)
    ensures Prefix(a + b, n) == Prefix(a, n) + Prefix(b, n - |Prefix(a, n)|)
  {
    if 0 < n < |a + b| && n > |a| {
      assert (a + b)[..n] == a + b[..n - |a|];
    }
  }
}
