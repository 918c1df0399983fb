// The statistics file: counters printed as text over whatever the file held before, and parsed back.
module Stats {
  import opened Common
  import opened Bytes
  import opened Text
  import opened Unify
  import F = Format
  import FormatMeaning
  import FormatCode

  const STATS_END: nat := 23
  const STATS_TOCACHE: nat := 4
  const STATS_NUMFILES: nat := 11
  const STATS_TOTALSIZE: nat := 12
  const STATS_MAXFILES: nat := 13
  const STATS_MAXSIZE: nat := 14
  const DEFAULT_MAXSIZE: nat := 1000000

  type Counters = c: seq<Word> | |c| == STATS_END witness Zero()

  function Zero(): seq<Word> { seq(STATS_END, _ => 0) }

  // ----- the text ------------------------------------------------------------------------------

  function NumbersText(c: seq<Word>): seq<Byte> {
    if c == [] then [] else NumbersText(c[..|c| - 1]) + DecimalText(c[|c| - 1]) + [' ']
  }

  function StatsText(c: seq<Word>): seq<Byte> { NumbersText(c) + ['\n'] }

  lemma {:induction false} NumbersTextAppend(c: seq<Word>, w: Word)
    ensures NumbersText(c + [w]) == NumbersText(c) + DecimalText(w) + [' ']
  {
    assert (c + [w])[..|c|] == c;
  }

  lemma {:induction false} NumbersTextFirst(c: seq<Word>)
    requires c != []
    ensures NumbersText(c) == DecimalText(c[0]) + [' '] + NumbersText(c[1..])
  {
    var front, w := c[..|c| - 1], c[|c| - 1];
    if |c| == 1 {
      assert front == [] && c[1..] == [] && NumbersText([]) == [];
    } else {
      NumbersTextFirst(front);
      assert c[1..] == front[1..] + [w];
      NumbersTextAppend(front[1..], w);
      Reassociated(DecimalText(c[0]) + [' '], NumbersText(front[1..]), DecimalText(w), [' ']);
    }
  }

  lemma Reassociated(a: seq<Byte>, b: seq<Byte>, c: seq<Byte>, d: seq<Byte>)
    ensures a + b + c + d == a + (b + c + d)
  {
  }

  lemma {:induction false} NumbersTextLength(c: seq<Word>)
    ensures |NumbersText(c)| <= 11 * |c|
  {
    if c != [] {
      CountDigits(c[|c| - 1]);
      NumbersTextLength(c[..|c| - 1]);
    }
  }

  // ----- strtol -----------------------------------------------------------------------------------

  const LONG_MAX: int := 0x7fff_ffff_ffff_ffff
  const LONG_MIN: int := -0x8000_0000_0000_0000

  function Clamp(v: int): int { if v > LONG_MAX then LONG_MAX else if v < LONG_MIN then LONG_MIN else v }

  // The value read and the number of characters read; nothing is read when there are no digits.
  function Strtol(s: seq<Byte>): (r: (int, nat))
    ensures r.1 <= |s|
  {
    var a := Run(s, IsSpace, 0);
    var b := if a < |s| && (s[a] == '+' || s[a] == '-') then a + 1 else a;
    var e := Run(s, IsDigit, b);
    var v: int := Value(s[b..e], 10);
    if e == b then (0, 0) else (Clamp(if s[a] == '-' then -v else v), e)
  }

  // White space, a sign if there is one, and digits are read as the number they write, as far as 64 bits
  // hold it.
  lemma {:induction false} StrtolReadsNumbers(w: seq<Byte>, g: seq<Byte>, t: seq<Byte>, rest: seq<Byte>)
    requires (forall i :: 0 <= i < |w| ==> IsSpace(w[i])) && (g == [] || g == ['+'] || g == ['-'])
    requires t != [] && (forall i :: 0 <= i < |t| ==> IsDigit(t[i])) && (rest == [] || !IsDigit(rest[0]))
    ensures var n: int := Value(t, 10);
      var v := if g == ['-'] then -n else n;
      Strtol(w + g + t + rest)
      == (if v >= 0x8000_0000_0000_0000 then 0x7fff_ffff_ffff_ffff else if v < -0x8000_0000_0000_0000 then -0x8000_0000_0000_0000 else v,
          |w| + |g| + |t|)
  {
    var s, b := w + g + t + rest, |w| + |g|;
    SpaceAndSign(s, w, g, t, rest);
    assert forall k :: b <= k < b + |t| ==> s[k] == t[k - b];
    assert rest != [] ==> s[b + |t|] == rest[0];
    RunIs(s, IsDigit, b, b + |t|);
    assert s[b..b + |t|] == t;
  }

  lemma {:induction false} SpaceAndSign(s: seq<Byte>, w: seq<Byte>, g: seq<Byte>, t: seq<Byte>, rest: seq<Byte>)
    requires s == w + g + t + rest && (forall i :: 0 <= i < |w| ==> IsSpace(w[i])) && (g == [] || g == ['+'] || g == ['-'])
    requires t != [] && forall i :: 0 <= i < |t| ==> IsDigit(t[i])
    ensures Run(s, IsSpace, 0) == |w| && (g != [] <==> s[|w|] == '+' || s[|w|] == '-') && (g == ['-'] <==> s[|w|] == '-')
  {
    assert forall k :: 0 <= k < |w| ==> s[k] == w[k];
    assert s[|w|] == if g == [] then t[0] else g[0];
    assert IsDigit(t[0]);
    RunIs(s, IsSpace, 0, |w|);
  }

  // Without a digit there nothing is read.
  lemma {:induction false} StrtolReadsNothing(w: seq<Byte>, rest: seq<Byte>)
    requires (forall i :: 0 <= i < |w| ==> IsSpace(w[i])) && (rest == [] || !(IsSpace(rest[0]) || IsDigit(rest[0])))
    requires |rest| > 1 && (rest[0] == '+' || rest[0] == '-') ==> !IsDigit(rest[1])
    ensures Strtol(w + rest) == (0, 0)
  {
    var s := w + rest;
    assert forall k :: 0 <= k < |w| ==> s[k] == w[k];
    assert rest != [] ==> s[|w|] == rest[0];
    assert |rest| > 1 ==> s[|w| + 1] == rest[1];
    RunIs(s, IsSpace, 0, |w|);
  }

  // A printed number behind at most one blank is read back, up to what follows it.
  lemma {:induction false} StrtolReads(n: Word, blanks: nat, rest: seq<Byte>)
    requires blanks <= 1 && rest != [] && !IsDigit(rest[0])
    ensures Strtol(F.Fill(blanks, ' ') + DecimalText(n) + rest) == (n, blanks + |DecimalText(n)|)
  {
    var t := DecimalText(n);
    var s := F.Fill(blanks, ' ') + t + rest;
    DecimalDigits(n);
    NumeralValue(n, 10, false);
    BlanksAndDigits(s, blanks, t, rest);
    assert s[blanks] == t[0];
    assert s[blanks..blanks + |t|] == t;
  }

  lemma {:induction false} BlanksAndDigits(s: seq<Byte>, blanks: nat, t: seq<Byte>, rest: seq<Byte>)
    requires s == F.Fill(blanks, ' ') + t + rest && t != [] && rest != [] && !IsDigit(rest[0])
    requires forall k :: 0 <= k < |t| ==> IsDigit(t[k])
    ensures Run(s, IsSpace, 0) == blanks && Run(s, IsDigit, blanks) == blanks + |t|
  {
    assert s[blanks] == t[0] && s[blanks + |t|] == rest[0];
    RunIs(s, IsSpace, 0, blanks);
    assert forall k :: blanks <= k < blanks + |t| ==> s[k] == t[k - blanks];
    RunIs(s, IsDigit, blanks, blanks + |t|);
  }

  // ----- parsing ------------------------------------------------------------------------------------

  // parse_stats from counter i on: each number read is added to its counter.
  function Parse(c: seq<Word>, s: seq<Byte>, i: nat): (r: seq<Word>)
    requires i <= |c|
    ensures |r| == |c|
    decreases |c| - i, |s|
  {
    if i == |c| then c
    else
      var (v, used) := Strtol(s);
      var c' := c[i := (c[i] + v) % WORD_MOD];
      if used == 0 then c' else Parse(c', s[used..], i + 1)
  }

  function Plus(v: Word, w: Word): Word { (v + w) % WORD_MOD }

  // The counters with d added to those from number i on.
  function AddedFrom(c: seq<Word>, d: seq<Word>, i: nat): (r: seq<Word>)
    requires i <= |c| && |d| == |c| - i
    ensures |r| == |c|
  {
    seq(|c|, k requires 0 <= k < |c| => if k < i then c[k] else Plus(c[k], d[k - i]))
  }

  // Numbers printed one after the other are added to the counters; what follows them is not read.
  lemma {:induction false} ParseNumbers(c: seq<Word>, d: seq<Word>, i: nat, blanks: nat, junk: seq<Byte>)
    requires i <= |c| && |d| == |c| - i && blanks <= 1
    ensures Parse(c, NumbersAt(blanks, d, junk), i) == AddedFrom(c, d, i)
    decreases |d|
  {
    if d == [] {
      assert AddedFrom(c, d, i) == c;
    } else {
      var c', d' := c[i := Plus(c[i], d[0])], d[1..];
      ParseFirst(c, d, i, blanks, junk);
      ParseNumbers(c', d', i + 1, 1, junk);
      OneMore(c, d, i);
    }
  }

  // The text from some counter on.
  function NumbersAt(blanks: nat, d: seq<Word>, junk: seq<Byte>): seq<Byte> {
    F.Fill(blanks, ' ') + NumbersText(d) + junk
  }

  lemma OneMore(c: seq<Word>, d: seq<Word>, i: nat)
    requires i < |c| && d != []
    requires |d| == |c| - i
    ensures AddedFrom(c[i := Plus(c[i], d[0])], d[1..], i + 1) == AddedFrom(c, d, i)
  {
  }

  lemma {:induction false} FirstNumber(d: seq<Word>, blanks: nat, junk: seq<Byte>)
    requires d != []
    ensures NumbersAt(blanks, d, junk) == F.Fill(blanks, ' ') + DecimalText(d[0]) + NumbersAt(1, d[1..], junk)
  {
    NumbersTextFirst(d);
    FrontNumber(F.Fill(blanks, ' '), DecimalText(d[0]), NumbersText(d[1..]), junk);
  }

  lemma {:induction false} ParseFirst(c: seq<Word>, d: seq<Word>, i: nat, blanks: nat, junk: seq<Byte>)
    requires i < |c| && d != [] && blanks <= 1
    ensures Parse(c, NumbersAt(blanks, d, junk), i) == Parse(c[i := Plus(c[i], d[0])], NumbersAt(1, d[1..], junk), i + 1)
  {
    var t, rest := DecimalText(d[0]), NumbersAt(1, d[1..], junk);
    var s := F.Fill(blanks, ' ') + t + rest;
    FirstNumber(d, blanks, junk);
    StrtolReads(d[0], blanks, rest);
    assert s[blanks + |t|..] == rest;
    ParseOne(c, s, i, d[0], blanks + |t|, rest);
  }

  lemma {:induction false} FrontNumber(a: seq<Byte>, t: seq<Byte>, n: seq<Byte>, junk: seq<Byte>)
    ensures a + (t + [' '] + n) + junk == a + t + (F.Fill(1, ' ') + n + junk)
  {
    assert F.Fill(1, ' ') == [' '];
  }

  lemma {:induction false} ParseOne(c: seq<Word>, s: seq<Byte>, i: nat, w: Word, used: nat, rest: seq<Byte>)
    requires i < |c| && Strtol(s) == (w, used) && 0 < used <= |s| && s[used..] == rest
    ensures Parse(c, s, i) == Parse(c[i := Plus(c[i], w)], rest, i + 1)
  {
  }

  // ----- the file -----------------------------------------------------------------------------------

  // write at offset 0 without truncation.
  function Overwritten(old': seq<Byte>, text: seq<Byte>): seq<Byte> {
    text + (if |old'| > |text| then old'[|text|..] else [])
  }

  // The text is at the front, and the file keeps its length and its rest when it was longer.
  lemma OverwritingKeepsTheRest(old': seq<Byte>, text: seq<Byte>)
    ensures var file := Overwritten(old', text);
      text <= file && (if |old'| <= |text| then file == text else |file| == |old'| && file[|text|..] == old'[|text|..])
  {
  }

  // stats_read_fd: at most 1023 bytes are read, and what they hold is added to the counters; an empty
  // file adds the default size limit.
  function ReadOnto(c: Counters, file: seq<Byte>): (r: seq<Word>)
    ensures |r| == STATS_END
  {
    if file == [] then c[STATS_MAXSIZE := Plus(c[STATS_MAXSIZE], DEFAULT_MAXSIZE / 16)]
    else Parse(c, if |file| <= 1023 then file else file[..1023], 0)
  }

  // An empty file counts as one with a size limit of 62500 kilobytes, a sixteenth of a million.
  lemma {:induction false} EmptyFileReads(k: nat)
    requires k < STATS_END
    ensures ReadOnto(Zero(), [])[k] == if k == 14 then 62500 else 0
  {
    assert Plus(0, DEFAULT_MAXSIZE / 16) == 62500;
  }

  // What is read onto zeroed counters.
  function ReadBack(file: seq<Byte>): (c: seq<Word>)
    ensures |c| == STATS_END
  {
    ReadOnto(Zero(), file)
  }

  // Whatever the file held before, reading adds exactly the counters written last.
  lemma {:induction false} ReadAdds(c: Counters, d: Counters, old': seq<Byte>)
    ensures ReadOnto(c, Overwritten(old', StatsText(d))) == AddedFrom(c, d, 0)
    ensures |StatsText(d)| <= 254
  {
    NumbersTextLength(d);
    var file := Overwritten(old', StatsText(d));
    var read := if |file| <= 1023 then file else file[..1023];
    var n := |NumbersText(d)|;
    var junk := read[n..];
    assert file[..n] == NumbersText(d);
    assert read == NumbersAt(0, d, junk);
    ParseNumbers(c, d, 0, 0, junk);
  }

  // So reading onto zeroed counters gives them back.
  lemma {:induction false} RoundTrip(c: Counters, old': seq<Byte>)
    ensures ReadBack(Overwritten(old', StatsText(c))) == c
    ensures |StatsText(c)| <= 254
  {
    ReadAdds(Zero(), c, old');
    AddedToZero(c);
  }

  lemma {:induction false} AddedToZero(c: Counters)
    ensures AddedFrom(Zero(), c, 0) == c
  {
    assert forall k :: 0 <= k < STATS_END ==> Plus(Zero()[k], c[k]) == c[k];
  }

  // ----- the code -----------------------------------------------------------------------------------

  // The directive "%u".
  const UNSIGNED_NUMBER := FormatMeaning.Directive([], FormatMeaning.NoWidth, FormatMeaning.NoPrecision, F.NoMod, 'u')

  const PLAIN := F.Spec({}, 0, -1, F.NoMod)

  lemma {:induction false} NumberIsConverted(fp: F.FloatText, args: seq<F.Arg>)
    requires args != []
    ensures FormatMeaning.Meaning(fp, UNSIGNED_NUMBER, args) == (F.ConvText(fp, 'u', PLAIN, args[0]), args[1..])
  {
    assert FormatMeaning.FlagSet([]) == {};
  }

  lemma UnsignedWord(w: Word)
    ensures F.UnsignedArg(F.IntArg(w), F.NoMod) == w
  {
  }

  lemma {:induction false} UnsignedConversion(fp: F.FloatText, plain: F.Spec, a: F.Arg, spec: F.Spec)
    requires spec == plain.(flags := plain.flags + {F.UNSIGNED})
    ensures F.ConvText(fp, 'u', plain, a) == F.IntText(F.UnsignedArg(a, plain.cflags), 10, spec)
  {
  }

  lemma {:induction false} UnsignedText(fp: F.FloatText, w: Word, args: seq<F.Arg>)
    requires args != [] && args[0] == F.IntArg(w)
    ensures FormatMeaning.Meaning(fp, UNSIGNED_NUMBER, args) == (DecimalText(w), args[1..])
  {
    var spec := PLAIN.(flags := {F.UNSIGNED});
    NumberIsConverted(fp, args);
    assert PLAIN.flags + {F.UNSIGNED} == spec.flags;
    UnsignedConversion(fp, PLAIN, args[0], spec);
    UnsignedWord(w);
    PlainNumber(w, spec);
  }

  lemma {:induction false} PlainNumber(w: Word, spec: F.Spec)
    requires F.UNSIGNED in spec.flags && F.ZERO !in spec.flags && F.MINUS !in spec.flags && F.UP !in spec.flags
    requires spec.min == 0 && spec.max == -1
    ensures F.IntText(w, 10, spec) == DecimalText(w)
  {
    CountDigits(w);
    SmallMagnitude(w, spec.flags);
    assert F.IntField(w, 10, spec) == F.Field([], [], [], DecimalText(w), []);
  }

  lemma SmallMagnitude(w: Word, flags: set<F.Flag>)
    requires F.UNSIGNED in flags
    ensures F.Magnitude(w, flags) == w
  {
  }

  // snprintf(buf + len, size, "%u ", counter) prints the number and a blank.
  lemma {:induction false} PrintsNumber(fp: F.FloatText, w: Word)
    ensures F.Render(fp, "%u ", [F.IntArg(w)]) == DecimalText(w) + [' ']
  {
    var args := [F.IntArg(w)];
    PrintsDirective(fp, w, args, [' ']);
    PrintsCharacter(fp, ' ', args[1..]);
    ShownNumber();
    assert "%u" + [' '] == "%u ";
  }

  lemma {:induction false} ShownNumber()
    ensures FormatMeaning.Show(UNSIGNED_NUMBER) == "%u"
  {
  }

  lemma {:induction false} PrintsDirective(fp: F.FloatText, w: Word, args: seq<F.Arg>, rest: seq<Byte>)
    requires args != [] && args[0] == F.IntArg(w)
    ensures F.Render(fp, FormatMeaning.Show(UNSIGNED_NUMBER) + rest, args) == DecimalText(w) + F.Render(fp, rest, args[1..])
  {
    UnsignedText(fp, w, args);
    FormatMeaning.ReadDirective(fp, UNSIGNED_NUMBER, rest, args);
  }

  lemma {:induction false} PrintsCharacter(fp: F.FloatText, c: Byte, args: seq<F.Arg>)
    requires c != '%'
    ensures F.Render(fp, [c], args) == [c]
  {
    FormatMeaning.ReadLiteral(fp, c, [], args);
    FormatMeaning.RenderMeaning(fp, [], args);
    assert [c] + [] == [c];
  }

  // A text that fits is appended by the bounded formatter.
  lemma {:induction false} AppendFits(b: seq<Byte>, len: nat, maxlen: nat, text: seq<Byte>)
    requires len + maxlen <= |b| && |text| < maxlen
    ensures var r := FormatCode.Bounded(b, len, maxlen, text);
      |r| == |b| && r[..len + |text|] == b[..len] + text
  {
  }

  method AppendNumber(buf: array<Byte>, len: nat, w: Word) returns (len': nat)
    requires buf.Length == 1024 && len <= 1000
    modifies buf
    ensures len' == len + |DecimalText(w)| + 1 <= len + 11
    ensures buf[..len'] == old(buf[..len]) + DecimalText(w) + [' ']
  {
    var fp: F.FloatText := (a, s) => [];
    PrintsNumber(fp, w);
    CountDigits(w);
    ghost var before := buf[..];
    var n := FormatCode.Dopr(fp, buf, len, 1024 - (len + 1), "%u ", [F.IntArg(w)]);
    AppendFits(before, len, 1024 - (len + 1), DecimalText(w) + [' ']);
    len' := len + n;
    assert buf[..][..len'] == buf[..len'] && before[..len] == old(buf[..len]);
    assert before[..len] + (DecimalText(w) + [' ']) == before[..len] + DecimalText(w) + [' '];
  }

  method AppendNewline(buf: array<Byte>, len: nat) returns (len': nat)
    requires buf.Length == 1024 && len <= 1000
    modifies buf
    ensures len' == len + 1 && buf[..len'] == old(buf[..len]) + ['\n']
  {
    var fp: F.FloatText := (a, s) => [];
    PrintsCharacter(fp, '\n', []);
    ghost var before := buf[..];
    var n := FormatCode.Dopr(fp, buf, len, 1024 - (len + 1), "\n", []);
    AppendFits(before, len, 1024 - (len + 1), ['\n']);
    len' := len + n;
    assert buf[..][..len'] == buf[..len'] && before[..len] == old(buf[..len]);
  }

  // An open statistics file.
  class StatsFile {
    var content: seq<Byte>

    // write_stats. False stands for the call of fatal, which is never reached.
    method WriteStats(counters: array<Word>) returns (ok: bool)
      requires counters.Length == STATS_END
      modifies this
      ensures ok && content == Overwritten(old(content), StatsText(counters[..]))
    {
      var buf := new Byte[1024];
      var len: nat := 0;
      assert counters[..0] == [];
      for i := 0 to STATS_END
        invariant content == old(content) && len <= 11 * i && buf[..len] == NumbersText(counters[..i])
      {
        len := AppendNumber(buf, len, counters[i]);
        NumbersTextAppend(counters[..i], counters[i]);
        assert counters[..i + 1] == counters[..i] + [counters[i]];
        if len >= 1023 {
          return false;
        }
      }
      assert counters[..STATS_END] == counters[..];
      len := AppendNewline(buf, len);
      if len >= 1023 {
        return false;
      }
      content := Overwritten(content, buf[..len]);
      return true;
    }

    // stats_read_fd
    method ReadFd(counters: array<Word>)
      requires counters.Length == STATS_END
      modifies counters
      ensures counters[..] == ReadOnto(old(counters[..]), content)
    {
      var buf := if |content| <= 1023 then content else content[..1023];
      if |buf| <= 0 {
        counters[STATS_MAXSIZE] := Plus(counters[STATS_MAXSIZE], DEFAULT_MAXSIZE / 16);
        return;
      }
      ParseStats(counters, buf);
    }
  }

  method ParseStats(counters: array<Word>, buf: seq<Byte>)
    modifies counters
    ensures counters[..] == Parse(old(counters[..]), buf, 0)
  {
    var p := buf;
    var i := 0;
    while i < counters.Length
      invariant i <= counters.Length
      invariant Parse(old(counters[..]), buf, 0) == Parse(counters[..], p, i)
    {
      var (v, used) := Strtol(p);
      ghost var before := counters[..];
      counters[i] := (counters[i] + v) % WORD_MOD;
      assert counters[..] == before[i := counters[i]];
      if used == 0 {
        return;
      }
      p := p[used..];
      i := i + 1;
    }
  }
}
