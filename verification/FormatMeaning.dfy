// What the format machine means: integer fields, and formats built from literals and directives.
module FormatMeaning {
  import opened Common
  import opened Bytes
  import opened Text
  import opened Format

  // ----- integer fields --------------------------------------------------------------------------

  lemma {:induction false} ValueOfConcat(a: seq<char>, b: seq<char>, base: nat)
    requires base >= 2
    ensures Value(a + b, base) == Value(a, base) * Power(base, |b|) + Value(b, base)
    decreases |b|
  {
    if b == [] {
      assert a + b == a;
    } else {
      var front, c := b[..|b| - 1], b[|b| - 1];
      ValueOfConcat(a, front, base);
      assert (a + b)[..|a + b| - 1] == a + front;
      PowerStep(base, |b|);
      Distribute(base, Value(a, base), Power(base, |front|), Value(front, base));
    }
  }

  lemma Distribute(b: nat, x: nat, p: nat, y: nat)
    ensures b * (x * p + y) == x * (b * p) + b * y
  {
  }

  lemma {:induction false} ValueBound(t: seq<char>, base: nat)
    requires base >= 2 && forall i :: 0 <= i < |t| ==> DigitValue(t[i]) < base
    ensures Value(t, base) < Power(base, |t|)
  {
    if t != [] {
      var front := t[..|t| - 1];
      ValueBound(front, base);
      PowerStep(base, |t|);
      Multiples(base, Value(front, base), Power(base, |front|));
    }
  }

  lemma {:induction false} NumeralDigits(n: nat, base: nat, caps: bool)
    requires 2 <= base <= 16
    ensures forall i :: 0 <= i < |Numeral(n, base, caps)| ==> DigitValue(Numeral(n, base, caps)[i]) < base
    decreases n
  {
    if n < base {
      DigitRoundTrip(n, caps);
    } else {
      NumeralDigits(n / base, base, caps);
      DigitRoundTrip(n % base, caps);
    }
  }

  // The digits shown denote the number modulo base^19; below that bound they are its numeral.
  lemma {:induction false} DigitsMeaning(u: nat, base: nat, caps: bool)
    requires 2 <= base <= 16
    ensures Value(Digits(u, base, caps), base) == u % Power(base, MAX_DIGITS)
    ensures Digits(u, base, caps) == Numeral(u, base, caps) <==> u < Power(base, MAX_DIGITS)
  {
    NumeralLength(u, base, caps, MAX_DIGITS);
    if |Numeral(u, base, caps)| <= MAX_DIGITS {
      AllDigits(u, base, caps);
      SmallRemainder(u, Power(base, MAX_DIGITS));
    } else {
      NumeralValue(u, base, caps);
      LastDigits(Numeral(u, base, caps), base, u, caps);
    }
  }

  lemma {:induction false} AllDigits(u: nat, base: nat, caps: bool)
    requires 2 <= base <= 16 && |Numeral(u, base, caps)| <= MAX_DIGITS
    ensures Digits(u, base, caps) == Numeral(u, base, caps) && Value(Digits(u, base, caps), base) == u
  {
    NumeralValue(u, base, caps);
  }

  lemma SmallRemainder(n: nat, p: nat)
    requires n < p
    ensures n % p == n
  {
  }

  lemma {:induction false} LastDigits(t: seq<Byte>, base: nat, u: nat, caps: bool)
    requires 2 <= base <= 16 && t == Numeral(u, base, caps) && |t| > MAX_DIGITS && Value(t, base) == u
    ensures Digits(u, base, caps) == t[|t| - MAX_DIGITS..] != t
    ensures Value(t[|t| - MAX_DIGITS..], base) == u % Power(base, MAX_DIGITS)
  {
    var high, low := t[..|t| - MAX_DIGITS], t[|t| - MAX_DIGITS..];
    assert t == high + low;
    ValueOfConcat(high, low, base);
    NumeralDigits(u, base, caps);
    ValueBound(low, base);
    var p := Power(base, MAX_DIGITS);
    Commute(Value(high, base), p);
    DivisionIsUnique(u, p, Value(high, base), Value(low, base));
  }

  lemma Commute(a: nat, b: nat)
    ensures a * b == b * a
  {
  }

  lemma {:induction false} LeadingZeros(n: int, t: seq<char>, base: nat)
    requires base >= 2
    ensures Value(Fill(n, '0') + t, base) == Value(t, base)
  {
    ZerosValue(n, base);
    ValueOfConcat(Fill(n, '0'), t, base);
  }

  lemma {:induction false} ZerosValue(n: int, base: nat)
    ensures Value(Fill(n, '0'), base) == 0
    decreases n
  {
    if n > 0 {
      var z := Fill(n, '0');
      assert z[..|z| - 1] == Fill(n - 1, '0');
      ZerosValue(n - 1, base);
      assert base * 0 == 0;
    }
  }

  // A field of fmtint: blanks, a sign that tells negative values, zeros and digits that denote the
  // magnitude modulo base^19, blanks. The precision is always reached.
  lemma {:induction false} FieldMeaning(value: int, base: nat, spec: Spec)
    requires 2 <= base <= 16
    ensures var f := IntField(value, base, spec);
      && (forall i :: 0 <= i < |f.lead| ==> f.lead[i] == ' ')
      && (forall i :: 0 <= i < |f.trail| ==> f.trail[i] == ' ')
      && (f.sign == ['-'] <==> value < 0 && UNSIGNED !in spec.flags)
      && Value(f.zeros + f.digits, base) == Magnitude(value, spec.flags) % Power(base, MAX_DIGITS)
      && |f.zeros + f.digits| >= spec.max
      && (f.lead == [] || f.trail == [])
      && (f.trail != [] ==> MINUS in spec.flags) && (f.lead != [] ==> MINUS !in spec.flags)
  {
    var f := IntField(value, base, spec);
    FieldShape(value, base, spec);
    FieldValue(|f.zeros|, Magnitude(value, spec.flags), base, UP in spec.flags, Power(base, MAX_DIGITS));
  }

  lemma {:induction false} FieldShape(value: int, base: nat, spec: Spec)
    requires 2 <= base <= 16
    ensures var f := IntField(value, base, spec);
      && (forall i :: 0 <= i < |f.lead| ==> f.lead[i] == ' ')
      && (forall i :: 0 <= i < |f.trail| ==> f.trail[i] == ' ')
      && (f.sign == ['-'] <==> value < 0 && UNSIGNED !in spec.flags)
      && f.zeros == Fill(|f.zeros|, '0') && f.digits == Digits(Magnitude(value, spec.flags), base, UP in spec.flags)
      && |f.zeros + f.digits| >= spec.max
      && (f.lead == [] || f.trail == [])
      && (f.trail != [] ==> MINUS in spec.flags) && (f.lead != [] ==> MINUS !in spec.flags)
  {
  }

  lemma {:induction false} FieldValue(zeros: nat, m: nat, base: nat, caps: bool, p: nat)
    requires 2 <= base <= 16 && p == Power(base, MAX_DIGITS)
    ensures Value(Fill(zeros, '0') + Digits(m, base, caps), base) == m % p
  {
    DigitsMeaning(m, base, caps);
    LeadingZeros(zeros, Digits(m, base, caps), base);
  }

  // The field is as wide as asked for, and no wider than sign, precision and digits require, unless
  // a zero flag meets a precision above the number of digits and a width above that: then it is
  // narrower than asked for.
  lemma {:induction false} FieldWidth(value: int, base: nat, spec: Spec)
    requires 2 <= base <= 16
    ensures var f := IntField(value, base, spec);
      var least := |f.sign| + Max(spec.max, |f.digits|);
      var short := ZERO in spec.flags && spec.max > |f.digits| && spec.min > least;
      && (!short ==> |IntText(value, base, spec)| == Max(spec.min, least))
      && (|IntText(value, base, spec)| >= spec.min <==> !short)
  {
  }

  // The least value that loses digits in octal: 2^57 has 20 of them, and prints as 0.
  lemma {:induction false} OctalLosesDigits(caps: bool)
    ensures Power(8, MAX_DIGITS) == 0x200_0000_0000_0000
    ensures Value(Digits(0x200_0000_0000_0000, 8, caps), 8) == 0
  {
    var eight: nat := 8;
    assert Power(eight, 1) == 8 && Power(eight, 2) == 64 && Power(eight, 3) == 512;
    assert Power(eight, 7) == 8 * (8 * (8 * (8 * 512)));
    assert Power(eight, 11) == 8 * (8 * (8 * (8 * Power(eight, 7))));
    assert Power(eight, 15) == 8 * (8 * (8 * (8 * Power(eight, 11))));
    assert Power(eight, 19) == 8 * (8 * (8 * (8 * Power(eight, 15))));
    DigitsMeaning(0x200_0000_0000_0000, 8, caps);
  }

  // ----- strings -------------------------------------------------------------------------------------

  // The text filled up with blanks to the width.
  function Padded(text: seq<Byte>, width: int, left: bool): seq<Byte> {
    if left then text + Fill(width - |text|, ' ') else Fill(width - |text|, ' ') + text
  }

  // What a conversion of a string is for: the string, cut to the precision if there is one, and padded.
  function CutAndPadded(value: seq<Byte>, spec: Spec): seq<Byte> {
    Padded(if spec.max < 0 then value else Prefix(value, spec.max), spec.min, MINUS in spec.flags)
  }

  // What it prints: a precision below the width is raised to the width, and one below -1 leaves nothing.
  lemma {:induction false} StringMeaning(value: seq<Byte>, spec: Spec)
    ensures StringConversion(Some(value), spec)
         == if spec.max < -1 then []
            else CutAndPadded(value, if 0 <= spec.max < spec.min then spec.(max := spec.min) else spec)
  {
    var pad := Fill(spec.min - |value|, ' ');
    assert value + [] == value && [] + value == value;
    if spec.max >= -1 {
      var max := if spec.max == -1 then |value| else spec.max;
      var max' := if spec.min > 0 && spec.min > max then spec.min else max;
      assert |value| < spec.min ==> |pad + value| == |value + pad| == spec.min <= max' || spec.min <= 0;
    }
  }

  // Lengths and specifications for which some string is not printed as it should be.
  predicate Misprints(spec: Spec, n: nat) {
    (0 <= spec.max < spec.min && n > spec.max) || (spec.max < -1 && (n > 0 || spec.min > 0))
  }

  lemma {:induction false} StringIsCutAndPadded(value: seq<Byte>, spec: Spec)
    requires !Misprints(spec, |value|)
    ensures StringConversion(Some(value), spec) == CutAndPadded(value, spec)
  {
    StringMeaning(value, spec);
  }

  lemma {:induction false} SomeStringIsNot(spec: Spec, n: nat)
    requires Misprints(spec, n)
    ensures StringConversion(Some(Fill(n, 'x')), spec) != CutAndPadded(Fill(n, 'x'), spec)
  {
    var value := Fill(n, 'x');
    StringMeaning(value, spec);
    if spec.max >= 0 {
      var printed := StringConversion(Some(value), spec);
      var k := if MINUS in spec.flags then spec.max else Max(spec.min - n, 0);
      assert printed[k] == 'x';
      assert CutAndPadded(value, spec)[k] == ' ';
    }
  }

  // Every string of length n is cut to the precision and padded to the width exactly when this cannot
  // happen: the precision is at least the width or the length, or there is none.
  lemma {:induction false} StringsAreCutAndPadded(spec: Spec, n: nat)
    ensures (forall value: seq<Byte> :: |value| == n ==> StringConversion(Some(value), spec) == CutAndPadded(value, spec))
       <==> !Misprints(spec, n)
  {
    if Misprints(spec, n) {
      SomeStringIsNot(spec, n);
    } else {
      forall value: seq<Byte> | |value| == n
        ensures StringConversion(Some(value), spec) == CutAndPadded(value, spec)
      {
        StringIsCutAndPadded(value, spec);
      }
    }
  }

  // ----- formats as pieces -------------------------------------------------------------------------

  datatype Width = NoWidth | Fixed(n: nat) | Star

  datatype Precision = NoPrecision | Dot | DotFixed(p: nat) | DotStar

  datatype Piece =
    | Literal(c: Byte)
    | Directive(flags: seq<Flag>, width: Width, precision: Precision, cflags: Modifier, conv: Byte)

  // Literals other than '%', widths that do not start with the flag '0', and a conversion character
  // that is no part of the specification in front of it; 'w' is left aside.
  predicate WellFormed(p: Piece) {
    match p
    case Literal(c) => c != '%'
    case Directive(flags, width, precision, cflags, conv) =>
      (forall i :: 0 <= i < |flags| ==> flags[i] in {MINUS, PLUS, SPACE, NUM, ZERO})
      && (width.Fixed? ==> width.n >= 1)
      && FlagOf(conv) == None && !IsDigit(conv) && conv != '*' && conv != '.' && conv != 'h' && conv != 'l' && conv != 'L'
      && conv != 'w'
  }

  function FlagChar(f: Flag): Byte {
    match f
    case MINUS => '-' case PLUS => '+' case SPACE => ' ' case NUM => '#' case _ => '0'
  }

  function ShowFlags(flags: seq<Flag>): seq<Byte> {
    if flags == [] then [] else [FlagChar(flags[0])] + ShowFlags(flags[1..])
  }

  function ShowWidth(w: Width): seq<Byte> {
    match w case NoWidth => [] case Fixed(n) => DecimalText(n) case Star => ['*']
  }

  function ShowPrecision(p: Precision): seq<Byte> {
    match p case NoPrecision => [] case Dot => ['.'] case DotFixed(n) => ['.'] + DecimalText(n) case DotStar => ['.', '*']
  }

  function ShowModifier(m: Modifier): seq<Byte> {
    match m case NoMod => [] case Short => ['h'] case Long => ['l'] case LDouble => ['L'] case LLong => ['l', 'l']
  }

  function Show(p: Piece): seq<Byte> {
    match p
    case Literal(c) => [c]
    case Directive(flags, width, precision, cflags, conv) =>
      ['%'] + ShowFlags(flags) + ShowWidth(width) + ShowPrecision(precision) + ShowModifier(cflags) + [conv]
  }

  function ShowAll(ps: seq<Piece>): seq<Byte> {
    if ps == [] then [] else Show(ps[0]) + ShowAll(ps[1..])
  }

  // ----- their meaning -----------------------------------------------------------------------------

  function WidthOf(w: Width, args: seq<Arg>): (int, seq<Arg>) {
    match w
    case NoWidth => (0, args)
    case Fixed(n) => (n, args)
    case Star => (Signed32(IntOf(FirstArg(args))), RestArgs(args))
  }

  function PrecisionOf(p: Precision, args: seq<Arg>): (int, seq<Arg>) {
    match p
    case NoPrecision => (-1, args)
    case Dot => (-1, args)
    case DotFixed(n) => (n, args)
    case DotStar => (Signed32(IntOf(FirstArg(args))), RestArgs(args))
  }

  function FlagSet(flags: seq<Flag>): set<Flag> { set i | 0 <= i < |flags| :: flags[i] }

  function Meaning(fp: FloatText, p: Piece, args: seq<Arg>): (seq<Byte>, seq<Arg>) {
    match p
    case Literal(c) => ([c], args)
    case Directive(flags, width, precision, cflags, conv) =>
      var (min, a1) := WidthOf(width, args);
      var (max, a2) := PrecisionOf(precision, a1);
      (ConvText(fp, conv, Spec(FlagSet(flags), min, max, cflags), FirstArg(a2)),
       if TakesArg(conv) then RestArgs(a2) else a2)
  }

  function MeaningAll(fp: FloatText, ps: seq<Piece>, args: seq<Arg>): seq<Byte>
    decreases |ps|
  {
    if ps == [] then []
    else
      var (text, rest) := Meaning(fp, ps[0], args);
      text + MeaningAll(fp, ps[1..], rest)
  }

  // ----- the machine reads each part ---------------------------------------------------------------

  lemma {:induction false} ReadFlags(fp: FloatText, flags: seq<Flag>, rest: seq<Byte>, args: seq<Arg>, s: Spec)
    requires forall i :: 0 <= i < |flags| ==> flags[i] in {MINUS, PLUS, SPACE, NUM, ZERO}
    requires rest != [] && FlagOf(rest[0]) == None
    ensures Output(fp, Machine(FLAGS, ShowFlags(flags) + rest, args, s))
         == Output(fp, Machine(MIN, rest, args, s.(flags := s.flags + FlagSet(flags))))
    decreases |flags|
  {
    if flags == [] {
      assert ShowFlags(flags) + rest == rest;
      assert s.flags + FlagSet(flags) == s.flags;
    } else {
      var s' := s.(flags := s.flags + {flags[0]});
      assert ShowFlags(flags) + rest == [FlagChar(flags[0])] + (ShowFlags(flags[1..]) + rest);
      ReadFlag(fp, flags[0], ShowFlags(flags[1..]) + rest, args, s);
      ReadFlags(fp, flags[1..], rest, args, s');
      FirstFlag(flags);
      assert s'.flags + FlagSet(flags[1..]) == s.flags + FlagSet(flags);
    }
  }

  lemma FirstFlag(flags: seq<Flag>)
    requires flags != []
    ensures FlagSet(flags) == {flags[0]} + FlagSet(flags[1..])
  {
    assert flags == [flags[0]] + flags[1..];
  }

  lemma {:induction false} ReadFlag(fp: FloatText, g: Flag, rest: seq<Byte>, args: seq<Arg>, s: Spec)
    requires g in {MINUS, PLUS, SPACE, NUM, ZERO}
    ensures Output(fp, Machine(FLAGS, [FlagChar(g)] + rest, args, s))
         == Output(fp, Machine(FLAGS, rest, args, s.(flags := s.flags + {g})))
  {
    assert ([FlagChar(g)] + rest)[1..] == rest && FlagOf(FlagChar(g)) == Some(g);
    Quiet(fp, Machine(FLAGS, [FlagChar(g)] + rest, args, s), Machine(FLAGS, rest, args, s.(flags := s.flags + {g})));
  }

  lemma {:induction false} ReadMinDigit(fp: FloatText, c: Byte, rest: seq<Byte>, args: seq<Arg>, s: Spec)
    requires IsDigit(c)
    ensures Output(fp, Machine(MIN, [c] + rest, args, s))
         == Output(fp, Machine(MIN, rest, args, s.(min := 10 * s.min + CharToInt(c))))
  {
    assert ([c] + rest)[1..] == rest;
    Quiet(fp, Machine(MIN, [c] + rest, args, s), Machine(MIN, rest, args, s.(min := 10 * s.min + CharToInt(c))));
  }

  lemma {:induction false} ReadMaxDigit(fp: FloatText, c: Byte, rest: seq<Byte>, args: seq<Arg>, s: Spec)
    requires IsDigit(c)
    ensures Output(fp, Machine(MAX, [c] + rest, args, s))
         == Output(fp, Machine(MAX, rest, args, s.(max := 10 * Max(s.max, 0) + CharToInt(c))))
  {
    assert ([c] + rest)[1..] == rest;
    Quiet(fp, Machine(MAX, [c] + rest, args, s), Machine(MAX, rest, args, s.(max := 10 * Max(s.max, 0) + CharToInt(c))));
  }

  // What reading decimal digits makes of a number.
  function Accumulated(n: nat, t: seq<char>): nat
    requires AllDecimal(t)
    decreases |t|
  {
    if t == [] then n else Accumulated(10 * n + CharToInt(t[0]), t[1..])
  }

  lemma {:induction false} AccumulatedAppend(n: nat, t: seq<char>, c: char)
    requires AllDecimal(t + [c])
    ensures AllDecimal(t) && Accumulated(n, t + [c]) == 10 * Accumulated(n, t) + CharToInt(c)
    decreases |t|
  {
    assert forall i :: 0 <= i < |t| ==> t[i] == (t + [c])[i];
    assert c == (t + [c])[|t|];
    if t == [] {
      assert [c][1..] == [];
    } else {
      assert (t + [c])[1..] == t[1..] + [c];
      AccumulatedAppend(10 * n + CharToInt(t[0]), t[1..], c);
    }
  }

  lemma {:induction false} AccumulatedIsValue(t: seq<char>)
    requires AllDecimal(t)
    ensures Accumulated(0, t) == Value(t, 10)
    decreases |t|
  {
    if t != [] {
      var front, c := t[..|t| - 1], t[|t| - 1];
      assert t == front + [c];
      AccumulatedAppend(0, front, c);
      AccumulatedIsValue(front);
    }
  }

  lemma {:induction false} ReadMin(fp: FloatText, t: seq<Byte>, rest: seq<Byte>, args: seq<Arg>, s: Spec)
    requires AllDecimal(t) && s.min >= 0
    ensures Output(fp, Machine(MIN, t + rest, args, s))
         == Output(fp, Machine(MIN, rest, args, s.(min := Accumulated(s.min, t))))
    decreases |t|
  {
    if t == [] {
      assert t + rest == rest;
    } else {
      var c, tail := t[0], t[1..];
      assert t + rest == [c] + (tail + rest);
      ReadMinDigit(fp, c, tail + rest, args, s);
      ReadMin(fp, tail, rest, args, s.(min := 10 * s.min + CharToInt(c)));
    }
  }

  lemma {:induction false} ReadMax(fp: FloatText, t: seq<Byte>, rest: seq<Byte>, args: seq<Arg>, s: Spec)
    requires AllDecimal(t) && t != []
    ensures Output(fp, Machine(MAX, t + rest, args, s))
         == Output(fp, Machine(MAX, rest, args, s.(max := Accumulated(Max(s.max, 0), t))))
    decreases |t|
  {
    assert t + rest == [t[0]] + (t[1..] + rest);
    ReadMaxDigit(fp, t[0], t[1..] + rest, args, s);
    if |t| > 1 {
      ReadMax(fp, t[1..], rest, args, s.(max := 10 * Max(s.max, 0) + CharToInt(t[0])));
    } else {
      assert t[1..] + rest == rest && t[1..] == [];
    }
  }

  // A machine step that puts out nothing.
  lemma {:induction false} Quiet(fp: FloatText, m: Machine, next: Machine)
    requires m.state != DONE && Step(fp, m) == (next, [])
    ensures Output(fp, m) == Output(fp, next)
  {
    assert [] + Output(fp, next) == Output(fp, next);
  }

  // The characters that may follow the width, the precision and the modifier.
  predicate AfterWidth(rest: seq<Byte>) { rest != [] && !IsDigit(rest[0]) && rest[0] != '*' }

  lemma {:induction false} ReadWidth(fp: FloatText, w: Width, rest: seq<Byte>, args: seq<Arg>, s: Spec)
    requires s.min == 0 && AfterWidth(rest) && (w.Fixed? ==> w.n >= 1)
    ensures var (min, args') := WidthOf(w, args);
      Output(fp, Machine(MIN, ShowWidth(w) + rest, args, s)) == Output(fp, Machine(Format.DOT, rest, args', s.(min := min)))
  {
    match w
    case NoWidth =>
      assert ShowWidth(w) + rest == rest;
      Quiet(fp, Machine(MIN, rest, args, s), Machine(Format.DOT, rest, args, s));
    case Fixed(n) =>
      var t := DecimalText(n);
      DecimalDigits(n);
      NumeralValue(n, 10, false);
      AccumulatedIsValue(t);
      ReadMin(fp, t, rest, args, s);
      var s' := s.(min := n);
      Quiet(fp, Machine(MIN, rest, args, s'), Machine(Format.DOT, rest, args, s'));
    case Star =>
      assert (['*'] + rest)[1..] == rest;
      Quiet(fp, Machine(MIN, ['*'] + rest, args, s),
            Machine(Format.DOT, rest, RestArgs(args), s.(min := Signed32(IntOf(FirstArg(args))))));
  }

  predicate AfterPrecision(rest: seq<Byte>) { AfterWidth(rest) && rest[0] != '.' }

  lemma {:induction false} ReadMaximum(fp: FloatText, n: nat, rest: seq<Byte>, args: seq<Arg>, s: Spec)
    requires s.max == -1 && AfterPrecision(rest)
    ensures Output(fp, Machine(MAX, DecimalText(n) + rest, args, s)) == Output(fp, Machine(MOD, rest, args, s.(max := n)))
  {
    var t, s' := DecimalText(n), s.(max := n);
    DecimalDigits(n);
    NumeralValue(n, 10, false);
    AccumulatedIsValue(t);
    ReadMax(fp, t, rest, args, s);
    Quiet(fp, Machine(MAX, rest, args, s'), Machine(MOD, rest, args, s'));
  }

  lemma {:induction false} ReadPrecision(fp: FloatText, p: Precision, rest: seq<Byte>, args: seq<Arg>, s: Spec)
    requires s.max == -1 && AfterPrecision(rest)
    ensures var (max, args') := PrecisionOf(p, args);
      Output(fp, Machine(Format.DOT, ShowPrecision(p) + rest, args, s)) == Output(fp, Machine(MOD, rest, args', s.(max := max)))
  {
    if p == NoPrecision {
      assert ShowPrecision(p) + rest == rest;
      Quiet(fp, Machine(Format.DOT, rest, args, s), Machine(MOD, rest, args, s));
      return;
    }
    var tail := (match p case DotFixed(n) => DecimalText(n) case DotStar => ['*'] case _ => []) + rest;
    assert ShowPrecision(p) + rest == ['.'] + tail && (['.'] + tail)[1..] == tail;
    Quiet(fp, Machine(Format.DOT, ['.'] + tail, args, s), Machine(MAX, tail, args, s));
    match p
    case Dot =>
      assert tail == rest;
      Quiet(fp, Machine(MAX, rest, args, s), Machine(MOD, rest, args, s));
    case DotFixed(n) =>
      ReadMaximum(fp, n, rest, args, s);
    case DotStar =>
      assert tail == ['*'] + rest && tail[1..] == rest;
      Quiet(fp, Machine(MAX, tail, args, s),
            Machine(MOD, rest, RestArgs(args), s.(max := Signed32(IntOf(FirstArg(args))))));
  }

  lemma {:induction false} ReadModifier(fp: FloatText, md: Modifier, conv: Byte, rest: seq<Byte>, args: seq<Arg>, s: Spec)
    requires s.cflags == NoMod && conv != 'h' && conv != 'l' && conv != 'L'
    ensures Output(fp, Machine(MOD, ShowModifier(md) + ([conv] + rest), args, s))
         == Output(fp, Machine(CONV, [conv] + rest, args, s.(cflags := md)))
  {
    var f := ShowModifier(md) + ([conv] + rest);
    ModifierIsRead(Machine(MOD, f, args, s), md, conv, [conv] + rest);
    Quiet(fp, Machine(MOD, f, args, s), Machine(CONV, [conv] + rest, args, s.(cflags := md)));
  }

  lemma {:induction false} ModifierIsRead(m: Machine, md: Modifier, conv: Byte, tail: seq<Byte>)
    requires m.f == ShowModifier(md) + tail && tail != [] && tail[0] == conv
    requires m.spec.cflags == NoMod && conv != 'h' && conv != 'l' && conv != 'L'
    ensures ModifierStep(m) == m.(state := CONV, f := tail, spec := m.spec.(cflags := md))
  {
    assert m.f[|ShowModifier(md)|..] == tail;
    match md
    case NoMod =>
    case Short =>
    case Long => assert m.f[1] == conv;
    case LDouble =>
    case LLong =>
  }

  function SpecText(p: Piece, f4: seq<Byte>): seq<Byte>
    requires p.Directive?
  {
    ShowFlags(p.flags) + (ShowWidth(p.width) + (ShowPrecision(p.precision) + (ShowModifier(p.cflags) + f4)))
  }

  lemma {:induction false} ShowParts(p: Piece, rest: seq<Byte>)
    requires p.Directive?
    ensures Show(p) + rest == ['%'] + SpecText(p, [p.conv] + rest)
  {
    var a, b, c, d := ShowFlags(p.flags), ShowWidth(p.width), ShowPrecision(p.precision), ShowModifier(p.cflags);
    FirstParts(['%'], a, b, c + (d + ([p.conv] + rest)));
    FirstParts(['%'] + a + b, c, d, [p.conv] + rest);
    Regrouped(['%'] + a + b + c + d, [p.conv], rest);
  }

  lemma Regrouped(a: seq<Byte>, b: seq<Byte>, c: seq<Byte>)
    ensures a + b + c == a + (b + c)
  {
  }

  lemma FirstParts(a: seq<Byte>, b: seq<Byte>, c: seq<Byte>, d: seq<Byte>)
    ensures a + b + c + d == a + (b + (c + d))
  {
    Regrouped(a, b, c);
    Regrouped(a, b + c, d);
    Regrouped(b, c, d);
  }

  lemma {:induction false} ReadPercent(fp: FloatText, f: seq<Byte>, args: seq<Arg>)
    ensures Render(fp, ['%'] + f, args) == Output(fp, Machine(FLAGS, f, args, NO_SPEC))
  {
    assert (['%'] + f)[1..] == f;
    Quiet(fp, Machine(DEFAULT, ['%'] + f, args, NO_SPEC), Machine(FLAGS, f, args, NO_SPEC));
  }

  // The specification part of a directive, up to its conversion character.
  lemma {:induction false} ReadSpec(fp: FloatText, p: Piece, f4: seq<Byte>, args: seq<Arg>)
    requires WellFormed(p) && p.Directive? && f4 != [] && f4[0] == p.conv
    ensures var (min, a1) := WidthOf(p.width, args);
      var (max, a2) := PrecisionOf(p.precision, a1);
      Output(fp, Machine(FLAGS, SpecText(p, f4), args, NO_SPEC))
      == Output(fp, Machine(CONV, f4, a2, Spec(FlagSet(p.flags), min, max, p.cflags)))
  {
    var (min, a1) := WidthOf(p.width, args);
    var (max, a2) := PrecisionOf(p.precision, a1);
    var f3 := ShowModifier(p.cflags) + f4;
    var f2 := ShowPrecision(p.precision) + f3;
    var f1 := ShowWidth(p.width) + f2;
    assert f4 == [p.conv] + f4[1..];
    AfterParts(p, f4[1..]);
    var s := Spec(FlagSet(p.flags), 0, -1, NoMod);
    assert NO_SPEC.(flags := NO_SPEC.flags + FlagSet(p.flags)) == s;
    ReadFlags(fp, p.flags, f1, args, NO_SPEC);
    ReadWidth(fp, p.width, f2, args, s);
    ReadPrecision(fp, p.precision, f3, a1, s.(min := min));
    ReadModifier(fp, p.cflags, p.conv, f4[1..], a2, s.(min := min, max := max));
  }

  // One directive in front of any format prints its meaning, and the rest goes on with the
  // arguments that are left.
  lemma {:induction false} ReadDirective(fp: FloatText, p: Piece, rest: seq<Byte>, args: seq<Arg>)
    requires WellFormed(p) && p.Directive?
    ensures var (text, args') := Meaning(fp, p, args);
      Render(fp, Show(p) + rest, args) == text + Render(fp, rest, args')
  {
    var (min, a1) := WidthOf(p.width, args);
    var (max, a2) := PrecisionOf(p.precision, a1);
    ShowParts(p, rest);
    ReadPercent(fp, SpecText(p, [p.conv] + rest), args);
    ReadSpec(fp, p, [p.conv] + rest, args);
    ReadConversion(fp, p.conv, rest, a2, Spec(FlagSet(p.flags), min, max, p.cflags));
  }

  lemma {:induction false} AfterParts(p: Piece, rest: seq<Byte>)
    requires WellFormed(p) && p.Directive?
    ensures var f3 := ShowModifier(p.cflags) + ([p.conv] + rest);
      var f2 := ShowPrecision(p.precision) + f3;
      var f1 := ShowWidth(p.width) + f2;
      AfterPrecision(f3) && AfterWidth(f2) && FlagOf(f2[0]) == None && f1 != [] && FlagOf(f1[0]) == None
  {
    if p.width.Fixed? { LeadingDigit(p.width.n); }
  }

  // A positive number is not printed with a leading zero.
  lemma {:induction false} LeadingDigit(n: nat)
    requires n >= 1
    ensures '1' <= DecimalText(n)[0] <= '9'
  {
    if n >= 10 { LeadingDigit(n / 10); }
  }

  lemma {:induction false} ReadConversion(fp: FloatText, conv: Byte, rest: seq<Byte>, args: seq<Arg>, s: Spec)
    requires conv != 'w'
    ensures Output(fp, Machine(CONV, [conv] + rest, args, s))
         == ConvText(fp, conv, s, FirstArg(args)) + Render(fp, rest, if TakesArg(conv) then RestArgs(args) else args)
  {
    assert ([conv] + rest)[1..] == rest;
  }

  lemma {:induction false} ReadLiteral(fp: FloatText, c: Byte, rest: seq<Byte>, args: seq<Arg>)
    requires c != '%'
    ensures Render(fp, [c] + rest, args) == [c] + Render(fp, rest, args)
  {
    assert ([c] + rest)[1..] == rest;
  }

  // A format made of well-formed pieces prints what its pieces mean, in order.
  lemma {:induction false} RenderMeaning(fp: FloatText, ps: seq<Piece>, args: seq<Arg>)
    requires forall i :: 0 <= i < |ps| ==> WellFormed(ps[i])
    ensures Render(fp, ShowAll(ps), args) == MeaningAll(fp, ps, args)
    decreases |ps|
  {
    if ps == [] {
      var m := Machine(DEFAULT, [], args, NO_SPEC);
      Quiet(fp, m, m.(state := DONE));
    } else {
      var rest := ShowAll(ps[1..]);
      if ps[0].Literal? {
        ReadLiteral(fp, ps[0].c, rest, args);
      } else {
        ReadDirective(fp, ps[0], rest, args);
      }
      RenderMeaning(fp, ps[1..], Meaning(fp, ps[0], args).1);
    }
  }

  // A zero flag, a precision and a width: seven characters where ten are asked for.
  lemma {:induction false} NarrowField(fp: FloatText)
    ensures Render(fp, "%010.5d", [IntArg(42)]) == "0000042"
  {
    var p := Directive([ZERO], Fixed(10), DotFixed(5), NoMod, 'd');
    var spec := Spec({ZERO}, 10, 5, NoMod);
    NarrowDirective(p);
    assert FlagSet([ZERO]) == {ZERO};
    assert Meaning(fp, p, [IntArg(42)]).0 == IntText(42, 10, spec);
    NarrowText(spec);
    assert ShowAll([p]) == Show(p) + ShowAll([]) == "%010.5d";
    RenderMeaning(fp, [p], [IntArg(42)]);
    assert MeaningAll(fp, [p], [IntArg(42)]) == Meaning(fp, p, [IntArg(42)]).0 + [];
  }

  lemma {:induction false} NarrowDirective(p: Piece)
    requires p == Directive([ZERO], Fixed(10), DotFixed(5), NoMod, 'd')
    ensures Show(p) == "%010.5d" && WellFormed(p)
  {
    assert DecimalText(10) == "10" && DecimalText(5) == "5";
    assert ShowFlags([ZERO]) == "0";
  }

  lemma {:induction false} NarrowText(spec: Spec)
    requires spec == Spec({ZERO}, 10, 5, NoMod)
    ensures IntText(42, 10, spec) == "0000042"
  {
    NarrowDigits(42);
    assert Fill(5, '0') == "00000";
    assert IntField(42, 10, spec) == Field([], [], "00000", "42", []);
  }

  lemma {:induction false} NarrowDigits(n: nat)
    requires n == 42
    ensures Magnitude(n, {ZERO}) == n && Digits(n, 10, false) == "42"
  {
    assert Numeral(n / 10, 10, false) == "4";
    assert Numeral(n, 10, false) == "42";
  }
}
