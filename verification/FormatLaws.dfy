// What the formatter prints for literal formats: numbers by their digits, signs, zeros and blanks, characters
// and strings.
module FormatLaws {
  import opened Common
  import opened Bytes
  import opened Text
  import opened Format
  import opened FormatMeaning

  // ----- numerals over an alphabet -------------------------------------------------------------------

  const LOWER: seq<Byte> := "0123456789abcdef"
  const UPPER: seq<Byte> := "0123456789ABCDEF"

  // The numeral of n in a base, with the digits of an alphabet, most significant first.
  function NumeralOver(digits: seq<Byte>, base: nat, n: nat): (t: seq<Byte>)
    requires 2 <= base <= |digits|
    ensures t != []
    decreases n
  {
    QuotientIsLess(n, base);
    if n < base then [digits[n]] else NumeralOver(digits, base, n / base) + [digits[n % base]]
  }

  lemma QuotientIsLess(n: nat, b: nat)
    requires 2 <= b
    ensures 0 <= n % b < b && 0 <= n / b && (n >= b ==> n / b < n)
  {
    var q := n / b;
    assert n == b * q + n % b;
    assert b * q == 2 * q + (b - 2) * q;
  }

  lemma LowerDigit(digits: seq<Byte>, d: nat)
    requires digits == LOWER && d < 16
    ensures |digits| == 16 && DigitChar(d, false) == digits[d]
  {
  }

  lemma UpperDigit(digits: seq<Byte>, d: nat)
    requires digits == UPPER && d < 16
    ensures |digits| == 16 && DigitChar(d, true) == digits[d]
  {
  }

  lemma {:induction false} LowerNumeral(digits: seq<Byte>, base: nat, n: nat)
    requires digits == LOWER && 2 <= base <= 16 == |digits|
    ensures Numeral(n, base, false) == NumeralOver(digits, base, n)
    decreases n
  {
    if n < base {
      LowerDigit(digits, n);
    } else {
      LowerNumeral(digits, base, n / base);
      LowerDigit(digits, n % base);
    }
  }

  lemma {:induction false} UpperNumeral(digits: seq<Byte>, base: nat, n: nat)
    requires digits == UPPER && 2 <= base <= 16 == |digits|
    ensures Numeral(n, base, true) == NumeralOver(digits, base, n)
    decreases n
  {
    if n < base {
      UpperDigit(digits, n);
    } else {
      UpperNumeral(digits, base, n / base);
      UpperDigit(digits, n % base);
    }
  }

  // Two digits of a byte, as in the text of a digest.
  lemma {:induction false} HexOfByte(b: Byte)
    ensures |LOWER| == 16 && HexByte(b) == [LOWER[b as int / 16], LOWER[b as int % 16]]
  {
    LowerDigit(LOWER, b as int / 16);
    LowerDigit(LOWER, b as int % 16);
  }

  function InLower(base: nat, n: nat): seq<Byte>
    requires 2 <= base <= 16
  {
    NumeralOver(LOWER, base, n)
  }

  function InUpper(n: nat): seq<Byte> { NumeralOver(UPPER, 16, n) }

  function AbsoluteValue(v: int): nat { if v < 0 then -v else v }

  // A number in decimal, with a minus sign when it is negative.
  function Decimal(v: int): seq<Byte> { (if v < 0 then "-" else "") + InLower(10, AbsoluteValue(v)) }

  // ----- nineteen digits are enough ------------------------------------------------------------------

  lemma PowerStepUp(a: nat, b: nat, p: nat, q: nat)
    requires a <= b && p <= q
    ensures a * p <= b * q
  {
    assert b * q == a * p + a * (q - p) + (b - a) * q;
  }

  lemma {:induction false} PowerGrows(a: nat, b: nat, k: nat)
    requires 2 <= a <= b
    ensures Power(a, k) <= Power(b, k)
  {
    if k > 0 {
      PowerGrows(a, b, k - 1);
      PowerStepUp(a, b, Power(a, k - 1), Power(b, k - 1));
    }
  }

  lemma {:induction false} DecimalRoom(ten: nat)
    requires ten == 10
    ensures Power(ten, MAX_DIGITS) == 10_000_000_000_000_000_000
  {
    assert Power(ten, 1) == 10 && Power(ten, 2) == 100 && Power(ten, 3) == 1_000;
    assert Power(ten, 7) == 10 * (10 * (10 * (10 * Power(ten, 3))));
    assert Power(ten, 11) == 10 * (10 * (10 * (10 * Power(ten, 7))));
    assert Power(ten, 15) == 10 * (10 * (10 * (10 * Power(ten, 11))));
    assert Power(ten, 19) == 10 * (10 * (10 * (10 * Power(ten, 15))));
  }

  lemma {:induction false} HexRoom(sixteen: nat)
    requires sixteen == 16
    ensures Power(sixteen, MAX_DIGITS) >= 0x1_0000_0000_0000_0000
  {
    assert Power(sixteen, 1) == 16 && Power(sixteen, 2) == 0x100 && Power(sixteen, 3) == 0x1000;
    assert Power(sixteen, 7) == 16 * (16 * (16 * (16 * Power(sixteen, 3))));
    assert Power(sixteen, 11) == 16 * (16 * (16 * (16 * Power(sixteen, 7))));
    assert Power(sixteen, 15) == 16 * (16 * (16 * (16 * Power(sixteen, 11))));
    assert Power(sixteen, 19) == 16 * (16 * (16 * (16 * Power(sixteen, 15))));
  }

  // What fits the conversion buffer of a numeral.
  function LastNineteen(t: seq<Byte>): seq<Byte> { if |t| <= 19 then t else t[|t| - 19..] }

  lemma {:induction false} LowerDigits(base: nat, n: nat)
    requires 2 <= base <= 16
    ensures Digits(n, base, false) == LastNineteen(InLower(base, n))
    ensures Digits(n, base, false) == InLower(base, n) <==> n < Power(base, MAX_DIGITS)
  {
    NumeralLength(n, base, false, MAX_DIGITS);
    LowerNumeral(LOWER, base, n);
  }

  lemma {:induction false} UpperDigits(base: nat, n: nat)
    requires base == 16 && n < Power(base, MAX_DIGITS)
    ensures Digits(n, base, true) == InUpper(n)
  {
    AllDigitsShown(base, n, true);
    UpperNumeral(UPPER, base, n);
  }

  lemma {:induction false} AllDigitsShown(base: nat, n: nat, caps: bool)
    requires 2 <= base <= 16 && n < Power(base, MAX_DIGITS)
    ensures Digits(n, base, caps) == Numeral(n, base, caps)
  {
    NumeralLength(n, base, caps, MAX_DIGITS);
  }

  // ----- one directive -------------------------------------------------------------------------------

  lemma {:induction false} OneDirective(fp: FloatText, p: Piece, args: seq<Arg>)
    requires WellFormed(p)
    ensures Render(fp, Show(p), args) == Meaning(fp, p, args).0
  {
    var t := Meaning(fp, p, args).0;
    assert ShowAll([p]) == Show(p) + ShowAll([]) == Show(p);
    RenderMeaning(fp, [p], args);
    assert MeaningAll(fp, [p], args) == t + [];
  }

  function Plain(m: Modifier, conv: Byte): Piece { Directive([], NoWidth, NoPrecision, m, conv) }

  lemma {:induction false} PlainDirective(fp: FloatText, m: Modifier, conv: Byte, a: Arg)
    requires WellFormed(Plain(m, conv))
    ensures Render(fp, ['%'] + ShowModifier(m) + [conv], [a]) == ConvText(fp, conv, Spec({}, 0, -1, m), a)
  {
    var p := Plain(m, conv);
    assert Show(p) == ['%'] + [] + [] + [] + ShowModifier(m) + [conv] == ['%'] + ShowModifier(m) + [conv];
    assert FlagSet([]) == {};
    OneDirective(fp, p, [a]);
  }

  // A field without a width and a precision is sign and digits.
  lemma {:induction false} BareField(value: int, base: nat, spec: Spec)
    requires 2 <= base <= 16 && spec.min == 0 && spec.max == -1 && ZERO !in spec.flags && MINUS !in spec.flags
    ensures IntText(value, base, spec) == SignText(value, spec.flags) + Digits(Magnitude(value, spec.flags), base, UP in spec.flags)
  {
    var sign, digits := SignText(value, spec.flags), Digits(Magnitude(value, spec.flags), base, UP in spec.flags);
    BareParts(value, base, spec, sign, digits);
    FieldOfParts([], sign, [], digits, []);
    assert sign + [] == sign;
  }

  lemma {:induction false} BareParts(value: int, base: nat, spec: Spec, sign: seq<Byte>, digits: seq<Byte>)
    requires 2 <= base <= 16 && spec.min == 0 && spec.max == -1 && ZERO !in spec.flags && MINUS !in spec.flags
    requires sign == SignText(value, spec.flags) && digits == Digits(Magnitude(value, spec.flags), base, UP in spec.flags)
    ensures IntField(value, base, spec) == Field([], sign, [], digits, [])
  {
    assert Fill(0, ' ') == [] && Fill(0, '0') == [];
  }

  lemma In32(v: int)
    ensures -0x8000_0000 <= v < 0x8000_0000 ==> Signed32(v) == v
    ensures 0 <= v < 0x1_0000_0000 ==> Unsigned32(v) == v
  {
  }

  lemma In64(v: int)
    ensures -0x8000_0000_0000_0000 <= v < 0x8000_0000_0000_0000 ==> Signed64(v) == v
    ensures 0 <= v < 0x1_0000_0000_0000_0000 ==> Signed64(v) % 0x1_0000_0000_0000_0000 == v
  {
  }

  // Fits 32 bits without a modifier or with h, and 64 bits with l or ll.
  predicate FitsSigned(m: Modifier, v: int) {
    if m == Long || m == LLong then -0x8000_0000_0000_0000 <= v < 0x8000_0000_0000_0000 else -0x8000_0000 <= v < 0x8000_0000
  }

  predicate FitsUnsigned(m: Modifier, v: int) {
    if m == Long || m == LLong then 0 <= v < 0x1_0000_0000_0000_0000 else 0 <= v < 0x1_0000_0000
  }

  // ----- signed numbers ------------------------------------------------------------------------------

  lemma {:induction false} SignedConversion(fp: FloatText, c: Byte, spec: Spec, v: int)
    requires (c == 'd' || c == 'i') && FitsSigned(spec.cflags, v)
    ensures ConvText(fp, c, spec, IntArg(v)) == IntText(v, 10, spec)
  {
    In32(v);
    In64(v);
  }

  lemma SignedMagnitude(v: int, flags: set<Flag>)
    requires -0x8000_0000_0000_0000 <= v < 0x8000_0000_0000_0000 && UNSIGNED !in flags
    ensures Magnitude(v, flags) == AbsoluteValue(v)
  {
  }

  lemma {:induction false} SignedDigits(v: int, flags: set<Flag>)
    requires -0x8000_0000_0000_0000 <= v < 0x8000_0000_0000_0000 && UNSIGNED !in flags
    ensures Digits(Magnitude(v, flags), 10, false) == InLower(10, AbsoluteValue(v))
  {
    SignedMagnitude(v, flags);
    DecimalRoom(10);
    LowerDigits(10, AbsoluteValue(v));
  }

  lemma {:induction false} SignedPrints(fp: FloatText, m: Modifier, c: Byte, v: int)
    requires (c == 'd' || c == 'i') && FitsSigned(m, v)
    ensures Render(fp, ['%'] + ShowModifier(m) + [c], [IntArg(v)]) == Decimal(v)
  {
    var spec := Spec({}, 0, -1, m);
    PlainDirective(fp, m, c, IntArg(v));
    SignedConversion(fp, c, spec, v);
    BareField(v, 10, spec);
    SignedDigits(v, {});
  }

  // "%d" and "%i" print every int in decimal.
  lemma {:induction false} IntPrints(fp: FloatText, v: int)
    requires -0x8000_0000 <= v < 0x8000_0000
    ensures Render(fp, "%d", [IntArg(v)]) == Render(fp, "%i", [IntArg(v)]) == Render(fp, "%hd", [IntArg(v)]) == Decimal(v)
  {
    SignedPrints(fp, NoMod, 'd', v);
    SignedPrints(fp, NoMod, 'i', v);
    SignedPrints(fp, Short, 'd', v);
    assert ['%'] + [] + ['d'] == "%d" && ['%'] + [] + ['i'] == "%i" && ['%'] + ['h'] + ['d'] == "%hd";
  }

  // With l and ll they print every long.
  lemma {:induction false} LongPrints(fp: FloatText, v: int)
    requires -0x8000_0000_0000_0000 <= v < 0x8000_0000_0000_0000
    ensures Render(fp, "%ld", [IntArg(v)]) == Render(fp, "%li", [IntArg(v)]) == Render(fp, "%lld", [IntArg(v)]) == Decimal(v)
  {
    SignedPrints(fp, Long, 'd', v);
    SignedPrints(fp, Long, 'i', v);
    SignedPrints(fp, LLong, 'd', v);
    assert ['%'] + ['l'] + ['d'] == "%ld" && ['%'] + ['l'] + ['i'] == "%li" && ['%'] + ['l', 'l'] + ['d'] == "%lld";
  }

  // ----- unsigned numbers ----------------------------------------------------------------------------

  lemma UnsignedMagnitude(m: Modifier, v: int, flags: set<Flag>)
    requires FitsUnsigned(m, v) && UNSIGNED in flags
    ensures Magnitude(UnsignedArg(IntArg(v), m), flags) == v && SignText(UnsignedArg(IntArg(v), m), flags) == []
  {
    In32(v);
    In64(v);
  }

  // A field of an unsigned number without a width is its digits.
  lemma {:induction false} UnsignedField(m: Modifier, v: int, base: nat, spec: Spec)
    requires 2 <= base <= 16 && FitsUnsigned(m, v)
    requires spec.min == 0 && spec.max == -1 && UNSIGNED in spec.flags && ZERO !in spec.flags && MINUS !in spec.flags
    ensures IntText(UnsignedArg(IntArg(v), m), base, spec) == Digits(v, base, UP in spec.flags)
  {
    var value := UnsignedArg(IntArg(v), m);
    UnsignedMagnitude(m, v, spec.flags);
    BareField(value, base, spec);
    assert [] + Digits(v, base, UP in spec.flags) == Digits(v, base, UP in spec.flags);
  }

  // The unsigned conversions: octal, decimal, and hexadecimal with either case.
  predicate IsUnsigned(conv: Byte, base: nat, caps: bool) {
    (conv == 'o' && base == 8 && !caps) || (conv == 'u' && base == 10 && !caps) || (conv == 'x' && base == 16 && !caps)
    || (conv == 'X' && base == 16 && caps)
  }

  lemma {:induction false} UnsignedConversion(fp: FloatText, conv: Byte, base: nat, caps: bool, m: Modifier, a: Arg, spec: Spec)
    requires IsUnsigned(conv, base, caps) && spec == Spec(if caps then {UNSIGNED, UP} else {UNSIGNED}, 0, -1, m)
    ensures ConvText(fp, conv, Spec({}, 0, -1, m), a) == IntText(UnsignedArg(a, m), base, spec)
  {
    assert {} + {UNSIGNED} == {UNSIGNED} && {} + {UNSIGNED} + {UP} == {UNSIGNED, UP};
  }

  lemma {:induction false} UnsignedDirective(fp: FloatText, conv: Byte, base: nat, caps: bool, m: Modifier, v: int)
    requires IsUnsigned(conv, base, caps) && FitsUnsigned(m, v)
    ensures Render(fp, ['%'] + ShowModifier(m) + [conv], [IntArg(v)]) == Digits(v, base, caps)
  {
    var spec := Spec(if caps then {UNSIGNED, UP} else {UNSIGNED}, 0, -1, m);
    PlainDirective(fp, m, conv, IntArg(v));
    UnsignedConversion(fp, conv, base, caps, m, IntArg(v), spec);
    UnsignedField(m, v, base, spec);
  }

  lemma {:induction false} OctalPrints(fp: FloatText, m: Modifier, v: int)
    requires FitsUnsigned(m, v)
    ensures Render(fp, ['%'] + ShowModifier(m) + ['o'], [IntArg(v)]) == LastNineteen(InLower(8, v))
    ensures LastNineteen(InLower(8, v)) == InLower(8, v) <==> v < 0x200_0000_0000_0000
  {
    UnsignedDirective(fp, 'o', 8, false, m, v);
    OctalRoom(8);
    LowerDigits(8, v);
  }

  lemma {:induction false} OctalRoom(eight: nat)
    requires eight == 8
    ensures Power(eight, MAX_DIGITS) == 0x200_0000_0000_0000
  {
    OctalLosesDigits(false);
  }

  lemma {:induction false} DecimalPrints(fp: FloatText, m: Modifier, v: int)
    requires FitsUnsigned(m, v)
    ensures Render(fp, ['%'] + ShowModifier(m) + ['u'], [IntArg(v)]) == LastNineteen(InLower(10, v))
    ensures LastNineteen(InLower(10, v)) == InLower(10, v) <==> v < 10_000_000_000_000_000_000
  {
    UnsignedDirective(fp, 'u', 10, false, m, v);
    DecimalRoom(10);
    LowerDigits(10, v);
  }

  lemma {:induction false} HexDigits(v: nat, sixteen: nat)
    requires sixteen == 16 && v < 0x1_0000_0000_0000_0000
    ensures Digits(v, sixteen, false) == InLower(sixteen, v) && Digits(v, sixteen, true) == InUpper(v)
  {
    HexRoom(sixteen);
    LowerDigits(sixteen, v);
    UpperDigits(sixteen, v);
  }

  lemma {:induction false} HexPrints(fp: FloatText, m: Modifier, v: int)
    requires FitsUnsigned(m, v)
    ensures Render(fp, ['%'] + ShowModifier(m) + ['x'], [IntArg(v)]) == InLower(16, v)
  {
    UnsignedDirective(fp, 'x', 16, false, m, v);
    HexDigits(v, 16);
  }

  lemma {:induction false} UpperHexPrints(fp: FloatText, m: Modifier, v: int)
    requires FitsUnsigned(m, v)
    ensures Render(fp, ['%'] + ShowModifier(m) + ['X'], [IntArg(v)]) == InUpper(v)
  {
    UnsignedDirective(fp, 'X', 16, true, m, v);
    HexDigits(v, 16);
  }

  // "%o", "%u", "%x" and "%X" print every unsigned int in base 8, 10 and 16.
  lemma {:induction false} UnsignedPrints(fp: FloatText, u: int)
    requires 0 <= u < 0x1_0000_0000
    ensures Render(fp, "%o", [IntArg(u)]) == InLower(8, u) && Render(fp, "%u", [IntArg(u)]) == InLower(10, u)
    ensures Render(fp, "%x", [IntArg(u)]) == InLower(16, u) && Render(fp, "%X", [IntArg(u)]) == InUpper(u)
  {
    OctalPrints(fp, NoMod, u);
    DecimalPrints(fp, NoMod, u);
    HexPrints(fp, NoMod, u);
    UpperHexPrints(fp, NoMod, u);
    assert ['%'] + [] + ['o'] == "%o" && ['%'] + [] + ['u'] == "%u" && ['%'] + [] + ['x'] == "%x" && ['%'] + [] + ['X'] == "%X";
  }

  // With l they print an unsigned long: in base 16 every one, in base 10 and 8 the last nineteen digits, which
  // are all exactly below 10^19 and below 2^57.
  lemma {:induction false} UnsignedLongPrints(fp: FloatText, u: int)
    requires 0 <= u < 0x1_0000_0000_0000_0000
    ensures Render(fp, "%lu", [IntArg(u)]) == LastNineteen(InLower(10, u)) && Render(fp, "%lo", [IntArg(u)]) == LastNineteen(InLower(8, u))
    ensures Render(fp, "%lu", [IntArg(u)]) == InLower(10, u) <==> u < 10_000_000_000_000_000_000
    ensures Render(fp, "%lo", [IntArg(u)]) == InLower(8, u) <==> u < 0x200_0000_0000_0000
  {
    DecimalPrints(fp, Long, u);
    OctalPrints(fp, Long, u);
    assert ['%'] + ['l'] + ['o'] == "%lo" && ['%'] + ['l'] + ['u'] == "%lu";
  }

  lemma {:induction false} HexLongPrints(fp: FloatText, u: int)
    requires 0 <= u < 0x1_0000_0000_0000_0000
    ensures Render(fp, "%lx", [IntArg(u)]) == InLower(16, u) && Render(fp, "%lX", [IntArg(u)]) == InUpper(u)
  {
    HexPrints(fp, Long, u);
    UpperHexPrints(fp, Long, u);
    assert ['%'] + ['l'] + ['x'] == "%lx" && ['%'] + ['l'] + ['X'] == "%lX";
  }

  // ----- characters, strings and the rest ------------------------------------------------------------

  lemma {:induction false} CharacterPrints(fp: FloatText, v: int)
    ensures Render(fp, "%c", [IntArg(v)]) == [(v % 256) as char]
  {
    PlainDirective(fp, NoMod, 'c', IntArg(v));
    assert ['%'] + [] + ['c'] == "%c";
  }

  // Two percent signs print one and leave the arguments alone.
  lemma {:induction false} PercentPrints(fp: FloatText, rest: seq<Byte>, args: seq<Arg>)
    ensures Render(fp, ['%', '%'] + rest, args) == ['%'] + Render(fp, rest, args)
  {
    var p := Plain(NoMod, '%');
    assert Show(p) == ['%', '%'];
    ReadDirective(fp, p, rest, args);
  }

  lemma {:induction false} BareString(t: seq<Byte>)
    ensures StringConversion(Some(t), Spec({}, 0, -1, NoMod)) == t
  {
    StringMeaning(t, Spec({}, 0, -1, NoMod));
    assert Fill(-|t|, ' ') + t == t;
  }

  lemma {:induction false} StringDirective(fp: FloatText, s: Option<seq<Byte>>)
    ensures Render(fp, "%s", [StrArg(s)]) == StringConversion(s, Spec({}, 0, -1, NoMod))
  {
    PlainDirective(fp, NoMod, 's', StrArg(s));
    assert ['%'] + [] + ['s'] == "%s";
  }

  // "%s" prints a string, and "(NULL)" for a null pointer.
  lemma {:induction false} StringPrints(fp: FloatText, t: seq<Byte>)
    ensures Render(fp, "%s", [StrArg(Some(t))]) == t
  {
    StringDirective(fp, Some(t));
    BareString(t);
  }

  lemma {:induction false} NullPrints(fp: FloatText)
    ensures Render(fp, "%s", [StrArg(None)]) == "(NULL)"
  {
    var shown: seq<Byte> := "(NULL)";
    StringDirective(fp, None);
    NullIsShown(shown);
    BareString(shown);
  }

  lemma NullIsShown(shown: seq<Byte>)
    requires shown == "(NULL)"
    ensures StringConversion(None, Spec({}, 0, -1, NoMod)) == StringConversion(Some(shown), Spec({}, 0, -1, NoMod))
  {
  }

  // A pointer prints as a signed number in base 16.
  lemma {:induction false} PointerPrints(fp: FloatText, v: int)
    requires -0x8000_0000_0000_0000 <= v < 0x8000_0000_0000_0000
    ensures Render(fp, "%p", [IntArg(v)]) == (if v < 0 then "-" else "") + InLower(16, AbsoluteValue(v))
  {
    PointerDirective(fp, v, Spec({}, 0, -1, NoMod), 16);
    SignedMagnitude(v, {});
    HexDigits(AbsoluteValue(v), 16);
  }

  lemma {:induction false} PointerConversion(fp: FloatText, v: int, spec: Spec, base: nat)
    requires -0x8000_0000_0000_0000 <= v < 0x8000_0000_0000_0000 && base == 16
    ensures ConvText(fp, 'p', spec, IntArg(v)) == IntText(v, base, spec)
  {
    In64(v);
  }

  lemma {:induction false} PointerDirective(fp: FloatText, v: int, spec: Spec, base: nat)
    requires -0x8000_0000_0000_0000 <= v < 0x8000_0000_0000_0000 && spec == Spec({}, 0, -1, NoMod) && base == 16
    ensures Render(fp, "%p", [IntArg(v)]) == SignText(v, {}) + Digits(Magnitude(v, {}), base, false)
  {
    PlainDirective(fp, NoMod, 'p', IntArg(v));
    PointerConversion(fp, v, spec, base);
    BareField(v, base, spec);
    assert ['%'] + [] + ['p'] == "%p";
  }

  // 'f' prints what the floating-point conversion makes of its argument; 'e', 'E', 'g', 'G' and 'n' use one up
  // and print nothing.
  lemma {:induction false} FloatPrints(fp: FloatText, a: Arg)
    ensures Render(fp, "%f", [a]) == fp(a, Spec({}, 0, -1, NoMod))
  {
    PlainDirective(fp, NoMod, 'f', a);
    assert ['%'] + [] + ['f'] == "%f";
  }

  lemma {:induction false} IgnoredPrints(fp: FloatText, c: Byte, a: Arg, args: seq<Arg>, rest: seq<Byte>)
    requires c == 'e' || c == 'E' || c == 'g' || c == 'G' || c == 'n'
    ensures Render(fp, ['%', c] + rest, [a] + args) == Render(fp, rest, args)
  {
    SilentDirective(fp, c, [a] + args, rest);
    assert ([a] + args)[1..] == args;
  }

  // Any other character behind a percent sign prints nothing and uses no argument.
  lemma {:induction false} UnknownPrints(fp: FloatText, c: Byte, args: seq<Arg>, rest: seq<Byte>)
    requires !IsDigit(c) && forall i :: 0 <= i < |KNOWN| ==> c != KNOWN[i]
    ensures Render(fp, ['%', c] + rest, args) == Render(fp, rest, args)
  {
    NotKnown(c);
    SilentDirective(fp, c, args, rest);
  }

  const KNOWN: seq<Byte> := "diouxXfeEgGcspn%w-+ #*.hlL"

  // None of the characters that print something.
  predicate IgnoredByAll(c: Byte) {
    c != 'd' && c != 'i' && c != 'o' && c != 'u' && c != 'x' && c != 'X' && c != 'f' && c != 'c' && c != 's' && c != 'p' && c != '%'
  }

  lemma {:induction false} NotKnown(c: Byte)
    requires !IsDigit(c) && forall i :: 0 <= i < |KNOWN| ==> c != KNOWN[i]
    ensures FlagOf(c) == None && c != '*' && c != '.' && c != 'h' && c != 'l' && c != 'L' && c != 'w' && !TakesArg(c)
    ensures IgnoredByAll(c)
  {
    assert |KNOWN| == 26;
    assert KNOWN[0] == 'd' && KNOWN[1] == 'i' && KNOWN[2] == 'o' && KNOWN[3] == 'u' && KNOWN[4] == 'x' && KNOWN[5] == 'X';
    assert KNOWN[6] == 'f' && KNOWN[7] == 'e' && KNOWN[8] == 'E' && KNOWN[9] == 'g' && KNOWN[10] == 'G' && KNOWN[11] == 'c';
    assert KNOWN[12] == 's' && KNOWN[13] == 'p' && KNOWN[14] == 'n' && KNOWN[15] == '%' && KNOWN[16] == 'w';
    assert KNOWN[17] == '-' && KNOWN[18] == '+' && KNOWN[19] == ' ' && KNOWN[20] == '#' && KNOWN[21] == '*';
    assert KNOWN[22] == '.' && KNOWN[23] == 'h' && KNOWN[24] == 'l' && KNOWN[25] == 'L';
  }

  // A conversion that prints nothing.
  lemma {:induction false} SilentDirective(fp: FloatText, c: Byte, args: seq<Arg>, rest: seq<Byte>)
    requires WellFormed(Plain(NoMod, c)) && ConvText(fp, c, Spec({}, 0, -1, NoMod), FirstArg(args)) == []
    ensures Render(fp, ['%', c] + rest, args) == Render(fp, rest, if TakesArg(c) then RestArgs(args) else args)
  {
    var p := Plain(NoMod, c);
    var args' := if TakesArg(c) then RestArgs(args) else args;
    assert Show(p) == ['%', c] && FlagSet([]) == {};
    ReadDirective(fp, p, rest, args);
    assert [] + Render(fp, rest, args') == Render(fp, rest, args');
  }

  // A conversion uses up one argument, and what is behind it goes on with the others.
  const CONVERSIONS: seq<Byte> := "diouxXfeEgGcspn"

  lemma {:induction false} UsesOneArgument(fp: FloatText, k: nat, a: Arg, args: seq<Arg>, rest: seq<Byte>)
    requires k < |CONVERSIONS| == 15
    ensures Render(fp, ['%', CONVERSIONS[k]] + rest, [a] + args) == Render(fp, ['%', CONVERSIONS[k]], [a]) + Render(fp, rest, args)
  {
    var c := CONVERSIONS[k];
    var p := Plain(NoMod, c);
    ConversionTakes(k, c);
    assert Show(p) == ['%', c] && FlagSet([]) == {};
    ReadDirective(fp, p, rest, [a] + args);
    OneDirective(fp, p, [a]);
    assert ([a] + args)[0] == a && ([a] + args)[1..] == args;
  }

  lemma {:induction false} ConversionTakes(k: nat, c: Byte)
    requires k < |CONVERSIONS| == 15 && c == CONVERSIONS[k]
    ensures TakesArg(c) && WellFormed(Plain(NoMod, c))
  {
  }

  // 'w' is skipped together with the character behind it.
  lemma {:induction false} SkippedWide(fp: FloatText, c: Byte, args: seq<Arg>, rest: seq<Byte>)
    ensures Render(fp, ['%', 'w', c] + rest, args) == Render(fp, rest, args)
  {
    var f := ['w', c] + rest;
    assert f[0] == 'w' && f[1..] == [c] + rest && f[1..][1..] == rest;
    assert ['%', 'w', c] + rest == ['%'] + f;
    ReadPercent(fp, f, args);
    EmptySpec(fp, f, args);
    Quiet(fp, Machine(CONV, f, args, NO_SPEC), Machine(DEFAULT, rest, args, NO_SPEC));
  }

  // The states up to the conversion pass a 'w' on.
  lemma {:induction false} EmptySpec(fp: FloatText, f: seq<Byte>, args: seq<Arg>)
    requires f != [] && f[0] == 'w'
    ensures Output(fp, Machine(FLAGS, f, args, NO_SPEC)) == Output(fp, Machine(CONV, f, args, NO_SPEC))
  {
    Quiet(fp, Machine(FLAGS, f, args, NO_SPEC), Machine(MIN, f, args, NO_SPEC));
    Quiet(fp, Machine(MIN, f, args, NO_SPEC), Machine(Format.DOT, f, args, NO_SPEC));
    Quiet(fp, Machine(Format.DOT, f, args, NO_SPEC), Machine(MOD, f, args, NO_SPEC));
    Quiet(fp, Machine(MOD, f, args, NO_SPEC), Machine(CONV, f, args, NO_SPEC));
  }

  // ----- flags, widths and precisions ----------------------------------------------------------------

  lemma {:induction false} DirectiveOfInt(fp: FloatText, p: Piece, v: int, spec: Spec)
    requires WellFormed(p) && p.Directive? && p.conv == 'd' && p.cflags == NoMod && !p.width.Star? && !p.precision.DotStar?
    requires -0x8000_0000 <= v < 0x8000_0000
    requires spec == Spec(FlagSet(p.flags), if p.width.Fixed? then p.width.n else 0, if p.precision.DotFixed? then p.precision.p else -1, NoMod)
    ensures Render(fp, Show(p), [IntArg(v)]) == IntText(v, 10, spec)
  {
    OneDirective(fp, p, [IntArg(v)]);
    SignedConversion(fp, 'd', spec, v);
  }

  // The sign of a number that is not negative.
  lemma {:induction false} SignPrints(fp: FloatText, v: int)
    requires -0x8000_0000 <= v < 0x8000_0000
    ensures Render(fp, "%+d", [IntArg(v)]) == (if v < 0 then "-" else "+") + InLower(10, AbsoluteValue(v))
    ensures Render(fp, "% d", [IntArg(v)]) == (if v < 0 then "-" else " ") + InLower(10, AbsoluteValue(v))
  {
    FlagPrints(fp, PLUS, v);
    FlagPrints(fp, SPACE, v);
  }

  lemma {:induction false} OneFlag(flag: Flag)
    ensures FlagSet([flag]) == {flag} && ShowFlags([flag]) == [FlagChar(flag)]
  {
    var rest := [flag][1..];
    assert rest == [] && FlagSet(rest) == {} && ShowFlags(rest) == [];
    FirstFlag([flag]);
  }

  lemma {:induction false} FlagPrints(fp: FloatText, flag: Flag, v: int)
    requires (flag == PLUS || flag == SPACE) && -0x8000_0000 <= v < 0x8000_0000
    ensures Render(fp, ['%', if flag == PLUS then '+' else ' ', 'd'], [IntArg(v)])
         == [if v < 0 then '-' else if flag == PLUS then '+' else ' '] + InLower(10, AbsoluteValue(v))
  {
    var p := Directive([flag], NoWidth, NoPrecision, NoMod, 'd');
    var spec := Spec({flag}, 0, -1, NoMod);
    OneFlag(flag);
    assert Show(p) == ['%', if flag == PLUS then '+' else ' ', 'd'];
    DirectiveOfInt(fp, p, v, spec);
    BareField(v, 10, spec);
    SignedDigits(v, {flag});
  }

  function Sign(v: int): seq<Byte> { if v < 0 then "-" else "" }

  // The fields of a number with a width or a precision: with the flag '0', with '-', and without them.
  lemma {:induction false} ZeroField(v: int, n: nat, digits: seq<Byte>)
    requires -0x8000_0000 <= v < 0x8000_0000 && digits == InLower(10, AbsoluteValue(v))
    ensures IntText(v, 10, Spec({ZERO}, n, -1, NoMod)) == Sign(v) + Fill(n - |digits| - |Sign(v)|, '0') + digits
  {
    SignedDigits(v, {ZERO});
    var pad := Max(n - |digits| - |Sign(v)|, 0);
    assert IntField(v, 10, Spec({ZERO}, n, -1, NoMod)) == Field([], Sign(v), Fill(pad, '0'), digits, []);
    assert Fill(pad, '0') == Fill(n - |digits| - |Sign(v)|, '0');
    FieldOfParts([], Sign(v), Fill(pad, '0'), digits, []);
  }

  lemma {:induction false} LeftField(v: int, n: int, digits: seq<Byte>)
    requires -0x8000_0000 <= v < 0x8000_0000 && digits == InLower(10, AbsoluteValue(v))
    ensures IntText(v, 10, Spec({MINUS}, n, -1, NoMod)) == Sign(v) + digits + Fill(n - |digits| - |Sign(v)|, ' ')
  {
    SignedDigits(v, {MINUS});
    var pad := Max(n - |digits| - |Sign(v)|, 0);
    assert IntField(v, 10, Spec({MINUS}, n, -1, NoMod)) == Field([], Sign(v), Fill(0, '0'), digits, Fill(pad, ' '));
    assert Fill(pad, ' ') == Fill(n - |digits| - |Sign(v)|, ' ');
    FieldOfParts([], Sign(v), [], digits, Fill(pad, ' '));
    assert Fill(0, '0') == [] && Sign(v) + [] == Sign(v);
  }

  lemma {:induction false} RightField(v: int, n: int, p: nat, digits: seq<Byte>)
    requires -0x8000_0000 <= v < 0x8000_0000 && digits == InLower(10, AbsoluteValue(v))
    ensures IntText(v, 10, Spec({}, n, p, NoMod))
         == Fill(n - Max(p, |digits|) - |Sign(v)|, ' ') + Sign(v) + Fill(p - |digits|, '0') + digits
  {
    SignedDigits(v, {});
    var pad, zeros := Max(n - Max(p, |digits|) - |Sign(v)|, 0), Max(p - |digits|, 0);
    assert IntField(v, 10, Spec({}, n, p, NoMod)) == Field(Fill(pad, ' '), Sign(v), Fill(zeros, '0'), digits, []);
    FieldOfParts(Fill(pad, ' '), Sign(v), Fill(zeros, '0'), digits, []);
    assert Fill(pad, ' ') == Fill(n - Max(p, |digits|) - |Sign(v)|, ' ') && Fill(zeros, '0') == Fill(p - |digits|, '0');
  }

  // No precision is like a precision of no digits.
  lemma {:induction false} NoPrecisionField(v: int, n: int)
    ensures IntText(v, 10, Spec({}, n, -1, NoMod)) == IntText(v, 10, Spec({}, n, 0, NoMod))
  {
    assert IntField(v, 10, Spec({}, n, -1, NoMod)) == IntField(v, 10, Spec({}, n, 0, NoMod));
  }

  lemma FieldOfParts(lead: seq<Byte>, sign: seq<Byte>, zeros: seq<Byte>, digits: seq<Byte>, trail: seq<Byte>)
    ensures FieldText(Field(lead, sign, zeros, digits, trail)) == lead + sign + zeros + digits + trail
    ensures lead == [] ==> FieldText(Field(lead, sign, zeros, digits, trail)) == sign + zeros + digits + trail
    ensures trail == [] ==> FieldText(Field(lead, sign, zeros, digits, trail)) == lead + sign + zeros + digits
  {
    if lead == [] {
      assert lead + sign == sign;
    }
  }

  // A number n written in a format.
  function Written(n: nat): seq<Byte> { InLower(10, n) }

  lemma {:induction false} WrittenIsDecimal(n: nat)
    ensures Written(n) == DecimalText(n)
  {
    LowerNumeral(LOWER, 10, n);
  }

  lemma {:induction false} NoFlags()
    ensures FlagSet([]) == {} && ShowFlags([]) == []
  {
  }

  // The shortest field of a number: its sign and its digits.
  lemma DecimalIsSignAndDigits(v: int)
    ensures Decimal(v) == Sign(v) + InLower(10, AbsoluteValue(v)) && |Decimal(v)| == |Sign(v)| + |InLower(10, AbsoluteValue(v))|
  {
  }

  lemma NoMore(n: int, c: Byte)
    requires n <= 0
    ensures Fill(n, c) == []
  {
  }

  // The flag '0' fills a field with zeros between sign and digits.
  lemma {:induction false} ZerosFill(fp: FloatText, n: nat, v: int)
    requires n >= 1 && -0x8000_0000 <= v < 0x8000_0000
    ensures Render(fp, "%0" + Written(n) + "d", [IntArg(v)])
         == Sign(v) + Fill(n - |Decimal(v)|, '0') + InLower(10, AbsoluteValue(v))
  {
    WrittenIsDecimal(n);
    ZeroDirective(fp, n, v, "%0");
    ZeroField(v, n, InLower(10, AbsoluteValue(v)));
    DecimalIsSignAndDigits(v);
  }

  lemma {:induction false} ZeroDirective(fp: FloatText, n: nat, v: int, head: seq<Byte>)
    requires n >= 1 && head == ['%', '0'] && -0x8000_0000 <= v < 0x8000_0000
    ensures Render(fp, head + DecimalText(n) + ['d'], [IntArg(v)]) == IntText(v, 10, Spec({ZERO}, n, -1, NoMod))
  {
    OneFlag(ZERO);
    FixedText(head, ['0'], DecimalText(n), 'd');
    DirectiveOfInt(fp, Directive([ZERO], Fixed(n), NoPrecision, NoMod, 'd'), v, Spec({ZERO}, n, -1, NoMod));
  }

  // The characters of a directive with a fixed width.
  lemma FixedText(head: seq<Byte>, flags: seq<Byte>, width: seq<Byte>, c: Byte)
    requires head == ['%'] + flags
    ensures ['%'] + flags + width + [] + [] + [c] == head + width + [c]
  {
    assert head + width + [] + [] + [c] == head + width + [c];
  }

  // And with a precision.
  lemma PrecisionText(head: seq<Byte>, digits: seq<Byte>, c: Byte)
    requires head == ['%', '.']
    ensures ['%'] + [] + [] + (['.'] + digits) + [] + [c] == head + digits + [c]
  {
    assert ['%'] + [] + [] + (['.'] + digits) == head + digits;
  }

  // Without a flag blanks stand in front, and with '-' behind.
  lemma {:induction false} BlanksInFront(fp: FloatText, n: nat, v: int)
    requires n >= 1 && -0x8000_0000 <= v < 0x8000_0000
    ensures Render(fp, "%" + Written(n) + "d", [IntArg(v)]) == Fill(n - |Decimal(v)|, ' ') + Decimal(v)
  {
    var p := Directive([], Fixed(n), NoPrecision, NoMod, 'd');
    NoFlags();
    WrittenIsDecimal(n);
    FixedText("%", [], DecimalText(n), 'd');
    DirectiveOfInt(fp, p, v, Spec({}, n, -1, NoMod));
    AlignedRight(v, n);
  }

  lemma {:induction false} AlignedRight(v: int, n: int)
    requires -0x8000_0000 <= v < 0x8000_0000
    ensures IntText(v, 10, Spec({}, n, -1, NoMod)) == Fill(n - |Decimal(v)|, ' ') + Decimal(v)
  {
    var digits := InLower(10, AbsoluteValue(v));
    NoPrecisionField(v, n);
    RightField(v, n, 0, digits);
    DecimalIsSignAndDigits(v);
    NoMore(-|digits|, '0');
    assert Fill(n - |Decimal(v)|, ' ') + Sign(v) + [] + digits == Fill(n - |Decimal(v)|, ' ') + (Sign(v) + digits);
  }

  lemma {:induction false} BlanksBehind(fp: FloatText, n: nat, v: int)
    requires n >= 1 && -0x8000_0000 <= v < 0x8000_0000
    ensures Render(fp, "%-" + Written(n) + "d", [IntArg(v)]) == Decimal(v) + Fill(n - |Decimal(v)|, ' ')
  {
    var p := Directive([MINUS], Fixed(n), NoPrecision, NoMod, 'd');
    OneFlag(MINUS);
    WrittenIsDecimal(n);
    FixedText("%-", ['-'], DecimalText(n), 'd');
    DirectiveOfInt(fp, p, v, Spec({MINUS}, n, -1, NoMod));
    AlignedLeft(v, n);
  }

  lemma {:induction false} AlignedLeft(v: int, n: int)
    requires -0x8000_0000 <= v < 0x8000_0000
    ensures IntText(v, 10, Spec({MINUS}, n, -1, NoMod)) == Decimal(v) + Fill(n - |Decimal(v)|, ' ')
  {
    var digits := InLower(10, AbsoluteValue(v));
    LeftField(v, n, digits);
    DecimalIsSignAndDigits(v);
  }

  // A precision is a least number of digits.
  lemma {:induction false} DigitsAtLeast(fp: FloatText, n: nat, v: int)
    requires -0x8000_0000 <= v < 0x8000_0000
    ensures var digits := InLower(10, AbsoluteValue(v));
      Render(fp, "%." + Written(n) + "d", [IntArg(v)]) == Sign(v) + Fill(n - |digits|, '0') + digits
  {
    WrittenIsDecimal(n);
    PrecisionDirective(fp, n, v, "%.");
    FieldOfDigits(v, n, InLower(10, AbsoluteValue(v)));
  }

  lemma {:induction false} PrecisionDirective(fp: FloatText, n: nat, v: int, head: seq<Byte>)
    requires head == ['%', '.'] && -0x8000_0000 <= v < 0x8000_0000
    ensures Render(fp, head + DecimalText(n) + ['d'], [IntArg(v)]) == IntText(v, 10, Spec({}, 0, n, NoMod))
  {
    NoFlags();
    PrecisionText(head, DecimalText(n), 'd');
    DirectiveOfInt(fp, Directive([], NoWidth, DotFixed(n), NoMod, 'd'), v, Spec({}, 0, n, NoMod));
  }

  lemma {:induction false} FieldOfDigits(v: int, n: nat, digits: seq<Byte>)
    requires -0x8000_0000 <= v < 0x8000_0000 && digits == InLower(10, AbsoluteValue(v))
    ensures IntText(v, 10, Spec({}, 0, n, NoMod)) == Sign(v) + Fill(n - |digits|, '0') + digits
  {
    RightField(v, 0, n, digits);
    NoMore(0 - Max(n, |digits|) - |Sign(v)|, ' ');
    assert [] + Sign(v) == Sign(v);
  }

  // A star takes the width from the arguments, and a negative one counts as none.
  lemma {:induction false} StarPrints(fp: FloatText, n: int, v: int)
    requires -0x8000_0000 <= n < 0x8000_0000 && -0x8000_0000 <= v < 0x8000_0000
    ensures Render(fp, "%*d", [IntArg(n), IntArg(v)]) == Fill(n - |Decimal(v)|, ' ') + Decimal(v)
  {
    var p := Directive([], Star, NoPrecision, NoMod, 'd');
    NoFlags();
    assert Show(p) == "%*d";
    OneDirective(fp, p, [IntArg(n), IntArg(v)]);
    In32(n);
    assert [IntArg(n), IntArg(v)][1..] == [IntArg(v)];
    SignedConversion(fp, 'd', Spec({}, n, -1, NoMod), v);
    AlignedRight(v, n);
  }

  lemma {:induction false} DirectiveOfString(fp: FloatText, p: Piece, t: seq<Byte>, spec: Spec)
    requires WellFormed(p) && p.Directive? && p.conv == 's' && p.cflags == NoMod && !p.width.Star? && !p.precision.DotStar?
    requires spec == Spec(FlagSet(p.flags), if p.width.Fixed? then p.width.n else 0, if p.precision.DotFixed? then p.precision.p else -1, NoMod)
    ensures Render(fp, Show(p), [StrArg(Some(t))]) == StringConversion(Some(t), spec)
  {
    OneDirective(fp, p, [StrArg(Some(t))]);
  }

  // A string is filled up with blanks in front, or behind with '-', and cut off by a precision.
  lemma {:induction false} StringInFront(fp: FloatText, n: nat, t: seq<Byte>)
    requires n >= 1
    ensures Render(fp, "%" + Written(n) + "s", [StrArg(Some(t))]) == Fill(n - |t|, ' ') + t
  {
    var p := Directive([], Fixed(n), NoPrecision, NoMod, 's');
    NoFlags();
    WrittenIsDecimal(n);
    FixedText("%", [], DecimalText(n), 's');
    DirectiveOfString(fp, p, t, Spec({}, n, -1, NoMod));
    StringMeaning(t, Spec({}, n, -1, NoMod));
  }

  lemma {:induction false} StringBehind(fp: FloatText, n: nat, t: seq<Byte>)
    requires n >= 1
    ensures Render(fp, "%-" + Written(n) + "s", [StrArg(Some(t))]) == t + Fill(n - |t|, ' ')
  {
    var p := Directive([MINUS], Fixed(n), NoPrecision, NoMod, 's');
    OneFlag(MINUS);
    WrittenIsDecimal(n);
    FixedText("%-", ['-'], DecimalText(n), 's');
    DirectiveOfString(fp, p, t, Spec({MINUS}, n, -1, NoMod));
    StringMeaning(t, Spec({MINUS}, n, -1, NoMod));
  }

  lemma {:induction false} StringCutOff(fp: FloatText, n: nat, t: seq<Byte>)
    ensures Render(fp, "%." + Written(n) + "s", [StrArg(Some(t))]) == if n <= |t| then t[..n] else t
  {
    var p := Directive([], NoWidth, DotFixed(n), NoMod, 's');
    var spec := Spec({}, 0, n, NoMod);
    var cut := if n <= |t| then t[..n] else t;
    NoFlags();
    WrittenIsDecimal(n);
    PrecisionText("%.", DecimalText(n), 's');
    DirectiveOfString(fp, p, t, spec);
    StringMeaning(t, spec);
    assert Prefix(t, n) == cut;
    NoMore(-|cut|, ' ');
    assert [] + cut == cut;
  }
}
