// The fallback formatter: its eight-state machine over a format, and the text of each conversion,
// without any bound on the output.
module Format {
  import opened Common
  import opened Bytes
  import opened Text

  // ----- arguments -----------------------------------------------------------------------------

  // One variadic argument: an integer or pointer value, or a string (None is a null pointer).
  datatype Arg = IntArg(v: int) | StrArg(s: Option<seq<Byte>>)

  // Fetching is total: an argument that is missing or of the other kind, which C leaves undefined,
  // reads as zero.
  function FirstArg(args: seq<Arg>): Arg { if args == [] then IntArg(0) else args[0] }

  function RestArgs(args: seq<Arg>): seq<Arg> { if args == [] then [] else args[1..] }

  function IntOf(a: Arg): int { if a.IntArg? then a.v else 0 }

  function StrOf(a: Arg): Option<seq<Byte>> { if a.StrArg? then a.s else None }

  function Signed32(v: int): int { (v + 0x8000_0000) % 0x1_0000_0000 - 0x8000_0000 }

  function Unsigned32(v: int): int { v % 0x1_0000_0000 }

  function Signed64(v: int): int { (v + 0x8000_0000_0000_0000) % 0x1_0000_0000_0000_0000 - 0x8000_0000_0000_0000 }

  // ----- conversions ---------------------------------------------------------------------------

  datatype Flag = MINUS | PLUS | SPACE | NUM | ZERO | UP | UNSIGNED

  datatype Modifier = NoMod | Short | Long | LDouble | LLong

  // What has been read of a conversion specification; max is -1 when there is no precision.
  datatype Spec = Spec(flags: set<Flag>, min: int, max: int, cflags: Modifier)

  const NO_SPEC := Spec({}, 0, -1, NoMod)

  function Max(a: int, b: int): int { if a >= b then a else b }

  function Fill(n: int, c: Byte): (s: seq<Byte>)
    ensures |s| == Max(n, 0)
  {
    seq(Max(n, 0), _ => c)
  }

  // The conversion buffer holds 20 characters; a 20th digit is given up for the terminating zero.
  const MAX_DIGITS: nat := 19

  function Digits(u: nat, base: nat, caps: bool): (t: seq<Byte>)
    requires 2 <= base <= 16
    ensures 1 <= |t| <= MAX_DIGITS
  {
    var t := Numeral(u, base, caps);
    if |t| <= MAX_DIGITS then t else t[|t| - MAX_DIGITS..]
  }

  function SignText(value: int, flags: set<Flag>): (s: seq<Byte>)
    ensures |s| <= 1
  {
    if UNSIGNED in flags then []
    else if value < 0 then ['-']
    else if PLUS in flags then ['+']
    else if SPACE in flags then [' ']
    else []
  }

  // uvalue: the magnitude of a signed value, or the value as an unsigned long.
  function Magnitude(value: int, flags: set<Flag>): nat {
    if UNSIGNED !in flags && value < 0 then -value else value % 0x1_0000_0000_0000_0000
  }

  datatype Field = Field(lead: seq<Byte>, sign: seq<Byte>, zeros: seq<Byte>, digits: seq<Byte>, trail: seq<Byte>)

  function FieldText(f: Field): seq<Byte> { f.lead + f.sign + f.zeros + f.digits + f.trail }

  function IntField(value: int, base: nat, spec: Spec): Field
    requires 2 <= base <= 16
  {
    var max := Max(spec.max, 0);
    var sign := SignText(value, spec.flags);
    var digits := Digits(Magnitude(value, spec.flags), base, UP in spec.flags);
    var place := |digits|;
    var zpad := Max(max - place, 0);
    var spad := Max(spec.min - Max(max, place) - |sign|, 0);
    if ZERO in spec.flags then Field([], sign, Fill(Max(zpad, spad), '0'), digits, [])
    else if MINUS in spec.flags then Field([], sign, Fill(zpad, '0'), digits, Fill(spad, ' '))
    else Field(Fill(spad, ' '), sign, Fill(zpad, '0'), digits, [])
  }

  // fmtint
  function IntText(value: int, base: nat, spec: Spec): seq<Byte>
    requires 2 <= base <= 16
  {
    FieldText(IntField(value, base, spec))
  }

  function Prefix(s: seq<Byte>, n: int): seq<Byte> {
    if n <= 0 then [] else if n >= |s| then s else s[..n]
  }

  // fmtstr: padding and text together are cut off after max characters.
  function StrText(value: seq<Byte>, spec: Spec): seq<Byte> {
    var pad := Fill(spec.min - |value|, ' ');
    Prefix(if MINUS in spec.flags then value + pad else pad + value, spec.max)
  }

  // The 's' conversion: a null pointer and a missing precision get defaults, and a precision below
  // the width is raised to the width.
  function StringConversion(s: Option<seq<Byte>>, spec: Spec): seq<Byte> {
    var value: seq<Byte> := if s.Some? then s.value else "(NULL)";
    var max := if spec.max == -1 then |value| else spec.max;
    var max' := if spec.min > 0 && max >= 0 && spec.min > max then spec.min else max;
    StrText(value, spec.(max := max'))
  }

  // fmtfp is not part of this model: its output is a parameter.
  type FloatText = (Arg, Spec) -> seq<Byte>

  function SignedArg(a: Arg, cflags: Modifier): int {
    if cflags == Long || cflags == LLong then Signed64(IntOf(a)) else Signed32(IntOf(a))
  }

  function UnsignedArg(a: Arg, cflags: Modifier): int {
    if cflags == Long || cflags == LLong then Signed64(IntOf(a)) else Unsigned32(IntOf(a))
  }

  function ConvText(fp: FloatText, ch: Byte, spec: Spec, a: Arg): seq<Byte> {
    var unsigned := spec.(flags := spec.flags + {UNSIGNED});
    match ch
    case 'd' => IntText(SignedArg(a, spec.cflags), 10, spec)
    case 'i' => IntText(SignedArg(a, spec.cflags), 10, spec)
    case 'o' => IntText(UnsignedArg(a, spec.cflags), 8, unsigned)
    case 'u' => IntText(UnsignedArg(a, spec.cflags), 10, unsigned)
    case 'x' => IntText(UnsignedArg(a, spec.cflags), 16, unsigned)
    case 'X' => IntText(UnsignedArg(a, spec.cflags), 16, unsigned.(flags := unsigned.flags + {UP}))
    case 'f' => fp(a, spec)
    case 'c' => [(IntOf(a) % 256) as char]
    case 's' => StringConversion(StrOf(a), spec)
    case 'p' => IntText(Signed64(IntOf(a)), 16, spec)
    case '%' => ['%']
    case _ => []
  }

  predicate TakesArg(ch: Byte) {
    ch == 'd' || ch == 'i' || ch == 'o' || ch == 'u' || ch == 'x' || ch == 'X' || ch == 'f' || ch == 'e' || ch == 'E'
    || ch == 'g' || ch == 'G' || ch == 'c' || ch == 's' || ch == 'p' || ch == 'n'
  }

  // ----- the machine -----------------------------------------------------------------------------

  datatype State = DEFAULT | FLAGS | MIN | DOT | MAX | MOD | CONV | DONE

  // f is the rest of the format from the current character on; behind its end stands the
  // terminating zero.
  datatype Machine = Machine(state: State, f: seq<Byte>, args: seq<Arg>, spec: Spec)

  function FlagOf(c: Byte): Option<Flag> {
    match c
    case '-' => Some(MINUS)
    case '+' => Some(PLUS)
    case ' ' => Some(SPACE)
    case '#' => Some(NUM)
    case '0' => Some(ZERO)
    case _ => None
  }

  function CharToInt(c: char): int { c as int - '0' as int }

  function ModifierStep(m: Machine): Machine
    requires m.f != []
  {
    var next := m.(state := CONV);
    if m.f[0] == 'h' then next.(f := m.f[1..], spec := m.spec.(cflags := Short))
    else if m.f[0] == 'l' then
      if |m.f| > 1 && m.f[1] == 'l' then next.(f := m.f[2..], spec := m.spec.(cflags := LLong))
      else next.(f := m.f[1..], spec := m.spec.(cflags := Long))
    else if m.f[0] == 'L' then next.(f := m.f[1..], spec := m.spec.(cflags := LDouble))
    else next
  }

  // One turn of the loop: the next machine and the characters it puts out. 'w' skips a character;
  // behind the terminating zero it is taken to read zeros.
  function Step(fp: FloatText, m: Machine): (r: (Machine, seq<Byte>))
    requires m.state != DONE
    ensures |r.0.f| < |m.f| || (|r.0.f| == |m.f| && Rank(r.0.state) < Rank(m.state))
  {
    if m.f == [] then (m.(state := DONE), [])
    else
      var ch, rest := m.f[0], m.f[1..];
      match m.state
      case DEFAULT =>
        if ch == '%' then (m.(state := FLAGS, f := rest), []) else (m.(f := rest), [ch])
      case FLAGS =>
        if FlagOf(ch).Some? then (m.(f := rest, spec := m.spec.(flags := m.spec.flags + {FlagOf(ch).value})), [])
        else (m.(state := MIN), [])
      case MIN =>
        if IsDigit(ch) then (m.(f := rest, spec := m.spec.(min := 10 * m.spec.min + CharToInt(ch))), [])
        else if ch == '*' then
          (m.(state := DOT, f := rest, args := RestArgs(m.args),
              spec := m.spec.(min := Signed32(IntOf(FirstArg(m.args))))), [])
        else (m.(state := DOT), [])
      case DOT =>
        if ch == '.' then (m.(state := MAX, f := rest), []) else (m.(state := MOD), [])
      case MAX =>
        if IsDigit(ch) then (m.(f := rest, spec := m.spec.(max := 10 * Max(m.spec.max, 0) + CharToInt(ch))), [])
        else if ch == '*' then
          (m.(state := MOD, f := rest, args := RestArgs(m.args),
              spec := m.spec.(max := Signed32(IntOf(FirstArg(m.args))))), [])
        else (m.(state := MOD), [])
      case MOD => (ModifierStep(m), [])
      case CONV =>
        var after := if ch == 'w' && rest != [] then rest[1..] else rest;
        (Machine(DEFAULT, after, if TakesArg(ch) then RestArgs(m.args) else m.args, NO_SPEC),
         ConvText(fp, ch, m.spec, FirstArg(m.args)))
  }

  function Rank(s: State): nat {
    match s
    case DONE => 0 case DEFAULT => 1 case CONV => 2 case MOD => 3
    case MAX => 4 case DOT => 5 case MIN => 6 case FLAGS => 7
  }

  // Everything the machine still puts out.
  function Output(fp: FloatText, m: Machine): seq<Byte>
    decreases |m.f|, Rank(m.state)
  {
    if m.state == DONE then []
    else
      var (next, text) := Step(fp, m);
      text + Output(fp, next)
  }

  // The unbounded output for a format and its arguments.
  function Render(fp: FloatText, f: seq<Byte>, args: seq<Arg>): seq<Byte> {
    Output(fp, Machine(DEFAULT, f, args, NO_SPEC))
  }
}
