// The C/C++ token normaliser: what it emits for a text, as a function of the text alone.
module Unify {
  import opened Common
  import opened Bytes

  // ----- character classes (isalpha and so on in the C locale; nothing above 127) --------------------

  predicate IsAlpha(c: char) { 'a' <= c <= 'z' || 'A' <= c <= 'Z' || c == '_' }

  predicate IsSpace(c: char) { '\t' <= c <= '\r' || c == ' ' }

  predicate IsHex(c: char) { IsDigit(c) || 'a' <= c <= 'f' || 'A' <= c <= 'F' }

  predicate IsQuote(c: char) { c == '\'' || c == '"' }

  predicate IsFloat(c: char) { c == 'l' || c == 'L' || c == 'f' || c == 'F' || c == 'u' || c == 'U' }

  predicate IsSign(c: char) { c == '-' || c == '+' }

  predicate IsWord(c: char) { IsAlpha(c) || IsDigit(c) }

  predicate IsDigitOrDot(c: char) { IsDigit(c) || c == '.' }

  predicate IsDigitOrSign(c: char) { IsDigit(c) || IsSign(c) }

  predicate IsNotNewline(c: char) { c != '\n' }

  const TOKEN_COUNT: nat := 50

  // The punctuators in the order in which they are tried.
  function Token(k: nat): (t: seq<char>)
    requires k < TOKEN_COUNT
    ensures 1 <= |t| <= 3
  {
    match k
    case 0 => "..." case 1 => ">>=" case 2 => "<<=" case 3 => "+=" case 4 => "-="
    case 5 => "*=" case 6 => "/=" case 7 => "%=" case 8 => "&=" case 9 => "^="
    case 10 => "|=" case 11 => ">>" case 12 => "<<" case 13 => "++" case 14 => "--"
    case 15 => "->" case 16 => "&&" case 17 => "||" case 18 => "<=" case 19 => ">="
    case 20 => "==" case 21 => "!=" case 22 => ";" case 23 => "{" case 24 => "<%"
    case 25 => "}" case 26 => "%>" case 27 => "," case 28 => ":" case 29 => "="
    case 30 => "(" case 31 => ")" case 32 => "[" case 33 => "<:" case 34 => "]"
    case 35 => ":>" case 36 => "." case 37 => "&" case 38 => "!" case 39 => "~"
    case 40 => "-" case 41 => "+" case 42 => "*" case 43 => "/" case 44 => "%"
    case 45 => "<" case 46 => ">" case 47 => "^" case 48 => "|" case _ => "?"
  }

  // ----- one step of the scanner ---------------------------------------------------------------------

  // The end of the run of characters satisfying p that starts at i.
  function Run(s: seq<Byte>, p: char -> bool, i: nat): (r: nat)
    requires i <= |s|
    ensures i <= r <= |s|
    ensures forall k :: i <= k < r ==> p(s[k])
    ensures r < |s| ==> !p(s[r])
    decreases |s| - i
  {
    if i < |s| && p(s[i]) then Run(s, p, i + 1) else i
  }

  lemma {:induction false} RunIs(s: seq<Byte>, p: char -> bool, i: nat, r: nat)
    requires i <= r <= |s| && (forall k :: i <= k < r ==> p(s[k])) && (r < |s| ==> !p(s[r]))
    ensures Run(s, p, i) == r
    decreases r - i
  {
    if i < r { RunIs(s, p, i + 1, r); }
  }

  // A line marker of the preprocessor: '#', a space and a digit.
  predicate IsMarker(s: seq<Byte>) {
    |s| > 2 && s[0] == '#' && s[1] == ' ' && IsDigit(s[2])
  }

  function LineEnd(s: seq<Byte>): (n: nat)
    requires s != []
    ensures 1 <= n <= |s|
  {
    Run(s, IsNotNewline, 1)
  }

  // The four phases of the number scanner: digits and dots, hexadecimal digits after an x, digits
  // and signs after an e, and suffix letters.
  function HexEnd(s: seq<Byte>, a: nat): (b: nat)
    requires a <= |s|
    ensures a <= b <= |s|
  {
    if a < |s| && (s[a] == 'x' || s[a] == 'X') then Run(s, IsHex, a + 1) else a
  }

  function ExponentEnd(s: seq<Byte>, b: nat): (c: nat)
    requires b <= |s|
    ensures b <= c <= |s|
  {
    if b < |s| && (s[b] == 'E' || s[b] == 'e') then Run(s, IsDigitOrSign, b + 1) else b
  }

  function NumberEnd(s: seq<Byte>): (n: nat)
    requires s != []
    ensures 1 <= n <= |s|
  {
    Run(s, IsFloat, ExponentEnd(s, HexEnd(s, Run(s, IsDigitOrDot, 1))))
  }

  // The index at which the quote loop stops when it looks at index i: at the closing quote, or at
  // |s| when there is none.
  function QuoteEnd(s: seq<Byte>, i: nat): (e: nat)
    requires 1 <= i <= |s|
    ensures i <= e <= |s|
    decreases |s| - i
  {
    if i == |s| then i
    else if i < |s| - 1 && s[i] == '\\' then QuoteEnd(s, i + 2)
    else if s[i] == s[0] then i
    else QuoteEnd(s, i + 1)
  }

  // The first punctuator, from number i on, that the text starts with.
  function FirstMatch(s: seq<Byte>, i: nat): (k: nat)
    requires i <= TOKEN_COUNT
    ensures i <= k <= TOKEN_COUNT
    ensures k < TOKEN_COUNT ==> Token(k) <= s
    ensures forall j :: i <= j < k ==> !(Token(j) <= s)
    decreases |s|, TOKEN_COUNT - i
  {
    if i == TOKEN_COUNT || Token(i) <= s then i else FirstMatch(s, i + 1)
  }

  // What one turn of the outer loop does with the rest of the text: skip layout, or emit a token
  // (without its newline). `used` can exceed the text by one when the text ends inside a line or a
  // literal.
  datatype Step = Skip(used: nat) | Emit(text: seq<Byte>, used: nat)

  // `past` is the byte just behind the text: the scanner reads it when a literal is not closed.
  function Next(s: seq<Byte>, past: Byte): (t: Step)
    requires s != []
    ensures t.used >= 1
  {
    var c := s[0];
    if c == '#' then
      if IsMarker(s) then Skip(LineEnd(s) + 1) else Emit(s[..LineEnd(s)], LineEnd(s) + 1)
    else if IsAlpha(c) then
      var n := Run(s, IsWord, 1);
      Emit(s[..n], n)
    else if IsDigit(c) then
      Emit(s[..NumberEnd(s)], NumberEnd(s))
    else if IsSpace(c) then
      Skip(Run(s, IsSpace, 1))
    else if IsQuote(c) then
      var e := QuoteEnd(s, 1);
      Emit(if e < |s| then s[..e + 1] else s + [past], e + 1)
    else
      var k := FirstMatch(s, 0);
      var n := if k < TOKEN_COUNT then |Token(k)| else 1;
      Emit(s[..n], n)
  }

  function Drop(s: seq<Byte>, n: nat): seq<Byte> {
    if n >= |s| then [] else s[n..]
  }

  function Tokens(s: seq<Byte>, past: Byte): seq<seq<Byte>>
    decreases |s|
  {
    if s == [] then []
    else
      var t := Next(s, past);
      (if t.Emit? then [t.text] else []) + Tokens(Drop(s, t.used), past)
  }

  function Lines(tokens: seq<seq<Byte>>): seq<Byte> {
    if tokens == [] then [] else tokens[0] + ['\n'] + Lines(tokens[1..])
  }

  // The characters pushed for a text, in order.
  function Unified(s: seq<Byte>, past: Byte): seq<Byte> {
    Lines(Tokens(s, past))
  }

  // Every character or string literal met by the scanner is closed.
  predicate Closed(s: seq<Byte>)
    decreases |s|
  {
    s == []
    || ((IsQuote(s[0]) ==> QuoteEnd(s, 1) < |s|) && Closed(Drop(s, Next(s, '\0').used)))
  }
}
