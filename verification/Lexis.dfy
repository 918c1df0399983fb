// What holds together as one token, said with literal alphabets: words, numbers, literals, preprocessor
// lines and punctuators, and that nothing but white space and line markers is left out.
module Lexis {
  import opened Common
  import opened Bytes
  import opened Unify
  import opened UnifyNormal
  import opened UnifyCode

  // ----- alphabets -----------------------------------------------------------------------------------

  const LOWER: seq<char> := "abcdefghijklmnopqrstuvwxyz"
  const UPPER: seq<char> := "ABCDEFGHIJKLMNOPQRSTUVWXYZ"
  const DIGITS: seq<char> := "0123456789"
  const WORD: seq<char> := LOWER + UPPER + "_" + DIGITS
  const HEX: seq<char> := DIGITS + "abcdef" + "ABCDEF"
  const WHITE: seq<char> := [' ', '\t', '\n', '\U{0B}', '\U{0C}', '\r']
  const QUOTES: seq<char> := ['"', '\'']
  const SUFFIXES: seq<char> := "lLfFuU"

  predicate Over(t: seq<Byte>, alphabet: seq<char>) { forall i :: 0 <= i < |t| ==> t[i] in alphabet }

  predicate Starts(u: seq<Byte>, alphabet: seq<char>) { u != [] && u[0] in alphabet }

  // A run of characters with consecutive codes.
  predicate Consecutive(s: seq<char>, first: char) { forall i :: 0 <= i < |s| ==> s[i] as int == first as int + i }

  lemma InConsecutive(s: seq<char>, first: char, c: char)
    requires Consecutive(s, first)
    ensures c in s <==> first as int <= c as int < first as int + |s|
  {
    if first as int <= c as int < first as int + |s| {
      assert s[c as int - first as int] == c;
    }
  }

  lemma Lower(s: seq<char>)
    requires s == LOWER
    ensures Consecutive(s, 'a') && |s| == 26
  {
  }

  lemma Upper(s: seq<char>)
    requires s == UPPER
    ensures Consecutive(s, 'A') && |s| == 26
  {
  }

  lemma TenDigits(c: char)
    ensures c in DIGITS <==> IsDigit(c)
  {
    InConsecutive(DIGITS, '0', c);
  }

  lemma WordCharacters(c: char)
    ensures c in WORD <==> IsWord(c)
    ensures c in WORD && c !in DIGITS <==> IsAlpha(c)
  {
    Lower(LOWER);
    Upper(UPPER);
    InConsecutive(LOWER, 'a', c);
    InConsecutive(UPPER, 'A', c);
    TenDigits(c);
    assert c in "_" <==> c == '_';
  }

  lemma HexCharacters(c: char)
    ensures c in HEX <==> IsHex(c)
  {
    TenDigits(c);
    InConsecutive("abcdef", 'a', c);
    InConsecutive("ABCDEF", 'A', c);
  }

  lemma OtherCharacters(c: char)
    ensures c in DIGITS + "." <==> IsDigitOrDot(c)
    ensures c in DIGITS + "+-" <==> IsDigitOrSign(c)
    ensures c in SUFFIXES <==> IsFloat(c)
    ensures c in WHITE <==> IsSpace(c)
    ensures c in QUOTES <==> IsQuote(c)
  {
    TenDigits(c);
  }

  // ----- runs ----------------------------------------------------------------------------------------

  lemma {:induction false} RunOver(s: seq<Byte>, p: char -> bool, alphabet: seq<char>, i: nat, t: seq<Byte>, u: seq<Byte>)
    requires i <= |s| && s[i..] == t + u && Over(t, alphabet) && !Starts(u, alphabet)
    requires forall c: char {:trigger p(c)} :: p(c) <==> c in alphabet
    ensures Run(s, p, i) == i + |t|
  {
    forall k | i <= k < i + |t|
      ensures p(s[k])
    {
      assert s[k] == s[i..][k - i] == t[k - i];
    }
    if i + |t| < |s| {
      assert s[i + |t|] == s[i..][|t|] == u[0];
    }
    RunIs(s, p, i, i + |t|);
  }

  lemma {:induction false} Emitted(t: seq<Byte>, u: seq<Byte>, past: Byte)
    requires t != [] && Next(t + u, past) == Emit(t, |t|)
    ensures Tokens(t + u, past) == [t] + Tokens(u, past)
  {
    assert Drop(t + u, |t|) == u;
  }

  // ----- words ---------------------------------------------------------------------------------------

  lemma {:induction false} WordPart(s: seq<Byte>, w: seq<Byte>, u: seq<Byte>)
    requires s == w + u && w != [] && Over(w, WORD) && !Starts(u, WORD)
    ensures Run(s, IsWord, 1) == |w|
  {
    forall c: char
      ensures IsWord(c) <==> c in WORD
    {
      WordCharacters(c);
    }
    assert s[1..] == w[1..] + u;
    RunOver(s, IsWord, WORD, 1, w[1..], u);
  }

  // Letters, underscores and digits that do not start with a digit are one token, up to the first character
  // that is none of these.
  lemma {:induction false} WordIsOneToken(w: seq<Byte>, u: seq<Byte>, past: Byte)
    requires w != [] && Over(w, WORD) && w[0] !in DIGITS && !Starts(u, WORD)
    ensures Tokens(w + u, past) == [w] + Tokens(u, past)
  {
    var s := w + u;
    WordCharacters(w[0]);
    WordPart(s, w, u);
    NextOfWord(s, w, past);
    Emitted(w, u, past);
  }

  lemma {:induction false} NextOfWord(s: seq<Byte>, w: seq<Byte>, past: Byte)
    requires w != [] && w <= s && IsAlpha(w[0]) && Run(s, IsWord, 1) == |w|
    ensures Next(s, past) == Emit(w, |w|)
  {
  }

  // ----- numbers -------------------------------------------------------------------------------------

  // Digits and dots, starting with a digit; an x and hexadecimal digits; an e, digits and signs; suffix
  // letters. All but the first may be missing, and each goes on as far as it can.
  predicate IsNumber(d: seq<Byte>, x: seq<Byte>, e: seq<Byte>, f: seq<Byte>, u: seq<Byte>) {
    IsDigitPart(d, x + (e + (f + u))) && IsHexPart(x, e + (f + u)) && IsExponentPart(e, f + u)
    && Over(f, SUFFIXES) && !Starts(u, SUFFIXES)
  }

  predicate IsDigitPart(d: seq<Byte>, v: seq<Byte>) {
    Starts(d, DIGITS) && Over(d, DIGITS + ".") && !Starts(v, DIGITS + ".")
  }

  predicate IsHexPart(x: seq<Byte>, v: seq<Byte>) {
    if x == [] then !Starts(v, "xX") else x[0] in "xX" && Over(x[1..], HEX) && !Starts(v, HEX)
  }

  predicate IsExponentPart(e: seq<Byte>, v: seq<Byte>) {
    if e == [] then !Starts(v, "eE") else e[0] in "eE" && Over(e[1..], DIGITS + "+-") && !Starts(v, DIGITS + "+-")
  }

  lemma {:induction false} HexPart(s: seq<Byte>, a: nat, x: seq<Byte>, v: seq<Byte>)
    requires a <= |s| && s[a..] == x + v && IsHexPart(x, v) == true
    ensures HexEnd(s, a) == a + |x|
  {
    if x == [] {
      assert s[a..] == v;
      assert v != [] ==> s[a] == v[0];
    } else {
      assert s[a] == s[a..][0] == x[0] && s[a + 1..] == s[a..][1..] == x[1..] + v;
      forall c: char
        ensures IsHex(c) <==> c in HEX
      {
        HexCharacters(c);
      }
      RunOver(s, IsHex, HEX, a + 1, x[1..], v);
    }
  }

  lemma {:induction false} ExponentPart(s: seq<Byte>, b: nat, e: seq<Byte>, v: seq<Byte>)
    requires b <= |s| && s[b..] == e + v && IsExponentPart(e, v) == true
    ensures ExponentEnd(s, b) == b + |e|
  {
    if e == [] {
      assert s[b..] == v;
      assert v != [] ==> s[b] == v[0];
    } else {
      assert s[b] == s[b..][0] == e[0] && s[b + 1..] == s[b..][1..] == e[1..] + v;
      forall c: char
        ensures IsDigitOrSign(c) <==> c in DIGITS + "+-"
      {
        OtherCharacters(c);
      }
      RunOver(s, IsDigitOrSign, DIGITS + "+-", b + 1, e[1..], v);
    }
  }

  lemma {:induction false} DigitPart(s: seq<Byte>, d: seq<Byte>, v: seq<Byte>)
    requires s == d + v && IsDigitPart(d, v) == true
    ensures Run(s, IsDigitOrDot, 1) == |d|
  {
    forall c: char
      ensures IsDigitOrDot(c) <==> c in DIGITS + "."
    {
      OtherCharacters(c);
    }
    assert s[1..] == d[1..] + v;
    RunOver(s, IsDigitOrDot, DIGITS + ".", 1, d[1..], v);
  }

  lemma {:induction false} SuffixPart(s: seq<Byte>, c: nat, f: seq<Byte>, u: seq<Byte>)
    requires c <= |s| && s[c..] == f + u && Over(f, SUFFIXES) && !Starts(u, SUFFIXES)
    ensures Run(s, IsFloat, c) == c + |f|
  {
    forall c: char
      ensures IsFloat(c) <==> c in SUFFIXES
    {
      OtherCharacters(c);
    }
    RunOver(s, IsFloat, SUFFIXES, c, f, u);
  }

  lemma Behind(s: seq<Byte>, n: nat, a: seq<Byte>, b: seq<Byte>)
    requires n <= |s| && s[n..] == a + b
    ensures n + |a| <= |s| && s[n + |a|..] == b
  {
    assert s[n + |a|..] == s[n..][|a|..];
  }

  lemma {:induction false} NumberParts(s: seq<Byte>, d: seq<Byte>, x: seq<Byte>, e: seq<Byte>, f: seq<Byte>, u: seq<Byte>,
                                       y: seq<Byte>, z: seq<Byte>)
    requires z == f + u && y == e + z && s == d + (x + y)
    requires IsDigitPart(d, x + y) == true && IsHexPart(x, y) == true && IsExponentPart(e, z) == true
    requires Over(f, SUFFIXES) == true && Starts(u, SUFFIXES) == false
    ensures NumberEnd(s) == |d| + |x| + |e| + |f|
  {
    var a, b, c := |d|, |d| + |x|, |d| + |x| + |e|;
    Offsets(s, d, x, e, y, z);
    FirstParts(s, d, x, y, a, b);
    LastParts(s, b, e, f, u, z, c);
  }

  lemma {:induction false} FirstParts(s: seq<Byte>, d: seq<Byte>, x: seq<Byte>, y: seq<Byte>, a: nat, b: nat)
    requires s == d + (x + y) && a == |d| && b == a + |x| && s[a..] == x + y
    requires IsDigitPart(d, x + y) == true && IsHexPart(x, y) == true
    ensures Run(s, IsDigitOrDot, 1) == a && HexEnd(s, a) == b
  {
    DigitPart(s, d, x + y);
    HexPart(s, a, x, y);
  }

  lemma {:induction false} LastParts(s: seq<Byte>, b: nat, e: seq<Byte>, f: seq<Byte>, u: seq<Byte>, z: seq<Byte>, c: nat)
    requires z == f + u && b <= |s| && s[b..] == e + z && c == b + |e| <= |s| && s[c..] == z
    requires IsExponentPart(e, z) == true && Over(f, SUFFIXES) == true && Starts(u, SUFFIXES) == false
    ensures ExponentEnd(s, b) == c && Run(s, IsFloat, c) == c + |f|
  {
    ExponentPart(s, b, e, z);
    SuffixPart(s, c, f, u);
  }

  lemma Offsets(s: seq<Byte>, d: seq<Byte>, x: seq<Byte>, e: seq<Byte>, y: seq<Byte>, z: seq<Byte>)
    requires y == e + z && s == d + (x + y)
    ensures |s| == |d| + |x| + |e| + |z| && s[|d|..] == x + y && s[|d| + |x|..] == y && s[|d| + |x| + |e|..] == z
  {
    Behind(s, |d|, x, y);
    Behind(s, |d| + |x|, e, z);
  }

  // Such a number is one token.
  lemma {:induction false} NumberIsOneToken(d: seq<Byte>, x: seq<Byte>, e: seq<Byte>, f: seq<Byte>, u: seq<Byte>, past: Byte)
    requires IsNumber(d, x, e, f, u)
    ensures Tokens(d + x + e + f + u, past) == [d + x + e + f] + Tokens(u, past)
  {
    var n, s := d + x + e + f, d + (x + (e + (f + u)));
    Regrouped(d, x, e, f, u);
    NumberParts(s, d, x, e, f, u, e + (f + u), f + u);
    assert n + u == s;
    assert n[0] == d[0];
    TenDigits(n[0]);
    NextOfNumber(s, n, past);
    Emitted(n, u, past);
  }

  lemma {:induction false} NextOfNumber(s: seq<Byte>, n: seq<Byte>, past: Byte)
    requires n != [] && n <= s && IsDigit(n[0]) && NumberEnd(s) == |n|
    ensures Next(s, past) == Emit(n, |n|)
  {
  }

  lemma Regrouped(d: seq<Byte>, x: seq<Byte>, e: seq<Byte>, f: seq<Byte>, u: seq<Byte>)
    ensures d + x + e + f + u == d + (x + (e + (f + u)))
  {
    assert d + x + e + f + u == d + x + e + (f + u);
    assert d + x + e + (f + u) == d + x + (e + (f + u));
  }

  // ----- literals ------------------------------------------------------------------------------------

  // What can stand between the quotes q: characters other than q and backslash, and pairs that start with a
  // backslash.
  predicate IsBody(b: seq<Byte>, q: Byte)
    decreases |b|
  {
    b == []
    || (b[0] != q && b[0] != '\\' && IsBody(b[1..], q))
    || (b[0] == '\\' && |b| > 1 && IsBody(b[2..], q))
  }

  lemma {:induction false} BodyEnds(s: seq<Byte>, i: nat, b: seq<Byte>, q: Byte, u: seq<Byte>)
    requires 1 <= i <= |s| && s[0] == q != '\\' && IsBody(b, q) && s[i..] == b + ([q] + u)
    ensures QuoteEnd(s, i) == i + |b|
    decreases |b|
  {
    assert |s| == i + |b| + 1 + |u|;
    if b == [] {
      assert s[i] == s[i..][0] == q;
    } else if b[0] != '\\' {
      assert s[i] == s[i..][0] == b[0] && s[i + 1..] == s[i..][1..] == b[1..] + ([q] + u);
      BodyEnds(s, i + 1, b[1..], q, u);
    } else {
      assert s[i] == s[i..][0] == b[0] && s[i + 2..] == s[i..][2..] == b[2..] + ([q] + u);
      BodyEnds(s, i + 2, b[2..], q, u);
    }
  }

  // A closed literal is one token, whatever follows.
  lemma {:induction false} LiteralIsOneToken(q: Byte, b: seq<Byte>, u: seq<Byte>, past: Byte)
    requires q in QUOTES && IsBody(b, q)
    ensures Tokens([q] + b + [q] + u, past) == [[q] + b + [q]] + Tokens(u, past)
  {
    var t := [q] + b + [q];
    var s := t + u;
    OtherCharacters(q);
    assert s[1..] == b + ([q] + u) && s[..|t|] == t && s[0] == q;
    BodyEnds(s, 1, b, q, u);
    Emitted(t, u, past);
  }

  // ----- lines ---------------------------------------------------------------------------------------

  predicate IsLineMarker(l: seq<Byte>) { |l| > 2 && l[0] == '#' && l[1] == ' ' && l[2] in DIGITS }

  lemma {:induction false} LineParts(l: seq<Byte>, u: seq<Byte>)
    requires l != [] && l[0] == '#' && '\n' !in l
    ensures var s := l + ['\n'] + u; LineEnd(s) == |l| && (IsMarker(s) <==> IsLineMarker(l))
  {
    var s := l + ['\n'] + u;
    forall k | 1 <= k < |l|
      ensures IsNotNewline(s[k])
    {
      assert s[k] == l[k];
    }
    assert s[|l|] == '\n';
    RunIs(s, IsNotNewline, 1, |l|);
    if |s| > 2 {
      TenDigits(s[2]);
    }
  }

  // A line that starts with '#' is one token, unless it is a line marker, which is none.
  lemma {:induction false} LineIsOneToken(l: seq<Byte>, u: seq<Byte>, past: Byte)
    requires l != [] && l[0] == '#' && '\n' !in l
    ensures Tokens(l + ['\n'] + u, past) == (if IsLineMarker(l) then [] else [l]) + Tokens(u, past)
  {
    var s := l + ['\n'] + u;
    LineParts(l, u);
    assert s[..|l|] == l && Drop(s, |l| + 1) == u;
  }

  // ----- white space ---------------------------------------------------------------------------------

  lemma {:induction false} WhiteSpaceIsNoToken(c: Byte, u: seq<Byte>, past: Byte)
    requires c in WHITE
    ensures Tokens([c] + u, past) == Tokens(u, past)
  {
    OtherCharacters(c);
    SkipSpace([c] + u, past);
    assert ([c] + u)[1..] == u;
  }

  // ----- punctuators ---------------------------------------------------------------------------------

  const SINGLES: seq<char> := ";{},:=()[].&!~-+*/%<>^|?"

  // The punctuators of C, with the digraphs: single characters, compounds with '=', doubled characters and
  // the rest.
  predicate IsPunctuator(t: seq<char>) {
    (|t| == 1 && t[0] in SINGLES)
    || (|t| == 2 && t[0] in "+-*/%&^|<>=!" && t[1] == '=')
    || (|t| == 2 && t[0] in "<>+-&|" && t[1] == t[0])
    || t == "->" || t == "<%" || t == "%>" || t == "<:" || t == ":>"
    || t == "..." || t == "<<=" || t == ">>="
  }

  lemma TokenIsPunctuator(k: nat)
    requires k < TOKEN_COUNT
    ensures IsPunctuator(Token(k))
  {
  }

  // Where a punctuator of two or three characters stands in the table.
  function PlaceOf(t: seq<char>): (k: nat)
    ensures k < TOKEN_COUNT
  {
    if t == "..." then 0 else if t == ">>=" then 1 else if t == "<<=" then 2 else if t == "+=" then 3 else
    if t == "-=" then 4 else if t == "*=" then 5 else if t == "/=" then 6 else if t == "%=" then 7 else
    if t == "&=" then 8 else if t == "^=" then 9 else if t == "|=" then 10 else if t == ">>" then 11 else
    if t == "<<" then 12 else if t == "++" then 13 else if t == "--" then 14 else if t == "->" then 15 else
    if t == "&&" then 16 else if t == "||" then 17 else if t == "<=" then 18 else if t == ">=" then 19 else
    if t == "==" then 20 else if t == "!=" then 21 else if t == "<%" then 24 else if t == "%>" then 26 else
    if t == "<:" then 33 else 35
  }

  // Where the single characters stand.
  const SINGLE_PLACES: seq<nat> := [22, 23, 25, 27, 28, 29, 30, 31, 32, 34, 36, 37, 38, 39, 40, 41, 42, 43, 44, 45, 46, 47, 48, 49]

  lemma SingleAt(i: nat)
    requires i < |SINGLES|
    ensures |SINGLE_PLACES| == |SINGLES| && SINGLE_PLACES[i] < TOKEN_COUNT && Token(SINGLE_PLACES[i]) == [SINGLES[i]]
  {
  }

  lemma SingleHasPlace(t: seq<char>) returns (k: nat)
    requires |t| == 1 && t[0] in SINGLES
    ensures k < TOKEN_COUNT && Token(k) == t
  {
    var i :| 0 <= i < |SINGLES| && SINGLES[i] == t[0];
    SingleAt(i);
    k := SINGLE_PLACES[i];
  }

  lemma CompoundHasPlace(t: seq<char>)
    requires |t| == 2 && t[0] in "+-*/%&^|<>=!" && t[1] == '='
    ensures Token(PlaceOf(t)) == t
  {
    assert t == [t[0], '='];
  }

  lemma DoubledHasPlace(t: seq<char>)
    requires |t| == 2 && t[0] in "<>+-&|" && t[1] == t[0]
    ensures Token(PlaceOf(t)) == t
  {
    assert t == [t[0], t[0]];
  }

  lemma DigraphHasPlace(t: seq<char>)
    requires t == "->" || t == "%>" || t == ":>"
    ensures Token(PlaceOf(t)) == t
  {
  }

  lemma OtherDigraphHasPlace(t: seq<char>)
    requires t == "<%" || t == "<:"
    ensures Token(PlaceOf(t)) == t
  {
  }

  lemma TripleHasPlace(t: seq<char>)
    requires t == "..." || t == "<<=" || t == ">>="
    ensures Token(PlaceOf(t)) == t
  {
  }

  lemma {:induction false} HasPlace(t: seq<char>) returns (k: nat)
    requires IsPunctuator(t)
    ensures k < TOKEN_COUNT && Token(k) == t
  {
    if |t| == 1 {
      k := SingleHasPlace(t);
    } else {
      k := PlaceOf(t);
      if |t| == 2 && t[1] == '=' && t[0] in "+-*/%&^|<>=!" {
        CompoundHasPlace(t);
      } else if |t| == 2 && t[0] in "<>+-&|" && t[1] == t[0] {
        DoubledHasPlace(t);
      } else if t == "<%" || t == "<:" {
        OtherDigraphHasPlace(t);
      } else if |t| == 2 {
        DigraphHasPlace(t);
      } else {
        TripleHasPlace(t);
      }
    }
  }

  // The table holds exactly these.
  lemma {:induction false} TableIsComplete(t: seq<char>)
    ensures IsPunctuator(t) <==> exists k :: 0 <= k < TOKEN_COUNT && Token(k) == t
  {
    if IsPunctuator(t) {
      var k := HasPlace(t);
    }
    forall k | 0 <= k < TOKEN_COUNT
      ensures IsPunctuator(Token(k))
    {
      TokenIsPunctuator(k);
    }
  }

  lemma SingleIsNoWord(i: nat)
    requires i < |SINGLES|
    ensures !IsAlpha(SINGLES[i]) && !IsDigit(SINGLES[i])
  {
  }

  lemma SingleIsNoBreak(i: nat)
    requires i < |SINGLES|
    ensures !IsSpace(SINGLES[i]) && !IsQuote(SINGLES[i]) && SINGLES[i] != '#'
  {
  }

  lemma {:induction false} PunctuatorStart(c: char)
    requires c in SINGLES
    ensures !IsAlpha(c) && !IsDigit(c) && !IsSpace(c) && !IsQuote(c) && c != '#'
  {
    var t := SINGLES;
    var i :| 0 <= i < |t| && t[i] == c;
    SingleIsNoWord(i);
    SingleIsNoBreak(i);
  }

  lemma {:induction false} FirstIsSingle(t: seq<char>)
    requires IsPunctuator(t)
    ensures t[0] in SINGLES
  {
    var k := HasPlace(t);
    assert Token(k)[0] in SINGLES;
  }

  // The longest punctuator at the front is one token, except for ":>", of which ':' alone is.
  lemma {:induction false} PunctuatorIsOneToken(t: seq<Byte>, u: seq<Byte>, past: Byte)
    requires IsPunctuator(t) && !(":>" <= t + u)
    requires forall p: seq<char> {:trigger IsPunctuator(p)} :: IsPunctuator(p) && p <= t + u ==> |p| <= |t|
    ensures Tokens(t + u, past) == [t] + Tokens(u, past)
  {
    var s := t + u;
    var m := FirstMatch(s, 0);
    TableIsComplete(t);
    LongestMatchExceptColon(s);
    TokenIsPunctuator(m);
    assert s[..|t|] == t && s[..|Token(m)|] == Token(m);
    FirstIsSingle(t);
    PunctuatorStart(s[0]);
    Emitted(t, u, past);
  }

  // So is every character that belongs to nothing else.
  lemma {:induction false} OtherIsOneToken(c: Byte, u: seq<Byte>, past: Byte)
    requires c !in WORD && c !in WHITE && c !in QUOTES && c !in SINGLES && c != '#'
    ensures Tokens([c] + u, past) == [[c]] + Tokens(u, past)
  {
    var s := [c] + u;
    WordCharacters(c);
    TenDigits(c);
    OtherCharacters(c);
    var m := FirstMatch(s, 0);
    if m < TOKEN_COUNT {
      TokenIsPunctuator(m);
      FirstIsSingle(Token(m));
      assert false;
    }
    assert s[..1] == [c];
    Emitted([c], u, past);
  }

  // ----- nothing is lost -----------------------------------------------------------------------------

  function LineLength(s: seq<Byte>): (n: nat)
    ensures n <= |s|
  {
    if s == [] || s[0] == '\n' then 0 else 1 + LineLength(s[1..])
  }

  // White space and line markers; the last line marker may be without its newline.
  predicate IsGap(g: seq<Byte>)
    decreases |g|
  {
    g == []
    || (g[0] in WHITE && IsGap(g[1..]))
    || (|g| > 2 && g[0] == '#' && g[1] == ' ' && g[2] in DIGITS && LineLength(g) > 0 && IsGap(g[LineLength(g)..]))
  }

  function Weave(gaps: seq<seq<Byte>>, ts: seq<seq<Byte>>): seq<Byte>
    requires |gaps| == |ts| + 1
  {
    if ts == [] then gaps[0] else gaps[0] + ts[0] + Weave(gaps[1..], ts[1..])
  }

  lemma {:induction false} WhiteInFront(w: seq<Byte>, g: seq<Byte>)
    requires Over(w, WHITE) && IsGap(g)
    ensures IsGap(w + g)
  {
    if w == [] {
      assert w + g == g;
    } else {
      WhiteInFront(w[1..], g);
      assert (w + g)[1..] == w[1..] + g;
    }
  }

  lemma {:induction false} LineLengthIs(s: seq<Byte>, n: nat)
    requires n <= |s| && (forall k :: 0 <= k < n ==> s[k] != '\n') && (n < |s| ==> s[n] == '\n')
    ensures LineLength(s) == n
  {
    if n > 0 {
      LineLengthIs(s[1..], n - 1);
    }
  }

  // A marker up to its newline, or up to the end of the text.
  lemma {:induction false} MarkerInFront(l: seq<Byte>, g: seq<Byte>)
    requires IsLineMarker(l) && '\n' !in l && IsGap(g) && (g == [] || g[0] == '\n')
    ensures IsGap(l + g)
  {
    LineLengthIs(l + g, |l|);
    assert (l + g)[|l|..] == g;
  }

  // s is the tokens with gaps in front, in between and behind.
  ghost predicate Fits(s: seq<Byte>, ts: seq<seq<Byte>>, gaps: seq<seq<Byte>>) {
    forall k {:trigger Look(k)} :: Look(k) ==>
      |gaps| == |ts| + 1 && (forall i :: 0 <= i < |gaps| ==> IsGap(gaps[i])) && s == Weave(gaps, ts)
  }

  lemma {:induction false} GapInFront(x: seq<Byte>, s: seq<Byte>, ts: seq<seq<Byte>>, gaps: seq<seq<Byte>>)
    returns (wider: seq<seq<Byte>>)
    requires Fits(s, ts, gaps) == true && gaps != [] && IsGap(x + gaps[0])
    ensures Fits(x + s, ts, wider) == true
  {
    assert Look(0);
    wider := gaps[0 := x + gaps[0]];
    assert wider[1..] == gaps[1..];
    if ts != [] {
      Grouped(x, gaps[0], ts[0], Weave(gaps[1..], ts[1..]));
    }
  }

  lemma Grouped(a: seq<Byte>, b: seq<Byte>, c: seq<Byte>, d: seq<Byte>)
    ensures a + b + c + d == a + (b + c + d)
  {
  }

  lemma {:induction false} TokenFits(t: seq<Byte>, s: seq<Byte>, ts: seq<seq<Byte>>, gaps: seq<seq<Byte>>)
    returns (more: seq<seq<Byte>>)
    requires Fits(s, ts, gaps) == true
    ensures Fits(t + s, [t] + ts, more) == true
  {
    assert Look(0);
    more := [[]] + gaps;
    assert more[1..] == gaps && ([t] + ts)[1..] == ts && [] + t == t;
  }

  lemma {:induction false} WhiteFits(x: seq<Byte>, s: seq<Byte>, ts: seq<seq<Byte>>, gaps: seq<seq<Byte>>)
    returns (wider: seq<seq<Byte>>)
    requires Over(x, WHITE) && Fits(s, ts, gaps) == true
    ensures Fits(x + s, ts, wider) == true
  {
    assert Look(0);
    WhiteInFront(x, gaps[0]);
    wider := GapInFront(x, s, ts, gaps);
  }

  lemma {:induction false} MarkerFits(l: seq<Byte>, end: seq<Byte>, s: seq<Byte>, ts: seq<seq<Byte>>, gaps: seq<seq<Byte>>)
    returns (wider: seq<seq<Byte>>)
    requires IsLineMarker(l) && '\n' !in l && (end == ['\n'] || (end == [] && s == [] && ts == []))
    requires Fits(s, ts, gaps) == true
    ensures Fits(l + end + s, ts, wider) == true
  {
    assert Look(0);
    MarkerGap(l, end, gaps[0]);
    wider := GapInFront(l + end, s, ts, gaps);
  }

  lemma {:induction false} SpacesInFront(s: seq<Byte>, past: Byte, t: Step)
    requires s != [] && IsSpace(s[0]) && t == Next(s, past)
    ensures t.Skip? && t.used <= |s| && Over(s[..t.used], WHITE)
  {
    forall i | 0 <= i < t.used
      ensures s[..t.used][i] in WHITE
    {
      OtherCharacters(s[i]);
    }
  }

  // The line at the front, its newline if it has one, and the rest.
  lemma {:induction false} LineInFront(s: seq<Byte>) returns (l: seq<Byte>, end: seq<Byte>)
    requires s != [] && s[0] == '#'
    ensures l == s[..LineEnd(s)] && '\n' !in l && s == l + (end + Drop(s, LineEnd(s) + 1))
    ensures (end == [] && Drop(s, LineEnd(s) + 1) == []) || end == ['\n']
    ensures IsMarker(s) <==> IsLineMarker(l)
  {
    var n := LineEnd(s);
    l := s[..n];
    end := if n < |s| then [s[n]] else [];
    assert s == l + s[n..];
    if n < |s| {
      assert s[n..] == end + s[n + 1..] && !IsNotNewline(s[n]);
    }
    assert forall k :: 1 <= k < n ==> IsNotNewline(s[k]);
    SameMarker(s, l, n);
  }

  lemma {:induction false} SameMarker(s: seq<Byte>, l: seq<Byte>, n: nat)
    requires s != [] && s[0] == '#' && n == LineEnd(s) && l == s[..n]
    ensures IsMarker(s) <==> IsLineMarker(l)
  {
    if |s| > 2 {
      TenDigits(s[2]);
      if IsMarker(s) {
        assert IsNotNewline(s[1]) && IsNotNewline(s[2]);
        assert n > 2;
      }
    }
  }

  lemma {:induction false} MarkerGap(l: seq<Byte>, end: seq<Byte>, g: seq<Byte>)
    requires IsLineMarker(l) && '\n' !in l && IsGap(g) && (end == ['\n'] || (end == [] && g == []))
    ensures IsGap(l + end + g)
  {
    if end != [] {
      assert '\n' in WHITE;
      WhiteInFront(end, g);
    }
    MarkerInFront(l, end + g);
    assert l + end + g == l + (end + g);
  }

  lemma {:induction false} EmittedFront(s: seq<Byte>, past: Byte, t: Step)
    requires s != [] && s[0] != '#' && !IsSpace(s[0]) && t == Next(s, past) && (IsQuote(s[0]) ==> QuoteEnd(s, 1) < |s|)
    ensures t.Emit? && t.used <= |s| && t.text == s[..t.used]
  {
  }

  // A closed text is its tokens with gaps of white space and line markers in front, in between and behind.
  lemma {:induction false} NothingIsLost(s: seq<Byte>, past: Byte)
    requires Closed(s)
    ensures exists gaps: seq<seq<Byte>> ::
      |gaps| == |Tokens(s, past)| + 1 && (forall i :: 0 <= i < |gaps| ==> IsGap(gaps[i])) && s == Weave(gaps, Tokens(s, past))
  {
    var gaps := GapsOf(s, past);
    assert Look(0);
  }

  lemma {:induction false} GapsOf(s: seq<Byte>, past: Byte) returns (gaps: seq<seq<Byte>>)
    requires Closed(s)
    ensures Fits(s, Tokens(s, past), gaps) == true
    decreases |s|
  {
    if s == [] {
      gaps := [[]];
    } else {
      var rest := RestOf(s, past);
      var behind := GapsOf(rest, past);
      gaps := MoreGaps(s, past, rest, Tokens(s, past), Tokens(rest, past), behind);
    }
  }

  predicate IsRest(s: seq<Byte>, past: Byte, rest: seq<Byte>)
    requires s != []
  {
    rest == Drop(s, Next(s, past).used) && (IsQuote(s[0]) ==> QuoteEnd(s, 1) < |s|)
  }

  lemma {:induction false} RestOf(s: seq<Byte>, past: Byte) returns (rest: seq<Byte>)
    requires Closed(s) && s != []
    ensures |rest| < |s| && Closed(rest) && IsRest(s, past, rest) == true
  {
    SameUsed(s, past);
    rest := Drop(s, Next(s, past).used);
  }

  lemma {:induction false} MoreGaps(s: seq<Byte>, past: Byte, rest: seq<Byte>, all: seq<seq<Byte>>, ts: seq<seq<Byte>>,
                                    behind: seq<seq<Byte>>)
    returns (gaps: seq<seq<Byte>>)
    requires s != [] && IsRest(s, past, rest) == true && all == Tokens(s, past) && ts == Tokens(rest, past)
    requires Fits(rest, ts, behind) == true
    ensures Fits(s, all, gaps) == true
  {
    if s[0] == '#' {
      var l, end := FrontOfLine(s, past, rest, all, ts);
      gaps := GapsOfLine(l, end, rest, ts, behind);
    } else if IsSpace(s[0]) {
      var x := FrontOfSpaces(s, past, rest, all, ts);
      gaps := WhiteFits(x, rest, ts, behind);
    } else {
      var x := FrontOfToken(s, past, rest, all, ts);
      gaps := TokenFits(x, rest, ts, behind);
    }
  }

  lemma {:induction false} FrontOfSpaces(s: seq<Byte>, past: Byte, rest: seq<Byte>, all: seq<seq<Byte>>, ts: seq<seq<Byte>>)
    returns (x: seq<Byte>)
    requires s != [] && IsSpace(s[0]) && IsRest(s, past, rest) && all == Tokens(s, past) && ts == Tokens(rest, past)
    ensures s == x + rest && Over(x, WHITE) == true && all == ts
  {
    var t := Next(s, past);
    SpacesInFront(s, past, t);
    TokensBehindSpaces(s, past, t, rest);
    x := s[..t.used];
    CutAt(s, t.used, x, rest);
  }

  lemma {:induction false} TokensBehindSpaces(s: seq<Byte>, past: Byte, t: Step, rest: seq<Byte>)
    requires s != [] && Next(s, past) == t && t.Skip? && rest == Drop(s, t.used)
    ensures Tokens(s, past) == Tokens(rest, past)
  {
  }

  lemma {:induction false} FrontOfToken(s: seq<Byte>, past: Byte, rest: seq<Byte>, all: seq<seq<Byte>>, ts: seq<seq<Byte>>)
    returns (x: seq<Byte>)
    requires s != [] && s[0] != '#' && !IsSpace(s[0]) && IsRest(s, past, rest)
    requires all == Tokens(s, past) && ts == Tokens(rest, past)
    ensures s == x + rest && all == [x] + ts
  {
    var t := Next(s, past);
    EmittedFront(s, past, t);
    TokensFromFront(s, past, t, rest);
    x := t.text;
    CutAt(s, t.used, x, rest);
  }

  lemma CutAt(s: seq<Byte>, n: nat, x: seq<Byte>, rest: seq<Byte>)
    requires n <= |s| && x == s[..n] && rest == Drop(s, n)
    ensures s == x + rest
  {
  }

  lemma {:induction false} TokensFromFront(s: seq<Byte>, past: Byte, t: Step, rest: seq<Byte>)
    requires s != [] && Next(s, past) == t && t.Emit? && rest == Drop(s, t.used)
    ensures Tokens(s, past) == [t.text] + Tokens(rest, past)
  {
  }

  lemma {:induction false} FrontOfLine(s: seq<Byte>, past: Byte, rest: seq<Byte>, all: seq<seq<Byte>>, ts: seq<seq<Byte>>)
    returns (l: seq<Byte>, end: seq<Byte>)
    requires s != [] && s[0] == '#' && IsRest(s, past, rest) && all == Tokens(s, past) && ts == Tokens(rest, past)
    ensures s == l + (end + rest) && '\n' !in l && (end == ['\n'] || (end == [] && rest == [] && ts == []))
    ensures all == if IsLineMarker(l) then ts else [l] + ts
  {
    l, end := LineInFront(s);
  }

  lemma {:induction false} GapsOfLine(l: seq<Byte>, end: seq<Byte>, rest: seq<Byte>, ts: seq<seq<Byte>>, behind: seq<seq<Byte>>)
    returns (gaps: seq<seq<Byte>>)
    requires '\n' !in l && (end == ['\n'] || (end == [] && rest == [] && ts == [])) && Fits(rest, ts, behind) == true
    ensures Fits(l + (end + rest), if IsLineMarker(l) then ts else [l] + ts, gaps) == true
  {
    if IsLineMarker(l) {
      gaps := MarkerFits(l, end, rest, ts, behind);
      assert l + end + rest == l + (end + rest);
    } else {
      assert '\n' in WHITE;
      var wider := WhiteFits(end, rest, ts, behind);
      gaps := TokenFits(l, end + rest, ts, wider);
    }
  }
}
