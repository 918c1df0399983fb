// The unified text is a normal form: it is fixed by unification, it is blind to layout, and it
// separates texts with different tokens.
module UnifyNormal {
  import opened Common
  import opened Bytes
  import opened Unify

  // A character that ends every token: white space, or the start of a preprocessor line.
  predicate IsBreak(c: char) { IsSpace(c) || c == '#' }

  // ----- determinacy of the pieces ---------------------------------------------------------------

  // A run depends only on the characters up to the one that ends it.
  lemma {:induction false} SameRun(s: seq<Byte>, w: seq<Byte>, p: char -> bool, from: nat, i: nat)
    requires from <= |s| && from <= i <= |s| && i < |w| && s[..i] == w[..i]
    requires Run(s, p, from) <= i && !p(w[i])
    ensures Run(w, p, from) == Run(s, p, from)
    decreases |s| - from
  {
    if from < |s| && p(s[from]) {
      assert from < i;
      assert w[from] == w[..i][from] == s[..i][from] == s[from];
      SameRun(s, w, p, from + 1, i);
    } else if from < i {
      assert w[from] == w[..i][from] == s[..i][from] == s[from];
    }
  }

  lemma {:induction false} SamePrefix(s: seq<Byte>, w: seq<Byte>, i: nat, k: nat)
    requires k < i <= |s| && i <= |w| && s[..i] == w[..i]
    ensures s[k] == w[k]
  {
    assert s[k] == s[..i][k] == w[..i][k] == w[k];
  }

  lemma {:induction false} SameHexEnd(s: seq<Byte>, w: seq<Byte>, i: nat, a: nat)
    requires a <= |s| && HexEnd(s, a) <= i <= |s| && i < |w| && s[..i] == w[..i] && IsBreak(w[i])
    ensures HexEnd(w, a) == HexEnd(s, a)
  {
    if a < i {
      SamePrefix(s, w, i, a);
      if s[a] == 'x' || s[a] == 'X' { SameRun(s, w, IsHex, a + 1, i); }
    }
  }

  lemma {:induction false} SameExponentEnd(s: seq<Byte>, w: seq<Byte>, i: nat, b: nat)
    requires b <= |s| && ExponentEnd(s, b) <= i <= |s| && i < |w| && s[..i] == w[..i] && IsBreak(w[i])
    ensures ExponentEnd(w, b) == ExponentEnd(s, b)
  {
    if b < i {
      SamePrefix(s, w, i, b);
      if s[b] == 'E' || s[b] == 'e' { SameRun(s, w, IsDigitOrSign, b + 1, i); }
    }
  }

  lemma {:induction false} SameNumber(s: seq<Byte>, w: seq<Byte>, i: nat)
    requires s != [] && NumberEnd(s) <= i <= |s| && i < |w| && s[..i] == w[..i] && IsBreak(w[i])
    ensures NumberEnd(w) == NumberEnd(s)
  {
    var a := Run(s, IsDigitOrDot, 1);
    var b := HexEnd(s, a);
    SameRun(s, w, IsDigitOrDot, 1, i);
    SameHexEnd(s, w, i, a);
    SameExponentEnd(s, w, i, b);
    SameRun(s, w, IsFloat, ExponentEnd(s, b), i);
  }

  // A literal closed before i is closed at the same place in every text with the same front.
  lemma {:induction false} SameQuote(s: seq<Byte>, w: seq<Byte>, i: nat, at: nat)
    requires 1 <= at <= |s| && s[0] != '\\' && QuoteEnd(s, at) < i <= |s| && i <= |w| && s[..i] == w[..i]
    ensures QuoteEnd(w, at) == QuoteEnd(s, at)
    decreases |s| - at
  {
    SamePrefix(s, w, i, 0);
    SamePrefix(s, w, i, at);
    if at < |s| - 1 && s[at] == '\\' {
      SameQuote(s, w, i, at + 2);
    } else if s[at] != s[0] {
      SameQuote(s, w, i, at + 1);
    }
  }

  lemma {:induction false} PlainTokens(k: nat, j: nat)
    requires k < TOKEN_COUNT && j < |Token(k)|
    ensures !IsBreak(Token(k)[j])
  {
  }

  lemma {:induction false} SameMatch(s: seq<Byte>, w: seq<Byte>, i: nat)
    requires i <= |s| && i < |w| && s[..i] == w[..i] && IsBreak(w[i])
    requires FirstMatch(s, 0) < TOKEN_COUNT ==> |Token(FirstMatch(s, 0))| <= i
    ensures FirstMatch(w, 0) == FirstMatch(s, 0)
  {
    var k, k' := FirstMatch(s, 0), FirstMatch(w, 0);
    if k < TOKEN_COUNT { PrefixMoves(s, w, i, Token(k)); }
    if k' < k {
      var t := Token(k');
      if |t| > i {
        PlainTokens(k', i);
      } else {
        PrefixMoves(w, s, i, t);
      }
      assert false;
    }
  }

  lemma {:induction false} PrefixMoves(s: seq<Byte>, w: seq<Byte>, i: nat, t: seq<char>)
    requires i <= |s| && i <= |w| && s[..i] == w[..i] && |t| <= i && t <= s
    ensures t <= w
  {
    assert t == s[..i][..|t|] == w[..i][..|t|];
  }

  // No punctuator is listed before one that it starts, except ":" before ":>".
  lemma {:induction false} OnlyColonIsShadowed(j: nat, k: nat)
    requires j < k < TOKEN_COUNT && Token(j) <= Token(k)
    ensures j == 28 && k == 35
  {
    assert forall i :: 0 <= i < |Token(j)| ==> Token(j)[i] == Token(k)[i];
    assert Token(j)[0] == Token(k)[0];
    var last := |Token(j)| - 1;
    assert Token(j)[last] == Token(k)[last];
  }

  lemma {:induction false} FirstIsLongest(s: seq<Byte>, j: nat)
    requires j < TOKEN_COUNT && Token(j) <= s && !(":>" <= s)
    ensures FirstMatch(s, 0) < TOKEN_COUNT && |Token(j)| <= |Token(FirstMatch(s, 0))|
  {
    var k := FirstMatch(s, 0);
    assert k <= j;
    if |Token(k)| < |Token(j)| {
      assert Token(k) == s[..|Token(k)|] && Token(j) == s[..|Token(j)|];
      assert Token(k) <= Token(j);
      OnlyColonIsShadowed(k, j);
    }
  }

  lemma {:induction false} FirstColon(k: nat)
    requires k <= 28 && Token(k)[0] == ':'
    ensures k == 28
  {
  }

  lemma {:induction false} FirstMatchOfColon(s: seq<Byte>)
    requires ":>" <= s
    ensures FirstMatch(s, 0) == 28 && Token(28) == ":"
  {
    assert Token(28) == ":" <= s;
    assert s[0] == ':';
    var k := FirstMatch(s, 0);
    assert k <= 28;
    assert Token(k)[0] == ':';
    FirstColon(k);
  }

  // ":" comes before ":>" in the table, so ":>" is always emitted in two pieces.
  lemma {:induction false} ColonComesFirst(s: seq<Byte>)
    requires ":>" <= s
    ensures Next(s, '\0') == Emit(":", 1)
  {
    FirstMatchOfColon(s);
  }

  // The first punctuator found is the longest that the text starts with, except for ":>".
  lemma {:induction false} LongestMatchExceptColon(s: seq<Byte>)
    ensures (forall j :: 0 <= j < TOKEN_COUNT && Token(j) <= s ==>
               FirstMatch(s, 0) < TOKEN_COUNT && |Token(j)| <= |Token(FirstMatch(s, 0))|)
       <==> !(":>" <= s)
  {
    if ":>" <= s {
      FirstMatchOfColon(s);
      assert Token(35) == ":>";
    } else {
      forall j | 0 <= j < TOKEN_COUNT && Token(j) <= s
        ensures FirstMatch(s, 0) < TOKEN_COUNT && |Token(j)| <= |Token(FirstMatch(s, 0))|
      {
        FirstIsLongest(s, j);
      }
    }
  }

  // ----- one step ------------------------------------------------------------------------------

  // Two texts that agree up to i, beyond the token at the front, with a break at i in the second.
  lemma {:induction false} SameNext(s: seq<Byte>, w: seq<Byte>, i: nat, past: Byte, past': Byte)
    requires s != [] && Next(s, past).used <= i <= |s| && i < |w| && s[..i] == w[..i]
    requires IsBreak(w[i]) && !IsSpace(s[0])
    ensures Next(w, past') == Next(s, past)
  {
    var n := Next(s, past).used;
    SamePrefix(s, w, i, 0);
    assert s[..n] == s[..i][..n] == w[..i][..n] == w[..n];
    var c := s[0];
    if c == '#' {
      SameLine(s, w, i);
    } else if IsAlpha(c) {
      SameRun(s, w, IsWord, 1, i);
    } else if IsDigit(c) {
      SameNumber(s, w, i);
    } else if IsQuote(c) {
      SameQuote(s, w, i, 1);
    } else {
      SameMatch(s, w, i);
    }
  }

  // A complete preprocessor line, read up to and including its newline.
  lemma {:induction false} SameLine(s: seq<Byte>, w: seq<Byte>, i: nat)
    requires s != [] && s[0] == '#' && LineEnd(s) < i <= |s| && i <= |w| && s[..i] == w[..i]
    ensures LineEnd(w) == LineEnd(s) && IsMarker(w) == IsMarker(s)
  {
    var n := LineEnd(s);
    SamePrefix(s, w, i, n);
    SameRun(s, w, IsNotNewline, 1, n);
    SamePrefix(s, w, i, 1);
    if i > 2 { SamePrefix(s, w, i, 2); }
  }

  // ----- layout is skipped ------------------------------------------------------------------------

  lemma {:induction false} SkipSpace(w: seq<Byte>, past: Byte)
    requires w != [] && IsSpace(w[0])
    ensures Tokens(w, past) == Tokens(w[1..], past)
  {
    var r := Run(w, IsSpace, 1);
    var v := w[1..];
    NextSpace(w, past);
    if v != [] && IsSpace(v[0]) {
      ShiftedRun(w, v, IsSpace, 1);
      NextSpace(v, past);
      assert Drop(w, r) == Drop(v, r - 1);
    } else {
      assert Drop(w, 1) == v;
    }
  }

  lemma {:induction false} NextSpace(w: seq<Byte>, past: Byte)
    requires w != [] && IsSpace(w[0])
    ensures Tokens(w, past) == Tokens(Drop(w, Run(w, IsSpace, 1)), past)
  {
    assert Next(w, past) == Skip(Run(w, IsSpace, 1));
  }

  lemma {:induction false} ShiftedRun(w: seq<Byte>, v: seq<Byte>, p: char -> bool, i: nat)
    requires w != [] && v == w[1..] && 1 <= i < |w| && p(w[i])
    ensures Run(w, p, i) == Run(v, p, i) + 1
    decreases |w| - i
  {
    if i + 1 < |w| && p(w[i + 1]) { ShiftedRun(w, v, p, i + 1); }
  }

  lemma {:induction false} SkipSpaces(w: seq<Byte>, n: nat, past: Byte)
    requires n <= |w| && forall k :: 0 <= k < n ==> IsSpace(w[k])
    ensures Tokens(w, past) == Tokens(w[n..], past)
  {
    if n > 0 {
      SkipSpace(w, past);
      SkipSpaces(w[1..], n - 1, past);
      assert w[1..][n - 1..] == w[n..];
    } else {
      assert w[0..] == w;
    }
  }

  // A complete line marker: '#', a space, a digit, and the rest of the line with its newline.
  predicate IsMarkerLine(m: seq<Byte>) {
    IsMarker(m) && LineEnd(m) == |m| - 1
  }

  lemma {:induction false} SkipMarker(m: seq<Byte>, y: seq<Byte>, past: Byte)
    requires IsMarkerLine(m)
    ensures Tokens(m + y, past) == Tokens(y, past)
  {
    var w := m + y;
    assert m[..|m|] == w[..|m|];
    SameLine(m, w, |m|);
    assert Next(w, past) == Skip(|m|);
    assert Drop(w, |m|) == y;
  }

  // White space and complete line markers in any mixture.
  predicate IsLayout(x: seq<Byte>) {
    x == []
    || (IsSpace(x[0]) && IsLayout(x[1..]))
    || (IsMarker(x) && LineEnd(x) < |x| && IsLayout(x[LineEnd(x) + 1..]))
  }

  lemma {:induction false} SkipLayout(x: seq<Byte>, y: seq<Byte>, past: Byte)
    requires IsLayout(x)
    ensures Tokens(x + y, past) == Tokens(y, past)
    decreases |x|
  {
    if x == [] {
      assert x + y == y;
    } else if IsSpace(x[0]) {
      SkipFirstSpace(x, y, past);
      SkipLayout(x[1..], y, past);
    } else {
      SkipFirstMarker(x, y, past);
      SkipLayout(x[LineEnd(x) + 1..], y, past);
    }
  }

  lemma {:induction false} SkipFirstSpace(x: seq<Byte>, y: seq<Byte>, past: Byte)
    requires x != [] && IsSpace(x[0])
    ensures Tokens(x + y, past) == Tokens(x[1..] + y, past)
  {
    SkipSpace(x + y, past);
    assert (x + y)[1..] == x[1..] + y;
  }

  lemma {:induction false} SkipFirstMarker(x: seq<Byte>, y: seq<Byte>, past: Byte)
    requires IsMarker(x) && LineEnd(x) < |x|
    ensures Tokens(x + y, past) == Tokens(x[LineEnd(x) + 1..] + y, past)
  {
    var n := LineEnd(x) + 1;
    var m := x[..n];
    assert x[..n] == m[..n];
    SameLine(x, m, n);
    assert x + y == m + (x[n..] + y);
    SkipMarker(m, x[n..] + y, past);
  }

  // ----- layout insensitivity ------------------------------------------------------------------------

  // i is a position at which the scanner starts a token, or the end of the text.
  predicate IsBoundary(s: seq<Byte>, i: nat)
    decreases |s|
  {
    i == 0
    || (s != [] && var n := Next(s, '\0').used; n <= i && n <= |s| && IsBoundary(s[n..], i - n))
  }

  predicate IsBlank(s: seq<Byte>, j: nat, i: nat)
    requires i <= |s|
  {
    forall k :: j <= k < i ==> IsSpace(s[k])
  }

  // i is such a position, or inside the white space behind one.
  ghost predicate TakesLayout(s: seq<Byte>, i: nat) {
    i <= |s| && exists j: nat {:trigger IsBoundary(s, j)} :: j <= i && IsBoundary(s, j) && IsBlank(s, j, i)
  }

  lemma {:induction false} BoundaryInText(s: seq<Byte>, i: nat)
    requires IsBoundary(s, i)
    ensures i <= |s|
    decreases |s|
  {
    if i > 0 {
      var n := Next(s, '\0').used;
      BoundaryInText(s[n..], i - n);
    }
  }

  function Inserted(s: seq<Byte>, i: nat, x: seq<Byte>): seq<Byte>
    requires i <= |s|
  {
    s[..i] + x + s[i..]
  }

  // a and b have the same tokens.
  ghost predicate SameTokens(a: seq<Byte>, b: seq<Byte>, past: Byte) {
    forall k {:trigger Look(k)} :: Look(k) ==> Tokens(a, past) == Tokens(b, past)
  }

  predicate IsUsed(s: seq<Byte>, n: nat)
    requires s != []
  {
    n == Next(s, '\0').used
  }

  lemma {:induction false} InsertedAtPlace(s: seq<Byte>, j: nat, i: nat, x: seq<Byte>, past: Byte)
    requires IsBoundary(s, j) == true && j <= i <= |s| && IsBlank(s, j, i) == true && IsLayout(x) == true
    ensures SameTokens(Inserted(s, i, x), s, past) == true
    decreases |s|
  {
    if x == [] {
      assert Inserted(s, i, x) == s;
    } else if j == 0 {
      InsertedAmongBlanks(s, i, x, past);
    } else {
      var n := NextBoundary(s, j);
      var rest, j', i': nat := s[n..], j - n, i - n;
      BlankBehind(s, n, j, i);
      InsertedAtPlace(rest, j', i', x, past);
      InsertedLater(s, i, x, n, rest, i', past);
    }
  }

  lemma BlankBehind(s: seq<Byte>, n: nat, j: nat, i: nat)
    requires n <= j <= i <= |s| && IsBlank(s, j, i) == true
    ensures IsBlank(s[n..], j - n, i - n) == true
  {
  }

  // Layout inserted at any token boundary of any text, or in the white space behind it, leaves its
  // tokens as they are.
  lemma {:induction false} LayoutIsInvisible(s: seq<Byte>, i: nat, x: seq<Byte>, past: Byte)
    requires TakesLayout(s, i) && IsLayout(x)
    ensures Tokens(Inserted(s, i, x), past) == Tokens(s, past)
  {
    var j: nat :| j <= i && IsBoundary(s, j) && IsBlank(s, j, i);
    InsertedAtPlace(s, j, i, x, past);
    assert Look(0);
  }

  lemma {:induction false} InsertedLater(s: seq<Byte>, i: nat, x: seq<Byte>, n: nat, rest: seq<Byte>, j: nat, past: Byte)
    requires s != [] && IsUsed(s, n) == true && n <= i <= |s| && x != [] && IsLayout(x) == true
    requires rest == s[n..] && j == i - n && SameTokens(Inserted(rest, j, x), rest, past) == true
    ensures SameTokens(Inserted(s, i, x), s, past) == true
  {
    assert Look(0);
    InsertedTail(s, i, x, n);
    SameFirstToken(s, i, x, n, past);
  }

  lemma {:induction false} InsertedAmongBlanks(s: seq<Byte>, i: nat, x: seq<Byte>, past: Byte)
    requires i <= |s| && IsBlank(s, 0, i) && IsLayout(x) == true
    ensures SameTokens(Inserted(s, i, x), s, past) == true
  {
    var w := Inserted(s, i, x);
    assert w[i..] == x + s[i..] && forall k :: 0 <= k < i ==> w[k] == s[k];
    SkipSpaces(w, i, past);
    SkipLayout(x, s[i..], past);
    SkipSpaces(s, i, past);
  }

  lemma {:induction false} NextBoundary(s: seq<Byte>, i: nat) returns (n: nat)
    requires IsBoundary(s, i) == true && i > 0
    ensures s != [] && IsUsed(s, n) == true && 1 <= n <= i <= |s| && IsBoundary(s[n..], i - n) == true
  {
    n := Next(s, '\0').used;
    BoundaryInText(s[n..], i - n);
  }

  lemma {:induction false} InsertedTail(s: seq<Byte>, i: nat, x: seq<Byte>, n: nat)
    requires n <= i <= |s|
    ensures Inserted(s, i, x)[n..] == Inserted(s[n..], i - n, x)
  {
  }

  lemma {:induction false} SameFirstToken(s: seq<Byte>, i: nat, x: seq<Byte>, n: nat, past: Byte)
    requires s != [] && n == Next(s, '\0').used <= i <= |s| && x != [] && IsLayout(x)
    requires Tokens(Inserted(s, i, x)[n..], past) == Tokens(s[n..], past)
    ensures Tokens(Inserted(s, i, x), past) == Tokens(s, past)
  {
    var w := Inserted(s, i, x);
    assert w[..i] == s[..i] && w[i] == x[0];
    if IsSpace(s[0]) {
      SpacesOfNext(s);
      assert forall k :: 0 <= k < n ==> w[k] == s[..i][k];
      SkipSpaces(s, n, past);
      SkipSpaces(w, n, past);
    } else {
      SameNext(s, w, i, '\0', past);
      SameNextAnyPast(s, past);
      StepInside(s, past, Next(s, past));
      StepInside(w, past, Next(s, past));
    }
  }

  // What the first token contributes when it ends inside the text.
  function Texts(t: Step): seq<seq<Byte>> {
    if t.Emit? then [t.text] else []
  }

  lemma {:induction false} StepInside(s: seq<Byte>, past: Byte, t: Step)
    requires s != [] && Next(s, past) == t && t.used <= |s|
    ensures Tokens(s, past) == Texts(t) + Tokens(s[t.used..], past)
  {
    assert Drop(s, t.used) == s[t.used..];
  }

  lemma {:induction false} SpacesOfNext(s: seq<Byte>)
    requires s != [] && IsSpace(s[0])
    ensures Next(s, '\0').used == Run(s, IsSpace, 1)
    ensures forall k :: 0 <= k < Run(s, IsSpace, 1) ==> IsSpace(s[k])
  {
  }

  // A token that ends inside the text does not depend on what is behind it.
  lemma {:induction false} SameNextAnyPast(s: seq<Byte>, past: Byte)
    requires s != [] && Next(s, '\0').used <= |s|
    ensures Next(s, past) == Next(s, '\0')
  {
  }

  // ----- the normal form ------------------------------------------------------------------------------

  // Scanning the unified text of a text with closed literals gives back its tokens.
  lemma {:induction false} Retokenised(s: seq<Byte>, past: Byte, past': Byte)
    requires Closed(s)
    ensures Tokens(Unified(s, past), past') == Tokens(s, past)
    decreases |s|
  {
    if s != [] {
      var t := Next(s, past);
      SameUsed(s, past);
      Retokenised(Drop(s, t.used), past, past');
      UnifiedStep(s, past, t);
      if t.Emit? {
        TokenAlone(s, past, Unified(Drop(s, t.used), past), past');
      }
    }
  }

  lemma {:induction false} SameUsed(s: seq<Byte>, past: Byte)
    requires s != []
    ensures Next(s, past).used == Next(s, '\0').used
  {
  }

  lemma {:induction false} UnifiedStep(s: seq<Byte>, past: Byte, t: Step)
    requires s != [] && Next(s, past) == t
    ensures Tokens(s, past) == Texts(t) + Tokens(Drop(s, t.used), past)
    ensures t.Skip? ==> Unified(s, past) == Unified(Drop(s, t.used), past)
    ensures t.Emit? ==> Unified(s, past) == t.text + ['\n'] + Unified(Drop(s, t.used), past)
  {
    var tail := Tokens(Drop(s, t.used), past);
    if t.Emit? {
      assert ([t.text] + tail)[1..] == tail;
    } else {
      assert [] + tail == tail;
    }
  }

  // One emitted token in front of any text.
  lemma {:induction false} TokenAlone(s: seq<Byte>, past: Byte, u: seq<Byte>, past': Byte)
    requires s != [] && Next(s, past).Emit? && (IsQuote(s[0]) ==> QuoteEnd(s, 1) < |s|)
    ensures var t := Next(s, past).text;
      Tokens(t + ['\n'] + u, past') == [t] + Tokens(u, past')
  {
    var t := Next(s, past).text;
    var w := t + ['\n'] + u;
    var n := |t|;
    assert w[..n] == t == s[..n];
    if s[0] == '#' {
      LineAlone(s, w);
      FirstToken(w, past', t, n + 1, u);
    } else {
      SameNext(s, w, n, past, past');
      FirstToken(w, past', t, n, ['\n'] + u);
      SkipFirstSpace(['\n'], u, past');
      assert ['\n'][1..] + u == u;
    }
  }

  lemma {:induction false} FirstToken(w: seq<Byte>, past: Byte, t: seq<Byte>, used: nat, rest: seq<Byte>)
    requires w != [] && Next(w, past) == Emit(t, used) && Drop(w, used) == rest
    ensures Tokens(w, past) == [t] + Tokens(rest, past)
  {
  }

  lemma {:induction false} LineAlone(s: seq<Byte>, w: seq<Byte>)
    requires s != [] && s[0] == '#' && !IsMarker(s)
    requires LineEnd(s) < |w| && w[..LineEnd(s)] == s[..LineEnd(s)] && w[LineEnd(s)] == '\n'
    ensures LineEnd(w) == LineEnd(s) && !IsMarker(w) && w[0] == '#'
  {
    var n := LineEnd(s);
    SameRun(s, w, IsNotNewline, 1, n);
    assert forall k :: 0 <= k < n ==> w[k] == w[..n][k] == s[k];
  }

  // Unifying a unified text changes nothing.
  lemma {:induction false} UnifyIsIdempotent(s: seq<Byte>, past: Byte, past': Byte)
    requires Closed(s)
    ensures Unified(Unified(s, past), past') == Unified(s, past)
  {
    Retokenised(s, past, past');
  }

  // Two texts get the same unified text exactly when they have the same tokens.
  lemma {:induction false} UnifiedSeparatesTokens(s: seq<Byte>, s': seq<Byte>, past: Byte)
    requires Closed(s) && Closed(s')
    ensures Unified(s, past) == Unified(s', past) <==> Tokens(s, past) == Tokens(s', past)
  {
    Retokenised(s, past, past);
    Retokenised(s', past, past);
  }

  lemma {:induction false} UnifiedIgnoresLayout(s: seq<Byte>, i: nat, x: seq<Byte>, past: Byte)
    requires TakesLayout(s, i) && IsLayout(x)
    ensures Unified(Inserted(s, i, x), past) == Unified(s, past)
  {
    LayoutIsInvisible(s, i, x, past);
  }

  lemma {:induction false} TextComesFromSource(s: seq<Byte>, past: Byte)
    requires s != [] && Next(s, past).Emit?
    ensures var text := Next(s, past).text; text <= s || (IsQuote(s[0]) && QuoteEnd(s, 1) == |s| && text == s + [past])
  {
  }

  lemma NoZeroInPart(s: seq<Byte>, text: seq<Byte>, past: Byte)
    requires '\0' !in s && (text <= s || (text == s + [past] && past != '\0'))
    ensures '\0' !in text
  {
  }

  // Unifying makes no zero byte of a text without one, except from a zero byte behind an open literal.
  // So the flush at the end is the only one.
  lemma {:induction false} UnifiedHasNoZero(s: seq<Byte>, past: Byte)
    requires '\0' !in s && (Closed(s) || past != '\0')
    ensures '\0' !in Unified(s, past)
    decreases |s|
  {
    if s != [] {
      var t := Next(s, past);
      SameUsed(s, past);
      UnifiedStep(s, past, t);
      var rest := Drop(s, t.used);
      assert '\0' !in rest;
      UnifiedHasNoZero(rest, past);
      if t.Emit? {
        TextComesFromSource(s, past);
        NoZeroInPart(s, t.text, past);
        assert '\0' !in t.text + ['\n'] + Unified(rest, past);
      }
    }
  }

  // ----- literals that are not closed ------------------------------------------------------------------

  // An open literal followed by the two bytes emitted after it is still open.
  lemma {:induction false} StaysOpen(s: seq<Byte>, w: seq<Byte>, at: nat)
    requires s != [] && IsQuote(s[0]) && w == s + ['\0', '\n']
    requires 1 <= at <= |s| && QuoteEnd(s, at) == |s|
    ensures QuoteEnd(w, at) == |w|
    decreases |s| - at
  {
    if at == |s| {
      assert QuoteEnd(w, at) == QuoteEnd(w, at + 1) == QuoteEnd(w, at + 2);
    } else if s[at] == '\\' && at == |s| - 1 {
      assert QuoteEnd(w, at) == QuoteEnd(w, at + 2) == QuoteEnd(w, at + 3);
    } else if s[at] == '\\' {
      StaysOpen(s, w, at + 2);
    } else {
      StaysOpen(s, w, at + 1);
    }
  }

  lemma {:induction false} OpenToken(s: seq<Byte>)
    requires s != [] && IsQuote(s[0]) && QuoteEnd(s, 1) == |s|
    ensures Unified(s, '\0') == s + ['\0', '\n']
  {
    assert Next(s, '\0') == Emit(s + ['\0'], |s| + 1);
    UnifiedStep(s, '\0', Next(s, '\0'));
  }

  // With a zero byte behind the text, unifying an open literal again makes it longer.
  lemma {:induction false} OpenGrows(s: seq<Byte>)
    requires !Closed(s)
    ensures |Unified(Unified(s, '\0'), '\0')| > |Unified(s, '\0')|
    decreases |s|
  {
    if IsQuote(s[0]) && QuoteEnd(s, 1) == |s| {
      OpenToken(s);
      StaysOpen(s, s + ['\0', '\n'], 1);
      OpenToken(s + ['\0', '\n']);
    } else {
      var t := Next(s, '\0');
      var rest := Drop(s, t.used);
      OpenGrows(rest);
      UnifiedStep(s, '\0', t);
      if t.Emit? {
        TokenAlone(s, '\0', Unified(rest, '\0'), '\0');
        LinesOfPair(t.text, Tokens(Unified(rest, '\0'), '\0'));
      }
    }
  }

  lemma {:induction false} LinesOfPair(t: seq<Byte>, rest: seq<seq<Byte>>)
    ensures Lines([t] + rest) == t + ['\n'] + Lines(rest)
  {
    assert ([t] + rest)[1..] == rest;
  }

  // The last page of a mapped file is filled up with zero bytes. Then unification is idempotent on
  // a text exactly when its literals are closed.
  lemma {:induction false} IdempotentExactlyWhenClosed(s: seq<Byte>)
    ensures Unified(Unified(s, '\0'), '\0') == Unified(s, '\0') <==> Closed(s)
  {
    if Closed(s) {
      UnifyIsIdempotent(s, '\0', '\0');
    } else {
      OpenGrows(s);
    }
  }
}
