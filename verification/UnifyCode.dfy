// unify.c: the table built by build_table and the scanning loops, pushing into the hash.
module UnifyCode {
  import opened Common
  import opened Bytes
  import opened Mdfour
  import opened Unify
  import opened UnifyNormal
  import opened Hash

  // The bits of tokens[c].type.
  datatype Class = C_ALPHA | C_SPACE | C_TOKEN | C_QUOTE | C_DIGIT | C_HEX | C_FLOAT | C_SIGN

  predicate StartsWith(t: seq<char>, c: char) { t != [] && t[0] == c }

  // Those of the first n tokens of a list that start with c, in order.
  function Bucket(ts: seq<seq<char>>, c: char, n: nat): seq<seq<char>>
    requires n <= |ts|
  {
    if n == 0 then []
    else Bucket(ts, c, n - 1) + (if StartsWith(ts[n - 1], c) then [ts[n - 1]] else [])
  }

  function AllTokens(): (ts: seq<seq<char>>)
    ensures |ts| == TOKEN_COUNT && forall k :: 0 <= k < TOKEN_COUNT ==> ts[k] == Token(k)
  {
    seq(TOKEN_COUNT, k requires 0 <= k < TOKEN_COUNT => Token(k))
  }

  // Where an entry of a bucket stands in the list.
  lemma {:induction false} BucketEntry(ts: seq<seq<char>>, c: char, n: nat, i: nat) returns (k: nat)
    requires n <= |ts| && i < |Bucket(ts, c, n)|
    ensures k < n && StartsWith(ts[k], c) && ts[k] == Bucket(ts, c, n)[i]
    ensures Bucket(ts, c, k) == Bucket(ts, c, n)[..i]
  {
    if i < |Bucket(ts, c, n - 1)| {
      k := BucketEntry(ts, c, n - 1, i);
      assert Bucket(ts, c, n)[..i] == Bucket(ts, c, n - 1)[..i];
    } else {
      k := n - 1;
      assert Bucket(ts, c, n)[..i] == Bucket(ts, c, n - 1);
    }
  }

  // A token that starts with c is in the bucket of c.
  lemma {:induction false} InBucket(ts: seq<seq<char>>, c: char, k: nat, n: nat) returns (i: nat)
    requires k < n <= |ts| && StartsWith(ts[k], c)
    ensures i < |Bucket(ts, c, n)| && Bucket(ts, c, n)[i] == ts[k]
  {
    if k == n - 1 {
      i := |Bucket(ts, c, n - 1)|;
    } else {
      i := InBucket(ts, c, k, n - 1);
    }
  }

  // No entry of the bucket matches: no token at all does.
  lemma {:induction false} NoEntryMatches(ts: seq<seq<char>>, s: seq<Byte>, n: nat)
    requires s != [] && n <= |ts| && forall k :: 0 <= k < n ==> ts[k] != []
    requires forall j :: 0 <= j < |Bucket(ts, s[0], n)| ==> !(Bucket(ts, s[0], n)[j] <= s)
    ensures forall k :: 0 <= k < n ==> !(ts[k] <= s)
  {
    forall k | 0 <= k < n ensures !(ts[k] <= s) {
      if ts[k] <= s {
        var i := InBucket(ts, s[0], k, n);
      }
    }
  }

  // The first entry of the bucket that matches is the first token that does.
  lemma {:induction false} FirstEntryMatches(ts: seq<seq<char>>, s: seq<Byte>, n: nat, i: nat) returns (k: nat)
    requires s != [] && n <= |ts| && i < |Bucket(ts, s[0], n)| && forall k :: 0 <= k < n ==> ts[k] != []
    requires forall j :: 0 <= j < i ==> !(Bucket(ts, s[0], n)[j] <= s)
    requires Bucket(ts, s[0], n)[i] <= s
    ensures k < n && ts[k] == Bucket(ts, s[0], n)[i]
    ensures forall j :: 0 <= j < k ==> !(ts[j] <= s)
  {
    k := BucketEntry(ts, s[0], n, i);
    forall j | 0 <= j < |Bucket(ts, s[0], k)| ensures !(Bucket(ts, s[0], k)[j] <= s) {
      assert Bucket(ts, s[0], k)[j] == Bucket(ts, s[0], n)[..i][j] == Bucket(ts, s[0], n)[j];
    }
    NoEntryMatches(ts, s, k);
  }

  // The bucket of the first character decides the first match.
  lemma {:induction false} BucketDecides(s: seq<Byte>, i: nat)
    requires s != []
    requires i <= |Bucket(AllTokens(), s[0], TOKEN_COUNT)|
    requires forall j :: 0 <= j < i ==> !(Bucket(AllTokens(), s[0], TOKEN_COUNT)[j] <= s)
    ensures i == |Bucket(AllTokens(), s[0], TOKEN_COUNT)| ==> FirstMatch(s, 0) == TOKEN_COUNT
    ensures i < |Bucket(AllTokens(), s[0], TOKEN_COUNT)| && Bucket(AllTokens(), s[0], TOKEN_COUNT)[i] <= s
        ==> FirstMatch(s, 0) < TOKEN_COUNT && Token(FirstMatch(s, 0)) == Bucket(AllTokens(), s[0], TOKEN_COUNT)[i]
  {
    var ts, n := AllTokens(), TOKEN_COUNT;
    assert forall k :: 0 <= k < n ==> ts[k] != [] by {
      forall k | 0 <= k < n ensures ts[k] != [] { assert ts[k] == Token(k); }
    }
    var m := FirstMatch(s, 0);
    assert m < n ==> ts[m] == Token(m);
    if i == |Bucket(ts, s[0], n)| {
      NoEntryMatches(ts, s, n);
    } else if Bucket(ts, s[0], n)[i] <= s {
      var k := FirstEntryMatches(ts, s, n, i);
      assert Token(k) <= s;
      assert m == k;
    }
  }

  // ----- seven places are enough ---------------------------------------------------------------------

  // The room for the punctuators of one first character.
  const MAX_TOKS: nat := 7

  function Occurrences(t: seq<char>, c: char): nat {
    if t == [] then 0 else Occurrences(t[..|t| - 1], c) + (if t[|t| - 1] == c then 1 else 0)
  }

  lemma {:induction false} OccurrencesConcat(t: seq<char>, u: seq<char>, c: char)
    ensures Occurrences(t + u, c) == Occurrences(t, c) + Occurrences(u, c)
  {
    if u == [] {
      assert t + u == t;
    } else {
      OccurrencesConcat(t, u[..|u| - 1], c);
      assert (t + u)[..|t + u| - 1] == t + u[..|u| - 1];
    }
  }

  lemma {:induction false} BucketSize(ts: seq<seq<char>>, firsts: seq<char>, c: char, n: nat)
    requires n <= |ts| == |firsts| && forall k :: 0 <= k < n ==> StartsWith(ts[k], firsts[k])
    ensures |Bucket(ts, c, n)| == Occurrences(firsts[..n], c)
  {
    if n > 0 {
      BucketSize(ts, firsts, c, n - 1);
      assert firsts[..n][..n - 1] == firsts[..n - 1];
    }
  }

  // The first characters of the punctuators, ten by ten.
  const TEN_1: seq<char> := ".><+-*/%&^"
  const TEN_2: seq<char> := "|><+--&|<>"
  const TEN_3: seq<char> := "=!;{<}%,:="
  const TEN_4: seq<char> := "()[<]:.&!~"
  const TEN_5: seq<char> := "-+*/%<>^|?"

  function FirstCharacters(): (t: seq<char>)
    ensures |t| == TOKEN_COUNT
  {
    TEN_1 + TEN_2 + TEN_3 + TEN_4 + TEN_5
  }

  lemma {:induction false} TokensStartWith(k: nat)
    requires k < TOKEN_COUNT
    ensures StartsWith(Token(k), FirstCharacters()[k])
  {
  }

  lemma {:induction false} Ten(t: seq<char>, c: char)
    requires |t| == 10
    ensures Occurrences(t, c) ==
      (if t[0] == c then 1 else 0) + (if t[1] == c then 1 else 0) + (if t[2] == c then 1 else 0)
      + (if t[3] == c then 1 else 0) + (if t[4] == c then 1 else 0) + (if t[5] == c then 1 else 0)
      + (if t[6] == c then 1 else 0) + (if t[7] == c then 1 else 0) + (if t[8] == c then 1 else 0)
      + (if t[9] == c then 1 else 0)
  {
    OccurrencesOfTwo(t[..2], c);
    OccurrencesOfTwo(t[2..4], c);
    OccurrencesOfTwo(t[4..6], c);
    OccurrencesOfTwo(t[6..8], c);
    OccurrencesOfTwo(t[8..], c);
    assert t == t[..2] + t[2..4] + t[4..6] + t[6..8] + t[8..];
    OccurrencesConcat(t[..2] + t[2..4] + t[4..6] + t[6..8], t[8..], c);
    OccurrencesConcat(t[..2] + t[2..4] + t[4..6], t[6..8], c);
    OccurrencesConcat(t[..2] + t[2..4], t[4..6], c);
    OccurrencesConcat(t[..2], t[2..4], c);
  }

  lemma {:induction false} OccurrencesOfTwo(t: seq<char>, c: char)
    requires |t| == 2
    ensures Occurrences(t, c) == (if t[0] == c then 1 else 0) + (if t[1] == c then 1 else 0)
  {
    var one := t[..1];
    assert one[0] == t[0] && one[..0] == [] && t[..|t| - 1] == one;
    assert Occurrences(one, c) == Occurrences([], c) + (if one[0] == c then 1 else 0);
  }

  // No first character has more than six punctuators, and '<' has six.
  lemma {:induction false} BucketsFit(c: char)
    ensures |Bucket(AllTokens(), c, TOKEN_COUNT)| <= 6 < MAX_TOKS
    ensures |Bucket(AllTokens(), '<', TOKEN_COUNT)| == 6
  {
    var t := FirstCharacters();
    forall k | 0 <= k < TOKEN_COUNT
      ensures StartsWith(AllTokens()[k], t[k])
    {
      TokensStartWith(k);
    }
    assert t[..TOKEN_COUNT] == t;
    BucketSize(AllTokens(), t, c, TOKEN_COUNT);
    BucketSize(AllTokens(), t, '<', TOKEN_COUNT);
    AtMostSix(c);
    AtMostSix('<');
  }

  lemma {:induction false} AtMostSix(c: char)
    ensures Occurrences(FirstCharacters(), c) <= 6 && (c == '<' ==> Occurrences(FirstCharacters(), c) == 6)
  {
    OccurrencesConcat(TEN_1 + TEN_2 + TEN_3 + TEN_4, TEN_5, c);
    OccurrencesConcat(TEN_1 + TEN_2 + TEN_3, TEN_4, c);
    OccurrencesConcat(TEN_1 + TEN_2, TEN_3, c);
    OccurrencesConcat(TEN_1, TEN_2, c);
    TensOf(c);
  }

  // At most one in each ten but for the signs that are there more often.
  lemma {:induction false} TensOf(c: char)
    ensures Occurrences(TEN_1, c) <= 1 && Occurrences(TEN_4, c) <= 1 && Occurrences(TEN_5, c) <= 1
    ensures Occurrences(TEN_2, c) <= 2 && Occurrences(TEN_3, c) <= if c == '=' then 2 else 1
    ensures c == '=' ==> Occurrences(TEN_2, c) == 0
    ensures c == '<' ==> Occurrences(TEN_1, c) == Occurrences(TEN_3, c) == Occurrences(TEN_4, c) == Occurrences(TEN_5, c) == 1
    ensures c == '<' ==> Occurrences(TEN_2, c) == 2
  {
    Ten(TEN_1, c);
    Ten(TEN_2, c);
    Ten(TEN_3, c);
    Ten(TEN_4, c);
    Ten(TEN_5, c);
  }

  // What the type bits of a character must say.
  ghost predicate ClassesOf(t: set<Class>, c: Byte) {
    (C_ALPHA in t <==> IsAlpha(c)) && (C_DIGIT in t <==> IsDigit(c)) && (C_SPACE in t <==> IsSpace(c))
    && (C_HEX in t <==> IsHex(c)) && (C_QUOTE in t <==> IsQuote(c)) && (C_FLOAT in t <==> IsFloat(c))
    && (C_SIGN in t <==> IsSign(c))
  }

  // The bits taken from isalpha, isdigit, isspace and isxdigit.
  function CtypeClasses(c: Byte): set<Class> {
    (if IsAlpha(c) then {C_ALPHA} else {}) + (if IsDigit(c) then {C_DIGIT} else {})
    + (if IsSpace(c) then {C_SPACE} else {}) + (if IsHex(c) then {C_HEX} else {})
  }

  // The bits set for single characters.
  function LetterClasses(c: Byte): set<Class> {
    (if IsQuote(c) then {C_QUOTE} else {}) + (if IsFloat(c) then {C_FLOAT} else {})
    + (if IsSign(c) then {C_SIGN} else {})
  }

  lemma ClassesComplete(c: Byte)
    ensures ClassesOf(CtypeClasses(c) + LetterClasses(c), c) && C_TOKEN !in CtypeClasses(c) + LetterClasses(c)
  {
  }

  lemma {:induction false} TokenChars(k: nat)
    requires k < TOKEN_COUNT
    ensures forall j :: 0 <= j < |Token(k)| ==> (Token(k)[j] as int) < 128
  {
  }

  // tokens[256] and build_table.
  class TokenTable {
    const typ: array<set<Class>>
    const toks: array<seq<seq<char>>>

    ghost predicate TypesOk()
      reads typ
    {
      typ.Length == 256 && forall j :: 0 <= j < 256 ==> ClassesOf(typ[j], j as char)
    }

    ghost predicate Valid()
      reads typ, toks
    {
      TypesOk() && BucketsOk(TOKEN_COUNT)
    }

    ghost predicate BucketsOk(n: nat)
      requires n <= TOKEN_COUNT
      reads typ, toks
    {
      typ.Length == toks.Length == 256
      && forall j :: 0 <= j < 256 ==> toks[j] == Bucket(AllTokens(), j as char, n) && (C_TOKEN in typ[j] <==> toks[j] != [])
    }

    constructor ()
      ensures Valid() && fresh(typ) && fresh(toks)
    {
      typ := new set<Class>[256](_ => {});
      toks := new seq<seq<char>>[256](_ => []);
      new;
      MarkCtype();
      MarkLetters();
      forall j | 0 <= j < 256
        ensures ClassesOf(typ[j], j as char) && C_TOKEN !in typ[j]
      {
        ClassesComplete(j as char);
      }
      AddTokens();
    }

    // The loop of build_table over the ctype functions, which are false above 127.
    method MarkCtype()
      requires typ.Length == 256 && forall j :: 0 <= j < 256 ==> typ[j] == {}
      modifies typ
      ensures forall j :: 0 <= j < 256 ==> typ[j] == CtypeClasses(j as char)
    {
      for i := 0 to 128
        invariant forall j :: 0 <= j < 256 ==> typ[j] == if j < i then CtypeClasses(j as char) else {}
      {
        typ[i] := CtypeClasses(i as char);
      }
    }

    // The loop of build_table over the punctuators.
    method AddTokens()
      requires TypesOk() && BucketsOk(0)
      modifies typ, toks
      ensures Valid()
    {
      for i := 0 to TOKEN_COUNT
        invariant TypesOk() && BucketsOk(i)
      {
        AddToken(i);
      }
    }

    // The lines of build_table for quotes, float suffixes and signs.
    method MarkLetters()
      requires typ.Length == 256
      modifies typ
      ensures forall j :: 0 <= j < 256 ==> typ[j] == old(typ[j]) + LetterClasses(j as char)
    {
      MarkQuotes();
      MarkSuffixes();
      MarkSigns();
    }

    method MarkQuotes()
      requires typ.Length == 256
      modifies typ
      ensures forall j :: 0 <= j < 256 ==> typ[j] == old(typ[j]) + if IsQuote(j as char) then {C_QUOTE} else {}
    {
      Mark('\'', C_QUOTE); Mark('"', C_QUOTE);
    }

    method MarkSuffixes()
      requires typ.Length == 256
      modifies typ
      ensures forall j :: 0 <= j < 256 ==> typ[j] == old(typ[j]) + if IsFloat(j as char) then {C_FLOAT} else {}
    {
      Mark('l', C_FLOAT); Mark('L', C_FLOAT);
      Mark('f', C_FLOAT); Mark('F', C_FLOAT);
      Mark('U', C_FLOAT); Mark('u', C_FLOAT);
    }

    method MarkSigns()
      requires typ.Length == 256
      modifies typ
      ensures forall j :: 0 <= j < 256 ==> typ[j] == old(typ[j]) + if IsSign(j as char) then {C_SIGN} else {}
    {
      Mark('-', C_SIGN); Mark('+', C_SIGN);
    }

    method Mark(c: Byte, t: Class)
      requires typ.Length == 256
      modifies typ
      ensures forall j :: 0 <= j < 256 ==> typ[j] == if j == c as int then old(typ[j]) + {t} else old(typ[j])
    {
      typ[c as int] := typ[c as int] + {t};
    }

    method AddToken(i: nat)
      requires i < TOKEN_COUNT && TypesOk() && BucketsOk(i)
      modifies typ, toks
      ensures TypesOk() && BucketsOk(i + 1)
    {
      var s := Token(i);
      TokenChars(i);
      var c := s[0] as int;
      typ[c] := typ[c] + {C_TOKEN};
      toks[c] := toks[c] + [s];
    }
  }

  // A point in the sequence of pushed characters.
  datatype Origin = Origin(state: Md, log: seq<Byte>)

  // unify and the state it pushes into. The pointer p + ofs is the rest s of the text.
  class Unifier {
    const table: TokenTable
    const hash: PushBuffer

    ghost predicate Valid()
      reads table.typ, table.toks, hash, hash.md, hash.md.tail, hash.buf
    {
      table.Valid() && hash.Valid()
    }

    // After the characters pushed up to m, everything in `out` has been pushed.
    ghost predicate Pushed(m: Origin, out: seq<Byte>)
      reads table.typ, table.toks, hash, hash.md, hash.md.tail, hash.buf
    {
      Valid() && hash.origin == m.state && hash.log == m.log + out
    }

    constructor ()
      ensures Valid() && hash.len == 0 && hash.md.Contents() == BEGIN && hash.origin == BEGIN && hash.log == []
      ensures fresh(hash) && fresh(hash.md) && fresh(hash.md.tail) && fresh(hash.buf)
    {
      table := new TokenTable();
      hash := new PushBuffer();
    }

    method Push(c: Byte, ghost m: Origin, ghost out: seq<Byte>)
      requires Pushed(m, out)
      modifies hash, hash.md, hash.md.tail, hash.buf
      ensures Pushed(m, out + [c])
      ensures c == '\0' ==> hash.len == 0
    {
      hash.PushChar(c);
      assert m.log + (out + [c]) == m.log + out + [c];
    }

    // Push the character s[i] after s[..i].
    method PushAt(c: Byte, ghost s: seq<Byte>, ghost i: nat, ghost m: Origin)
      requires i < |s| && c == s[i] && Pushed(m, s[..i])
      modifies hash, hash.md, hash.md.tail, hash.buf
      ensures Pushed(m, s[..i + 1])
    {
      Push(c, m, s[..i]);
      assert s[..i] + [c] == s[..i + 1];
    }

    // tokens[c].type & mask, or the dot that the number scanner also accepts.
    static predicate Hits(t: set<Class>, mask: set<Class>, dot: bool, c: char) {
      t * mask != {} || (dot && c == '.')
    }

    static lemma HitsTwo(t: set<Class>, a: Class, b: Class, dot: bool, c: char)
      ensures Hits(t, {a, b}, dot, c) <==> a in t || b in t || (dot && c == '.')
    {
      assert a in t ==> a in t * {a, b};
      assert b in t ==> b in t * {a, b};
    }

    // while (ofs < size && (tokens[p[ofs]].type & mask)) push and advance.
    method PushRun(s: seq<Byte>, i: nat, mask: set<Class>, dot: bool, ghost p: char -> bool, ghost m: Origin) returns (n: nat)
      requires i <= |s| && Pushed(m, s[..i])
      requires forall j :: 0 <= j < 256 ==> (p(j as char) <==> Hits(table.typ[j], mask, dot, j as char))
      modifies hash, hash.md, hash.md.tail, hash.buf
      ensures n == Run(s, p, i) && Pushed(m, s[..n])
    {
      n := i;
      while n < |s| && Hits(table.typ[s[n] as int], mask, dot, s[n])
        invariant i <= n <= |s| && Pushed(m, s[..n])
        invariant Run(s, p, i) == Run(s, p, n)
      {
        assert s[n] == (s[n] as int) as char;
        PushAt(s[n], s, n, m);
        n := n + 1;
      }
      assert n < |s| ==> s[n] == (s[n] as int) as char;
    }

    method PushFirst(s: seq<Byte>, ghost m: Origin)
      requires s != [] && Pushed(m, [])
      modifies hash, hash.md, hash.md.tail, hash.buf
      ensures Pushed(m, s[..1])
    {
      assert s[..0] == [];
      PushAt(s[0], s, 0, m);
    }

    // The rest of a line that is copied, and its newline.
    method PushLine(s: seq<Byte>, ghost m: Origin) returns (n: nat)
      requires s != [] && Pushed(m, [])
      modifies hash, hash.md, hash.md.tail, hash.buf
      ensures n == LineEnd(s) && Pushed(m, s[..n] + ['\n'])
    {
      PushFirst(s, m);
      n := 1;
      while n < |s| && s[n] != '\n'
        invariant 1 <= n <= |s| && Pushed(m, s[..n])
        invariant Run(s, IsNotNewline, 1) == Run(s, IsNotNewline, n)
      {
        PushAt(s[n], s, n, m);
        n := n + 1;
      }
      Push('\n', m, s[..n]);
    }

    method SkipLine(s: seq<Byte>) returns (n: nat)
      requires s != []
      ensures n == LineEnd(s)
    {
      n := 1;
      while n < |s| && s[n] != '\n'
        invariant 1 <= n <= |s|
        invariant Run(s, IsNotNewline, 1) == Run(s, IsNotNewline, n)
      {
        n := n + 1;
      }
    }

    method SkipSpaces(s: seq<Byte>) returns (n: nat)
      requires s != [] && table.Valid()
      ensures n == Run(s, IsSpace, 1)
    {
      n := 1;
      while n < |s| && C_SPACE in table.typ[s[n] as int]
        invariant 1 <= n <= |s|
        invariant Run(s, IsSpace, 1) == Run(s, IsSpace, n)
      {
        n := n + 1;
      }
    }

    method PushWord(s: seq<Byte>, ghost m: Origin) returns (n: nat)
      requires s != [] && Pushed(m, [])
      modifies hash, hash.md, hash.md.tail, hash.buf
      ensures n == Run(s, IsWord, 1) && Pushed(m, s[..n] + ['\n'])
    {
      PushFirst(s, m);
      forall j | 0 <= j < 256 { HitsTwo(table.typ[j], C_ALPHA, C_DIGIT, false, j as char); }
      n := PushRun(s, 1, {C_ALPHA, C_DIGIT}, false, IsWord, m);
      Push('\n', m, s[..n]);
    }

    method PushNumber(s: seq<Byte>, ghost m: Origin) returns (n: nat)
      requires s != [] && Pushed(m, [])
      modifies hash, hash.md, hash.md.tail, hash.buf
      ensures n == NumberEnd(s) && Pushed(m, s[..n] + ['\n'])
    {
      PushFirst(s, m);
      n := PushDigits(s, m);
      n := PushHex(s, n, m);
      n := PushExponent(s, n, m);
      n := PushSuffix(s, n, m);
      Push('\n', m, s[..n]);
    }

    method PushDigits(s: seq<Byte>, ghost m: Origin) returns (n: nat)
      requires s != [] && Pushed(m, s[..1])
      modifies hash, hash.md, hash.md.tail, hash.buf
      ensures n == Run(s, IsDigitOrDot, 1) && Pushed(m, s[..n])
    {
      forall j | 0 <= j < 256 { HitsTwo(table.typ[j], C_DIGIT, C_DIGIT, true, j as char); }
      n := PushRun(s, 1, {C_DIGIT}, true, IsDigitOrDot, m);
    }

    method PushHex(s: seq<Byte>, a: nat, ghost m: Origin) returns (n: nat)
      requires a <= |s| && Pushed(m, s[..a])
      modifies hash, hash.md, hash.md.tail, hash.buf
      ensures n == HexEnd(s, a) && Pushed(m, s[..n])
    {
      n := a;
      if n < |s| && (s[n] == 'x' || s[n] == 'X') {
        PushAt(s[n], s, n, m);
        forall j | 0 <= j < 256 { HitsTwo(table.typ[j], C_HEX, C_HEX, false, j as char); }
        n := PushRun(s, n + 1, {C_HEX}, false, IsHex, m);
      }
    }

    method PushExponent(s: seq<Byte>, b: nat, ghost m: Origin) returns (n: nat)
      requires b <= |s| && Pushed(m, s[..b])
      modifies hash, hash.md, hash.md.tail, hash.buf
      ensures n == ExponentEnd(s, b) && Pushed(m, s[..n])
    {
      n := b;
      if n < |s| && (s[n] == 'E' || s[n] == 'e') {
        PushAt(s[n], s, n, m);
        forall j | 0 <= j < 256 { HitsTwo(table.typ[j], C_DIGIT, C_SIGN, false, j as char); }
        n := PushRun(s, n + 1, {C_DIGIT, C_SIGN}, false, IsDigitOrSign, m);
      }
    }

    method PushSuffix(s: seq<Byte>, c: nat, ghost m: Origin) returns (n: nat)
      requires c <= |s| && Pushed(m, s[..c])
      modifies hash, hash.md, hash.md.tail, hash.buf
      ensures n == Run(s, IsFloat, c) && Pushed(m, s[..n])
    {
      forall j | 0 <= j < 256 { HitsTwo(table.typ[j], C_FLOAT, C_FLOAT, false, j as char); }
      n := PushRun(s, c, {C_FLOAT}, false, IsFloat, m);
    }

    // The byte at index i of the mapped file: behind its end stands `past`.
    static function ByteAt(s: seq<Byte>, past: Byte, i: nat): Byte {
      if i < |s| then s[i] else past
    }

    method PushQuoted(s: seq<Byte>, past: Byte, ghost m: Origin) returns (n: nat)
      requires s != [] && IsQuote(s[0]) && Pushed(m, [])
      modifies hash, hash.md, hash.md.tail, hash.buf
      ensures n == QuoteEnd(s, 1)
      ensures Pushed(m, (if n < |s| then s[..n + 1] else s + [past]) + ['\n'])
    {
      ghost var all := s + [past];
      PushFirst(s, m);
      assert s[..1] == all[..1];
      n := 0;
      var more := true;
      while more
        invariant n <= |s| && Pushed(m, all[..n + 1])
        invariant if more then n < |s| && QuoteEnd(s, 1) == QuoteEnd(s, n + 1) else n == QuoteEnd(s, 1)
        decreases |s| - n, more
      {
        n := PushInLiteral(s, n + 1, past, m, all);
        more := n < |s| && s[n] != s[0];
      }
      LiteralEnd(s, past, n);
      Push('\n', m, all[..n + 1]);
    }

    static lemma LiteralEnd(s: seq<Byte>, past: Byte, n: nat)
      requires n <= |s|
      ensures (s + [past])[..n + 1] == if n < |s| then s[..n + 1] else s + [past]
    {
    }

    // One turn of the loop over the characters of a literal: escapes, then one more character.
    method PushInLiteral(s: seq<Byte>, i: nat, past: Byte, ghost m: Origin, ghost all: seq<Byte>) returns (n: nat)
      requires 1 <= i <= |s| && all == s + [past] && Pushed(m, all[..i])
      modifies hash, hash.md, hash.md.tail, hash.buf
      ensures i <= n <= |s| && Pushed(m, all[..n + 1])
      ensures QuoteEnd(s, i) == QuoteEnd(s, n) && !(n < |s| - 1 && s[n] == '\\')
    {
      n := PushEscapes(s, i, past, m);
      PushAt(ByteAt(s, past, n), all, n, m);
    }

    // The inner loop over escape sequences.
    method PushEscapes(s: seq<Byte>, i: nat, ghost past: Byte, ghost m: Origin) returns (n: nat)
      requires 1 <= i <= |s| && Pushed(m, (s + [past])[..i])
      modifies hash, hash.md, hash.md.tail, hash.buf
      ensures i <= n <= |s| && Pushed(m, (s + [past])[..n])
      ensures QuoteEnd(s, i) == QuoteEnd(s, n) && !(n < |s| - 1 && s[n] == '\\')
    {
      ghost var all := s + [past];
      n := i;
      while n < |s| - 1 && s[n] == '\\'
        invariant i <= n <= |s| && Pushed(m, all[..n])
        invariant QuoteEnd(s, i) == QuoteEnd(s, n)
      {
        PushPair(s[n], s[n + 1], all, n, m);
        n := n + 2;
      }
    }

    method PushPair(c: Byte, d: Byte, ghost s: seq<Byte>, ghost i: nat, ghost m: Origin)
      requires i + 1 < |s| && c == s[i] && d == s[i + 1] && Pushed(m, s[..i])
      modifies hash, hash.md, hash.md.tail, hash.buf
      ensures Pushed(m, s[..i + 2])
    {
      PushAt(c, s, i, m);
      PushAt(d, s, i + 1, m);
    }

    // The loop over the characters of a matched punctuator.
    method PushText(s: seq<Byte>, len: nat, ghost m: Origin) returns (n: nat)
      requires len <= |s| && Pushed(m, [])
      modifies hash, hash.md, hash.md.tail, hash.buf
      ensures n == len && Pushed(m, s[..n] + ['\n'])
    {
      n := 0;
      assert s[..0] == [];
      while n < len
        invariant n <= len && Pushed(m, s[..n])
      {
        PushAt(s[n], s, n, m);
        n := n + 1;
      }
      Push('\n', m, s[..n]);
    }

    // The scan of the punctuators of s[0]; n is 0 when none matches.
    method PushToken(s: seq<Byte>, ghost m: Origin) returns (n: nat)
      requires s != [] && Pushed(m, [])
      modifies hash, hash.md, hash.md.tail, hash.buf
      ensures Valid()
      ensures n == 0 ==> FirstMatch(s, 0) == TOKEN_COUNT && Pushed(m, [])
      ensures n != 0 ==> FirstMatch(s, 0) < TOKEN_COUNT && n == |Token(FirstMatch(s, 0))| && Pushed(m, s[..n] + ['\n'])
    {
      var toks := table.toks[s[0] as int];
      var i := 0;
      while i < |toks|
        invariant i <= |toks| && Pushed(m, [])
        invariant forall j :: 0 <= j < i ==> !(toks[j] <= s)
      {
        var t := toks[i];
        if |t| <= |s| && t == s[..|t|] {
          BucketDecides(s, i);
          n := PushText(s, |t|, m);
          return;
        }
        i := i + 1;
      }
      BucketDecides(s, |table.toks[s[0] as int]|);
      n := 0;
    }

    // One turn of the outer loop on the rest s of the text.
    method Turn(s: seq<Byte>, past: Byte, ghost m: Origin) returns (used: nat)
      requires s != [] && Pushed(m, [])
      modifies hash, hash.md, hash.md.tail, hash.buf
      ensures used == Next(s, past).used && Pushed(m, TextPushed(s, past))
    {
      var c := s[0];
      LinesOfTexts(Next(s, past));
      if c == '#' {
        used := TurnOfLine(s, past, m);
        return;
      }
      var classes := table.typ[c as int];
      if C_ALPHA in classes {
        used := PushWord(s, m);
      } else if C_DIGIT in classes {
        used := PushNumber(s, m);
      } else if C_SPACE in classes {
        used := SkipSpaces(s);
      } else if C_QUOTE in classes {
        used := TurnOfQuote(s, past, m);
      } else {
        used := PushOther(s, m);
      }
    }

    method TurnOfQuote(s: seq<Byte>, past: Byte, ghost m: Origin) returns (used: nat)
      requires s != [] && IsQuote(s[0]) && Pushed(m, [])
      modifies hash, hash.md, hash.md.tail, hash.buf
      ensures used == Next(s, past).used && Pushed(m, TextPushed(s, past))
    {
      LinesOfTexts(Next(s, past));
      used := PushQuoted(s, past, m);
      used := used + 1;
    }

    // A line marker is skipped, any other line that starts with '#' is one token.
    method TurnOfLine(s: seq<Byte>, past: Byte, ghost m: Origin) returns (used: nat)
      requires s != [] && s[0] == '#' && Pushed(m, [])
      modifies hash, hash.md, hash.md.tail, hash.buf
      ensures used == Next(s, past).used && Pushed(m, TextPushed(s, past))
    {
      LinesOfTexts(Next(s, past));
      if |s| > 2 && s[1] == ' ' && IsDigit(s[2]) {
        used := SkipLine(s);
      } else {
        used := PushLine(s, m);
      }
      used := used + 1;
    }

    // A punctuator, or a character of no class.
    method PushOther(s: seq<Byte>, ghost m: Origin) returns (used: nat)
      requires s != [] && Pushed(m, [])
      modifies hash, hash.md, hash.md.tail, hash.buf
      ensures used == (if FirstMatch(s, 0) < TOKEN_COUNT then |Token(FirstMatch(s, 0))| else 1)
      ensures used <= |s| && Pushed(m, s[..used] + ['\n'])
    {
      used := 0;
      if C_TOKEN in table.typ[s[0] as int] {
        used := PushToken(s, m);
      } else {
        BucketDecides(s, |table.toks[s[0] as int]|);
      }
      if used == 0 {
        used := PushText(s, 1, m);
      }
    }

    // One turn after `out`.
    method TurnAfter(s: seq<Byte>, past: Byte, ghost m: Origin, ghost out: seq<Byte>) returns (used: nat)
      requires s != [] && Pushed(m, out)
      modifies hash, hash.md, hash.md.tail, hash.buf
      ensures used == Next(s, past).used && Pushed(m, out + TextPushed(s, past))
    {
      ghost var here := Origin(hash.origin, hash.log);
      assert here.log + [] == here.log;
      used := Turn(s, past, here);
      assert here.log + TextPushed(s, past) == m.log + (out + TextPushed(s, past));
    }

    // One turn at offset ofs, after `out`.
    method TurnAt(p: seq<Byte>, ofs: nat, past: Byte, ghost m: Origin, ghost out: seq<Byte>)
      returns (ofs': nat, ghost out': seq<Byte>)
      requires ofs < |p| && Pushed(m, out) && Splits(p, past, out, ofs) == true
      modifies hash, hash.md, hash.md.tail, hash.buf
      ensures ofs' > ofs && Pushed(m, out') && Splits(p, past, out', ofs') == true
    {
      var s := p[ofs..];
      var used := TurnAfter(s, past, m, out);
      ofs' := ofs + used;
      out' := out + TextPushed(s, past);
      NextSplit(p, past, out, ofs, s, used, out', ofs');
    }

    // unify: everything is pushed, then the buffer is flushed and the hash finalised.
    method Unify(p: seq<Byte>, past: Byte)
      requires Valid()
      modifies hash, hash.md, hash.md.tail, hash.buf
      ensures Valid() && hash.len == 0 && hash.origin == old(hash.origin)
      ensures hash.log == old(hash.log) + Terminated(Unified(p, past))
    {
      ghost var m := Origin(hash.origin, hash.log);
      ghost var out := [];
      var ofs := 0;
      assert m.log + [] == m.log;
      FirstSplit(p, past);
      while ofs < |p|
        invariant Pushed(m, out) && Splits(p, past, out, ofs) == true
        decreases |p| - ofs
      {
        ofs, out := TurnAt(p, ofs, past, m, out);
      }
      LastSplit(p, past, out, ofs);
      Flush(m, out);
    }

    static function Terminated(text: seq<Byte>): seq<Byte> { text + ['\0'] }

    method Flush(ghost m: Origin, ghost out: seq<Byte>)
      requires Pushed(m, out)
      modifies hash, hash.md, hash.md.tail, hash.buf
      ensures Pushed(m, Terminated(out)) && hash.len == 0
    {
      Push('\0', m, out);
    }
  }

  // `out` is what is pushed for p before offset ofs.
  ghost predicate Splits(p: seq<Byte>, past: Byte, out: seq<Byte>, ofs: nat) {
    forall k {:trigger Look(k)} :: Look(k) ==> Unified(p, past) == out + Unified(Drop(p, ofs), past)
  }

  lemma {:induction false} FirstSplit(p: seq<Byte>, past: Byte)
    ensures Splits(p, past, [], 0) == true
  {
    assert Drop(p, 0) == p;
    assert [] + Unified(p, past) == Unified(p, past);
  }

  // t is the unified text of s.
  ghost predicate IsUnified(t: seq<Byte>, s: seq<Byte>, past: Byte) {
    forall k {:trigger Look(k)} :: Look(k) ==> t == Unified(s, past)
  }

  lemma {:induction false} OpenSplit(p: seq<Byte>, past: Byte, out: seq<Byte>, ofs: nat) returns (total: seq<Byte>, here: seq<Byte>)
    requires Splits(p, past, out, ofs) == true
    ensures IsUnified(total, p, past) == true && IsUnified(here, Drop(p, ofs), past) == true && total == out + here
  {
    assert Look(0);
    total, here := Unified(p, past), Unified(Drop(p, ofs), past);
  }

  lemma {:induction false} CloseSplit(p: seq<Byte>, past: Byte, out: seq<Byte>, ofs: nat, total: seq<Byte>, here: seq<Byte>)
    requires IsUnified(total, p, past) == true && IsUnified(here, Drop(p, ofs), past) == true && total == out + here
    ensures Splits(p, past, out, ofs) == true
  {
    assert Look(0);
  }

  lemma {:induction false} NextSplit(p: seq<Byte>, past: Byte, out: seq<Byte>, ofs: nat, s: seq<Byte>, used: nat,
                                     out': seq<Byte>, ofs': nat)
    requires ofs < |p| && Splits(p, past, out, ofs) == true
    requires s == p[ofs..] && used == Next(s, past).used && out' == out + TextPushed(s, past) && ofs' == ofs + used
    ensures Splits(p, past, out', ofs') == true
  {
    var total, here := OpenSplit(p, past, out, ofs);
    var text := TextPushed(s, past);
    var rest := UnifiedTurn(p, ofs, s, used, ofs', past, here);
    Reassociated(out, text, rest);
    CloseSplit(p, past, out', ofs', total, rest);
  }

  lemma Reassociated(a: seq<Byte>, b: seq<Byte>, c: seq<Byte>)
    ensures a + (b + c) == a + b + c
  {
  }

  lemma {:induction false} LastSplit(p: seq<Byte>, past: Byte, out: seq<Byte>, ofs: nat)
    requires ofs >= |p| && Splits(p, past, out, ofs) == true
    ensures out == Unified(p, past)
  {
    assert Look(0);
    assert Drop(p, ofs) == [] && Unified([], past) == [];
    assert out + [] == out;
  }

  // What one turn contributes to the unified text.
  function TextPushed(s: seq<Byte>, past: Byte): seq<Byte>
    requires s != []
  {
    Lines(Texts(Next(s, past)))
  }

  lemma {:induction false} UnifiedTurn(p: seq<Byte>, ofs: nat, s: seq<Byte>, used: nat, ofs': nat, past: Byte, here: seq<Byte>)
    returns (rest: seq<Byte>)
    requires ofs < |p| && s == p[ofs..] && used == Next(s, past).used && ofs' == ofs + used
    requires IsUnified(here, Drop(p, ofs), past) == true
    ensures IsUnified(rest, Drop(p, ofs'), past) == true && here == TextPushed(s, past) + rest
  {
    assert Look(0);
    var t := Next(s, past);
    rest := Unified(Drop(p, ofs'), past);
    UnifiedStep(s, past, t);
    LinesOfTexts(t);
    assert Drop(p, ofs) == s && Drop(s, t.used) == Drop(p, ofs');
  }

  lemma {:induction false} LinesOfTexts(t: Step)
    ensures Lines(Texts(t)) == if t.Emit? then t.text + ['\n'] else []
  {
    if t.Emit? {
      LinesOfPair(t.text, []);
    }
  }

  // ----- the cache key --------------------------------------------------------------------------

  // hash_start, the hashed arguments, the unified source, the hashed error output, hash_result.
  function KeyState(f: Compression, args: seq<Byte>, p: seq<Byte>, past: Byte, err: seq<Byte>): (m: Md)
    ensures Mdfour.Valid(m)
  {
    KeyOf(f, args, Unified(p, past) + ['\0'], err)
  }

  function KeyOf(f: Compression, args: seq<Byte>, text: seq<Byte>, err: seq<Byte>): (m: Md)
    ensures Mdfour.Valid(m)
  {
    Finish(f, Absorb(f, Feed(f, Absorb(f, BEGIN, args), text), err))
  }

  // Layout inserted at any token boundary of the source, or in the white space behind it, leaves the key
  // unchanged.
  lemma {:induction false} KeyIgnoresLayout(f: Compression, args: seq<Byte>, p: seq<Byte>, past: Byte,
                                            err: seq<Byte>, i: nat, x: seq<Byte>)
    requires TakesLayout(p, i) && IsLayout(x)
    ensures ResultText(KeyState(f, args, Inserted(p, i, x), past, err)) == ResultText(KeyState(f, args, p, past, err))
  {
    UnifiedIgnoresLayout(p, i, x, past);
  }

  // What is compressed for a key when the unified source holds no zero byte: the flush that ends
  // unify finalises once in mid-stream.
  lemma {:induction false} KeyIsFinishedTwice(f: Compression, args: seq<Byte>, p: seq<Byte>, past: Byte, err: seq<Byte>)
    requires '\0' !in Unified(p, past)
    ensures KeyState(f, args, p, past, err) == FinishedTwice(f, args + Unified(p, past), err)
  {
    var u := Unified(p, past);
    FeedMessage(f, Absorb(f, BEGIN, args), u);
    AbsorbConcat(f, BEGIN, args, u);
    FinishedAgain(f, args + u, err);
  }

  // So it is for every source without zero bytes whose literals are closed.
  lemma {:induction false} KeyOfClosedSource(f: Compression, args: seq<Byte>, p: seq<Byte>, past: Byte, err: seq<Byte>)
    requires '\0' !in p && Closed(p)
    ensures KeyState(f, args, p, past, err) == FinishedTwice(f, args + Unified(p, past), err)
  {
    UnifiedHasNoZero(p, past);
    KeyIsFinishedTwice(f, args, p, past, err);
  }

  // f and g do the same to all data.
  ghost predicate Alike(f: Compression, g: Compression) {
    forall s, data {:trigger Blocks(f, s, data)} :: Blocks(f, s, data) == Blocks(g, s, data)
  }

  lemma {:induction false} SameFeed(f: Compression, g: Compression, m: Md, s: seq<Byte>)
    requires Alike(f, g) && Mdfour.Valid(m)
    ensures Feed(f, m, s) == Feed(g, m, s)
  {
    if s != [] {
      SameFeed(f, g, m, s[..|s| - 1]);
    }
  }

  lemma {:induction false} SameEnds(f: Compression, g: Compression, m: Md, data: seq<Byte>)
    requires Alike(f, g) && Mdfour.Valid(m)
    ensures Absorb(f, m, data) == Absorb(g, m, data) && Finish(f, m) == Finish(g, m)
  {
  }

  lemma {:induction false} SameKey(f: Compression, g: Compression, args: seq<Byte>, text: seq<Byte>, err: seq<Byte>)
    requires Alike(f, g)
    ensures KeyOf(f, args, text, err) == KeyOf(g, args, text, err)
  {
    var m1 := Absorb(f, BEGIN, args);
    var m2 := Feed(f, m1, text);
    SameEnds(f, g, BEGIN, args);
    SameFeed(f, g, m1, text);
    SameEnds(f, g, m2, err);
    SameEnds(f, g, Absorb(f, m2, err), []);
  }

  // Any function that agrees with MD4 on all blocks gives the key of MD4.
  lemma {:induction false} KeyIsMd4(f: Compression, args: seq<Byte>, p: seq<Byte>, past: Byte, err: seq<Byte>)
    requires ComputesMd4(f)
    ensures KeyState(f, args, p, past, err) == KeyState(Md4, args, p, past, err)
  {
    forall s, data
      ensures Blocks(f, s, data) == Blocks(Md4, s, data)
    {
      SameBlocks(f, s, data);
    }
    SameKey(f, Md4, args, Unified(p, past) + ['\0'], err);
  }

  // The key of a source: its arguments, the unified text and the error output.
  method ComputeKey(args: seq<Byte>, p: seq<Byte>, past: Byte, err: seq<Byte>) returns (key: seq<Byte>)
    ensures key == ResultText(KeyState(Md4, args, p, past, err))
  {
    var u := new Unifier();
    ghost var f := u.hash.md.f;
    u.hash.HashBuffer(args);
    ghost var m1 := Absorb(f, BEGIN, args);
    assert u.hash.origin == m1 && u.hash.log == [];
    u.Unify(p, past);
    ghost var m2 := Feed(f, m1, Unified(p, past) + ['\0']);
    assert u.hash.origin == m1 && u.hash.log == Unified(p, past) + ['\0'];
    u.hash.EmptyBuffer();
    assert u.hash.md.Contents() == m2;
    u.hash.HashBuffer(err);
    key := u.hash.HashResult();
    KeyIsMd4(f, args, p, past, err);
  }
}
