// JSON texts as token sequences: what the grammar accepts, the lexer as the
// inverse of writing tokens down, and the printer with its round trip.
module JsonText {
  import opened Texts
  import opened Json

  // ---- Shape of accepted lexeme sequences ----

  /** A lexeme that may come after a value. */
  predicate Follows(ts: seq<Lexeme>) {
    ts == [] || ts[0] == Punct(',') || ts[0] == Punct(']') || ts[0] == Punct('}')
  }

  /**
   * Local shape: string bodies decode, words are scalars and are followed by `,`, `]` or `}`, and
   * every colon comes after a string that comes after `{` or `,` (`open`: that was the last lexeme).
   */
  predicate WellShaped(ts: seq<Lexeme>, open: bool)
    decreases |ts|
  {
    if ts == [] then true
    else
      match ts[0]
      case Word(w) => IsScalarWord(w) && Follows(ts[1..]) && WellShaped(ts[1..], false)
      case Lit(b) =>
        && DecodeBody(b).Some?
        && if |ts| > 1 && ts[1] == Punct(':') then open && WellShaped(ts[2..], false)
           else WellShaped(ts[1..], false)
      case Punct(c) => c != ':' && WellShaped(ts[1..], c == '{' || c == ',')
  }

  lemma {:induction false} ValueShape(ts: seq<Lexeme>, open: bool)
    requires ParseValue(ts).Some? && Follows(ParseValue(ts).value.1) && WellShaped(ParseValue(ts).value.1, false)
    ensures WellShaped(ts, open)
    decreases |ts|, 0
  {
    hide IsScalarWord, DecodeBody, MapOf;
    if ts[0] == Punct('[') {
      if |ts| > 1 && ts[1] == Punct(']') {
        assert ts[1..][1..] == ts[2..];
      } else {
        ElemsShape(ts[1..], false);
      }
    } else if ts[0] == Punct('{') {
      if |ts| > 1 && ts[1] == Punct('}') {
        assert ts[1..][1..] == ts[2..];
      } else {
        MembersShape(ts[1..]);
      }
    }
  }

  lemma {:induction false} ElemsShape(ts: seq<Lexeme>, open: bool)
    requires ParseElems(ts).Some? && Follows(ParseElems(ts).value.1) && WellShaped(ParseElems(ts).value.1, false)
    ensures WellShaped(ts, open)
    decreases |ts|, 1
  {
    hide IsScalarWord, DecodeBody, MapOf, ParseValue;
    var rest := ParseValue(ts).value.1;
    if rest[0] == Punct(',') {
      ElemsShape(rest[1..], true);
    }
    ValueShape(ts, open);
  }

  lemma {:induction false} MembersShape(ts: seq<Lexeme>)
    requires ParseMembers(ts).Some? && Follows(ParseMembers(ts).value.1) && WellShaped(ParseMembers(ts).value.1, false)
    ensures WellShaped(ts, true)
    decreases |ts|, 1
  {
    hide IsScalarWord, DecodeBody, MapOf, ParseValue;
    var rest := ParseValue(ts[2..]).value.1;
    if rest[0] == Punct(',') {
      MembersShape(rest[1..]);
    }
    ValueShape(ts[2..], false);
  }

  lemma AcceptedShape(ts: seq<Lexeme>)
    requires ParseAll(ts).Some?
    ensures WellShaped(ts, false)
  {
    ValueShape(ts, false);
  }

  // ---- Lexemes that differ in how strings are written ----

  /** The same lexeme, or two ways to write a string. */
  predicate Alike(x: Lexeme, y: Lexeme) {
    if x.Lit? && y.Lit? then DecodeBody(x.body) == DecodeBody(y.body) else x == y
  }

  predicate AllAlike(ts: seq<Lexeme>, us: seq<Lexeme>) {
    |ts| == |us| && forall i :: 0 <= i < |ts| ==> Alike(ts[i], us[i])
  }

  lemma AlikeTail(ts: seq<Lexeme>, us: seq<Lexeme>, n: nat)
    requires AllAlike(ts, us) && n <= |ts|
    ensures AllAlike(ts[|ts| - n..], us[|us| - n..])
  {
    hide Alike;
  }

  lemma AlikeHead(ts: seq<Lexeme>, us: seq<Lexeme>)
    requires AllAlike(ts, us) && ts != []
    ensures Alike(ts[0], us[0]) && (|ts| > 1 ==> Alike(ts[1], us[1]))
  {}

  /** What remains of both after equally many lexemes. */
  lemma AlikeRest(ts: seq<Lexeme>, us: seq<Lexeme>, rest: seq<Lexeme>, rest': seq<Lexeme>)
    requires AllAlike(ts, us) && 0 < |rest| == |rest'| <= |ts|
    requires rest == ts[|ts| - |rest|..] && rest' == us[|us| - |rest'|..]
    ensures AllAlike(rest[1..], rest'[1..]) && Alike(rest[0], rest'[0])
  {
    hide Alike;
    AlikeTail(ts, us, |rest|);
    AlikeHead(rest, rest');
  }

  /** Both fail, or both give the same and leave equally much. */
  predicate SameResult<T(==)>(r: Option<(T, seq<Lexeme>)>, s: Option<(T, seq<Lexeme>)>) {
    r.Some? == s.Some? && (r.Some? ==> r.value.0 == s.value.0 && |r.value.1| == |s.value.1|)
  }

  /** The grammar sees what a string denotes, not how it is written. */
  lemma {:induction false} AlikeValues(ts: seq<Lexeme>, us: seq<Lexeme>)
    requires AllAlike(ts, us)
    ensures SameResult(ParseValue(ts), ParseValue(us))
    decreases |ts|, 0
  {
    hide IsScalarWord, DecodeBody, MapOf, AllAlike, ParseElems, ParseMembers;
    AlikeLengths(ts, us);
    if ts != [] {
      AlikeHead(ts, us);
      AlikeTail(ts, us, |ts| - 1);
      if ts[0] == Punct('[') {
        AlikeElems(ts[1..], us[1..]);
      } else if ts[0] == Punct('{') {
        AlikeMembers(ts[1..], us[1..]);
      }
    }
  }

  lemma AlikeLengths(ts: seq<Lexeme>, us: seq<Lexeme>)
    requires AllAlike(ts, us)
    ensures |ts| == |us|
  {}

  lemma {:induction false} AlikeElems(ts: seq<Lexeme>, us: seq<Lexeme>)
    requires AllAlike(ts, us)
    ensures SameResult(ParseElems(ts), ParseElems(us))
    decreases |ts|, 1
  {
    hide ParseValue, DecodeBody, AllAlike;
    AlikeValues(ts, us);
    if ParseValue(ts).Some? && ParseValue(ts).value.1 != [] {
      var rest, rest' := ParseValue(ts).value.1, ParseValue(us).value.1;
      AlikeRest(ts, us, rest, rest');
      AlikeElems(rest[1..], rest'[1..]);
    }
  }

  lemma {:induction false} AlikeMembers(ts: seq<Lexeme>, us: seq<Lexeme>)
    requires AllAlike(ts, us)
    ensures SameResult(ParseMembers(ts), ParseMembers(us))
    decreases |ts|, 1
  {
    hide ParseValue, ParseMembers, DecodeBody, AllAlike;
    AlikeLengths(ts, us);
    MembersAre(ts);
    MembersAre(us);
    if |ts| >= 2 {
      AlikeHead(ts, us);
      AlikeTail(ts, us, |ts| - 2);
      AlikeValues(ts[2..], us[2..]);
      if KeyAndValue(ts) && ParseValue(ts[2..]).value.1 != [] {
        var rest, rest' := ParseValue(ts[2..]).value.1, ParseValue(us[2..]).value.1;
        AlikeRest(ts[2..], us[2..], rest, rest');
        AlikeMembers(rest[1..], rest'[1..]);
      }
    }
  }

  /** A key, a colon and a value come first. */
  predicate KeyAndValue(ts: seq<Lexeme>) {
    |ts| >= 2 && ts[0].Lit? && DecodeBody(ts[0].body).Some? && ts[1] == Punct(':') && ParseValue(ts[2..]).Some?
  }

  lemma MembersAre(ts: seq<Lexeme>)
    ensures KeyAndValue(ts) ==>
              var (v, rest) := ParseValue(ts[2..]).value;
              var m := Member(DecodeBody(ts[0].body).value, v);
              ParseMembers(ts) ==
                if rest != [] && rest[0] == Punct('}') then Some((Cons(m, Nil), rest[1..]))
                else if rest != [] && rest[0] == Punct(',') && ParseMembers(rest[1..]).Some? then
                  Some((Cons(m, ParseMembers(rest[1..]).value.0), ParseMembers(rest[1..]).value.1))
                else None
    ensures !KeyAndValue(ts) ==> ParseMembers(ts) == None
  {
    hide ParseValue, DecodeBody;
  }

  /** Lexemes that agree on what their strings denote parse to the same value. */
  lemma ParseAlike(ts: seq<Lexeme>, us: seq<Lexeme>)
    requires AllAlike(ts, us)
    ensures ParseAll(ts) == ParseAll(us)
  {
    hide ParseValue, AllAlike;
    AlikeValues(ts, us);
  }

  // ---- Writing tokens down ----

  /** A lexeme and the white space before it. */
  datatype Token = Token(ws: Text, lex: Lexeme)

  function LexemeText(x: Lexeme): Text {
    match x
    case Punct(c) => [c]
    case Lit(b) => [QUOTE] + b + [QUOTE]
    case Word(w) => w
  }

  function TokenText(ts: seq<Token>): Text {
    if ts == [] then "" else ts[0].ws + LexemeText(ts[0].lex) + TokenText(ts[1..])
  }

  function Lexemes(ts: seq<Token>): seq<Lexeme> {
    if ts == [] then [] else [ts[0].lex] + Lexemes(ts[1..])
  }

  predicate AllSpace(ws: Text) {
    forall i :: 0 <= i < |ws| ==> ws[i] == ' ' || ws[i] == '\t' || ws[i] == '\n' || ws[i] == '\r'
  }

  /** A string body without a bare quote and without a dangling backslash. */
  predicate Balanced(b: Text) {
    if b == "" then true
    else if b[0] == QUOTE then false
    else if b[0] == BACKSLASH then |b| >= 2 && Balanced(b[2..])
    else Balanced(b[1..])
  }

  predicate LexemeOk(x: Lexeme) {
    match x
    case Punct(c) => c == '{' || c == '}' || c == '[' || c == ']' || c == ':' || c == ','
    case Lit(b) => Balanced(b)
    case Word(w) => w != "" && forall i :: 0 <= i < |w| ==> IsWordChar(w[i])
  }

  /** Tokens that can be told apart: words are not run together. */
  predicate Separated(ts: seq<Token>) {
    ts == [] ||
    (AllSpace(ts[0].ws) && LexemeOk(ts[0].lex) && Separated(ts[1..])
     && (ts[0].lex.Word? && |ts| > 1 ==> ts[1].ws != "" || !ts[1].lex.Word?))
  }

  lemma {:induction false} ScanBalanced(b: Text, rest: Text)
    requires Balanced(b)
    ensures ScanBody(b + [QUOTE] + rest) == Some((b, rest))
    decreases |b|
  {
    var s := b + [QUOTE] + rest;
    if b == "" {
      assert s == [QUOTE] + rest;
    } else if b[0] == BACKSLASH {
      ScanBalanced(b[2..], rest);
      assert s[2..] == b[2..] + [QUOTE] + rest;
      assert s[..2] + b[2..] == b;
    } else {
      ScanBalanced(b[1..], rest);
      assert s[1..] == b[1..] + [QUOTE] + rest;
      assert s[..1] + b[1..] == b;
    }
  }

  lemma {:induction false} WordRunIs(w: Text, rest: Text)
    requires forall i :: 0 <= i < |w| ==> IsWordChar(w[i])
    requires rest == "" || !IsWordChar(rest[0])
    ensures WordRun(w + rest) == w
  {
    if w == "" {
      assert w + rest == rest;
    } else {
      WordRunIs(w[1..], rest);
      assert (w + rest)[1..] == w[1..] + rest;
    }
  }

  lemma {:induction false} LexSpace(ws: Text, rest: Text)
    requires AllSpace(ws)
    ensures Lex(ws + rest) == Lex(rest)
  {
    if ws == "" {
      assert ws + rest == rest;
    } else {
      LexSpace(ws[1..], rest);
      assert (ws + rest)[1..] == ws[1..] + rest;
    }
  }

  lemma LexLit(b: Text, rest: Text)
    requires Balanced(b)
    ensures Lex([QUOTE] + b + [QUOTE] + rest) == Prepend(Lit(b), Lex(rest))
  {
    var s := [QUOTE] + b + [QUOTE] + rest;
    assert s[1..] == b + [QUOTE] + rest;
    ScanBalanced(b, rest);
    hide ScanBody, Balanced;
    assert s[0] == QUOTE;
  }

  lemma LexWord(w: Text, rest: Text)
    requires LexemeOk(Word(w)) && (rest == "" || !IsWordChar(rest[0]))
    ensures Lex(w + rest) == Prepend(Word(w), Lex(rest))
  {
    var s := w + rest;
    WordRunIs(w, rest);
    hide WordRun;
    assert s[0] == w[0] && s[|w|..] == rest;
  }

  lemma LexOne(x: Lexeme, rest: Text)
    requires LexemeOk(x)
    requires x.Word? ==> rest == "" || !IsWordChar(rest[0])
    ensures Lex(LexemeText(x) + rest) == Prepend(x, Lex(rest))
  {
    hide ScanBody, WordRun, Balanced;
    match x
    case Punct(c) => assert ([c] + rest)[1..] == rest;
    case Lit(b) => LexLit(b, rest);
    case Word(w) => LexWord(w, rest);
  }

  /** A sequence of tokens does not begin with a word character unless its first token is a word. */
  lemma NoWordStart(ts: seq<Token>)
    requires Separated(ts) && (ts == [] || ts[0].ws != "" || !ts[0].lex.Word?)
    ensures TokenText(ts) == "" || !IsWordChar(TokenText(ts)[0])
  {}

  /** Lexing undoes writing. */
  lemma {:induction false} LexWritten(ts: seq<Token>)
    requires Separated(ts)
    ensures Lex(TokenText(ts)) == Some(Lexemes(ts))
  {
    hide Lex;
    if ts == [] {
      assert Lex("") == Some([]) by { LexEmpty(); }
    } else {
      var rest := TokenText(ts[1..]);
      LexWritten(ts[1..]);
      if ts[0].lex.Word? { NoWordStart(ts[1..]); }
      LexOne(ts[0].lex, rest);
      LexSpace(ts[0].ws, LexemeText(ts[0].lex) + rest);
      assert TokenText(ts) == ts[0].ws + (LexemeText(ts[0].lex) + rest);
    }
  }

  lemma LexEmpty()
    ensures Lex("") == Some([])
  {}

  // ---- Printer ----

  function PrintChar(c: char): Text {
    if c == QUOTE then "\\\""
    else if c == BACKSLASH then "\\\\"
    else if c == 8 as char then "\\b"
    else if c == 12 as char then "\\f"
    else if c == '\n' then "\\n"
    else if c == '\r' then "\\r"
    else if c == '\t' then "\\t"
    else if c < ' ' then ControlEscape(c)
    else [c]
  }

  function PrintBody(s: Text): Text {
    if s == "" then "" else PrintChar(s[0]) + PrintBody(s[1..])
  }

  function LexemesOf(v: Json): seq<Lexeme> {
    match v
    case Scalar(w) => [Word(w)]
    case Str(s) => [Lit(PrintBody(s))]
    case Arr(es) => [Punct('[')] + ElemLexemes(es) + [Punct(']')]
    case Obj(ms) => [Punct('{')] + MemberLexemes(ms) + [Punct('}')]
  }

  function ElemLexemes(es: List<Json>): seq<Lexeme> {
    match es
    case Nil => []
    case Cons(v, rest) => LexemesOf(v) + if rest.Nil? then [] else [Punct(',')] + ElemLexemes(rest)
  }

  function MemberLexemes(ms: List<Member>): seq<Lexeme> {
    match ms
    case Nil => []
    case Cons(m, rest) =>
      [Lit(PrintBody(m.key)), Punct(':')] + LexemesOf(m.value)
      + if rest.Nil? then [] else [Punct(',')] + MemberLexemes(rest)
  }

  function Unspaced(xs: seq<Lexeme>): seq<Token> {
    if xs == [] then [] else [Token("", xs[0])] + Unspaced(xs[1..])
  }

  /** `serde_json::to_string` */
  function Print(v: Json): Text {
    TokenText(Unspaced(LexemesOf(v)))
  }

  predicate Sorted(ms: List<Member>) {
    match ms
    case Nil => true
    case Cons(h, t) => (t.Nil? || KeyLess(h.key, t.head.key)) && Sorted(t)
  }

  /** Digits of a fraction that go through a float and back: at most fifteen in all, without an exponent. */
  predicate PrintedFraction(d: Text, f: Text) {
    && f != "" && DigitRun(f) == f && |d| + |f| <= 15
    && (f == "0" || (f[|f| - 1] != '0' && !(d == "0" && "00000" <= f)))
  }

  /** A number as the library prints it: an integer of 64 bits, or a fraction written out. */
  predicate PrintedNumber(w: Text) {
    IsNumber(w) &&
    var negative := w != "" && w[0] == '-';
    var t := if negative then w[1..] else w;
    var d := DigitRun(t);
    if d == t then
      if negative then 0 < Value(d) <= 0x8000_0000_0000_0000 else Value(d) < 0x1_0000_0000_0000_0000
    else t[|d|] == '.' && PrintedFraction(d, t[|d| + 1..])
  }

  predicate PrintedWord(w: Text) {
    w == "true" || w == "false" || w == "null" || PrintedNumber(w)
  }

  lemma PrintedIsScalar(w: Text)
    requires PrintedWord(w)
    ensures IsScalarWord(w)
  {
    hide IsNumber;
  }

  lemma {:induction false} AllDigitsRun(s: Text)
    requires forall i :: 0 <= i < |s| ==> IsDigit(s[i])
    ensures DigitRun(s) == s
  {
    if s != "" { AllDigitsRun(s[1..]); }
  }

  lemma {:induction false} DecimalDigits(n: nat)
    ensures var d := Decimal(n); d != "" && (forall i :: 0 <= i < |d| ==> IsDigit(d[i])) && (d[0] == '0' ==> n == 0)
  {
    if n >= 10 { DecimalDigits(n / 10); }
  }

  /** Every integer of 64 bits is among the printed words. */
  lemma IntegersArePrinted(n: nat)
    requires n < 0x1_0000_0000_0000_0000
    ensures PrintedWord(Decimal(n)) && (0 < n <= 0x8000_0000_0000_0000 ==> PrintedWord("-" + Decimal(n)))
  {
    hide DigitRun, Decimal, Value, IsFractionAndExponent, PrintedFraction;
    var d := Decimal(n);
    DecimalDigits(n);
    AllDigitsRun(d);
    DecimalValue(n);
    assert n == 0 ==> d == "0" by { ZeroIs(); }
    DigitsPrinted(d);
    assert ("-" + d)[0] == '-' && ("-" + d)[1..] == d;
  }

  lemma ZeroIs()
    ensures Decimal(0) == "0"
  {}

  lemma DigitsPrinted(d: Text)
    requires d != "" && DigitRun(d) == d && d[0] != '-' && (d[0] == '0' ==> |d| == 1)
    ensures IsNumber(d) && (Value(d) < 0x1_0000_0000_0000_0000 ==> PrintedNumber(d))
    ensures ("-" + d)[1..] == d ==> IsNumber("-" + d)
  {
    hide DigitRun, Value, PrintedFraction;
    assert d[|d|..] == "";
  }

  /** Values as the library holds and prints them: numbers in its own form, objects as maps. */
  predicate Canonical(v: Json) {
    match v
    case Scalar(w) => PrintedWord(w)
    case Str(_) => true
    case Arr(es) => CanonicalElems(es)
    case Obj(ms) => Sorted(ms) && CanonicalMembers(ms)
  }

  predicate CanonicalElems(es: List<Json>) {
    match es
    case Nil => true
    case Cons(v, rest) => Canonical(v) && CanonicalElems(rest)
  }

  predicate CanonicalMembers(ms: List<Member>) {
    match ms
    case Nil => true
    case Cons(m, rest) => Canonical(m.value) && CanonicalMembers(rest)
  }

  /** Removing a key from an object undoes putting it there, whatever it held before. */
  lemma {:induction false} RemovePut(ms: List<Member>, m: Member)
    requires Sorted(ms)
    ensures Remove(Put(ms, m), m.key) == Remove(ms, m.key)
  {
    match ms
    case Nil =>
    case Cons(h, t) =>
      if KeyLess(m.key, h.key) {
        KeyLessIrreflexive(m.key);
        LesserIsAbsent(ms, m.key);
        RemoveAbsent(ms, m.key);
      } else if h.key != m.key {
        RemovePut(t, m);
      }
  }

  lemma {:induction false} LesserIsAbsent(ms: List<Member>, key: Text)
    requires Sorted(ms) && (ms.Cons? ==> KeyLess(key, ms.head.key))
    ensures Lookup(ms, key) == None
  {
    match ms
    case Nil =>
    case Cons(h, t) =>
      KeyLessIrreflexive(key);
      if t.Cons? { KeyLessTransitive(key, h.key, t.head.key); }
      LesserIsAbsent(t, key);
  }

  lemma {:induction false} RemoveAbsent(ms: List<Member>, key: Text)
    requires Lookup(ms, key) == None
    ensures Remove(ms, key) == ms
  {
    if ms.Cons? { RemoveAbsent(ms.tail, key); }
  }

  lemma {:induction false} RemovedIsAbsent(ms: List<Member>, key: Text)
    requires Sorted(ms)
    ensures Lookup(Remove(ms, key), key) == None
  {
    match ms
    case Nil =>
    case Cons(h, t) => if h.key == key { LesserIsAbsent(t, key); } else { RemovedIsAbsent(t, key); }
  }

  lemma {:induction false} RemoveIsCanonical(ms: List<Member>, key: Text)
    requires Canonical(Obj(ms))
    ensures Canonical(Obj(Remove(ms, key)))
    ensures var rest := Remove(ms, key);
            rest.Cons? ==> ms.Cons? && (rest.head.key == ms.head.key || KeyLess(ms.head.key, rest.head.key))
  {
    match ms
    case Nil =>
    case Cons(h, t) =>
      assert Canonical(Obj(t));
      RemoveIsCanonical(t, key);
      var rest := Remove(t, key);
      if h.key != key && rest.Cons? && rest.head.key != t.head.key {
        KeyLessTransitive(h.key, t.head.key, rest.head.key);
      }
  }

  lemma ControlEscapeDecodes(c: char, rest: Text)
    requires c < ' '
    ensures DecodeUnicode((ControlEscape(c) + rest)[2..]) == Some(([c], 4))
  {
    var t := (ControlEscape(c) + rest)[2..];
    assert t[0] == '0' && t[1] == '0' && t[2] == HexDigit(c as int / 16) && t[3] == HexDigit(c as int % 16);
    assert HexValue(t[2]) == c as int / 16 && HexValue(t[3]) == c as int % 16;
    assert Hex4(t) == Some(c as int);
  }

  lemma DecodeShortEscape(e: char, c: char, rest: Text)
    requires Escaped(e) == Some(c)
    ensures DecodeBody([BACKSLASH, e] + rest) == Append([c], DecodeBody(rest))
  {
    var s := [BACKSLASH, e] + rest;
    assert s[2..] == rest;
  }

  lemma DecodeControlEscape(c: char, rest: Text)
    requires c < ' '
    ensures DecodeBody(ControlEscape(c) + rest) == Append([c], DecodeBody(rest))
  {
    var s := ControlEscape(c) + rest;
    ControlEscapeDecodes(c, rest);
    hide ControlEscape, DecodeUnicode;
    assert s[0] == BACKSLASH && s[1] == 'u' by {
      assert s[0] == ControlEscape(c)[0] && s[1] == ControlEscape(c)[1];
      ControlStart(c);
    }
    assert s[2 + 4..] == rest by { ControlStart(c); }
  }

  lemma ControlStart(c: char)
    requires c < ' '
    ensures var e := ControlEscape(c); |e| == 6 && e[0] == BACKSLASH && e[1] == 'u'
  {}

  lemma DecodePrintedChar(c: char, rest: Text)
    ensures DecodeBody(PrintChar(c) + rest) == Append([c], DecodeBody(rest))
  {
    hide DecodeBody, ControlEscape;
    var p := PrintChar(c);
    if c == QUOTE { DecodeShortEscape(QUOTE, c, rest); }
    else if c == BACKSLASH { DecodeShortEscape(BACKSLASH, c, rest); }
    else if c == 8 as char { DecodeShortEscape('b', c, rest); }
    else if c == 12 as char { DecodeShortEscape('f', c, rest); }
    else if c == '\n' { DecodeShortEscape('n', c, rest); }
    else if c == '\r' { DecodeShortEscape('r', c, rest); }
    else if c == '\t' { DecodeShortEscape('t', c, rest); }
    else if c < ' ' { DecodeControlEscape(c, rest); }
    else { DecodePlain(c, rest); }
  }

  lemma DecodePlain(c: char, rest: Text)
    requires c != QUOTE && c != BACKSLASH && c >= ' '
    ensures DecodeBody([c] + rest) == Append([c], DecodeBody(rest))
  {
    assert ([c] + rest)[1..] == rest;
  }

  lemma {:induction false} DecodePrinted(s: Text)
    ensures DecodeBody(PrintBody(s)) == Some(s)
  {
    if s != "" {
      DecodePrinted(s[1..]);
      DecodePrintedChar(s[0], PrintBody(s[1..]));
      assert s == [s[0]] + s[1..];
    }
  }

  /** Characters other than a quote or a backslash do not matter to balance. */
  lemma {:induction false} BalancedAfterPlain(p: Text, rest: Text)
    requires forall i :: 0 <= i < |p| ==> p[i] != QUOTE && p[i] != BACKSLASH
    ensures Balanced(p + rest) == Balanced(rest)
  {
    if p == "" {
      assert p + rest == rest;
    } else {
      BalancedAfterPlain(p[1..], rest);
      assert (p + rest)[1..] == p[1..] + rest;
    }
  }

  lemma BalancedAfterChar(c: char, rest: Text)
    ensures Balanced(PrintChar(c) + rest) == Balanced(rest)
  {
    var p := PrintChar(c);
    if p[0] == BACKSLASH {
      BalancedAfterPlain(p[2..], rest);
      assert (p + rest)[2..] == p[2..] + rest;
    } else {
      assert (p + rest)[1..] == rest;
    }
  }

  lemma {:induction false} PrintedBalanced(s: Text)
    ensures Balanced(PrintBody(s))
  {
    if s != "" {
      PrintedBalanced(s[1..]);
      BalancedAfterChar(s[0], PrintBody(s[1..]));
    }
  }

  lemma {:induction false} MapOfSorted(ms: List<Member>)
    requires Sorted(ms)
    ensures MapOf(ms) == ms
  {
    match ms
    case Nil =>
    case Cons(h, t) =>
      MapOfSorted(t);
      KeyLessIrreflexive(h.key);
  }

  // ---- Values as they are spelled ----

  /** Scalars are words; members may be in any order and repeat. */
  predicate Spelled(v: Json) {
    match v
    case Scalar(w) => IsScalarWord(w)
    case Str(_) => true
    case Arr(es) => SpelledElems(es)
    case Obj(ms) => SpelledMembers(ms)
  }

  predicate SpelledElems(es: List<Json>) {
    match es
    case Nil => true
    case Cons(v, rest) => Spelled(v) && SpelledElems(rest)
  }

  predicate SpelledMembers(ms: List<Member>) {
    match ms
    case Nil => true
    case Cons(m, rest) => Spelled(m.value) && SpelledMembers(rest)
  }

  /** The value that a spelling stands for: objects are maps. */
  function Norm(v: Json): Json {
    match v
    case Scalar(_) => v
    case Str(_) => v
    case Arr(es) => Arr(NormElems(es))
    case Obj(ms) => Obj(MapOf(NormMembers(ms)))
  }

  function NormElems(es: List<Json>): List<Json> {
    match es
    case Nil => Nil
    case Cons(v, rest) => Cons(Norm(v), NormElems(rest))
  }

  function NormMembers(ms: List<Member>): List<Member> {
    match ms
    case Nil => Nil
    case Cons(m, rest) => Cons(Member(m.key, Norm(m.value)), NormMembers(rest))
  }

  lemma {:induction false} ParseSpelled(v: Json, rest: seq<Lexeme>)
    requires Spelled(v)
    ensures ParseValue(LexemesOf(v) + rest) == Some((Norm(v), rest))
    decreases v, 0
  {
    hide IsScalarWord, DecodeBody, PrintBody;
    var ts := LexemesOf(v) + rest;
    match v
    case Scalar(w) => assert ts[1..] == rest;
    case Str(s) =>
      DecodePrinted(s);
      assert ts[1..] == rest;
    case Arr(Nil) => assert ts[1] == Punct(']') && ts[2..] == rest;
    case Obj(Nil) => assert ts[1] == Punct('}') && ts[2..] == rest;
    case Arr(es) => ParseSpelledArr(es, rest);
    case Obj(ms) => ParseSpelledObj(ms, rest);
  }

  lemma ParseArrIs(ts: seq<Lexeme>, es: List<Json>, rest: seq<Lexeme>)
    requires |ts| > 1 && ts[0] == Punct('[') && ts[1] != Punct(']') && ParseElems(ts[1..]) == Some((es, rest))
    ensures ParseValue(ts) == Some((Arr(es), rest))
  {}

  lemma ParseObjIs(ts: seq<Lexeme>, ms: List<Member>, rest: seq<Lexeme>)
    requires |ts| > 1 && ts[0] == Punct('{') && ts[1] != Punct('}') && ParseMembers(ts[1..]) == Some((ms, rest))
    ensures ParseValue(ts) == Some((Obj(MapOf(ms)), rest))
  {}

  lemma {:induction false} ParseSpelledArr(es: List<Json>, rest: seq<Lexeme>)
    requires es.Cons? && SpelledElems(es)
    ensures ParseValue(LexemesOf(Arr(es)) + rest) == Some((Arr(NormElems(es)), rest))
    decreases es, 2
  {
    hide ElemLexemes, ParseElems, ParseValue, LexemesOf, SpelledElems, NormElems;
    var ts := LexemesOf(Arr(es)) + rest;
    ArrLexemes(es);
    ParseSpelledElems(es, rest);
    ElemsStart(es);
    assert ts[1..] == ElemLexemes(es) + ([Punct(']')] + rest);
    assert ts[1] == ElemLexemes(es)[0];
    ParseArrIs(ts, NormElems(es), rest);
  }

  lemma ArrLexemes(es: List<Json>)
    ensures LexemesOf(Arr(es)) == [Punct('[')] + ElemLexemes(es) + [Punct(']')]
  {}

  lemma ObjLexemes(ms: List<Member>)
    ensures LexemesOf(Obj(ms)) == [Punct('{')] + MemberLexemes(ms) + [Punct('}')]
  {}

  lemma ElemsStart(es: List<Json>)
    requires es.Cons?
    ensures ElemLexemes(es) != [] && ElemLexemes(es)[0] != Punct(']')
  {
    StartsValue(es.head);
  }

  lemma MembersStart(ms: List<Member>)
    requires ms.Cons?
    ensures MemberLexemes(ms) != [] && MemberLexemes(ms)[0].Lit?
  {}

  lemma {:induction false} ParseSpelledObj(ms: List<Member>, rest: seq<Lexeme>)
    requires ms.Cons? && SpelledMembers(ms)
    ensures ParseValue(LexemesOf(Obj(ms)) + rest) == Some((Obj(MapOf(NormMembers(ms))), rest))
    decreases ms, 2
  {
    hide MemberLexemes, ParseMembers, ParseValue, LexemesOf, SpelledMembers, NormMembers, MapOf;
    var ts := LexemesOf(Obj(ms)) + rest;
    ObjLexemes(ms);
    ParseSpelledMembers(ms, rest);
    MembersStart(ms);
    assert ts[1..] == MemberLexemes(ms) + ([Punct('}')] + rest);
    assert ts[1] == MemberLexemes(ms)[0];
    ParseObjIs(ts, NormMembers(ms), rest);
  }

  lemma StartsValue(v: Json)
    ensures LexemesOf(v) != [] && LexemesOf(v)[0] != Punct(']')
  {}

  lemma {:induction false} ParseSpelledElems(es: List<Json>, rest: seq<Lexeme>)
    requires es.Cons? && SpelledElems(es)
    ensures ParseElems(ElemLexemes(es) + ([Punct(']')] + rest)) == Some((NormElems(es), rest))
    decreases es, 1
  {
    hide ParseValue, LexemesOf, Norm, Spelled;
    var tail := [Punct(']')] + rest;
    var more := if es.tail.Nil? then tail else [Punct(',')] + (ElemLexemes(es.tail) + tail);
    assert ElemLexemes(es) + tail == LexemesOf(es.head) + more;
    ParseSpelled(es.head, more);
    assert more[1..] == if es.tail.Nil? then rest else ElemLexemes(es.tail) + tail;
    if es.tail.Cons? { ParseSpelledElems(es.tail, rest); }
  }

  lemma {:induction false} ParseSpelledMembers(ms: List<Member>, rest: seq<Lexeme>)
    requires ms.Cons? && SpelledMembers(ms)
    ensures ParseMembers(MemberLexemes(ms) + ([Punct('}')] + rest)) == Some((NormMembers(ms), rest))
    decreases ms, 1
  {
    hide ParseValue, ParseMembers, LexemesOf, MemberLexemes, DecodeBody, PrintBody, Norm, Spelled;
    var tail := [Punct('}')] + rest;
    var more := if ms.tail.Nil? then tail else [Punct(',')] + (MemberLexemes(ms.tail) + tail);
    var ts := MemberLexemes(ms) + tail;
    MemberLexemesAre(ms, tail, more);
    assert ts[2..] == LexemesOf(ms.head.value) + more;
    ParseSpelled(ms.head.value, more);
    DecodePrinted(ms.head.key);
    if ms.tail.Cons? {
      ParseSpelledMembers(ms.tail, rest);
      assert more[1..] == MemberLexemes(ms.tail) + tail;
    } else {
      assert more[1..] == rest;
    }
    NormTail(ms);
    ParseMembersIs(ts, NormMembers(ms), more, rest);
  }

  lemma NormTail(ms: List<Member>)
    requires ms.Cons?
    ensures NormMembers(ms).Cons? && (NormMembers(ms).tail.Nil? <==> ms.tail.Nil?)
  {
    hide Norm;
  }

  lemma ParseMembersIs(ts: seq<Lexeme>, ms: List<Member>, more: seq<Lexeme>, rest: seq<Lexeme>)
    requires |ts| >= 2 && ts[0].Lit? && ts[1] == Punct(':') && ms.Cons? && more != []
    requires DecodeBody(ts[0].body) == Some(ms.head.key) && ParseValue(ts[2..]) == Some((ms.head.value, more))
    requires if ms.tail.Nil? then more[0] == Punct('}') && rest == more[1..]
             else more[0] == Punct(',') && ParseMembers(more[1..]) == Some((ms.tail, rest))
    ensures ParseMembers(ts) == Some((ms, rest))
  {
    hide ParseValue, DecodeBody;
  }

  lemma MemberLexemesAre(ms: List<Member>, tail: seq<Lexeme>, more: seq<Lexeme>)
    requires ms.Cons? && more == if ms.tail.Nil? then tail else [Punct(',')] + (MemberLexemes(ms.tail) + tail)
    ensures MemberLexemes(ms) + tail == [Lit(PrintBody(ms.head.key)), Punct(':')] + (LexemesOf(ms.head.value) + more)
  {
    hide LexemesOf, PrintBody;
  }

  lemma {:induction false} NormFixes(v: Json)
    requires Canonical(v)
    ensures Spelled(v) && Norm(v) == v
    decreases v
  {
    hide IsScalarWord, PrintedWord;
    match v
    case Scalar(w) => PrintedIsScalar(w);
    case Str(_) =>
    case Arr(es) => NormFixesElems(es);
    case Obj(ms) => NormFixesMembers(ms); MapOfSorted(ms);
  }

  lemma {:induction false} NormFixesElems(es: List<Json>)
    requires CanonicalElems(es)
    ensures SpelledElems(es) && NormElems(es) == es
    decreases es
  {
    if es.Cons? {
      NormFixes(es.head);
      NormFixesElems(es.tail);
    }
  }

  lemma {:induction false} NormFixesMembers(ms: List<Member>)
    requires CanonicalMembers(ms)
    ensures SpelledMembers(ms) && NormMembers(ms) == ms
    decreases ms
  {
    if ms.Cons? {
      NormFixes(ms.head.value);
      NormFixesMembers(ms.tail);
    }
  }

  lemma ParsePrinted(v: Json, rest: seq<Lexeme>)
    requires Canonical(v)
    ensures ParseValue(LexemesOf(v) + rest) == Some((v, rest))
  {
    NormFixes(v);
    ParseSpelled(v, rest);
  }

  predicate AllOk(xs: seq<Lexeme>) {
    forall i :: 0 <= i < |xs| ==> LexemeOk(xs[i])
  }

  predicate AllWord(s: Text) {
    forall i :: 0 <= i < |s| ==> IsWordChar(s[i])
  }

  lemma AllWordConcat(a: Text, b: Text)
    requires AllWord(a) && AllWord(b)
    ensures AllWord(a + b)
  {}

  lemma {:induction false} DigitRunIsWord(s: Text)
    ensures AllWord(DigitRun(s))
  {
    if s != "" && IsDigit(s[0]) { DigitRunIsWord(s[1..]); }
  }

  lemma ExponentIsWord(s: Text)
    requires IsExponent(s)
    ensures AllWord(s)
  {
    if s != "" {
      var d := if |s| > 1 && (s[1] == '+' || s[1] == '-') then s[2..] else s[1..];
      DigitRunIsWord(d);
      AllWordConcat(s[..|s| - |d|], d);
      assert s == s[..|s| - |d|] + d;
    }
  }

  lemma FractionIsWord(s: Text)
    requires IsFractionAndExponent(s)
    ensures AllWord(s)
  {
    hide IsExponent;
    if s != "" && s[0] == '.' {
      var d := DigitRun(s[1..]);
      DigitRunIsWord(s[1..]);
      ExponentIsWord(s[1 + |d|..]);
      AllWordConcat(s[..1], d);
      AllWordConcat(s[..1] + d, s[1 + |d|..]);
      assert s == s[..1] + d + s[1 + |d|..];
    } else {
      ExponentIsWord(s);
    }
  }

  lemma UnsignedIsWord(t: Text, d: Text)
    requires d == DigitRun(t) && IsFractionAndExponent(t[|d|..])
    ensures AllWord(t)
  {
    hide DigitRun, IsFractionAndExponent, IsWordChar;
    DigitRunIsWord(t);
    FractionIsWord(t[|d|..]);
    AllWordConcat(d, t[|d|..]);
    assert t == d + t[|d|..];
  }

  lemma NumberIsWord(w: Text)
    requires IsNumber(w)
    ensures w != "" && AllWord(w)
  {
    hide DigitRun, IsFractionAndExponent;
    if w != "" && w[0] == '-' {
      UnsignedIsWord(w[1..], DigitRun(w[1..]));
      assert w == [w[0]] + w[1..];
      AllWordConcat([w[0]], w[1..]);
    } else {
      UnsignedIsWord(w, DigitRun(w));
    }
  }

  lemma ScalarIsWord(w: Text)
    requires IsScalarWord(w)
    ensures LexemeOk(Word(w))
  {
    hide IsNumber;
    if IsNumber(w) { NumberIsWord(w); }
  }

  lemma {:induction false} LexemesOfOk(v: Json)
    requires Canonical(v)
    ensures AllOk(LexemesOf(v))
    decreases v
  {
    hide IsScalarWord, PrintedWord, PrintBody, Balanced;
    match v
    case Scalar(w) =>
      PrintedIsScalar(w);
      ScalarIsWord(w);
    case Str(s) => PrintedBalanced(s);
    case Arr(es) => ElemLexemesOk(es);
    case Obj(ms) => MemberLexemesOk(ms);
  }

  lemma {:induction false} ElemLexemesOk(es: List<Json>)
    requires CanonicalElems(es)
    ensures AllOk(ElemLexemes(es))
    decreases es
  {
    if es.Cons? {
      LexemesOfOk(es.head);
      ElemLexemesOk(es.tail);
    }
  }

  lemma {:induction false} MemberLexemesOk(ms: List<Member>)
    requires CanonicalMembers(ms)
    ensures AllOk(MemberLexemes(ms))
    decreases ms
  {
    hide PrintBody, Balanced;
    if ms.Cons? {
      PrintedBalanced(ms.head.key);
      LexemesOfOk(ms.head.value);
      MemberLexemesOk(ms.tail);
    }
  }

  lemma {:induction false} ShapedIsSeparated(ts: seq<Token>, open: bool)
    requires WellShaped(Lexemes(ts), open)
    requires forall t :: t in ts ==> AllSpace(t.ws) && LexemeOk(t.lex)
    ensures Separated(ts)
    decreases |ts|
  {
    hide IsScalarWord, DecodeBody, Balanced;
    if ts != [] {
      assert Lexemes(ts)[1..] == Lexemes(ts[1..]);
      if ts[0].lex.Lit? && |ts| > 1 && ts[1].lex == Punct(':') {
        assert Lexemes(ts)[2..] == Lexemes(ts[2..]);
        ShapedIsSeparated(ts[2..], false);
        assert ts[1..][1..] == ts[2..];
      } else if ts[0].lex.Punct? {
        ShapedIsSeparated(ts[1..], ts[0].lex.c == '{' || ts[0].lex.c == ',');
      } else {
        ShapedIsSeparated(ts[1..], false);
      }
    }
  }

  lemma {:induction false} UnspacedLexemes(xs: seq<Lexeme>)
    requires AllOk(xs)
    ensures Lexemes(Unspaced(xs)) == xs
    ensures forall t :: t in Unspaced(xs) ==> AllSpace(t.ws) && LexemeOk(t.lex)
  {
    if xs != [] {
      UnspacedLexemes(xs[1..]);
    }
  }

  /** Round trip: parsing what was printed gives the value back. */
  lemma {:induction false} ParsePrint(v: Json)
    requires Canonical(v)
    ensures Lex(Print(v)) == Some(LexemesOf(v))
    ensures FromStr(Print(v)) == Some(v)
  {
    hide LexemesOf, Unspaced, Canonical, Lex;
    var xs := LexemesOf(v);
    LexemesOfOk(v);
    UnspacedLexemes(xs);
    ParsePrinted(v, []);
    assert xs + [] == xs;
    AcceptedShape(xs);
    ShapedIsSeparated(Unspaced(xs), false);
    LexWritten(Unspaced(xs));
  }
}
