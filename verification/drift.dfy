// Drifted renderings of a JSON object: bare keys, `=` for `:`, leaked quotes,
// raw control characters and stray backslashes in strings. Whatever mixture of
// these a body holds, parsing it gives what the strict rendering gives.
module Drifted {
  import opened Texts
  import opened Json
  import opened JsonText
  import opened JsonScan
  import opened EscapeLaws
  import opened QuoteLaws
  import opened JsonLenient
  import opened ToolFormat

  /**
   * A stretch of a drifted rendering. `Plain` is one lexeme, whose quotes may have leaked and whose
   * body, if it is a string, may hold anything that does not end it; `Bare` is a key without quotes
   * and its separator, `=` or `:`.
   */
  datatype Drift =
    | Plain(tok: Token, leakOpen: bool, leakClose: bool)
    | Bare(ws: Text, key: Text, ws': Text, eq: bool)

  predicate Shaped(d: Drift) {
    match d
    case Plain(t, _, _) => AllSpace(t.ws) && LexemeOk(t.lex)
    case Bare(ws, key, ws', _) => AllSpace(ws) && IsIdent(key) && AllSpace(ws')
  }

  predicate AllShaped(ds: seq<Drift>) {
    forall i :: 0 <= i < |ds| ==> Shaped(ds[i])
  }

  /** The recovery scanners are modelled on ASCII. */
  predicate DriftOk(d: Drift) {
    Shaped(d) && (d.Plain? ==> Ascii(LexemeText(d.tok.lex)))
  }

  predicate AllDriftOk(ds: seq<Drift>) {
    forall i :: 0 <= i < |ds| ==> DriftOk(ds[i])
  }

  lemma OkIsShaped(ds: seq<Drift>)
    requires AllDriftOk(ds)
    ensures AllShaped(ds)
  {
    hide Shaped;
    forall i | 0 <= i < |ds| ensures Shaped(ds[i]) {
      assert DriftOk(ds[i]);
    }
  }

  function QuoteText(leaked: bool): Text {
    if leaked then LEAK else [QUOTE]
  }

  function Separator(eq: bool): Text {
    if eq then "=" else ":"
  }

  /** As the model wrote it. */
  function Written(d: Drift): Text {
    match d
    case Plain(Token(ws, Lit(b)), lo, lc) => ws + (QuoteText(lo) + (b + QuoteText(lc)))
    case Plain(Token(ws, x), _, _) => ws + LexemeText(x)
    case Bare(ws, key, ws', eq) => ws + (key + ws' + Separator(eq))
  }

  /** With its quotes in place. */
  function Unleaked(d: Drift): Text {
    match d
    case Plain(Token(ws, x), _, _) => ws + LexemeText(x)
    case Bare(ws, key, ws', eq) => ws + (key + ws' + Separator(eq))
  }

  /** With its keys quoted. */
  function Keyed(d: Drift): Text {
    match d
    case Plain(Token(ws, x), _, _) => ws + LexemeText(x)
    case Bare(ws, key, ws', _) => ws + ([QUOTE] + key + [QUOTE] + ws' + [':'])
  }

  /** Its strict rendering. */
  function StrictTokens(d: Drift): seq<Token> {
    match d
    case Plain(Token(ws, Lit(b)), _, _) => [Token(ws, Lit(EscapeBody(b)))]
    case Plain(t, _, _) => [t]
    case Bare(ws, key, ws', _) => [Token(ws, Lit(key)), Token(ws', Punct(':'))]
  }

  function AllWritten(ds: seq<Drift>): Text {
    if ds == [] then "" else Written(ds[0]) + AllWritten(ds[1..])
  }

  function AllUnleaked(ds: seq<Drift>): Text {
    if ds == [] then "" else Unleaked(ds[0]) + AllUnleaked(ds[1..])
  }

  function AllKeyed(ds: seq<Drift>): Text {
    if ds == [] then "" else Keyed(ds[0]) + AllKeyed(ds[1..])
  }

  function Strict(ds: seq<Drift>): seq<Token> {
    if ds == [] then [] else StrictTokens(ds[0]) + Strict(ds[1..])
  }

  // ---- Quoting the keys ----

  lemma LexemesCons(t: Token, ts: seq<Token>)
    ensures Lexemes([t] + ts) == [t.lex] + Lexemes(ts) && Lexemes([]) == []
  {
    assert ([t] + ts)[1..] == ts;
  }

  lemma {:induction false} LexemesConcat(a: seq<Token>, b: seq<Token>)
    ensures Lexemes(a + b) == Lexemes(a) + Lexemes(b)
  {
    hide Lexemes;
    if a == [] {
      assert a + b == b;
      LexemesCons(Token("", Word("")), a);
    } else {
      LexemesConcat(a[1..], b);
      assert a + b == [a[0]] + (a[1..] + b);
      LexemesCons(a[0], a[1..] + b);
      LexemesCons(a[0], a[1..]);
      assert a == [a[0]] + a[1..];
    }
  }

  lemma StrictHead(ds: seq<Drift>)
    requires ds != []
    ensures Lexemes(Strict(ds)) == Lexemes(StrictTokens(ds[0])) + Lexemes(Strict(ds[1..]))
  {
    LexemesConcat(StrictTokens(ds[0]), Strict(ds[1..]));
  }

  lemma FewLexemes(t: Token, u: Token)
    ensures Lexemes([t]) == [t.lex] && Lexemes([t, u]) == [t.lex, u.lex]
  {
    assert [t, u][1..] == [u] && [u][1..] == [] && [t][1..] == [];
  }

  /** The lexeme that a plain stretch stands for. */
  function Lexeme1(x: Lexeme): Lexeme {
    if x.Lit? then Lit(EscapeBody(x.body)) else x
  }

  lemma PlainHead(ds: seq<Drift>)
    requires ds != [] && ds[0].Plain?
    ensures Lexemes(Strict(ds)) == [Lexeme1(ds[0].tok.lex)] + Lexemes(Strict(ds[1..]))
  {
    hide EscapeBody, Lexemes, Strict;
    StrictHead(ds);
    FewLexemes(StrictTokens(ds[0])[0], ds[0].tok);
  }

  lemma BareHead(ds: seq<Drift>)
    requires ds != [] && ds[0].Bare?
    ensures Lexemes(Strict(ds)) == [Lit(ds[0].key), Punct(':')] + Lexemes(Strict(ds[1..]))
  {
    hide Lexemes, Strict;
    StrictHead(ds);
    FewLexemes(Token(ds[0].ws, Lit(ds[0].key)), Token(ds[0].ws', Punct(':')));
  }

  lemma SettledKey(key: Text, ts: seq<Lexeme>, open: bool)
    requires Settled([Lit(key), Punct(':')] + ts, open)
    ensures open && Settled(ts, false)
  {
    hide DecodeBody, IsScalarWord;
    assert ([Lit(key), Punct(':')] + ts)[2..] == ts;
  }

  lemma SpacedEnd(ws: Text, c: char, rest: Text)
    requires AllSpace(ws) && (c == ',' || c == ']' || c == '}')
    ensures EndsValue(ws + ([c] + rest))
  {
    hide SpaceRun, AllSpace;
    SpaceIsSpace(ws);
    AsciiSpaceIs(ws);
    SpaceRunIs(ws, [c] + rest);
  }

  lemma NothingEnds()
    ensures EndsValue("")
  {}

  lemma FollowsEnds(ds: seq<Drift>)
    requires AllDriftOk(ds) && Follows(Lexemes(Strict(ds)))
    ensures EndsValue(AllUnleaked(ds))
  {
    hide LexemeOk, Lexemes, Strict, EndsValue, AllSpace;
    if ds == [] {
      NothingEnds();
    } else if ds[0].Bare? {
      BareHead(ds);
    } else {
      PlainHead(ds);
      var ws, x := ds[0].tok.ws, ds[0].tok.lex;
      var rest := AllUnleaked(ds[1..]);
      assert x.Punct? && DriftOk(ds[0]);
      assert AllUnleaked(ds) == ws + ([x.c] + rest);
      SpacedEnd(ws, x.c, rest);
    }
  }

  lemma QuoteLexeme(x: Lexeme, rest: Text, open: bool)
    requires LexemeOk(x) && Ascii(LexemeText(x)) && (x.Word? ==> IsScalarWord(x.text) && EndsValue(rest))
    ensures QuoteFrom(LexemeText(x) + rest, false, open)
         == LexemeText(x) + QuoteFrom(rest, false, x.Punct? && (x.c == '{' || x.c == ','))
  {
    hide QuoteFrom, Balanced, IsScalarWord, EndsValue;
    match x
    case Punct(c) => HeadRound(c, rest, false, open);
    case Lit(b) => AsciiParts([QUOTE] + b, [QUOTE]); AsciiParts([QUOTE], b); QuoteWholeLiteral(b, rest, open);
    case Word(w) => QuoteAtWord(w, rest, open);
  }

  lemma {:induction false} QuoteDrift(ds: seq<Drift>, open: bool)
    requires AllDriftOk(ds) && Settled(Lexemes(Strict(ds)), open)
    ensures QuoteFrom(AllUnleaked(ds), false, open) == AllKeyed(ds)
  {
    hide QuoteFrom, Lexemes, Strict, Settled, LexemeOk, LexemeText, Unleaked, EndsValue, AllSpace, IsIdent,
         IsScalarWord, Ascii;
    if ds == [] {
      QuoteEmpty();
    } else {
      var rest := AllUnleaked(ds[1..]);
      assert DriftOk(ds[0]);
      if ds[0].Bare? {
        BareHead(ds);
        SettledKey(ds[0].key, Lexemes(Strict(ds[1..])), open);
        QuoteDrift(ds[1..], false);
        QuoteBareStretch(ds[0], rest);
      } else {
        var x := ds[0].tok.lex;
        PlainHead(ds);
        SettledNext(Lexemes(Strict(ds)), open);
        QuoteDrift(ds[1..], x.Punct? && (x.c == '{' || x.c == ','));
        if x.Word? { FollowsEnds(ds[1..]); }
        QuoteLexeme(x, rest, open);
        QuotePlainStretch(ds[0], rest, open, QuoteFrom(LexemeText(x) + rest, false, open));
      }
    }
  }

  lemma QuotePlainStretch(d: Drift, rest: Text, open: bool, out: Text)
    requires d.Plain? && AllSpace(d.tok.ws) && out == QuoteFrom(LexemeText(d.tok.lex) + rest, false, open)
    ensures QuoteFrom(Unleaked(d) + rest, false, open) == d.tok.ws + out
  {
    hide QuoteFrom, LexemeText;
    SpaceIsSpace(d.tok.ws);
    QuoteSpace(d.tok.ws, LexemeText(d.tok.lex) + rest, open);
    ConcatAssociative(d.tok.ws, LexemeText(d.tok.lex), rest);
  }

  lemma QuoteBareStretch(d: Drift, rest: Text)
    requires d.Bare? && DriftOk(d)
    ensures QuoteFrom(Unleaked(d) + rest, false, true) == Keyed(d) + QuoteFrom(rest, false, false)
  {
    hide QuoteFrom, IsIdent, AllSpace;
    var sep := if d.eq then '=' else ':';
    SpaceIsSpace(d.ws);
    SpaceIsSpace(d.ws');
    assert Separator(d.eq) == [sep];
    QuoteBareKey(d.key, d.ws', sep, rest);
    QuoteSpace(d.ws, d.key + d.ws' + [sep] + rest, true);
    ConcatAssociative(d.ws, d.key + d.ws' + [sep], rest);
    ConcatAssociative(d.ws, [QUOTE] + d.key + [QUOTE] + d.ws' + [':'], QuoteFrom(rest, false, false));
  }

  // ---- Escaping the bodies ----

  lemma EscapeLexeme(x: Lexeme, rest: Text)
    requires LexemeOk(x) && Ascii(LexemeText(x))
    ensures EscapeFrom(LexemeText(x) + rest, false) == LexemeText(Lexeme1(x)) + EscapeFrom(rest, false)
  {
    hide EscapeFrom, EscapeBody, Balanced;
    match x
    case Punct(c) => EscapeOutside([c], rest);
    case Lit(b) => AsciiParts([QUOTE] + b, [QUOTE]); AsciiParts([QUOTE], b); EscapeWholeLiteral(b, rest);
    case Word(w) => EscapeOutside(w, rest);
  }

  lemma EscapePlainStretch(d: Drift, rest: Text)
    requires d.Plain? && DriftOk(d)
    ensures EscapeFrom(Keyed(d) + rest, false) == d.tok.ws + LexemeText(Lexeme1(d.tok.lex)) + EscapeFrom(rest, false)
  {
    hide EscapeFrom, EscapeBody, LexemeOk;
    var ws, x := d.tok.ws, d.tok.lex;
    EscapeLexeme(x, rest);
    EscapeOutside(ws, LexemeText(x) + rest);
    hide LexemeText;
    ConcatAssociative(ws, LexemeText(x), rest);
    ConcatAssociative(ws, LexemeText(Lexeme1(x)), EscapeFrom(rest, false));
  }

  lemma EscapeBareStretch(d: Drift, rest: Text)
    requires d.Bare? && DriftOk(d)
    ensures EscapeFrom(Keyed(d) + rest, false) == Keyed(d) + EscapeFrom(rest, false)
  {
    hide EscapeFrom, EscapeBody, IsIdent;
    var tail := d.ws' + [':'];
    var q := [QUOTE] + d.key + [QUOTE];
    IdentStays(d.key);
    EscapeOutside(tail, rest);
    EscapeWholeLiteral(d.key, tail + rest);
    EscapeOutside(d.ws, q + (tail + rest));
    hide AllSpace;
    KeyedRegroup(d, rest);
    KeyedRegroup(d, EscapeFrom(rest, false));
  }

  lemma KeyedRegroup(d: Drift, rest: Text)
    requires d.Bare?
    ensures Keyed(d) + rest == d.ws + ([QUOTE] + d.key + [QUOTE] + (d.ws' + [':'] + rest))
  {}

  lemma TokenTextOne(t: Token, ts: seq<Token>)
    ensures TokenText([t] + ts) == t.ws + LexemeText(t.lex) + TokenText(ts)
  {
    assert ([t] + ts)[1..] == ts;
  }

  lemma StrictTextPlain(ds: seq<Drift>)
    requires ds != [] && ds[0].Plain?
    ensures TokenText(Strict(ds)) == ds[0].tok.ws + LexemeText(Lexeme1(ds[0].tok.lex)) + TokenText(Strict(ds[1..]))
  {
    hide TokenText, EscapeBody, LexemeText;
    TokenTextOne(StrictTokens(ds[0])[0], Strict(ds[1..]));
  }

  lemma StrictTextBare(ds: seq<Drift>)
    requires ds != [] && ds[0].Bare?
    ensures TokenText(Strict(ds)) == Keyed(ds[0]) + TokenText(Strict(ds[1..]))
  {
    hide TokenText, EscapeBody;
    var d, ts := ds[0], Strict(ds[1..]);
    var a, b := Token(d.ws, Lit(d.key)), Token(d.ws', Punct(':'));
    TokenTextOne(b, ts);
    TokenTextOne(a, [b] + ts);
    assert StrictTokens(d) + ts == [a] + ([b] + ts);
    KeyedTwoTokens(d, TokenText(ts));
  }

  lemma KeyedTwoTokens(d: Drift, rest: Text)
    requires d.Bare?
    ensures Keyed(d) + rest == d.ws + ([QUOTE] + d.key + [QUOTE]) + (d.ws' + [':'] + rest)
  {}

  lemma {:induction false} EscapeKeyed(ds: seq<Drift>)
    requires AllDriftOk(ds)
    ensures EscapeFrom(AllKeyed(ds), false) == TokenText(Strict(ds))
  {
    if ds == [] {
      EscapeNothing();
    } else {
      assert DriftOk(ds[0]);
      EscapeKeyed(ds[1..]);
      hide EscapeFrom, TokenText, Strict, DriftOk;
      if ds[0].Plain? {
        StrictTextPlain(ds);
        EscapePlainStretch(ds[0], AllKeyed(ds[1..]));
      } else {
        StrictTextBare(ds);
        EscapeBareStretch(ds[0], AllKeyed(ds[1..]));
      }
    }
  }

  // ---- Leaked quotes ----

  lemma {:induction false} ReplaceNone(p: Text, rest: Text)
    requires forall k :: 0 <= k < |p| ==> !(LEAK <= (p + rest)[k..])
    ensures Replace(p + rest, LEAK, [QUOTE]) == p + Replace(rest, LEAK, [QUOTE])
  {
    hide Replace;
    if p == "" {
      assert p + rest == rest;
    } else {
      var q := p[1..];
      assert p + rest == [p[0]] + (q + rest) && p == [p[0]] + q;
      forall k | 0 <= k < |q| ensures !(LEAK <= (q + rest)[k..]) {
        assert (q + rest)[k..] == (p + rest)[k + 1..];
      }
      ReplaceNone(q, rest);
      assert (p + rest)[0..] == p + rest;
      ReplaceOne(p[0], q + rest);
    }
  }

  lemma ReplaceOne(c: char, rest: Text)
    requires !(LEAK <= [c] + rest)
    ensures Replace([c] + rest, LEAK, [QUOTE]) == [c] + Replace(rest, LEAK, [QUOTE])
  {
    assert ([c] + rest)[1..] == rest;
  }

  lemma ReplaceLeak(rest: Text)
    ensures Replace(LEAK + rest, LEAK, [QUOTE]) == [QUOTE] + Replace(rest, LEAK, [QUOTE])
  {
    assert LEAK <= LEAK + rest && (LEAK + rest)[|LEAK|..] == rest;
  }

  /** Text without `<` is copied. */
  lemma ReplaceCopies(p: Text, rest: Text)
    requires '<' !in p
    ensures Replace(p + rest, LEAK, [QUOTE]) == p + Replace(rest, LEAK, [QUOTE])
  {
    forall k | 0 <= k < |p| ensures !(LEAK <= (p + rest)[k..]) {
      assert (p + rest)[k..][0] == p[k];
    }
    ReplaceNone(p, rest);
  }

  /** In a string body every quote comes after a backslash. */
  lemma {:induction false} QuoteIsEscaped(b: Text, i: nat)
    requires Balanced(b) && i < |b| && b[i] == QUOTE
    ensures i > 0 && b[i - 1] == BACKSLASH
    decreases |b|
  {
    var n := if b[0] == BACKSLASH then 2 else 1;
    if i >= n { QuoteIsEscaped(b[n..], i - n); }
  }

  /** A string body is copied, whatever form the quote after it has. */
  lemma ReplaceBody(b: Text, leaked: bool, rest: Text)
    requires Balanced(b) && (rest == "" || rest[0] != '|')
    ensures Replace(b + (QuoteText(leaked) + rest), LEAK, [QUOTE])
            == b + Replace(QuoteText(leaked) + rest, LEAK, [QUOTE])
  {
    hide Replace, Balanced;
    var q := QuoteText(leaked) + rest;
    assert q[0] == (if leaked then '<' else QUOTE) && (!leaked && |q| > 1 ==> q[1] != '|');
    forall k | 0 <= k < |b| ensures !(LEAK <= (b + q)[k..]) {
      if k + 2 < |b| && b[k + 2] == QUOTE { QuoteIsEscaped(b, k + 2); }
      NoLeakAcross(b, q, k);
    }
    ReplaceNone(b, q);
  }

  lemma NoLeakAcross(b: Text, q: Text, k: nat)
    requires k < |b| && q != "" && q[0] != '|' && (q[0] == QUOTE && |q| > 1 ==> q[1] != '|')
    requires k + 2 < |b| && b[k + 2] == QUOTE ==> b[k + 1] == BACKSLASH
    ensures !(LEAK <= (b + q)[k..])
  {
    var t := b + q;
    assert k + 3 < |t| ==> t[k..][1] == t[k + 1] && t[k..][2] == t[k + 2] && t[k..][3] == t[k + 3];
  }

  lemma WrittenStart(ds: seq<Drift>)
    requires AllShaped(ds)
    ensures AllWritten(ds) == "" || AllWritten(ds)[0] != '|'
  {
    if ds != [] {
      assert Shaped(ds[0]);
    }
  }

  lemma ReplaceLiteral(b: Text, lo: bool, lc: bool, rest: Text)
    requires Balanced(b) && (rest == "" || rest[0] != '|')
    ensures Replace(QuoteText(lo) + (b + QuoteText(lc)) + rest, LEAK, [QUOTE])
         == [QUOTE] + b + [QUOTE] + Replace(rest, LEAK, [QUOTE])
  {
    hide Replace, Balanced;
    var tail := b + (QuoteText(lc) + rest);
    ReplaceBody(b, lc, rest);
    ReplaceQuote(lc, rest);
    ReplaceQuote(lo, tail);
    hide QuoteText;
    LiteralRegroup(QuoteText(lo), b, QuoteText(lc), rest);
    LiteralRegroup([QUOTE], b, [QUOTE], Replace(rest, LEAK, [QUOTE]));
  }

  lemma LiteralRegroup(o: Text, b: Text, c: Text, rest: Text)
    ensures o + (b + c) + rest == o + (b + (c + rest)) == o + b + c + rest
  {}

  lemma ReplaceQuote(leaked: bool, rest: Text)
    ensures Replace(QuoteText(leaked) + rest, LEAK, [QUOTE]) == [QUOTE] + Replace(rest, LEAK, [QUOTE])
  {
    hide Replace;
    if leaked { ReplaceLeak(rest); } else { ReplaceCopies([QUOTE], rest); }
  }

  lemma ReplaceStretch(d: Drift, rest: Text)
    requires Shaped(d) && (rest == "" || rest[0] != '|')
    ensures Replace(Written(d) + rest, LEAK, [QUOTE]) == Unleaked(d) + Replace(rest, LEAK, [QUOTE])
  {
    hide Replace, Balanced;
    if d.Bare? {
      ReplaceCopies(Written(d), rest);
    } else {
      var ws, x := d.tok.ws, d.tok.lex;
      if x.Lit? {
        ReplaceLiteral(x.body, d.leakOpen, d.leakClose, rest);
        ReplaceCopies(ws, QuoteText(d.leakOpen) + (x.body + QuoteText(d.leakClose)) + rest);
        hide QuoteText;
        ConcatAssociative(ws, QuoteText(d.leakOpen) + (x.body + QuoteText(d.leakClose)), rest);
        ConcatAssociative(ws, [QUOTE] + x.body + [QUOTE], Replace(rest, LEAK, [QUOTE]));
      } else {
        ReplaceCopies(Written(d), rest);
      }
    }
  }

  lemma {:induction false} ReplaceDrift(ds: seq<Drift>)
    requires AllShaped(ds)
    ensures Replace(AllWritten(ds), LEAK, [QUOTE]) == AllUnleaked(ds)
  {
    hide Replace, Shaped;
    if ds == [] {
      assert Replace("", LEAK, [QUOTE]) == "" by { ReplaceNothing(); }
    } else {
      assert Shaped(ds[0]);
      ReplaceDrift(ds[1..]);
      WrittenStart(ds[1..]);
      ReplaceStretch(ds[0], AllWritten(ds[1..]));
    }
  }

  lemma ReplaceNothing()
    ensures Replace("", LEAK, [QUOTE]) == ""
  {}

  // ---- Recovery ----

  lemma {:induction false} DriftAscii(ds: seq<Drift>)
    requires AllDriftOk(ds)
    ensures Ascii(AllUnleaked(ds)) && Ascii(AllKeyed(ds))
  {
    if ds != [] {
      assert DriftOk(ds[0]);
      DriftAscii(ds[1..]);
      StretchAscii(ds[0]);
      hide DriftOk, Keyed, Unleaked, Ascii;
      AsciiParts(Unleaked(ds[0]), AllUnleaked(ds[1..]));
      AsciiParts(Keyed(ds[0]), AllKeyed(ds[1..]));
    }
  }

  lemma StretchAscii(d: Drift)
    requires DriftOk(d)
    ensures Ascii(Unleaked(d)) && Ascii(Keyed(d))
  {
    hide LexemeOk;
    if d.Plain? {
      AsciiParts(d.tok.ws, LexemeText(d.tok.lex));
    }
  }

  lemma {:induction false} StrictTokensOk(ds: seq<Drift>)
    requires AllDriftOk(ds)
    ensures forall t :: t in Strict(ds) ==> AllSpace(t.ws) && LexemeOk(t.lex)
  {
    hide Balanced, EscapeBody, IsIdent, AllSpace;
    if ds != [] {
      var d := ds[0];
      assert DriftOk(d);
      StrictTokensOk(ds[1..]);
      if d.Bare? {
        IdentBalanced(d.key);
      } else if d.tok.lex.Lit? {
        var b := d.tok.lex.body;
        AsciiParts([QUOTE] + b, [QUOTE]);
        AsciiParts([QUOTE], b);
        EscapedBalanced(b);
      }
    }
  }

  lemma StrictParses(ds: seq<Drift>)
    requires AllDriftOk(ds) && ParseAll(Lexemes(Strict(ds))).Some?
    ensures FromStr(TokenText(Strict(ds))) == ParseAll(Lexemes(Strict(ds))) && WellShaped(Lexemes(Strict(ds)), false)
  {
    hide Strict, ParseAll, LexemeOk, AllSpace, Lex;
    AcceptedShape(Lexemes(Strict(ds)));
    StrictTokensOk(ds);
    ShapedIsSeparated(Strict(ds), false);
    LexWritten(Strict(ds));
  }

  /** The arguments, once leaked quotes are in place, parse to what the strict rendering parses to. */
  lemma {:induction false} ArgsRecovered(ds: seq<Drift>)
    requires AllDriftOk(ds) && ParseAll(Lexemes(Strict(ds))).Some?
    ensures ParseArgs(AllUnleaked(ds)) == Parsed(ParseAll(Lexemes(Strict(ds))).value)
  {
    hide QuoteFrom, EscapeFrom, FromStr, Rescue, ParseAll, Strict, Lexemes, DriftOk, WellShaped;
    var raw, keyed, strict := AllUnleaked(ds), AllKeyed(ds), TokenText(Strict(ds));
    StrictParses(ds);
    DriftAscii(ds);
    QuoteDrift(ds, false);
    EscapeKeyed(ds);
    if FromStr(raw).Some? { QuoteFixesStrict(raw); }
    if FromStr(keyed).Some? { EscapeFixesStrict(keyed); }
  }

  predicate IsName(name: Text) {
    name != "" && Trimmed(name) && '{' !in name && '<' !in name
  }

  lemma {:induction false} EndsSolid(ds: seq<Drift>)
    requires AllShaped(ds) && ds != []
    ensures var t := AllUnleaked(ds); t != "" && !IsSpace(t[|t| - 1])
  {
    assert Shaped(ds[0]);
    StretchEnds(ds[0]);
    hide Unleaked, Shaped;
    if |ds| > 1 {
      EndsSolid(ds[1..]);
    } else {
      assert AllUnleaked(ds) == Unleaked(ds[0]) + "" == Unleaked(ds[0]);
    }
  }

  lemma StretchEnds(d: Drift)
    requires Shaped(d)
    ensures var t := Unleaked(d); t != "" && !IsSpace(t[|t| - 1])
  {
    hide Balanced;
  }

  lemma {:induction false} StartsWithBrace(ds: seq<Drift>)
    requires ds != [] && AllShaped(ds) && AllWritten(ds) != "" && AllWritten(ds)[0] == '{'
    ensures AllUnleaked(ds) != "" && AllUnleaked(ds)[0] == '{'
  {
    hide Shaped, Written, Unleaked;
    assert Shaped(ds[0]);
    StretchStarts(ds[0]);
  }

  lemma StretchStarts(d: Drift)
    requires Shaped(d)
    ensures Written(d) != "" && Unleaked(d) != "" && (Written(d)[0] == '{' ==> Unleaked(d)[0] == '{')
  {
    hide Balanced, IsIdent;
    if d.Bare? { IdentNonempty(d.key); }
  }

  /** A body that is a name and arguments in braces. */
  lemma SplitBody(name: Text, raw: Text)
    requires IsName(name) && raw != "" && raw[0] == '{' && !IsSpace(raw[|raw| - 1])
    ensures ParseStripped(Trim(StripPrefix(Trim(CALL + (name + raw)), CALL))) ==
            match ParseArgs(raw)
            case Parsed(v) => WithTool(name, AsObject(v))
            case Refused => NoCall
            case Panics => Crash
  {
    hide ParseArgs, Trim, Find;
    StripBody(name, raw);
    FindBrace(name, raw);
    var t := name + raw;
    assert t[..|name|] == name && t[|name|..] == raw;
    TrimName(name);
  }

  lemma TrimName(name: Text)
    requires IsName(name)
    ensures Trim(name) == name
  {
    TrimFixes(name);
  }

  lemma StripBody(name: Text, raw: Text)
    requires IsName(name) && raw != "" && !IsSpace(raw[|raw| - 1])
    ensures Trim(StripPrefix(Trim(CALL + (name + raw)), CALL)) == name + raw
  {
    hide Trim;
    var t := name + raw;
    assert t[0] == name[0] && t[|t| - 1] == raw[|raw| - 1];
    var s := CALL + t;
    assert s[0] == 'c' && s[|s| - 1] == t[|t| - 1] && s[|CALL|..] == t;
    TrimFixes(s);
    TrimFixes(t);
  }

  lemma FindBrace(name: Text, raw: Text)
    requires '{' !in name && raw != "" && raw[0] == '{'
    ensures Find(name + raw, "{") == Some(|name|)
  {
    hide Find, OccursAt, Contains;
    HeadBack(name, raw);
    FindChar(name, '{', raw[1..]);
  }

  lemma HeadBack(p: Text, s: Text)
    requires s != ""
    ensures p + [s[0]] + s[1..] == p + s
  {}

  /** The body that `ds` writes, when its arguments parse to `ms` once quotes are in place. */
  lemma BodyParses(name: Text, ds: seq<Drift>, ms: List<Member>)
    requires IsName(name) && AllShaped(ds) && AllWritten(ds) != "" && AllWritten(ds)[0] == '{'
    requires ParseArgs(AllUnleaked(ds)) == Parsed(Obj(ms))
    ensures ParseBody(CALL + (name + AllWritten(ds))) == Call(name, Put(ms, Member("tool", Str(name))))
  {
    hide Replace, Trim, ParseStripped, ParseArgs, AllWritten, AllUnleaked, AllShaped;
    assert ds != [] by { WrittenNothing(); }
    ReplaceDrift(ds);
    StartsWithBrace(ds);
    EndsSolid(ds);
    var raw := AllUnleaked(ds);
    ReplaceCopies(CALL + name, AllWritten(ds));
    ConcatAssociative(CALL, name, AllWritten(ds));
    ConcatAssociative(CALL, name, raw);
    SplitBody(name, raw);
  }

  lemma WrittenNothing()
    ensures AllWritten([]) == ""
  {}

  /** Tokens as they are. */
  function Undrifted(ts: seq<Token>): seq<Drift> {
    if ts == [] then [] else [Plain(ts[0], false, false)] + Undrifted(ts[1..])
  }

  lemma {:induction false} UndriftedText(ts: seq<Token>)
    requires forall t :: t in ts ==> AllSpace(t.ws) && LexemeOk(t.lex)
    ensures AllShaped(Undrifted(ts)) && AllWritten(Undrifted(ts)) == AllUnleaked(Undrifted(ts)) == TokenText(ts)
  {
    hide LexemeOk, AllSpace;
    if ts != [] {
      UndriftedText(ts[1..]);
      var d, ds := Plain(ts[0], false, false), Undrifted(ts[1..]);
      assert Undrifted(ts)[1..] == ds;
      assert Written(d) == Unleaked(d) by { PlainWritten(ts[0]); }
      hide Written, TokenText;
      assert TokenText(ts) == ts[0].ws + LexemeText(ts[0].lex) + TokenText(ts[1..])
             by { TokenTextOne(ts[0], ts[1..]); assert ts == [ts[0]] + ts[1..]; }
    }
  }

  lemma PlainWritten(t: Token)
    ensures Written(Plain(t, false, false)) == Unleaked(Plain(t, false, false))
  {
    if t.lex.Lit? {
      assert [QUOTE] + (t.lex.body + [QUOTE]) == LexemeText(t.lex);
    }
  }

  /** A strict body. */
  lemma {:induction false} StrictBodyParses(name: Text, ts: seq<Token>, ms: List<Member>)
    requires IsName(name) && (forall t :: t in ts ==> AllSpace(t.ws) && LexemeOk(t.lex))
    requires TokenText(ts) != "" && TokenText(ts)[0] == '{' && FromStr(TokenText(ts)) == Some(Obj(ms))
    ensures ParseBody(CALL + (name + TokenText(ts))) == Call(name, Put(ms, Member("tool", Str(name))))
  {
    hide ParseBody, FromStr, AllShaped, LenientParseObject, AllSpace, LexemeOk;
    UndriftedText(ts);
    BodyParses(name, Undrifted(ts), ms);
  }

  /** A drifted body is read as its strict rendering is. */
  lemma {:induction false} SameAsStrict(name: Text, ds: seq<Drift>, ms: List<Member>)
    requires IsName(name) && AllDriftOk(ds) && AllWritten(ds) != "" && AllWritten(ds)[0] == '{'
    requires ParseAll(Lexemes(Strict(ds))) == Some(Obj(ms))
    ensures ParseBody(CALL + (name + AllWritten(ds))) == Call(name, Put(ms, Member("tool", Str(name))))
    ensures ParseBody(CALL + (name + TokenText(Strict(ds)))) == ParseBody(CALL + (name + AllWritten(ds)))
  {
    OkIsShaped(ds);
    StrictParses(ds);
    StrictTokensOk(ds);
    ArgsRecovered(ds);
    StrictStart(ds);
    hide ParseBody, FromStr, AllShaped, AllDriftOk, AllWritten, AllUnleaked, ParseAll, ParseArgs, Strict, TokenText,
         Lexemes, WellShaped;
    BodyParses(name, ds, ms);
    StrictBodyParses(name, Strict(ds), ms);
  }

  lemma FirstIsBrace(ds: seq<Drift>)
    requires ds != [] && AllDriftOk(ds) && AllWritten(ds) != "" && AllWritten(ds)[0] == '{'
    ensures ds[0].Plain? && ds[0].tok == Token("", Punct('{'))
  {
    assert DriftOk(ds[0]);
    hide Balanced;
  }

  lemma StrictStart(ds: seq<Drift>)
    requires ds != [] && AllDriftOk(ds) && AllWritten(ds) != "" && AllWritten(ds)[0] == '{'
    ensures TokenText(Strict(ds)) != "" && TokenText(Strict(ds))[0] == '{'
  {
    FirstIsBrace(ds);
    hide AllWritten, AllDriftOk;
    StrictTextPlain(ds);
    hide TokenText, EscapeBody, Strict;
  }

  // ---- Bodies without arguments ----

  /** Letters, digits and underscores. */
  predicate IsWordName(name: Text) {
    forall i :: 0 <= i < |name| ==>
      'a' <= name[i] <= 'z' || 'A' <= name[i] <= 'Z' || '0' <= name[i] <= '9' || name[i] == '_'
  }

  /**
   * A body without a brace, with or without `call:`, is a call without arguments exactly when it is a
   * word; otherwise, and when there is nothing, it is no call.
   */
  lemma {:induction false} BareNameParses(t: Text)
    requires t != "" && Trimmed(t) && Ascii(t) && '{' !in t && '<' !in t
    ensures var r := if IsWordName(t) then Call(t, Cons(Member("tool", Str(t)), Nil)) else NoCall;
            ParseBody(CALL + t) == r && (!(CALL <= t) ==> ParseBody(t) == r)
    ensures ParseBody(CALL) == ParseBody("") == NoCall
  {
    hide Replace, Find, ParseArgs, Trim, ParseStripped, IsWordName;
    ReplaceNothing();
    ReplaceCopies(t, "");
    ReplaceCopies(CALL + t, "");
    ReplaceCopies(CALL, "");
    assert t + "" == t && CALL + t + "" == CALL + t && CALL + "" == CALL;
    TrimFixes(t);
    assert (CALL + t)[|CALL + t| - 1] == t[|t| - 1];
    TrimFixes(CALL + t);
    TrimFixes(CALL);
    TrimFixes("");
    assert (CALL + t)[|CALL|..] == t && CALL[|CALL|..] == "";
    BareStripped(t);
  }

  lemma BareStripped(t: Text)
    requires t != "" && '{' !in t
    ensures ParseStripped(t) == if IsWordName(t) then Call(t, Cons(Member("tool", Str(t)), Nil)) else NoCall
    ensures ParseStripped("") == NoCall
  {
    hide Find, ParseArgs, Trim;
    LacksChar(t, '{');
  }

  /** Arguments without a name before them are no call. */
  lemma NamelessIsNoCall(raw: Text)
    requires raw != "" && raw[0] == '{' && '<' !in raw && !IsSpace(raw[|raw| - 1]) && ParseArgs(raw) != Panics
    ensures ParseBody(CALL + raw) == ParseBody(raw) == NoCall
  {
    hide Trim, ParseStripped, Replace, ParseArgs;
    NoLeak(CALL + raw) by { assert '<' !in CALL + raw; }
    NoLeak(raw);
    var s := CALL + raw;
    assert s[|CALL|..] == raw && s[|s| - 1] == raw[|raw| - 1];
    TrimFixes(s);
    TrimFixes(raw);
    NamelessStripped(raw);
  }

  lemma NamelessStripped(raw: Text)
    requires raw != "" && raw[0] == '{' && ParseArgs(raw) != Panics
    ensures ParseStripped(raw) == NoCall
  {
    hide Trim, Find, ParseArgs, Put;
    TrimFixes("");
    FindBrace("", raw);
    assert "" + raw == raw && raw[..0] == "" && raw[0..] == raw;
  }

  // ---- White space around the parts ----

  predicate Blanks(ws: Text) {
    forall i :: 0 <= i < |ws| ==> ws[i] == ' ' || ws[i] == '\t' || ws[i] == '\n' || ws[i] == '\r'
  }

  lemma BlanksAreSpace(ws: Text)
    requires Blanks(ws)
    ensures (forall i :: 0 <= i < |ws| ==> IsSpace(ws[i])) && '<' !in ws && '{' !in ws
  {}

  /** White space around the whole body, after `call:` and before the arguments changes nothing. */
  lemma SpacesDoNotMatter(before: Text, gap: Text, name: Text, gap': Text, raw: Text, after: Text)
    requires Blanks(before) && Blanks(gap) && Blanks(gap') && Blanks(after) && IsName(name)
    requires raw != "" && raw[0] == '{' && '<' !in raw && !IsSpace(raw[|raw| - 1])
    ensures ParseBody(before + (CALL + (gap + (name + (gap' + raw)))) + after) == ParseBody(CALL + (name + raw))
  {
    BlanksAreSpace(before);
    BlanksAreSpace(gap);
    BlanksAreSpace(gap');
    BlanksAreSpace(after);
    var t := name + (gap' + raw);
    var s := CALL + (gap + t);
    NoLeak(before + s + after) by { assert '<' !in before + s + after; }
    NoLeak(CALL + (name + raw)) by { assert '<' !in CALL + (name + raw); }
    assert t[0] == name[0] && t[|t| - 1] == raw[|raw| - 1] && s[|s| - 1] == t[|t| - 1] && s[0] == 'c';
    hide Blanks, IsName, ParseStripped;
    TrimAround(before, s, after);
    assert s[|CALL|..] == gap + t;
    TrimAround(gap, t, "");
    assert gap + t + "" == gap + t;
    SpacedStripped(name, gap', raw);
    StripBody(name, raw);
  }

  lemma NoLeak(s: Text)
    requires '<' !in s
    ensures Replace(s, LEAK, [QUOTE]) == s
  {
    hide Replace;
    ReplaceCopies(s, "");
    ReplaceNothing();
    assert s + "" == s;
  }

  lemma SpacedStripped(name: Text, gap: Text, raw: Text)
    requires IsName(name) && Blanks(gap) && raw != "" && raw[0] == '{'
    ensures ParseStripped(name + (gap + raw)) == ParseStripped(name + raw)
  {
    hide ParseArgs, Trim, Find, WithTool;
    BlanksAreSpace(gap);
    var t := name + (gap + raw);
    FindBrace(name, raw);
    assert t == name + gap + raw && '{' !in name + gap;
    FindBrace(name + gap, raw);
    assert t[..|name + gap|] == name + gap && t[|name + gap|..] == raw;
    assert (name + raw)[..|name|] == name && (name + raw)[|name|..] == raw;
    TrimName(name);
    TrimAround("", name, gap);
    assert "" + name + gap == name + gap;
  }
}
