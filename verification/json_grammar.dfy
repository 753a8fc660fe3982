// The JSON parser against RFC 8259: what it accepts is exactly what can be
// spelled, down to the characters of numbers and of escapes.
module JsonGrammar {
  import opened Texts
  import opened Json
  import opened JsonText

  // ---- Texts and lexemes ----

  predicate TokensOk(ts: seq<Token>) {
    forall i :: 0 <= i < |ts| ==> AllSpace(ts[i].ws) && LexemeOk(ts[i].lex)
  }

  lemma TokensCons(t: Token, ts: seq<Token>)
    requires TokensOk(ts) && AllSpace(t.ws) && LexemeOk(t.lex)
    ensures TokensOk([t] + ts) && Lexemes([t] + ts) == [t.lex] + Lexemes(ts)
    ensures TokenText([t] + ts) == t.ws + LexemeText(t.lex) + TokenText(ts)
  {
    hide AllSpace, LexemeOk;
    assert ([t] + ts)[1..] == ts;
  }

  /** What lexes is its lexemes written down with white space before and after them. */
  lemma {:induction false} LexIsWriting(s: Text, before: Text) returns (ts: seq<Token>, after: Text)
    requires Lex(s).Some? && AllSpace(before)
    ensures before + s == TokenText(ts) + after && Lexemes(ts) == Lex(s).value && TokensOk(ts) && AllSpace(after)
    decreases |s|
  {
    hide Lex, AllSpace, LexemeOk, TokenText, Lexemes, LexemeText, FirstLexeme, IsJsonSpace, TokensOk;
    if s == "" {
      ts, after := [], before;
      NoTokens();
      assert before + s == before && "" + after == after;
    } else if IsJsonSpace(s[0]) {
      SpaceFirst(s, before);
      ts, after := LexIsWriting(s[1..], before + [s[0]]);
      assert before + s == before + [s[0]] + s[1..];
    } else {
      var x := FirstLexeme(s);
      FirstIs(s);
      var rest := s[|LexemeText(x)|..];
      NoTokens();
      var more;
      more, after := LexIsWriting(rest, "");
      assert "" + rest == rest;
      ts := [Token(before, x)] + more;
      TokensCons(Token(before, x), more);
      ConcatAssociative(before, LexemeText(x), rest);
      ConcatAssociative(before + LexemeText(x), TokenText(more), after);
    }
  }

  lemma NoTokens()
    ensures Lexemes([]) == [] && TokenText([]) == "" && TokensOk([]) && Lex("") == Some([]) && AllSpace("")
  {}

  lemma SpaceFirst(s: Text, before: Text)
    requires s != "" && IsJsonSpace(s[0]) && AllSpace(before)
    ensures Lex(s) == Lex(s[1..]) && AllSpace(before + [s[0]])
  {}

  function FirstLexeme(s: Text): Lexeme {
    if s == "" then Word("")
    else if s[0] == QUOTE then Lit(if ScanBody(s[1..]).Some? then ScanBody(s[1..]).value.0 else "")
    else if IsPunct(s[0]) then Punct(s[0])
    else Word(WordRun(s))
  }

  lemma {:induction false} ScannedIsBalanced(s: Text)
    requires ScanBody(s).Some?
    ensures Balanced(ScanBody(s).value.0)
    decreases |s|
  {
    if s[0] == QUOTE {
    } else if s[0] == BACKSLASH {
      ScannedIsBalanced(s[2..]);
      assert (s[..2] + ScanBody(s[2..]).value.0)[2..] == ScanBody(s[2..]).value.0;
    } else {
      ScannedIsBalanced(s[1..]);
      assert (s[..1] + ScanBody(s[1..]).value.0)[1..] == ScanBody(s[1..]).value.0;
    }
  }

  lemma FirstIs(s: Text)
    requires s != "" && !IsJsonSpace(s[0]) && Lex(s).Some?
    ensures var x := FirstLexeme(s);
            && LexemeOk(x) && 0 < |LexemeText(x)| <= |s| && s == LexemeText(x) + s[|LexemeText(x)|..]
            && Lex(s[|LexemeText(x)|..]).Some? && Lex(s).value == [x] + Lex(s[|LexemeText(x)|..]).value
  {
    if s[0] == QUOTE {
      FirstString(s);
    } else if IsPunct(s[0]) {
      assert s == [s[0]] + s[1..];
    } else {
      FirstWord(s);
    }
    hide Lex, ScanBody, WordRun, Balanced;
  }

  lemma FirstString(s: Text)
    requires s != "" && s[0] == QUOTE && Lex(s).Some?
    ensures ScanBody(s[1..]).Some?
    ensures var (b, rest) := ScanBody(s[1..]).value;
            && Balanced(b) && s == [QUOTE] + b + [QUOTE] + rest && s[|[QUOTE] + b + [QUOTE]|..] == rest
            && Lex(rest).Some? && Lex(s).value == [Lit(b)] + Lex(rest).value
  {
    ScannedIsBalanced(s[1..]);
    hide Balanced, WordRun, ScanBody;
    var (b, rest) := ScanBody(s[1..]).value;
    assert s == [QUOTE] + (b + [QUOTE] + rest);
    ConcatAssociative([QUOTE], b + [QUOTE], rest);
    ConcatAssociative([QUOTE], b, [QUOTE]);
  }

  lemma FirstWord(s: Text)
    requires s != "" && s[0] != QUOTE && !IsPunct(s[0]) && !IsJsonSpace(s[0]) && Lex(s).Some?
    ensures var w := WordRun(s);
            && w != "" && s == w + s[|w|..] && LexemeOk(Word(w))
            && Lex(s[|w|..]).Some? && Lex(s).value == [Word(w)] + Lex(s[|w|..]).value
  {
    WordStarts(s);
    hide WordRun, IsWordChar;
  }

  lemma WordStarts(s: Text)
    requires s != "" && IsWordChar(s[0])
    ensures WordRun(s) != ""
  {}

  // ---- Lexemes and values ----

  lemma AlikeConcat(a: seq<Lexeme>, a': seq<Lexeme>, b: seq<Lexeme>, b': seq<Lexeme>)
    requires AllAlike(a, a') && AllAlike(b, b')
    ensures AllAlike(a + b, a' + b')
  {
    hide Alike;
    forall i | 0 <= i < |a + b| ensures Alike((a + b)[i], (a' + b')[i]) {
      if i < |a| { assert Alike(a[i], a'[i]); } else { assert Alike(b[i - |a|], b'[i - |a|]); }
    }
  }

  lemma AlikeSelf(xs: seq<Lexeme>)
    ensures AllAlike(xs, xs)
  {}

  /** The lexemes that parsing used up. */
  function Used(ts: seq<Lexeme>, rest: seq<Lexeme>): seq<Lexeme>
    requires |rest| <= |ts|
  {
    ts[..|ts| - |rest|]
  }

  /** What parses as a value is a spelling of it, but for how strings are written. */
  lemma {:induction false} ValueIsSpelled(ts: seq<Lexeme>) returns (raw: Json)
    requires ParseValue(ts).Some?
    ensures Spelled(raw) && Norm(raw) == ParseValue(ts).value.0
    ensures AllAlike(Used(ts, ParseValue(ts).value.1), LexemesOf(raw))
    decreases |ts|, 0
  {
    hide IsScalarWord, DecodeBody, PrintBody, MapOf, AllAlike, ParseElems, ParseMembers;
    var (v, rest) := ParseValue(ts).value;
    match ts[0]
    case Word(w) =>
      raw := v;
      AlikeSelf([Word(w)]);
      assert Used(ts, rest) == [Word(w)];
    case Lit(b) =>
      raw := v;
      LiteralAlike(b);
      assert Used(ts, rest) == [Lit(b)];
    case Punct(c) =>
      if |ts| > 1 && ((c == '[' && ts[1] == Punct(']')) || (c == '{' && ts[1] == Punct('}'))) {
        raw := v;
        NoMap();
        AlikeSelf(ts[..2]);
        assert Used(ts, rest) == ts[..2] == LexemesOf(raw);
      } else if c == '[' {
        var es := ElemsAreSpelled(ts[1..]);
        raw := Arr(es);
        BracketsAlike(ts, rest, ElemLexemes(es), '[', ']');
      } else {
        var ms := MembersAreSpelled(ts[1..]);
        raw := Obj(ms);
        BracketsAlike(ts, rest, MemberLexemes(ms), '{', '}');
      }
  }

  lemma NoMap()
    ensures MapOf(Nil) == Nil
  {}

  lemma LiteralAlike(b: Text)
    requires DecodeBody(b).Some?
    ensures AllAlike([Lit(b)], [Lit(PrintBody(DecodeBody(b).value))])
  {
    DecodePrinted(DecodeBody(b).value);
  }

  lemma BracketsAlike(ts: seq<Lexeme>, rest: seq<Lexeme>, inner: seq<Lexeme>, open: char, close: char)
    requires ts != [] && ts[0] == Punct(open) && |rest| < |ts| - 1
    requires AllAlike(Used(ts[1..], rest), inner + [Punct(close)])
    ensures AllAlike(Used(ts, rest), [Punct(open)] + inner + [Punct(close)])
  {
    hide AllAlike;
    AlikeSelf([Punct(open)]);
    AlikeConcat([Punct(open)], [Punct(open)], Used(ts[1..], rest), inner + [Punct(close)]);
    assert Used(ts, rest) == [Punct(open)] + Used(ts[1..], rest);
    assert [Punct(open)] + inner + [Punct(close)] == [Punct(open)] + (inner + [Punct(close)]);
  }

  /** A value, and one lexeme after it. */
  lemma UsedOneMore(ts: seq<Lexeme>, rest: seq<Lexeme>, xs: seq<Lexeme>)
    requires rest != [] && |rest| <= |ts| && rest == ts[|ts| - |rest|..] && AllAlike(Used(ts, rest), xs)
    ensures AllAlike(Used(ts, rest[1..]), xs + [rest[0]])
  {
    hide AllAlike;
    AlikeSelf([rest[0]]);
    AlikeConcat(Used(ts, rest), xs, [rest[0]], [rest[0]]);
    assert Used(ts, rest[1..]) == Used(ts, rest) + [rest[0]];
  }

  /** A part, and what is used after it. */
  lemma UsedThen(ts: seq<Lexeme>, mid: seq<Lexeme>, rest: seq<Lexeme>, xs: seq<Lexeme>, ys: seq<Lexeme>)
    requires |rest| <= |mid| <= |ts| && mid == ts[|ts| - |mid|..]
    requires AllAlike(Used(ts, mid), xs) && AllAlike(Used(mid, rest), ys)
    ensures AllAlike(Used(ts, rest), xs + ys)
  {
    hide AllAlike;
    AlikeConcat(Used(ts, mid), xs, Used(mid, rest), ys);
    assert Used(ts, rest) == Used(ts, mid) + Used(mid, rest);
  }

  lemma {:induction false} ElemsAreSpelled(ts: seq<Lexeme>) returns (es: List<Json>)
    requires ParseElems(ts).Some?
    ensures SpelledElems(es) && NormElems(es) == ParseElems(ts).value.0
    ensures AllAlike(Used(ts, ParseElems(ts).value.1), ElemLexemes(es) + [Punct(']')])
    decreases |ts|, 1
  {
    hide AllAlike, ParseValue, LexemesOf, Norm, Spelled;
    var mid := ParseValue(ts).value.1;
    var v := ValueIsSpelled(ts);
    UsedOneMore(ts, mid, LexemesOf(v));
    if mid[0] == Punct(']') {
      es := Cons(v, Nil);
      assert LexemesOf(v) + [] == LexemesOf(v);
    } else {
      var vs := ElemsAreSpelled(mid[1..]);
      es := Cons(v, vs);
      UsedThen(ts, mid[1..], ParseElems(ts).value.1, LexemesOf(v) + [Punct(',')], ElemLexemes(vs) + [Punct(']')]);
      assert vs.Cons?;
      assert LexemesOf(v) + [Punct(',')] + (ElemLexemes(vs) + [Punct(']')]) == ElemLexemes(es) + [Punct(']')];
    }
  }

  lemma {:induction false} MembersAreSpelled(ts: seq<Lexeme>) returns (ms: List<Member>)
    requires ParseMembers(ts).Some?
    ensures SpelledMembers(ms) && NormMembers(ms) == ParseMembers(ts).value.0
    ensures AllAlike(Used(ts, ParseMembers(ts).value.1), MemberLexemes(ms) + [Punct('}')])
    decreases |ts|, 1
  {
    hide AllAlike, ParseValue, ParseMembers, LexemesOf, Norm, Spelled, DecodeBody, PrintBody;
    MembersAre(ts);
    var key := DecodeBody(ts[0].body).value;
    var mid := ParseValue(ts[2..]).value.1;
    var v := ValueIsSpelled(ts[2..]);
    KeyAlike(ts);
    UsedThen(ts, ts[2..], mid, [Lit(PrintBody(key)), Punct(':')], LexemesOf(v));
    var head := [Lit(PrintBody(key)), Punct(':')] + LexemesOf(v);
    UsedOneMore(ts, mid, head);
    if mid[0] == Punct('}') {
      ms := Cons(Member(key, v), Nil);
      assert head + [] == head;
    } else {
      var more := MembersAreSpelled(mid[1..]);
      ms := Cons(Member(key, v), more);
      MembersAre(mid[1..]);
      hide MemberLexemes, KeyAndValue;
      UsedThen(ts, mid[1..], ParseMembers(ts).value.1, head + [Punct(',')], MemberLexemes(more) + [Punct('}')]);
      MembersJoin(key, v, more);
    }
  }

  lemma MembersJoin(key: Text, v: Json, more: List<Member>)
    requires more.Cons?
    ensures [Lit(PrintBody(key)), Punct(':')] + LexemesOf(v) + [Punct(',')] + (MemberLexemes(more) + [Punct('}')])
         == MemberLexemes(Cons(Member(key, v), more)) + [Punct('}')]
  {
    hide PrintBody, LexemesOf;
    var head := [Lit(PrintBody(key)), Punct(':')] + LexemesOf(v);
    assert head + [Punct(',')] + MemberLexemes(more) == head + ([Punct(',')] + MemberLexemes(more));
  }

  lemma KeyAlike(ts: seq<Lexeme>)
    requires KeyAndValue(ts)
    ensures AllAlike(Used(ts, ts[2..]), [Lit(PrintBody(DecodeBody(ts[0].body).value)), Punct(':')])
  {
    LiteralAlike(ts[0].body);
    hide DecodeBody, PrintBody;
    assert Used(ts, ts[2..]) == [ts[0]] + [ts[1]];
    AlikeSelf([ts[1]]);
    AlikeConcat([ts[0]], [Lit(PrintBody(DecodeBody(ts[0].body).value))], [ts[1]], [ts[1]]);
  }

  /** A sequence of lexemes is a value exactly when it is a spelling of it, but for how strings are written. */
  lemma GrammarIs(ts: seq<Lexeme>, v: Json)
    ensures ParseAll(ts) == Some(v) <==> exists raw :: Spelled(raw) && Norm(raw) == v && AllAlike(ts, LexemesOf(raw))
  {
    hide ParseValue, LexemesOf, Norm, Spelled, AllAlike;
    if ParseAll(ts) == Some(v) {
      var raw := ValueIsSpelled(ts);
      assert Used(ts, []) == ts;
    }
    if raw :| Spelled(raw) && Norm(raw) == v && AllAlike(ts, LexemesOf(raw)) {
      SpellingParses(ts, raw);
    }
  }

  lemma SpellingParses(ts: seq<Lexeme>, raw: Json)
    requires Spelled(raw) && AllAlike(ts, LexemesOf(raw))
    ensures ParseAll(ts) == Some(Norm(raw))
  {
    hide ParseValue, LexemesOf, Norm, Spelled, AllAlike;
    ParseSpelled(raw, []);
    assert LexemesOf(raw) + [] == LexemesOf(raw);
    ParseAlike(ts, LexemesOf(raw));
  }

  // ---- Texts and values ----

  lemma {:induction false} LexTrailing(ts: seq<Token>, after: Text)
    requires Separated(ts) && AllSpace(after)
    ensures Lex(TokenText(ts) + after) == Some(Lexemes(ts))
  {
    hide Lex, AllSpace, LexemeOk, LexemeText;
    if ts == [] {
      NoTokens();
      LexSpace(after, "");
      assert after + "" == after && TokenText(ts) + after == after;
    } else {
      var x, rest := ts[0].lex, TokenText(ts[1..]) + after;
      LexTrailing(ts[1..], after);
      if x.Word? { NoWordFirst(ts[1..], after); }
      LexOne(x, rest);
      LexSpace(ts[0].ws, LexemeText(x) + rest);
      ConcatAssociative(ts[0].ws + LexemeText(x), TokenText(ts[1..]), after);
      ConcatAssociative(ts[0].ws, LexemeText(x), rest);
    }
  }

  lemma NoWordFirst(ts: seq<Token>, after: Text)
    requires Separated(ts) && (ts == [] || ts[0].ws != "" || !ts[0].lex.Word?) && AllSpace(after)
    ensures TokenText(ts) + after == "" || !IsWordChar((TokenText(ts) + after)[0])
  {
    NoWordStart(ts);
    if ts != [] { NonEmptyText(ts); }
    hide Separated, TokenText;
  }

  lemma NonEmptyText(ts: seq<Token>)
    requires Separated(ts) && ts != []
    ensures TokenText(ts) != ""
  {}

  /** A text spells a value: white space and lexemes that are a spelling of it. */
  ghost predicate Spells(s: Text, v: Json, ts: seq<Token>, after: Text, raw: Json) {
    && s == TokenText(ts) + after && TokensOk(ts) && AllSpace(after)
    && AllAlike(Lexemes(ts), LexemesOf(raw)) && Spelled(raw) && Norm(raw) == v
  }

  /** Parsing accepts exactly the texts that spell a value, and gives that value. */
  lemma FromStrIs(s: Text, v: Json)
    ensures FromStr(s) == Some(v) <==> exists ts, after, raw :: Spells(s, v, ts, after, raw)
  {
    hide Lex, ParseAll, TokensOk, AllSpace, AllAlike, LexemesOf, Spelled, Norm, TokenText, Lexemes;
    if FromStr(s) == Some(v) {
      NoTokens();
      var ts, after := LexIsWriting(s, "");
      assert "" + s == s;
      GrammarIs(Lexemes(ts), v);
      var raw :| Spelled(raw) && Norm(raw) == v && AllAlike(Lexemes(ts), LexemesOf(raw));
      assert Spells(s, v, ts, after, raw);
    }
    if ts, after, raw :| Spells(s, v, ts, after, raw) {
      SpellingParses(Lexemes(ts), raw);
      TokensSeparated(ts, v);
      LexTrailing(ts, after);
    }
  }

  lemma TokensSeparated(ts: seq<Token>, v: Json)
    requires TokensOk(ts) && ParseAll(Lexemes(ts)) == Some(v)
    ensures Separated(ts)
  {
    hide ParseAll, Lexemes, AllSpace, LexemeOk, WellShaped;
    AcceptedShape(Lexemes(ts));
    ShapedIsSeparated(ts, false);
  }

  // ---- Numbers (section 6 of RFC 8259) ----

  predicate AllDigits(s: Text) {
    forall i :: 0 <= i < |s| ==> '0' <= s[i] <= '9'
  }

  predicate IntPart(i: Text) {
    i == "0" || (i != "" && i[0] != '0' && AllDigits(i))
  }

  predicate FracPart(f: Text) {
    f == "" || (|f| > 1 && f[0] == '.' && AllDigits(f[1..]))
  }

  predicate ExpPart(e: Text) {
    e == "" ||
    (|e| > 1 && (e[0] == 'e' || e[0] == 'E')
     && (AllDigits(e[1..]) || (|e| > 2 && (e[1] == '+' || e[1] == '-') && AllDigits(e[2..]))))
  }

  predicate NumberParts(w: Text, m: Text, i: Text, f: Text, e: Text) {
    w == m + (i + (f + e)) && (m == "" || m == "-") && IntPart(i) && FracPart(f) && ExpPart(e)
  }

  lemma {:induction false} DigitRunSplit(s: Text)
    ensures AllDigits(DigitRun(s)) && s == DigitRun(s) + s[|DigitRun(s)|..]
    ensures var rest := s[|DigitRun(s)|..]; rest == "" || !('0' <= rest[0] <= '9')
  {
    if s != "" && IsDigit(s[0]) { DigitRunSplit(s[1..]); }
  }

  lemma {:induction false} DigitRunOf(d: Text, rest: Text)
    requires AllDigits(d) && (rest == "" || !('0' <= rest[0] <= '9'))
    ensures DigitRun(d + rest) == d && (d + rest)[|d|..] == rest
  {
    if d == "" {
      assert d + rest == rest;
    } else {
      assert (d + rest)[1..] == d[1..] + rest;
      DigitRunOf(d[1..], rest);
    }
  }

  lemma ExponentIs(e: Text)
    ensures IsExponent(e) <==> ExpPart(e)
  {
    if e != "" && (e[0] == 'e' || e[0] == 'E') {
      AllDigitsIff(e[1..]);
      if |e| > 1 { AllDigitsIff(e[2..]); }
      assert |e| > 1 ==> e[1..][0] == e[1];
    }
  }

  lemma AllDigitsIff(s: Text)
    ensures DigitRun(s) == s <==> AllDigits(s)
  {
    DigitRunSplit(s);
    if AllDigits(s) {
      DigitRunOf(s, "");
      assert s + "" == s;
    }
  }

  /** After the integer part: a fraction and an exponent. */
  lemma FractionIs(s: Text) returns (f: Text, e: Text)
    ensures s == f + e
    ensures IsFractionAndExponent(s) ==> FracPart(f) && ExpPart(e) && (f + e == "" || !('0' <= (f + e)[0] <= '9'))
  {
    hide IsExponent, ExpPart;
    if s != "" && s[0] == '.' {
      var d := DigitRun(s[1..]);
      DigitRunSplit(s[1..]);
      hide DigitRun;
      f, e := ['.'] + d, s[1..][|d|..];
      assert f[1..] == d && s == [s[0]] + s[1..] && s[1 + |d|..] == e;
    } else {
      f, e := "", s;
      if IsExponent(s) { StartsNoDigit(s); }
    }
    ExponentIs(e);
  }

  lemma StartsNoDigit(s: Text)
    requires IsExponent(s)
    ensures s == "" || !('0' <= s[0] <= '9')
  {}

  lemma FractionParts(f: Text, e: Text)
    requires FracPart(f) && ExpPart(e)
    ensures IsFractionAndExponent(f + e) && (f + e == "" || !('0' <= (f + e)[0] <= '9'))
  {
    ExponentIs(e);
    if f == "" {
      assert f + e == e;
      assert e == "" || e[0] != '.';
    } else {
      var d := f[1..];
      ExponentHead(e);
      DigitRunOf(d, e);
      hide IsExponent, ExpPart, DigitRun;
      assert (f + e)[1..] == d + e && (f + e)[1 + |d|..] == e;
    }
  }

  lemma ExponentHead(e: Text)
    requires ExpPart(e)
    ensures e == "" || !('0' <= e[0] <= '9')
  {}

  lemma NumberSplits(w: Text) returns (m: Text, i: Text, f: Text, e: Text)
    requires IsNumber(w)
    ensures NumberParts(w, m, i, f, e)
  {
    hide IsFractionAndExponent, DigitRun, FracPart, ExpPart;
    m := if w != "" && w[0] == '-' then "-" else "";
    var t := w[|m|..];
    DigitRunSplit(t);
    i := DigitRun(t);
    f, e := FractionIs(t[|i|..]);
    assert w == m + t;
  }

  lemma PartsAreNumber(w: Text, m: Text, i: Text, f: Text, e: Text)
    requires NumberParts(w, m, i, f, e)
    ensures IsNumber(w)
  {
    hide IsFractionAndExponent, DigitRun, FracPart, ExpPart;
    var t := i + (f + e);
    FractionParts(f, e);
    DigitRunOf(i, f + e);
    assert i[0] != '-' && t[0] == i[0];
    if m == "" { assert w == t; } else { assert w[0] == '-' && w[1..] == t; }
  }

  /** A number is a sign, an integer part, a fraction and an exponent. */
  lemma NumberIs(w: Text)
    ensures IsNumber(w) <==> exists m, i, f, e :: NumberParts(w, m, i, f, e)
  {
    hide IsNumber, NumberParts;
    if IsNumber(w) { var m, i, f, e := NumberSplits(w); }
    if m, i, f, e :| NumberParts(w, m, i, f, e) { PartsAreNumber(w, m, i, f, e); }
  }

  // ---- Characters of strings (section 7) ----

  const HEX: Text := "0123456789abcdef"

  const HEX_UPPER: Text := "0123456789ABCDEF"

  /** Hex digits have the values of their places, and nothing else is one. */
  lemma HexIs(c: char, n: nat)
    ensures HexValue(c) == n <==> n < 16 && (c == HEX[n] || c == HEX_UPPER[n])
  {}

  /** The two-character escapes. */
  lemma ShortEscapes(rest: Text)
    ensures DecodeBody("\\\"" + rest) == Append("\"", DecodeBody(rest))
    ensures DecodeBody("\\\\" + rest) == Append("\\", DecodeBody(rest))
    ensures DecodeBody("\\/" + rest) == Append("/", DecodeBody(rest))
    ensures DecodeBody("\\b" + rest) == Append([8 as char], DecodeBody(rest))
    ensures DecodeBody("\\f" + rest) == Append([12 as char], DecodeBody(rest))
    ensures DecodeBody("\\n" + rest) == Append([10 as char], DecodeBody(rest))
    ensures DecodeBody("\\r" + rest) == Append([13 as char], DecodeBody(rest))
    ensures DecodeBody("\\t" + rest) == Append([9 as char], DecodeBody(rest))
  {
    DecodeShortEscape('\"', '\"', rest);
    DecodeShortEscape('\\', '\\', rest);
    DecodeShortEscape('/', '/', rest);
    DecodeShortEscape('b', 8 as char, rest);
    DecodeShortEscape('f', 12 as char, rest);
    DecodeShortEscape('n', '\n', rest);
    DecodeShortEscape('r', '\r', rest);
    DecodeShortEscape('t', '\t', rest);
    hide DecodeBody;
  }

  /** The code point that UTF-8 bytes stand for (section 3 of RFC 3629). */
  function CodePoint(b: Text): int {
    if |b| == 1 then b[0] as int
    else if |b| == 2 then (b[0] as int - 0xC0) * 64 + (b[1] as int - 0x80)
    else if |b| == 3 then ((b[0] as int - 0xE0) * 64 + (b[1] as int - 0x80)) * 64 + (b[2] as int - 0x80)
    else if |b| == 4 then
      (((b[0] as int - 0xF0) * 64 + (b[1] as int - 0x80)) * 64 + (b[2] as int - 0x80)) * 64 + (b[3] as int - 0x80)
    else -1
  }

  /** The bytes of a code point stand for it: one lead byte by size, and continuation bytes. */
  lemma Utf8Is(c: nat)
    requires c < 0x11_0000
    ensures var b := Utf8(c);
            && CodePoint(b) == c
            && |b| == (if c < 0x80 then 1 else if c < 0x800 then 2 else if c < 0x1_0000 then 3 else 4)
            && forall i :: 0 < i < |b| ==> 0x80 as char <= b[i] < 0xC0 as char
  {
    assert c == 64 * (c / 64) + c % 64;
    assert c / 64 == 64 * (c / 4096) + c / 64 % 64;
    assert c / 4096 == 64 * (c / 262144) + c / 4096 % 64;
  }

  /** What four hex digits after `\u` denote: the code point, or half of a pair of surrogates. */
  lemma UnicodeIs(a: nat, b: nat, c: nat, d: nat, rest: Text)
    requires a < 16 && b < 16 && c < 16 && d < 16
    ensures var h := 4096 * a + 256 * b + 16 * c + d;
            var s := [HEX[a], HEX[b], HEX[c], HEX[d]] + rest;
            && (h < 0xD800 || h >= 0xE000 ==> DecodeUnicode(s) == Some((Utf8(h), 4)))
            && (0xDC00 <= h < 0xE000 ==> DecodeUnicode(s) == None)
  {
    var s := [HEX[a], HEX[b], HEX[c], HEX[d]] + rest;
    HexIs(HEX[a], a);
    HexIs(HEX[b], b);
    HexIs(HEX[c], c);
    HexIs(HEX[d], d);
    hide HexValue, Utf8;
    assert Hex4(s) == Some(4096 * a + 256 * b + 16 * c + d);
  }

  /** A pair of surrogates denotes one code point (section 7: U+1D11E is `\uD834\uDD1E`). */
  lemma SurrogatesAre(hi: nat, lo: nat, s: Text)
    requires 0xD800 <= hi < 0xDC00 && 0xDC00 <= lo < 0xE000
    requires |s| >= 10 && Hex4(s) == Some(hi) && s[4] == '\\' && s[5] == 'u' && Hex4(s[6..]) == Some(lo)
    ensures DecodeUnicode(s) == Some((Utf8(0x1_0000 + (hi - 0xD800) * 1024 + (lo - 0xDC00)), 10))
  {
    hide Hex4, Utf8;
  }

  // ---- Objects ----

  /** The value of the last member with a key. */
  function LastValue(ms: List<Member>, key: Text): Option<Json> {
    match ms
    case Nil => None
    case Cons(h, t) =>
      if LastValue(t, key).Some? then LastValue(t, key) else if h.key == key then Some(h.value) else None
  }

  lemma {:induction false} KeyLessTotal(a: Text, b: Text)
    ensures KeyLess(a, b) || a == b || KeyLess(b, a)
  {
    if a != "" && b != "" && a[0] == b[0] {
      KeyLessTotal(a[1..], b[1..]);
      if a[1..] == b[1..] { assert a == [a[0]] + a[1..] && b == [b[0]] + b[1..]; }
    }
  }

  /** Where two keys first differ: there the lesser has the lesser byte, or it ends there. */
  predicate DiffersAt(a: Text, b: Text, i: int) {
    0 <= i <= |a| && i <= |b| && a[..i] == b[..i] && i < |b| && (i == |a| || a[i] < b[i])
  }

  lemma FirstDiffers(a: Text, b: Text, i: int)
    requires DiffersAt(a, b, i)
    ensures i == 0 || (a != "" && b != "" && a[0] == b[0])
  {
    if i > 0 { assert a[..i][0] == a[0] && b[..i][0] == b[0]; }
  }

  /** Keys are in the order of their bytes. */
  lemma {:induction false} KeyLessIs(a: Text, b: Text)
    ensures KeyLess(a, b) <==> exists i :: DiffersAt(a, b, i)
  {
    if a == "" || b == "" || a[0] != b[0] {
      if b != "" && (a == "" || a[0] < b[0]) { assert DiffersAt(a, b, 0); }
      if i :| DiffersAt(a, b, i) { FirstDiffers(a, b, i); }
    } else {
      KeyLessIs(a[1..], b[1..]);
      if i :| DiffersAt(a[1..], b[1..], i) {
        assert a[..i + 1] == [a[0]] + a[1..][..i] && b[..i + 1] == [b[0]] + b[1..][..i];
        assert DiffersAt(a, b, i + 1);
      }
      if i :| DiffersAt(a, b, i) {
        assert i > 0;
        assert a[1..][..i - 1] == a[..i][1..] && b[1..][..i - 1] == b[..i][1..];
        assert DiffersAt(a[1..], b[1..], i - 1);
      }
    }
  }

  lemma {:induction false} AddNewIs(ms: List<Member>, m: Member, key: Text)
    requires Sorted(ms)
    ensures Sorted(AddNew(ms, m)) && AddNew(ms, m).Cons?
    ensures AddNew(ms, m).head.key == m.key || AddNew(ms, m) == ms
         || (ms.Cons? && AddNew(ms, m).head == ms.head && KeyLess(ms.head.key, m.key))
    ensures Lookup(AddNew(ms, m), key) ==
            if Lookup(ms, key).Some? then Lookup(ms, key) else if m.key == key then Some(m.value) else None
  {
    match ms
    case Nil =>
    case Cons(h, t) =>
      if h.key == m.key {
      } else if KeyLess(m.key, h.key) {
        LesserIsAbsent(ms, m.key);
      } else {
        KeyLessTotal(h.key, m.key);
        AddNewIs(t, m, key);
      }
  }

  /** An object is the map of its members, of equal keys the last, in the order of the keys. */
  lemma {:induction false} MapOfIs(ms: List<Member>, key: Text)
    ensures Sorted(MapOf(ms)) && Lookup(MapOf(ms), key) == LastValue(ms, key)
  {
    match ms
    case Nil =>
    case Cons(h, t) =>
      MapOfIs(t, key);
      AddNewIs(MapOf(t), h, key);
  }

  // ---- Printing ----

  /** Only quotes, backslashes and controls are escaped, with these escapes. */
  lemma PrintedChars(c: char)
    ensures PrintChar('\"') == "\\\"" && PrintChar('\\') == "\\\\"
    ensures PrintChar(8 as char) == "\\b" && PrintChar(9 as char) == "\\t" && PrintChar(10 as char) == "\\n"
    ensures PrintChar(12 as char) == "\\f" && PrintChar(13 as char) == "\\r"
    ensures c < ' ' && c != 8 as char && c != 9 as char && c != 10 as char && c != 12 as char && c != 13 as char ==>
              PrintChar(c) == "\\u00" + [HEX[c as int / 16], HEX[c as int % 16]]
    ensures c >= ' ' && c != '\"' && c != '\\' ==> PrintChar(c) == [c]
  {}

  /** Fractions of at most fifteen digits that the library prints as they are. */
  lemma FractionsArePrinted(m: Text, d: Text, f: Text)
    requires (m == "" || m == "-") && d != "" && f != "" && AllDigits(d) && AllDigits(f) && (d[0] == '0' ==> d == "0")
    requires |d| + |f| <= 15
    requires f == "0" || (f[|f| - 1] != '0' && (d == "0" ==> !("00000" <= f)))
    ensures PrintedWord(m + (d + ("." + f)))
  {
    hide PrintedNumber, DigitRun, IsFractionAndExponent, AllDigits;
    var w, t := m + (d + ("." + f)), d + ("." + f);
    FractionRun(d, f);
    FirstDigit(d);
    if m == "" { assert w == t; } else { assert w[0] == '-' && w[1..] == t; }
    RunsArePrinted(w, t, d, f);
  }

  lemma RunsArePrinted(w: Text, t: Text, d: Text, f: Text)
    requires w == t || (w != "" && w[0] == '-' && w[1..] == t)
    requires t == d + ("." + f) && d != "" && d[0] != '-' && DigitRun(t) == d && (d[0] == '0' ==> d == "0")
    requires t[|d|..] == "." + f && IsFractionAndExponent("." + f) && PrintedFraction(d, f)
    ensures PrintedNumber(w)
  {
    hide DigitRun, IsFractionAndExponent, Value, PrintedFraction;
    assert t[0] == d[0] && t[|d| + 1..] == f && t[|d|] == '.';
  }

  lemma FirstDigit(d: Text)
    requires d != "" && AllDigits(d)
    ensures d[0] != '-'
  {}

  lemma FractionRun(d: Text, f: Text)
    requires d != "" && f != "" && AllDigits(d) && AllDigits(f)
    ensures var t := d + ("." + f);
            DigitRun(t) == d && t[|d|..] == "." + f && IsFractionAndExponent("." + f) && DigitRun(f) == f
  {
    DigitRunOf(d, "." + f);
    AllDigitsIff(f);
    assert ("." + f)[1..] == f && ("." + f) + "" == "." + f;
    FractionParts("." + f, "");
  }

  function Spelling(xs: seq<Lexeme>): Text {
    if xs == [] then "" else LexemeText(xs[0]) + Spelling(xs[1..])
  }

  /** Lexemes are printed one after the other, without white space. */
  lemma {:induction false} PrintedText(xs: seq<Lexeme>)
    ensures TokenText(Unspaced(xs)) == Spelling(xs)
  {
    hide LexemeText;
    if xs != [] {
      PrintedText(xs[1..]);
      assert Unspaced(xs)[1..] == Unspaced(xs[1..]) && "" + LexemeText(xs[0]) == LexemeText(xs[0]);
    }
  }

  predicate Mild(s: Text) {
    forall i :: 0 <= i < |s| ==> s[i] >= ' ' && s[i] != '\"' && s[i] != '\\'
  }

  lemma {:induction false} MildStays(s: Text)
    requires Mild(s)
    ensures PrintBody(s) == s
  {
    if s != "" { MildStays(s[1..]); }
  }
}
