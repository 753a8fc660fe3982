// Recovery of JSON objects that the strict parser rejects: the stages in
// order, and what they leave alone.
module JsonLenient {
  import opened Texts
  import opened Json
  import opened JsonText
  import opened JsonScan
  import opened EscapeLaws
  import opened QuoteLaws
  import opened StructuralQuotes

  /** `Panics`: a slice out of range. */
  datatype Recovery = Parsed(value: Json) | Refused | Panics

  /** The stages that end in a strict parse. */
  function Stages(raw: Text): Option<Json> {
    var quoted := QuoteBareKeys(raw);
    if FromStr(quoted).Some? then FromStr(quoted)
    else
      var escaped := EscapeStringControls(quoted);
      if escaped != quoted && FromStr(escaped).Some? then FromStr(escaped)
      else
        var rewritten := UnEscapeStructuralQuotes(escaped);
        if rewritten.Some? && rewritten.value != escaped then FromStr(rewritten.value) else None
  }

  /** The text between the outer braces. */
  function Inner(quoted: Text): Option<Text> {
    var t := Trim(quoted);
    if |t| >= 2 && t[0] == '{' && t[|t| - 1] == '}' then Some(Trim(t[1..|t| - 1])) else None
  }

  /** Splits at the first colon. */
  function SplitAtColon(inner: Text): Option<(Text, Text)> {
    match Find(inner, ":")
    case None => None
    case Some(k) => assert OccursAt(inner, ":", k); Some((Trim(inner[..k]), Trim(inner[k + 1..])))
  }

  /** The rescue of `{"key": words}`. */
  function Rescue(quoted: Text): Recovery {
    if Inner(quoted).None? || SplitAtColon(Inner(quoted).value).None? then Refused
    else
      var (part, value) := SplitAtColon(Inner(quoted).value).value;
      if part == "" || part[0] != QUOTE || part[|part| - 1] != QUOTE then Refused
      else if |part| < 2 then Panics
      else
        var key := part[1..|part| - 1];
        if QUOTE in key || value == "" then Refused
        else if FromStr(value).Some? then Parsed(Obj(Cons(Member(key, FromStr(value).value), Nil)))
        else if CommaFrom(value, 0, false) || value[0] == QUOTE then Refused
        else Parsed(Obj(Cons(Member(key, Str(value)), Nil)))
  }

  function LenientParseObject(raw: Text): Recovery {
    match Stages(raw)
    case Some(v) => Parsed(v)
    case None => Rescue(QuoteBareKeys(raw))
  }

  /** `lenient_parse_object` over the scanners' loops. */
  method Recover(raw: Text) returns (r: Recovery)
    ensures r == LenientParseObject(raw)
  {
    hide QuoteBareKeys, EscapeStringControls, UnEscapeStructuralQuotes, FromStr, Trim;
    var quoted := QuoteBareKeysLoop(raw);
    if FromStr(quoted).Some? {
      return Parsed(FromStr(quoted).value);
    }
    var escaped := EscapeStringControlsLoop(quoted);
    if escaped != quoted && FromStr(escaped).Some? {
      return Parsed(FromStr(escaped).value);
    }
    var rewritten := UnEscape(escaped);
    if rewritten.Some? && rewritten.value != escaped && FromStr(rewritten.value).Some? {
      return Parsed(FromStr(rewritten.value).value);
    }
    assert Stages(raw) == None;
    var inner := Inner(quoted);
    if inner.None? || SplitAtColon(inner.value).None? {
      return Refused;
    }
    var (part, value) := SplitAtColon(inner.value).value;
    if part == "" || part[0] != QUOTE || part[|part| - 1] != QUOTE {
      return Refused;
    }
    if |part| < 2 {
      return Panics;
    }
    var key := part[1..|part| - 1];
    if QUOTE in key || value == "" {
      return Refused;
    }
    if FromStr(value).Some? {
      return Parsed(Obj(Cons(Member(key, FromStr(value).value), Nil)));
    }
    var several := HasTopLevelComma(value);
    if several || value[0] == QUOTE {
      return Refused;
    }
    return Parsed(Obj(Cons(Member(key, Str(value)), Nil)));
  }

  /** Lenient parsing extends strict parsing. */
  lemma StrictStays(raw: Text)
    requires FromStr(raw).Some? && Ascii(raw)
    ensures LenientParseObject(raw) == Parsed(FromStr(raw).value)
  {
    QuoteFixesStrict(raw);
  }

  // ---- The slice that is out of range ----

  lemma {:induction false} NeverClosed(u: Text)
    requires QUOTE !in u
    ensures ScanBody(u).None? && QUOTE !in EscapeBody(u)
    decreases |u|
  {
    if u != "" {
      if u[0] == BACKSLASH && |u| > 1 {
        NeverClosed(u[2..]);
        if !IsValidEscape(u[1]) { NeverClosed(u[1..]); }
      } else {
        NeverClosed(u[1..]);
      }
    }
  }

  lemma LexUnclosed(u: Text)
    requires ScanBody(u).None?
    ensures FromStr(['{', QUOTE] + u) == None
  {
    var s := ['{', QUOTE] + u;
    assert s[1..] == [QUOTE] + u && s[1..][1..] == u;
    hide ScanBody;
    assert Lex(s[1..]) == None;
    hide Lex;
    assert Lex(s) == None by { LexBrace(s); }
  }

  lemma LexBrace(s: Text)
    requires s != "" && s[0] == '{'
    ensures Lex(s) == Prepend(Punct('{'), Lex(s[1..]))
  {}

  /** The scanners leave `{"` and a string that never ends in place. */
  lemma UnclosedText(u: Text)
    requires Ascii(u) && ScanBody(u).None?
    ensures QuoteBareKeys(['{', QUOTE] + u) == ['{', QUOTE] + u
    ensures EscapeStringControls(['{', QUOTE] + u) == ['{', QUOTE] + EscapeBody(u)
  {
    hide QuoteFrom, EscapeFrom, EscapeBody, ScanBody;
    var s := ['{', QUOTE] + u;
    var t := [QUOTE] + u;
    assert s == ['{'] + t;
    HeadRound('{', t, false, false);
    HeadRound(QUOTE, u, false, true);
    QuoteUnclosed(u, false);
    EscapeUnclosed(u);
    EscapeOneOutside('{', t);
    EscapeEnterString(u);
    assert ['{'] + ([QUOTE] + EscapeBody(u)) == ['{', QUOTE] + EscapeBody(u);
  }

  lemma EscapeEnterString(u: Text)
    ensures EscapeFrom([QUOTE] + u, false) == [QUOTE] + EscapeFrom(u, true)
  {
    assert ([QUOTE] + u)[1..] == u;
  }

  lemma OneQuoteNothingEscaped(u: Text)
    requires QUOTE !in u
    ensures UnEscapeStructuralQuotes(['{', QUOTE] + u) == None
  {
    var s := ['{', QUOTE] + u;
    forall k: nat | k + 1 < |s| ensures !EscapedQuoteAt(s, k) {
      if k > 0 { assert s[k + 1] == u[k - 1]; }
    }
    CollectedEscapes(s);
    hide Collected;
    assert Collected(s) == {};
  }

  /** One quote before the first colon, and none after: every such body panics. */
  lemma LoneQuotePanics(x: Text)
    requires Ascii(x) && QUOTE !in x
    ensures LenientParseObject("{\":" + x + "}") == Panics
  {
    hide QuoteBareKeys, EscapeStringControls, UnEscapeStructuralQuotes, FromStr, EscapeBody;
    var u := ":" + x + "}";
    var s := ['{', QUOTE] + u;
    assert s == "{\":" + x + "}";
    AsciiParts(":" + x, "}");
    AsciiParts(":", x);
    NeverClosed(u);
    UnclosedText(u);
    EscapeUnclosed(u);
    LexUnclosed(u);
    LexUnclosed(EscapeBody(u));
    OneQuoteNothingEscaped(EscapeBody(u));
    assert Stages(s) == None;
    LoneQuoteKey(x);
  }

  lemma LoneQuoteKey(x: Text)
    ensures Inner("{\":" + x + "}").Some? && SplitAtColon(Inner("{\":" + x + "}").value).Some?
    ensures SplitAtColon(Inner("{\":" + x + "}").value).value.0 == [QUOTE]
  {
    var s := "{\":" + x + "}";
    TrimFixes(s);
    var body := "\":" + x;
    assert s[1..|s| - 1] == body;
    TrimEndKeeps(body, 1);
    var inner := Trim(body);
    assert inner[0] == QUOTE && inner[1] == ':';
    assert OccursAt(inner, ":", 1) && !OccursAt(inner, ":", 0);
    assert inner[..1] == [QUOTE];
    TrimFixes([QUOTE]);
  }

  // ---- A single value without quotes ----

  /** Words without quotes, brackets or commas, that are no JSON value. */
  predicate BareWords(w: Text) {
    && w != "" && Trimmed(w) && Ascii(w) && FromStr(w) == None
    && forall i :: 0 <= i < |w| ==> w[i] != QUOTE && (IsPunct(w[i]) ==> w[i] == ':')
  }

  predicate WordsAndColons(ts: seq<Lexeme>) {
    forall i :: 0 <= i < |ts| ==> ts[i].Word? || ts[i] == Punct(':')
  }

  /** One sequence of lexemes after the other. */
  function Join(a: Option<seq<Lexeme>>, b: Option<seq<Lexeme>>): Option<seq<Lexeme>> {
    if a.Some? && b.Some? then Some(a.value + b.value) else None
  }

  lemma PrependJoin(x: Lexeme, a: Option<seq<Lexeme>>, b: Option<seq<Lexeme>>)
    ensures Join(Prepend(x, a), b) == Prepend(x, Join(a, b))
  {
    if a.Some? && b.Some? { assert [x] + a.value + b.value == [x] + (a.value + b.value); }
  }

  predicate EndsWord(rest: Text) {
    rest != "" && (rest[0] == '}' || rest[0] == ',')
  }

  /** Text without quotes or punctuation other than colons lexes to words and colons, whatever follows it. */
  lemma {:induction false} LexBare(w: Text, rest: Text)
    requires forall i :: 0 <= i < |w| ==> w[i] != QUOTE && (IsPunct(w[i]) ==> w[i] == ':')
    requires EndsWord(rest)
    ensures Lex(w + rest) == Join(Lex(w), Lex(rest)) && (Lex(w).Some? ==> WordsAndColons(Lex(w).value))
    decreases |w|
  {
    hide Lex, WordRun, Join, IsWordChar, IsPunct;
    if w == "" {
      LexNothing(Lex(rest));
      assert w + rest == rest;
    } else if IsJsonSpace(w[0]) {
      LexBare(w[1..], rest);
      assert w == [w[0]] + w[1..] && w + rest == [w[0]] + (w[1..] + rest);
      LexSpace([w[0]], w[1..]);
      LexSpace([w[0]], w[1..] + rest);
    } else if IsPunct(w[0]) {
      LexBare(w[1..], rest);
      assert w == [w[0]] + w[1..] && w + rest == [w[0]] + (w[1..] + rest);
      LexOne(Punct(':'), w[1..]);
      LexOne(Punct(':'), w[1..] + rest);
      PrependJoin(Punct(':'), Lex(w[1..]), Lex(rest));
      if Lex(w[1..]).Some? { assert Lex(w).value == [Punct(':')] + Lex(w[1..]).value; }
    } else if IsWordChar(w[0]) {
      LexBareWord(w, rest);
    } else {
      LexBad(w);
      LexBad(w + rest);
      JoinNone(Lex(rest));
    }
  }

  lemma LexNothing(b: Option<seq<Lexeme>>)
    ensures Lex("") == Some([]) && Join(Lex(""), b) == b
  {
    if b.Some? { assert [] + b.value == b.value; }
  }

  lemma JoinNone(b: Option<seq<Lexeme>>)
    ensures Join(None, b) == None
  {}

  lemma LexBad(s: Text)
    requires s != "" && !IsJsonSpace(s[0]) && !IsPunct(s[0]) && s[0] != QUOTE && !IsWordChar(s[0])
    ensures Lex(s) == None
  {}

  lemma {:induction false} LexBareWord(w: Text, rest: Text)
    requires w != "" && IsWordChar(w[0])
    requires forall i :: 0 <= i < |w| ==> w[i] != QUOTE && (IsPunct(w[i]) ==> w[i] == ':')
    requires EndsWord(rest)
    ensures Lex(w + rest) == Join(Lex(w), Lex(rest)) && (Lex(w).Some? ==> WordsAndColons(Lex(w).value))
    decreases |w|, 0
  {
    hide Lex, WordRun, Join;
    var v := WordRun(w);
    WordRunStarts(w);
    var t := w[|v|..];
    LexBare(t, rest);
    assert w + rest == v + (t + rest) && w == v + t;
    LexOne(Word(v), t);
    LexOne(Word(v), t + rest);
    PrependJoin(Word(v), Lex(t), Lex(rest));
    if Lex(t).Some? { assert Lex(w).value == [Word(v)] + Lex(t).value; }
  }

  lemma {:induction false} LexNotEmpty(w: Text)
    requires w != "" && !IsSpace(w[0])
    ensures Lex(w) != Some([])
  {}

  predicate EndsBare(tail: seq<Lexeme>) {
    tail != [] && (tail[0] == Punct('}') || tail[0] == Punct(','))
  }

  /** Such lexemes before a brace or a comma have an accepted shape only as one scalar. */
  lemma BareShape(ts: seq<Lexeme>, tail: seq<Lexeme>)
    requires WordsAndColons(ts) && ts != [] && EndsBare(tail) && WellShaped(ts + tail, false)
    ensures |ts| == 1 && ts[0].Word? && IsScalarWord(ts[0].text)
  {
    hide IsScalarWord, DecodeBody;
    var all := ts + tail;
    assert all[0] == ts[0] && all[1..] == ts[1..] + tail;
  }

  /** Lexemes of an accepted shape do not hold such words, after these first lexemes. */
  lemma BareIsNoJson(head: seq<Lexeme>, ts: seq<Lexeme>, tail: seq<Lexeme>)
    requires WordsAndColons(ts) && ts != [] && ParseAll(ts) == None && EndsBare(tail)
    requires WellShaped(head + (ts + tail), false) ==> WellShaped(ts + tail, false)
    ensures ParseAll(head + (ts + tail)) == None
  {
    assert |ts| == 1 ==> ts == [ts[0]];
    if ParseAll(head + (ts + tail)).Some? {
      AcceptedShape(head + (ts + tail));
      hide ParseAll, ParseValue, IsScalarWord, DecodeBody;
      BareShape(ts, tail);
      OneWordParses(ts[0].text);
    }
  }

  lemma ObjectShape(key: Text, tail: seq<Lexeme>)
    ensures WellShaped([Punct('{'), Lit(key), Punct(':')] + tail, false) ==> WellShaped(tail, false)
  {
    hide IsScalarWord, DecodeBody;
    var all := [Punct('{'), Lit(key), Punct(':')] + tail;
    var t := all[1..];
    assert t[2..] == tail && t[0] == Lit(key) && t[1] == Punct(':') && |t| > 1;
    assert WellShaped(all, false) ==> WellShaped(t, true);
  }

  lemma OneWordParses(w: Text)
    requires IsScalarWord(w)
    ensures ParseAll([Word(w)]) == Some(Scalar(w))
  {}

  lemma SpaceIsSpace(ws: Text)
    requires AllSpace(ws)
    ensures AllAsciiSpace(ws) && forall i :: 0 <= i < |ws| ==> IsSpace(ws[i])
  {}

  /** The text of a single key, its colon and a value, in braces. */
  function Single(key: Text, ws: Text, ws': Text, w: Text): Text {
    "{" + ([QUOTE] + key + [QUOTE] + (ws + [':'] + ws' + w + "}"))
  }

  lemma LexHead(key: Text, ws: Text, rest: Text)
    requires IsIdent(key) && AllSpace(ws)
    ensures Lex("{" + ([QUOTE] + key + [QUOTE] + (ws + ([':'] + rest))))
         == Prepend(Punct('{'), Prepend(Lit(key), Prepend(Punct(':'), Lex(rest))))
  {
    IdentBalanced(key);
    hide Lex, IsIdent, Balanced;
    var t := ws + ([':'] + rest);
    LexOne(Punct('{'), [QUOTE] + key + [QUOTE] + t);
    LexOne(Lit(key), t);
    LexSpace(ws, [':'] + rest);
    LexOne(Punct(':'), rest);
  }

  /** The text of a key, its colon and a value that begins with such words. */
  function Opening(key: Text, ws: Text, ws': Text, w: Text, rest: Text): Text {
    "{" + ([QUOTE] + key + [QUOTE] + (ws + ([':'] + (ws' + (w + rest)))))
  }

  /** No text that begins so is JSON. */
  lemma OpeningIsNoJson(key: Text, ws: Text, ws': Text, w: Text, rest: Text)
    requires IsIdent(key) && AllSpace(ws) && AllSpace(ws') && BareWords(w) && EndsWord(rest)
    ensures FromStr(Opening(key, ws, ws', w, rest)) == None
  {
    hide Lex, IsIdent, ParseAll, WellShaped;
    LexHead(key, ws, ws' + (w + rest));
    LexSpace(ws', w + rest);
    LexBare(w, rest);
    if Lex(w).Some? && Lex(rest).Some? {
      var ts, tail := Lex(w).value, Lex(rest).value;
      LexNotEmpty(w);
      LexEnd(rest);
      ObjectShape(key, ts + tail);
      BareIsNoJson([Punct('{'), Lit(key), Punct(':')], ts, tail);
      ThreeBefore(Punct('{'), Lit(key), Punct(':'), ts + tail);
    }
  }

  lemma LexEnd(rest: Text)
    requires EndsWord(rest) && Lex(rest).Some?
    ensures EndsBare(Lex(rest).value)
  {
    hide ScanBody, WordRun;
  }

  lemma LexSingle(key: Text, ws: Text, ws': Text, w: Text)
    requires IsIdent(key) && AllSpace(ws) && AllSpace(ws') && BareWords(w)
    ensures FromStr(Single(key, ws, ws', w)) == None
  {
    hide FromStr, IsIdent;
    OpeningIsNoJson(key, ws, ws', w, "}");
    SingleGrouped(key, ws, ws', w);
  }

  lemma SingleGrouped(key: Text, ws: Text, ws': Text, w: Text)
    ensures Single(key, ws, ws', w) == "{" + ([QUOTE] + key + [QUOTE] + (ws + ([':'] + (ws' + (w + "}")))))
  {
    assert ws + [':'] + ws' + w + "}" == ws + ([':'] + (ws' + (w + "}")));
  }

  lemma ThreeBefore(x: Lexeme, y: Lexeme, z: Lexeme, ts: seq<Lexeme>)
    ensures Prepend(x, Prepend(y, Prepend(z, Some(ts)))) == Some([x, y, z] + ts)
  {
    assert [x] + ([y] + ([z] + ts)) == [x, y, z] + ts;
  }

  lemma QuoteSingle(key: Text, ws: Text, sep: char, ws': Text, w: Text)
    requires IsIdent(key) && AllSpace(ws) && AllSpace(ws') && BareWords(w) && (sep == ':' || sep == '=')
    ensures QuoteBareKeys("{" + key + ws + [sep] + ws' + w + "}") == Single(key, ws, ws', w)
  {
    SpaceIsSpace(ws);
    BarePlain(ws', w);
    BareGrouped(key, ws, sep, ws', w);
    QuoteThenPlain(key, ws, sep, ws' + w + "}");
  }

  lemma BareGrouped(key: Text, ws: Text, sep: char, ws': Text, w: Text)
    ensures "{" + key + ws + [sep] + ws' + w + "}" == ['{'] + (key + ws + [sep] + (ws' + w + "}"))
    ensures ['{'] + ([QUOTE] + key + [QUOTE] + ws + [':'] + (ws' + w + "}")) == Single(key, ws, ws', w)
  {}

  lemma QuoteThenPlain(key: Text, ws: Text, sep: char, rest: Text)
    requires IsIdent(key) && AllAsciiSpace(ws) && (sep == ':' || sep == '=') && forall i :: 0 <= i < |rest| ==>
             IsPlain(rest[i])
    ensures QuoteBareKeys(['{'] + (key + ws + [sep] + rest)) == ['{'] + ([QUOTE] + key + [QUOTE] + ws + [':'] + rest)
  {
    hide QuoteFrom, IsIdent, IsPlain, AllAsciiSpace;
    assert '{' < 128 as char && !LooksAhead('{', false, false);
    HeadRound('{', key + ws + [sep] + rest, false, false);
    QuoteBareKey(key, ws, sep, rest);
    QuotePlain(rest, "");
    QuoteEmpty();
    assert rest + "" == rest;
  }

  lemma BarePlain(ws: Text, w: Text)
    requires AllSpace(ws) && BareWords(w)
    ensures var r := ws + w + "}"; Ascii(r) && QUOTE !in r && forall i :: 0 <= i < |r| ==> IsPlain(r[i])
  {
    hide FromStr, Trimmed;
    var r := ws + w + "}";
    forall i | 0 <= i < |r| ensures IsPlain(r[i]) {
      if i < |ws| { assert r[i] == ws[i]; }
      else if i < |ws| + |w| { assert r[i] == w[i - |ws|]; }
    }
  }

  lemma EscapeSingle(key: Text, ws: Text, ws': Text, w: Text)
    requires IsIdent(key) && AllSpace(ws) && AllSpace(ws') && BareWords(w)
    ensures EscapeStringControls(Single(key, ws, ws', w)) == Single(key, ws, ws', w)
    ensures UnEscapeStructuralQuotes(Single(key, ws, ws', w)) == None
  {
    var tail := ws' + w + "}";
    BarePlain(ws', w);
    BarePlain(ws, w);
    var rest := ws + [':'] + tail;
    var s := "{" + ([QUOTE] + key + [QUOTE] + rest);
    assert s == Single(key, ws, ws', w) by { assert rest == ws + [':'] + ws' + w + "}"; }
    assert QUOTE !in rest && Ascii(rest) by { SpaceIsSpace(ws); AsciiParts(ws + [':'], tail); AsciiParts(ws, [':']); }
    IdentStays(key);
    hide EscapeFrom, EscapeBody, IsIdent, AllSpace, BareWords;
    EscapeOutside("{", [QUOTE] + key + [QUOTE] + rest);
    EscapeWholeLiteral(key, rest);
    EscapeOutside(rest, "");
    EscapeNothing();
    assert rest + "" == rest;
    SingleNothingEscaped(key, rest);
  }

  lemma IdentStays(key: Text)
    requires IsIdent(key)
    ensures Balanced(key) && Ascii(key) && EscapeBody(key) == key && QUOTE !in key && BACKSLASH !in key && ':' !in key
    ensures key != "" && Trimmed(key)
  {
    IdentBalanced(key);
    EscapePlainStays(key, "");
    assert key + "" == key;
    assert EscapeBody("") == "";
  }

  lemma SingleNothingEscaped(key: Text, rest: Text)
    requires QUOTE !in key && BACKSLASH !in key && QUOTE !in rest && key != ""
    ensures UnEscapeStructuralQuotes("{" + ([QUOTE] + key + [QUOTE] + rest)) == None
  {
    var s := "{" + ([QUOTE] + key + [QUOTE] + rest);
    forall k: nat | k + 1 < |s| ensures !EscapedQuoteAt(s, k) {
      if 2 <= k + 1 < 2 + |key| { assert s[k + 1] == key[k - 1]; }
      else if k + 1 == |key| + 2 { assert s[k] == key[|key| - 1]; }
      else if k + 1 > |key| + 2 { assert s[k + 1] == rest[k - |key| - 2]; }
    }
    CollectedEscapes(s);
    hide Collected;
    assert Collected(s) == {};
  }

  lemma {:induction false} NoCommaFound(w: Text, depth: int)
    requires forall i :: 0 <= i < |w| ==> w[i] != QUOTE && w[i] != ','
    ensures !CommaFrom(w, depth, false)
  {
    if w != "" {
      var d := if w[0] == '[' || w[0] == '{' then depth + 1 else if w[0] == ']' || w[0] == '}' then depth - 1
          else depth;
      NoCommaFound(w[1..], d);
    }
  }

  lemma InnerSingle(key: Text, ws: Text, ws': Text, w: Text)
    requires IsIdent(key) && AllSpace(ws) && AllSpace(ws') && BareWords(w)
    ensures Inner(Single(key, ws, ws', w)) == Some([QUOTE] + key + [QUOTE] + ws + [':'] + ws' + w)
  {
    hide FromStr, IsIdent;
    var s := Single(key, ws, ws', w);
    TrimFixes(s);
    var body := [QUOTE] + key + [QUOTE] + ws + [':'] + ws' + w;
    assert s[1..|s| - 1] == body;
    assert body[|body| - 1] == w[|w| - 1];
    TrimFixes(body);
  }

  lemma SplitAt(p: Text, r: Text, part: Text, value: Text)
    requires ':' !in p && Trim(p) == part && Trim(r) == value
    ensures SplitAtColon(p + ":" + r) == Some((part, value))
  {
    hide Trim;
    var body := p + ":" + r;
    FindChar(p, ':', r);
    assert body[..|p|] == p && body[|p| + 1..] == r;
  }

  lemma TrimPart(key: Text, ws: Text)
    requires IsIdent(key) && AllSpace(ws)
    ensures var p := [QUOTE] + key + [QUOTE] + ws; ':' !in p && Trim(p) == [QUOTE] + key + [QUOTE]
  {
    hide IsIdent, Trim, Balanced, EscapeBody;
    IdentStays(key);
    SpaceIsSpace(ws);
    var q := [QUOTE] + key + [QUOTE];
    assert Trimmed(q) && ':' !in q && ':' !in ws;
    hide AllSpace, Trimmed;
    TrimAround("", q, ws);
    assert "" + q + ws == q + ws;
  }

  lemma TrimValue(ws: Text, w: Text)
    requires AllSpace(ws) && Trimmed(w)
    ensures Trim(ws + w) == w
  {
    SpaceIsSpace(ws);
    TrimAround(ws, w, "");
    assert ws + w + "" == ws + w;
  }

  lemma SplitSingle(key: Text, ws: Text, ws': Text, w: Text)
    requires IsIdent(key) && AllSpace(ws) && AllSpace(ws') && BareWords(w)
    ensures SplitAtColon([QUOTE] + key + [QUOTE] + ws + [':'] + ws' + w) == Some(([QUOTE] + key + [QUOTE], w))
  {
    TrimPart(key, ws);
    TrimValue(ws', w);
    hide FromStr, IsIdent, AllSpace, Trim, SplitAtColon;
    var p := [QUOTE] + key + [QUOTE] + ws;
    SplitAt(p, ws' + w, [QUOTE] + key + [QUOTE], w);
    ConcatAssociative(p + [':'], ws', w);
  }

  lemma StagesFail(raw: Text, quoted: Text)
    requires QuoteBareKeys(raw) == quoted && FromStr(quoted) == None
    requires EscapeStringControls(quoted) == quoted && UnEscapeStructuralQuotes(quoted) == None
    ensures LenientParseObject(raw) == Rescue(quoted)
  {
    hide QuoteBareKeys, EscapeStringControls, UnEscapeStructuralQuotes, FromStr, Rescue;
  }

  lemma RescueSingle(quoted: Text, inner: Text, key: Text, w: Text)
    requires Inner(quoted) == Some(inner) && SplitAtColon(inner) == Some(([QUOTE] + key + [QUOTE], w)) && QUOTE !in key
    requires w != "" && w[0] != QUOTE && FromStr(w) == None && !CommaFrom(w, 0, false)
    ensures Rescue(quoted) == Parsed(Obj(Cons(Member(key, Str(w)), Nil)))
  {
    hide FromStr, Inner, SplitAtColon, CommaFrom;
    var q := [QUOTE] + key + [QUOTE];
    assert q[1..|q| - 1] == key;
  }

  /**
   * A single key with words for its value, with `:` or `=` and any white space between them: the
   * words become the value.
   */
  lemma BareValueRecovered(key: Text, ws: Text, sep: char, ws': Text, w: Text)
    requires IsIdent(key) && AllSpace(ws) && AllSpace(ws') && BareWords(w) && (sep == ':' || sep == '=')
    ensures LenientParseObject("{" + key + ws + [sep] + ws' + w + "}") == Parsed(Obj(Cons(Member(key, Str(w)), Nil)))
  {
    hide QuoteBareKeys, EscapeStringControls, UnEscapeStructuralQuotes, FromStr, Single, Inner, SplitAtColon,
         CommaFrom, Trimmed;
    hide Rescue, LenientParseObject, IsIdent, AllSpace;
    QuoteSingle(key, ws, sep, ws', w);
    LexSingle(key, ws, ws', w);
    EscapeSingle(key, ws, ws', w);
    StagesFail("{" + key + ws + [sep] + ws' + w + "}", Single(key, ws, ws', w));
    InnerSingle(key, ws, ws', w);
    SplitSingle(key, ws, ws', w);
    IdentStays(key);
    NoCommaFound(w, 0);
    RescueSingle(Single(key, ws, ws', w), [QUOTE] + key + [QUOTE] + ws + [':'] + ws' + w, key, w);
  }

  // ---- What a top-level comma is ----

  /** Bracket depth after what lies outside strings. */
  function Depth(gs: seq<Segment>): int {
    if gs == [] then 0
    else
      Depth(gs[..|gs| - 1]) +
      if gs[|gs| - 1] == Outside('[') || gs[|gs| - 1] == Outside('{') then 1
      else if gs[|gs| - 1] == Outside(']') || gs[|gs| - 1] == Outside('}') then -1
      else 0
  }

  /** A comma outside strings where the brackets before it, from depth `d`, balance out. */
  predicate CommaAt(gs: seq<Segment>, d: int, i: nat)
    requires i < |gs|
  {
    gs[i] == Outside(',') && d + Depth(gs[..i]) == 0
  }

  predicate HasComma(gs: seq<Segment>, d: int) {
    exists i :: 0 <= i < |gs| && CommaAt(gs, d, i)
  }

  lemma {:induction false} CommaAfterLiteral(b: Text, rest: Text, d: int)
    requires Balanced(b)
    ensures CommaFrom(b + [QUOTE] + rest, d, true) == CommaFrom(rest, d, false)
    decreases |b|
  {
    var s := b + [QUOTE] + rest;
    if b == "" {
      assert s[1..] == rest;
    } else {
      var n := if b[0] == BACKSLASH then 2 else 1;
      assert s[n..] == b[n..] + [QUOTE] + rest;
      CommaAfterLiteral(b[n..], rest, d);
    }
  }

  lemma {:induction false} NoCommaUnclosed(u: Text, d: int)
    requires ScanBody(u).None?
    ensures !CommaFrom(u, d, true)
    decreases |u|
  {
    if u != "" {
      if u[0] == BACKSLASH && |u| > 1 { NoCommaUnclosed(u[2..], d); }
      else if u[0] != BACKSLASH { NoCommaUnclosed(u[1..], d); }
      else { assert u[1..] == ""; }
    }
  }

  lemma {:induction false} DepthCons(g: Segment, gs: seq<Segment>)
    ensures Depth([g] + gs) == Depth([g]) + Depth(gs)
    decreases |gs|
  {
    if gs == [] {
      assert [g] + gs == [g] && Depth([]) == 0;
    } else {
      DepthCons(g, gs[..|gs| - 1]);
      assert ([g] + gs)[..|gs|] == [g] + gs[..|gs| - 1];
    }
  }

  lemma DepthOne(g: Segment)
    ensures Depth([g]) == if g == Outside('[') || g == Outside('{') then 1
                          else if g == Outside(']') || g == Outside('}') then -1 else 0
  {
    assert [g][..0] == [] && Depth([]) == 0;
  }

  lemma HasCommaCons(g: Segment, gs: seq<Segment>, d: int)
    ensures HasComma([g] + gs, d) <==> (g == Outside(',') && d == 0) || HasComma(gs, d + Depth([g]))
  {
    var all := [g] + gs;
    CommaFirst(g, gs, d);
    hide Depth, CommaAt;
    if HasComma(all, d) {
      var i: nat :| i < |all| && CommaAt(all, d, i);
      if i > 0 { CommaShift(g, gs, d, i - 1); }
    }
    if HasComma(gs, d + Depth([g])) {
      var i: nat :| i < |gs| && CommaAt(gs, d + Depth([g]), i);
      CommaShift(g, gs, d, i);
    }
  }

  lemma CommaFirst(g: Segment, gs: seq<Segment>, d: int)
    ensures CommaAt([g] + gs, d, 0) <==> g == Outside(',') && d == 0
  {
    assert ([g] + gs)[..0] == [] && Depth([]) == 0;
  }

  lemma CommaShift(g: Segment, gs: seq<Segment>, d: int, i: nat)
    requires i < |gs|
    ensures CommaAt([g] + gs, d, i + 1) <==> CommaAt(gs, d + Depth([g]), i)
  {
    assert ([g] + gs)[..i + 1] == [g] + gs[..i];
    DepthCons(g, gs[..i]);
    hide Depth;
  }

  /** The scan finds a comma exactly when one lies outside strings at depth `d` counted back to zero. */
  lemma {:induction false} CommaMeaning(s: Text, d: int)
    ensures CommaFrom(s, d, false) <==> HasComma(Segments(s), d)
    decreases |s|
  {
    hide Depth, HasComma, ScanBody;
    if s == "" {
      assert !HasComma([], d) by { NothingHasComma(d); }
    } else if s[0] != QUOTE {
      var g := Outside(s[0]);
      DepthOne(g);
      CommaMeaning(s[1..], d + Depth([g]));
      HasCommaCons(g, Segments(s[1..]), d);
    } else if ScanBody(s[1..]).Some? {
      var b, rest := ScanBody(s[1..]).value.0, ScanBody(s[1..]).value.1;
      ScannedBalanced(s[1..]);
      CommaAfterLiteral(b, rest, d);
      DepthOne(Closed(b));
      CommaMeaning(rest, d);
      HasCommaCons(Closed(b), Segments(rest), d);
    } else {
      NoCommaUnclosed(s[1..], d);
      DepthOne(Unclosed(s[1..]));
      HasCommaCons(Unclosed(s[1..]), [], d);
      NothingHasComma(d);
      assert [Unclosed(s[1..])] + [] == [Unclosed(s[1..])];
    }
  }

  lemma NothingHasComma(d: int)
    ensures !HasComma([], d)
  {}
}
