// What the recovery refuses, and where it guesses: several bare values, an
// unclosed bracket, an incomplete unicode escape.
module LenientRefusals {
  import opened Texts
  import opened Json
  import opened JsonText
  import opened JsonScan
  import opened EscapeLaws
  import opened QuoteLaws
  import opened StructuralQuotes
  import opened JsonLenient
  import opened LenientPanics
  import opened EveryDrift

  // ---- A bare value and a comma ----

  /** The part of an opening up to and including its words. */
  function Head(key: Text, ws: Text, ws': Text, w: Text): Text {
    "{" + ([QUOTE] + key + [QUOTE] + (ws + ([':'] + (ws' + w))))
  }

  lemma OpeningIsHead(key: Text, ws: Text, ws': Text, w: Text, rest: Text)
    ensures Opening(key, ws, ws', w, rest) == Head(key, ws, ws', w) + rest
  {
    ConcatAssociative(ws', w, rest);
    ConcatAssociative([':'], ws' + w, rest);
    ConcatAssociative(ws, [':'] + (ws' + w), rest);
    ConcatAssociative([QUOTE] + key + [QUOTE], ws + ([':'] + (ws' + w)), rest);
    ConcatAssociative("{", [QUOTE] + key + [QUOTE] + (ws + ([':'] + (ws' + w))), rest);
  }

  /** Quoting leaves the words and goes on after them. */
  lemma QuoteOpening(key: Text, ws: Text, sep: char, ws': Text, w: Text, rest: Text)
    requires IsIdent(key) && AllSpace(ws) && AllSpace(ws') && BareWords(w) && (sep == ':' || sep == '=')
    ensures QuoteBareKeys("{" + key + ws + [sep] + ws' + w + rest)
            == Opening(key, ws, ws', w, QuoteFrom(rest, false, false))
  {
    hide QuoteFrom, IsIdent, BareWords;
    SpaceIsSpace(ws);
    WordsPlain(ws', w);
    var tail := ws' + w + rest;
    assert "{" + key + ws + [sep] + ws' + w + rest == ['{'] + (key + ws + [sep] + tail);
    HeadRound('{', key + ws + [sep] + tail, false, false) by { assert !LooksAhead('{', false, false); }
    QuoteBareKey(key, ws, sep, tail);
    QuotePlain(ws' + w, rest);
    OpeningRegroup(key, ws, ws', w, QuoteFrom(rest, false, false));
  }

  lemma OpeningRegroup(key: Text, ws: Text, ws': Text, w: Text, rest: Text)
    ensures ['{'] + ([QUOTE] + key + [QUOTE] + ws + [':'] + (ws' + w + rest)) == Opening(key, ws, ws', w, rest)
  {
    ConcatAssociative(ws', w, rest);
    ConcatAssociative([QUOTE] + key + [QUOTE] + ws, [':'], ws' + (w + rest));
    ConcatAssociative([QUOTE] + key + [QUOTE], ws, [':'] + (ws' + (w + rest)));
  }

  lemma WordsPlain(ws: Text, w: Text)
    requires AllSpace(ws) && BareWords(w)
    ensures var r := ws + w; Ascii(r) && QUOTE !in r && forall i :: 0 <= i < |r| ==> IsPlain(r[i])
  {
    hide FromStr, Trimmed;
    var r := ws + w;
    forall i | 0 <= i < |r| ensures IsPlain(r[i]) {
      if i < |ws| { assert r[i] == ws[i]; } else { assert r[i] == w[i - |ws|]; }
    }
  }

  lemma EscapeOpening(key: Text, ws: Text, ws': Text, w: Text, rest: Text)
    requires IsIdent(key) && AllSpace(ws) && AllSpace(ws') && BareWords(w)
    ensures EscapeStringControls(Opening(key, ws, ws', w, rest)) == Opening(key, ws, ws', w, EscapeFrom(rest, false))
  {
    hide EscapeFrom, EscapeBody, IsIdent, AllSpace, BareWords;
    var mid := ws + ([':'] + (ws' + w));
    WordsPlain(ws', w);
    BetweenPlain(ws);
    AsciiParts(ws, [':'] + (ws' + w));
    AsciiParts([':'], ws' + w);
    IdentStays(key);
    var q := [QUOTE] + key + [QUOTE];
    EscapeOutside("{", q + (mid + rest));
    EscapeWholeLiteral(key, mid + rest);
    EscapeOutside(mid, rest);
    MidRegroup(q, ws, ws', w, rest);
    MidRegroup(q, ws, ws', w, EscapeFrom(rest, false));
  }

  lemma BetweenPlain(ws: Text)
    requires AllSpace(ws)
    ensures Ascii(ws) && QUOTE !in ws
  {}

  lemma MidRegroup(q: Text, ws: Text, ws': Text, w: Text, rest: Text)
    ensures q + (ws + ([':'] + (ws' + w)) + rest) == q + (ws + ([':'] + (ws' + (w + rest))))
  {
    ConcatAssociative(ws', w, rest);
    ConcatAssociative([':'], ws' + w, rest);
    ConcatAssociative(ws, [':'] + (ws' + w), rest);
  }

  /** A character that is copied when no position before `n` is dropped. */
  lemma {:induction false} WithoutCopies(s: Text, ks: set<nat>, i: nat, n: nat)
    requires i <= n <= |s| && forall k :: i <= k < n ==> k !in ks
    ensures Without(s, ks, i) == s[i..n] + Without(s, ks, n)
    decreases n - i
  {
    hide Without;
    if i == n {
      assert s[i..n] == [] && [] + Without(s, ks, n) == Without(s, ks, n);
    } else {
      KeepsAt(s, ks, i);
      WithoutCopies(s, ks, i + 1, n);
      assert s[i..n] == [s[i]] + s[i + 1..n];
    }
  }

  /** No quote of an opening is escaped. */
  lemma HeadUnescaped(key: Text, ws: Text, ws': Text, w: Text, rest: Text, k: nat)
    requires IsIdent(key) && AllSpace(ws) && AllSpace(ws') && BareWords(w) && EndsWord(rest)
    requires k <= |Head(key, ws, ws', w)|
    ensures !EscapedQuoteAt(Head(key, ws, ws', w) + rest, k)
  {
    IdentStays(key);
    WordsPlain(ws', w);
    BetweenPlain(ws);
    hide IsIdent, BareWords, AllSpace;
    var mid := ws + ([':'] + (ws' + w));
    var h := Head(key, ws, ws', w);
    var s := h + rest;
    assert h == "{" + ([QUOTE] + key + [QUOTE] + mid);
    if k + 1 < 2 + |key| {
      assert s[k + 1] == h[k + 1];
      if k > 0 { assert h[k + 1] == key[k - 1]; } else { assert s[0] == '{'; }
    } else if k + 1 == 2 + |key| {
      assert s[k] == h[k] == key[|key| - 1];
    } else if k + 1 < |h| {
      assert s[k + 1] == h[k + 1] == mid[k - |key| - 2];
    } else if k + 1 == |h| {
      assert s[k + 1] == rest[0];
    } else {
      assert s[k] == rest[0];
    }
  }

  /** The structural rewrite leaves an opening in place. */
  lemma RewriteOpening(key: Text, ws: Text, ws': Text, w: Text, rest: Text) returns (rest': Text)
    requires IsIdent(key) && AllSpace(ws) && AllSpace(ws') && BareWords(w) && EndsWord(rest)
    ensures Rewritten(Opening(key, ws, ws', w, rest)) == Opening(key, ws, ws', w, rest') && EndsWord(rest')
  {
    hide IsIdent, AllSpace, BareWords, Collected, Without;
    var h := Head(key, ws, ws', w);
    var s := h + rest;
    var ks := Collected(s);
    CollectedEscapes(s);
    forall k | 0 <= k <= |h| ensures k !in ks {
      HeadUnescaped(key, ws, ws', w, rest, k);
    }
    WithoutCopies(s, ks, 0, |h|);
    assert s[0..|h|] == h;
    rest' := Without(s, ks, |h|);
    KeepsAt(s, ks, |h|);
    assert s[|h|] == rest[0];
    OpeningIsHead(key, ws, ws', w, rest);
    OpeningIsHead(key, ws, ws', w, rest');
  }

  /** No stage parses a text that begins with a key and such words, whatever follows. */
  lemma OpeningStages(raw: Text, key: Text, ws: Text, ws': Text, w: Text, rest: Text)
    requires IsIdent(key) && AllSpace(ws) && AllSpace(ws') && BareWords(w) && EndsWord(rest)
    requires QuoteBareKeys(raw) == Opening(key, ws, ws', w, rest)
    requires EndsWord(EscapeFrom(rest, false))
    ensures LenientParseObject(raw) == Rescue(QuoteBareKeys(raw))
  {
    hide IsIdent, AllSpace, BareWords, EndsWord, QuoteBareKeys, EscapeFrom, FromStr, Rescue, Collected, Rewritten,
         Opening;
    var e := EscapeFrom(rest, false);
    EscapeOpening(key, ws, ws', w, rest);
    OpeningIsNoJson(key, ws, ws', w, rest);
    OpeningIsNoJson(key, ws, ws', w, e);
    var rest' := RewriteOpening(key, ws, ws', w, e);
    OpeningIsNoJson(key, ws, ws', w, rest');
  }

  lemma {:induction false} CommaSkips(w: Text, y: Text, d: int)
    requires forall i :: 0 <= i < |w| ==> w[i] != QUOTE && (IsPunct(w[i]) ==> w[i] == ':')
    ensures CommaFrom(w + y, d, false) == CommaFrom(y, d, false)
  {
    if w == "" {
      assert w + y == y;
    } else {
      assert (w + y)[1..] == w[1..] + y;
      CommaSkips(w[1..], y, d);
    }
  }

  /** Words and a comma are no JSON value. */
  lemma WordsThenComma(w: Text, y: Text)
    requires BareWords(w) && y != "" && y[0] == ','
    ensures FromStr(w + y) == None && CommaFrom(w + y, 0, false)
  {
    CommaSkips(w, y, 0);
    LexBare(w, y);
    hide Lex, ParseAll, WellShaped;
    if Lex(w).Some? && Lex(y).Some? {
      var ts, tail := Lex(w).value, Lex(y).value;
      LexNotEmpty(w);
      LexEnd(y);
      assert [] + (ts + tail) == ts + tail;
      BareIsNoJson([], ts, tail);
    }
  }

  /** The rescue of a text that holds a key, words, a comma and more. */
  lemma RescueSeveral(key: Text, ws: Text, ws': Text, w: Text, y: Text, d: Text)
    requires IsIdent(key) && AllSpace(ws) && AllSpace(ws') && BareWords(w) && y != "" && y[0] == ',' && OnlySpace(d)
    ensures Rescue(Opening(key, ws, ws', w, y + (['}'] + d))) == Refused
  {
    hide Trim, TrimEnd, FromStr, CommaFrom, IsIdent, AllSpace, BareWords, SplitAtColon;
    var value := w + TrimEnd(y);
    InnerSeveral(key, ws, ws', w, y, d);
    CommaStays(y);
    ValueSeveral(key, ws, ws', w, TrimEnd(y));
    WordsThenComma(w, TrimEnd(y));
    IdentStays(key);
    var part := [QUOTE] + key + [QUOTE];
    assert part[1..|part| - 1] == key;
  }

  lemma CommaStays(y: Text)
    requires y != "" && y[0] == ','
    ensures TrimEnd(y) != "" && TrimEnd(y)[0] == ',' && !IsSpace(TrimEnd(y)[|TrimEnd(y)| - 1])
  {
    TrimEndKeeps(y, 0);
    assert TrimEnd(y) <= y;
  }

  lemma InnerSeveral(key: Text, ws: Text, ws': Text, w: Text, y: Text, d: Text)
    requires IsIdent(key) && AllSpace(ws) && AllSpace(ws') && BareWords(w) && y != "" && y[0] == ',' && OnlySpace(d)
    ensures Inner(Opening(key, ws, ws', w, y + (['}'] + d)))
         == Some([QUOTE] + key + [QUOTE] + ws + ":" + (ws' + (w + TrimEnd(y))))
  {
    hide Trim, TrimEnd, IsIdent, AllSpace, BareWords, Inner, Opening, OnlySpace;
    var body := [QUOTE] + key + [QUOTE] + ws + ":" + (ws' + w);
    SeveralRegroup(key, ws, ws', w, y, d);
    InnerTrimmed(body + y, d);
    TrimStarted(body, y);
    ConcatAssociative([QUOTE] + key + [QUOTE] + ws + ":", ws' + w, TrimEnd(y));
    ConcatAssociative(ws', w, TrimEnd(y));
  }

  lemma InnerTrimmed(body: Text, d: Text)
    requires OnlySpace(d)
    ensures Inner("{" + body + "}" + d) == Some(Trim(body))
  {
    var t := "{" + body + "}";
    NoSpaces();
    TrimAround("", t, d);
    assert "" + t + d == t + d && t[1..|t| - 1] == body && t[|t| - 1] == '}';
    hide Trim;
  }

  lemma TrimStarted(body: Text, y: Text)
    requires body != "" && body[0] == QUOTE && y != "" && y[0] == ','
    ensures Trim(body + y) == body + TrimEnd(y)
  {
    CommaStays(y);
    TrimEndConcat(body, y);
    hide TrimEnd;
    TrimStartSkips("", body + y);
    assert "" + (body + y) == body + y;
  }

  lemma SeveralRegroup(key: Text, ws: Text, ws': Text, w: Text, y: Text, d: Text)
    ensures Opening(key, ws, ws', w, y + (['}'] + d))
         == "{" + ([QUOTE] + key + [QUOTE] + ws + ":" + (ws' + w) + y) + "}" + d
  {
    var rest := y + (['}'] + d);
    OpeningIsHead(key, ws, ws', w, rest);
    var body := [QUOTE] + key + [QUOTE] + ws + ":" + (ws' + w);
    assert Head(key, ws, ws', w) == "{" + body;
    assert "{" + body + (y + (['}'] + d)) == "{" + (body + y) + "}" + d;
  }

  lemma ValueSeveral(key: Text, ws: Text, ws': Text, w: Text, y: Text)
    requires IsIdent(key) && AllSpace(ws) && AllSpace(ws') && BareWords(w) && y != "" && !IsSpace(y[|y| - 1])
    ensures SplitAtColon([QUOTE] + key + [QUOTE] + ws + ":" + (ws' + (w + y))) == Some(([QUOTE] + key + [QUOTE], w + y))
  {
    TrimPart(key, ws);
    TrimValue(ws', w + y);
    SplitAt([QUOTE] + key + [QUOTE] + ws, ws' + (w + y), [QUOTE] + key + [QUOTE], w + y);
  }

  /**
   * Several values are refused rather than guessed: a first key whose value is such words, a comma, and
   * anything after it.
   */
  lemma SeveralRefused(key: Text, ws: Text, sep: char, ws': Text, w: Text, t: Text)
    requires IsIdent(key) && AllSpace(ws) && AllSpace(ws') && BareWords(w) && (sep == ':' || sep == '=') && Ascii(t)
    ensures LenientParseObject("{" + key + ws + [sep] + ws' + w + ("," + t + "}")) == Refused
  {
    hide QuoteFrom, EscapeFrom, IsIdent, AllSpace, BareWords, Rescue, LenientParseObject, Opening;
    var raw := "{" + key + ws + [sep] + ws' + w + ("," + t + "}");
    QuoteOpening(key, ws, sep, ws', w, "," + t + "}");
    var y, d := QuotedTail(t);
    var rest := y + (['}'] + d);
    TailEscaped(rest);
    OpeningStages(raw, key, ws, ws', w, rest);
    RescueSeveral(key, ws, ws', w, y, d);
  }

  lemma TailEscaped(rest: Text)
    requires rest != "" && rest[0] == ','
    ensures EndsWord(rest) && EndsWord(EscapeFrom(rest, false))
  {
    EscapeOneOutside(',', rest[1..]);
    assert rest == [','] + rest[1..];
  }

  /** What quoting makes of a comma and a text that ends in a brace. */
  lemma QuotedTail(t: Text) returns (y: Text, d: Text)
    requires Ascii(t)
    ensures QuoteFrom("," + t + "}", false, false) == y + (['}'] + d) && y != "" && y[0] == ',' && OnlySpace(d)
  {
    hide QuoteFrom, LastSolid;
    var s := "," + t + "}";
    var out := QuoteFrom(s, false, false);
    assert s == [','] + (t + "}");
    HeadRound(',', t + "}", false, false);
    QuoteEndsAlike(s, false, false) by { AsciiParts("," + t, "}"); AsciiParts(",", t); }
    LastIs(s) by { NoSpaces(); }
    y, d := BraceSplit(out);
    assert out[0] == ',';
  }

  // ---- A bracket that is not closed ----

  /** The text of a first key whose value opens a bracket before such words, and of a second member. */
  function Swallowing(key: Text, w: Text, key': Text, x: Text): Text {
    "{" + ([QUOTE] + key + [QUOTE] + (":[" + w + ("," + ([QUOTE] + key' + [QUOTE] + (":" + x + "}")))))
  }

  /** The value that the rescue makes of it. */
  function Swallowed(w: Text, key': Text, x: Text): Text {
    "[" + w + ("," + ([QUOTE] + key' + [QUOTE] + (":" + x)))
  }

  /** Words of that kind, or other text without quotes, brackets or commas. */
  predicate Smooth(x: Text) {
    && x != "" && Trimmed(x) && Ascii(x)
    && forall i :: 0 <= i < |x| ==> x[i] != QUOTE && (IsPunct(x[i]) ==> x[i] == ':')
  }

  lemma SmoothPlain(x: Text)
    requires Smooth(x)
    ensures var r := "[" + x; Ascii(r) && QUOTE !in r && forall i :: 0 <= i < |r| ==> IsPlain(r[i])
    ensures var r := x + "}"; Ascii(r) && QUOTE !in r && forall i :: 0 <= i < |r| ==> IsPlain(r[i])
  {
    hide Trimmed;
    assert forall i :: 0 <= i < |x| ==> IsPlain(x[i]);
  }

  lemma QuoteSwallowing(key: Text, w: Text, key': Text, x: Text)
    requires IsIdent(key) && IsIdent(key') && Smooth(w) && Smooth(x)
    ensures QuoteBareKeys("{" + (key + ":" + ("[" + w + ("," + (key' + ":" + (x + "}"))))))
            == Swallowing(key, w, key', x)
  {
    hide QuoteFrom, IsIdent, Smooth;
    SmoothPlain(w);
    SmoothPlain(x);
    var second := key' + ":" + (x + "}");
    var first := key + ":" + ("[" + w + ("," + second));
    assert !LooksAhead('{', false, false) && !LooksAhead(',', false, false);
    HeadRound('{', first, false, false);
    assert key + "" + [':'] + ("[" + w + ("," + second)) == first;
    QuoteBareKey(key, "", ':', "[" + w + ("," + second));
    QuotePlain("[" + w, "," + second);
    HeadRound(',', second, false, false);
    assert key' + "" + [':'] + (x + "}") == second;
    QuoteBareKey(key', "", ':', x + "}");
    QuotePlain(x + "}", "");
    QuoteEmpty();
    assert x + "}" + "" == x + "}";
    SwallowRegroup(key, w, key', x);
  }

  lemma SwallowRegroup(key: Text, w: Text, key': Text, x: Text)
    ensures ['{'] + ([QUOTE] + key + [QUOTE] + "" + [':']
            + ("[" + w + ([','] + ([QUOTE] + key' + [QUOTE] + "" + [':'] + (x + "}" + "")))))
         == Swallowing(key, w, key', x)
  {
    assert x + "}" + "" == x + "}";
    assert [QUOTE] + key' + [QUOTE] + "" + [':'] + (x + "}") == [QUOTE] + key' + [QUOTE] + (":" + x + "}");
    var m := "," + ([QUOTE] + key' + [QUOTE] + (":" + x + "}"));
    assert [QUOTE] + key + [QUOTE] + "" + [':'] + ("[" + w + m) == [QUOTE] + key + [QUOTE] + (":[" + w + m);
  }

  /** After a key and a bracket such words and a comma are no JSON, whatever follows. */
  lemma BracketIsNoJson(key: Text, w: Text, rest: Text)
    requires IsIdent(key) && BareWords(w) && EndsWord(rest)
    ensures FromStr("{" + ([QUOTE] + key + [QUOTE] + ("" + ([':'] + ("[" + (w + rest)))))) == None
    ensures FromStr("[" + (w + rest)) == None
  {
    hide Lex, IsIdent, ParseAll, WellShaped;
    LexHead(key, "", "[" + (w + rest));
    LexOne(Punct('['), w + rest);
    LexBare(w, rest);
    if Lex(w).Some? && Lex(rest).Some? {
      var ts, tail := Lex(w).value, Lex(rest).value;
      LexNotEmpty(w);
      LexEnd(rest);
      BracketShape(ts + tail);
      BareIsNoJson([Punct('[')], ts, tail);
      ObjectShape(key, [Punct('[')] + (ts + tail));
      FourRegroup(key, ts + tail);
      BareIsNoJson([Punct('{'), Lit(key), Punct(':'), Punct('[')], ts, tail);
      ThreeBefore(Punct('{'), Lit(key), Punct(':'), [Punct('[')] + (ts + tail));
    }
  }

  lemma BracketShape(ts: seq<Lexeme>)
    ensures WellShaped([Punct('[')] + ts, false) ==> WellShaped(ts, false)
  {
    assert ([Punct('[')] + ts)[1..] == ts;
  }

  lemma FourRegroup(key: Text, ts: seq<Lexeme>)
    ensures [Punct('{'), Lit(key), Punct(':'), Punct('[')] + ts
            == [Punct('{'), Lit(key), Punct(':')] + ([Punct('[')] + ts)
  {}

  lemma SwallowingIsNoJson(key: Text, w: Text, key': Text, x: Text)
    requires IsIdent(key) && BareWords(w)
    ensures FromStr(Swallowing(key, w, key', x)) == None && FromStr(Swallowed(w, key', x)) == None
  {
    hide FromStr, IsIdent, BareWords;
    var rest := "," + ([QUOTE] + key' + [QUOTE] + (":" + x + "}"));
    var rest' := "," + ([QUOTE] + key' + [QUOTE] + (":" + x));
    BracketIsNoJson(key, w, rest);
    BracketIsNoJson(key, w, rest');
    assert ":[" + w + rest == [':'] + ("[" + (w + rest));
    assert "" + ([':'] + ("[" + (w + rest))) == [':'] + ("[" + (w + rest));
    assert "[" + w + rest' == "[" + (w + rest');
  }

  lemma EscapeSwallowing(key: Text, w: Text, key': Text, x: Text)
    requires IsIdent(key) && IsIdent(key') && Smooth(w) && Smooth(x)
    ensures EscapeStringControls(Swallowing(key, w, key', x)) == Swallowing(key, w, key', x)
  {
    hide EscapeFrom, EscapeBody, IsIdent, Smooth;
    IdentStays(key);
    IdentStays(key');
    SmoothPlain(w);
    SmoothPlain(x);
    var last := ":" + x + "}";
    var second := [QUOTE] + key' + [QUOTE] + last;
    assert ":[" + w + ("," + second) == ":[" + w + "," + second;
    assert ":[" + w + "," == ":" + ("[" + w) + "," && last == ":" + (x + "}");
    EscapeOutside("{", [QUOTE] + key + [QUOTE] + (":[" + w + "," + second));
    EscapeWholeLiteral(key, ":[" + w + "," + second);
    EscapeOutside(":" + ("[" + w) + ",", second);
    EscapeWholeLiteral(key', last);
    EscapeOutside(last, "");
    EscapeNothing();
    assert last + "" == last;
  }

  lemma SwallowingUnescaped(key: Text, w: Text, key': Text, x: Text)
    requires IsIdent(key) && IsIdent(key') && Smooth(w) && Smooth(x)
    ensures UnEscapeStructuralQuotes(Swallowing(key, w, key', x)) == None
  {
    hide IsIdent, Smooth, Unescaped;
    SmoothPlain(w);
    SmoothPlain(x);
    var a, b := "{" + ([QUOTE] + key + [QUOTE]), ":" + ("[" + w) + ",";
    var c, d := [QUOTE] + key' + [QUOTE], ":" + (x + "}");
    var s := Swallowing(key, w, key', x);
    assert s == a + b + (c + d);
    KeyUnescaped(key);
    KeyUnescaped(key');
    NoQuoteUnescaped("{");
    NoQuoteUnescaped(b);
    NoQuoteUnescaped(d);
    UnescapedConcat("{", [QUOTE] + key + [QUOTE]);
    UnescapedConcat(a, b);
    UnescapedConcat(c, d);
    UnescapedConcat(a + b, c + d);
    NothingCollected(s);
  }

  /** No quote comes after a backslash. */
  predicate Unescaped(s: Text) {
    forall k :: 0 <= k < |s| ==> !EscapedQuoteAt(s, k)
  }

  lemma NoQuoteUnescaped(s: Text)
    requires QUOTE !in s
    ensures Unescaped(s)
  {}

  lemma KeyUnescaped(key: Text)
    requires IsIdent(key)
    ensures Unescaped([QUOTE] + key + [QUOTE])
  {
    IdentStays(key);
    hide IsIdent, Balanced, Trimmed, EscapeBody;
    var s := [QUOTE] + key + [QUOTE];
    forall k | 0 <= k < |s| ensures !EscapedQuoteAt(s, k) {
      if 0 < k < |s| - 1 { assert s[k] == key[k - 1]; }
    }
  }

  lemma UnescapedConcat(a: Text, b: Text)
    requires Unescaped(a) && Unescaped(b) && (a == "" || a[|a| - 1] != BACKSLASH || b == "" || b[0] != QUOTE)
    ensures Unescaped(a + b)
  {
    var s := a + b;
    forall k | 0 <= k < |s| ensures !EscapedQuoteAt(s, k) {
      if k + 1 < |a| { assert !EscapedQuoteAt(a, k); }
      else if k >= |a| { assert !EscapedQuoteAt(b, k - |a|); }
    }
  }

  lemma NothingCollected(s: Text)
    requires Unescaped(s)
    ensures UnEscapeStructuralQuotes(s) == None
  {
    CollectedEscapes(s);
    hide Collected;
    assert Collected(s) == {};
  }

  lemma SwallowedHasNoComma(w: Text, key': Text, x: Text)
    requires Smooth(w) && Smooth(x) && IsIdent(key')
    ensures !CommaFrom(Swallowed(w, key', x), 0, false)
  {
    hide CommaFrom, EscapeBody;
    IdentStays(key');
    hide Trimmed, IsIdent, Balanced;
    var last := ":" + x;
    var second := [QUOTE] + (key' + [QUOTE] + last);
    SwallowedRegroup(w, key', x);
    CommaOpens(w + ("," + second));
    CommaSkips(w, "," + second, 1);
    CommaInside(second);
    CommaQuote(key' + [QUOTE] + last);
    CommaAfterLiteral(key', last, 1);
    NoCommaFound(last, 1);
  }

  lemma SwallowedRegroup(w: Text, key': Text, x: Text)
    ensures Swallowed(w, key', x) == "[" + (w + ("," + ([QUOTE] + (key' + [QUOTE] + (":" + x)))))
  {
    assert [QUOTE] + key' + [QUOTE] + (":" + x) == [QUOTE] + (key' + [QUOTE] + (":" + x));
    ConcatAssociative("[", w, "," + ([QUOTE] + key' + [QUOTE] + (":" + x)));
  }

  lemma CommaOpens(t: Text)
    ensures CommaFrom("[" + t, 0, false) == CommaFrom(t, 1, false)
  {
    assert ("[" + t)[1..] == t;
  }

  lemma CommaInside(t: Text)
    ensures CommaFrom("," + t, 1, false) == CommaFrom(t, 1, false)
  {
    assert ("," + t)[1..] == t;
  }

  lemma CommaQuote(t: Text)
    ensures CommaFrom([QUOTE] + t, 1, false) == CommaFrom(t, 1, true)
  {
    assert ([QUOTE] + t)[1..] == t;
  }

  lemma InnerSwallowing(key: Text, w: Text, key': Text, x: Text)
    requires IsIdent(key) && Smooth(x)
    ensures var value := Swallowed(w, key', x);
            && Inner(Swallowing(key, w, key', x)) == Some([QUOTE] + key + [QUOTE] + ":" + value)
            && SplitAtColon([QUOTE] + key + [QUOTE] + ":" + value) == Some(([QUOTE] + key + [QUOTE], value))
  {
    hide IsIdent;
    var value := Swallowed(w, key', x);
    var s := Swallowing(key, w, key', x);
    var body := [QUOTE] + key + [QUOTE] + ":" + value;
    assert s == "{" + body + "}";
    assert value[|value| - 1] == x[|x| - 1] && value[0] == '[' && body[|body| - 1] == value[|value| - 1];
    TrimFixes(s);
    assert s[1..|s| - 1] == body;
    TrimFixes(body);
    TrimFixes(value);
    TrimPart(key, "");
    assert [QUOTE] + key + [QUOTE] + "" == [QUOTE] + key + [QUOTE];
    hide Trim, SplitAtColon;
    SplitAt([QUOTE] + key + [QUOTE], value, [QUOTE] + key + [QUOTE], value);
  }

  /**
   * An unclosed bracket hides the comma from the search: the second member is swallowed into the value
   * of the first.
   */
  lemma SiblingSwallowed(key: Text, w: Text, key': Text, x: Text)
    requires IsIdent(key) && IsIdent(key') && BareWords(w) && Smooth(x)
    ensures LenientParseObject("{" + (key + ":" + ("[" + w + ("," + (key' + ":" + (x + "}"))))))
         == Parsed(Obj(Cons(Member(key, Str(Swallowed(w, key', x))), Nil)))
  {
    assert Smooth(w);
    hide IsIdent, Smooth, BareWords, QuoteBareKeys, EscapeStringControls, UnEscapeStructuralQuotes, FromStr;
    hide Inner, SplitAtColon, CommaFrom, Rescue, LenientParseObject, Swallowing;
    var quoted := Swallowing(key, w, key', x);
    QuoteSwallowing(key, w, key', x);
    EscapeSwallowing(key, w, key', x);
    SwallowingUnescaped(key, w, key', x);
    SwallowingIsNoJson(key, w, key', x);
    StagesFail("{" + (key + ":" + ("[" + w + ("," + (key' + ":" + (x + "}"))))), quoted);
    InnerSwallowing(key, w, key', x);
    SwallowedHasNoComma(w, key', x);
    IdentStays(key);
    RescueSingle(quoted, [QUOTE] + key + [QUOTE] + ":" + Swallowed(w, key', x), key, Swallowed(w, key', x));
  }

  // ---- No value ----

  /** The text of a key and its colon in braces. */
  function NoValue(key: Text, ws: Text, ws': Text): Text {
    "{" + ([QUOTE] + key + [QUOTE] + (ws + ([':'] + ws') + "}"))
  }

  lemma NoValueIsNoJson(key: Text, ws: Text, ws': Text)
    requires IsIdent(key) && AllSpace(ws) && AllSpace(ws')
    ensures FromStr(NoValue(key, ws, ws')) == None
  {
    hide Lex, IsIdent;
    ConcatAssociative([':'], ws', "}");
    ConcatAssociative(ws, [':'] + ws', "}");
    LexHead(key, ws, ws' + "}");
    LexSpace(ws', "}");
    LexOneBrace();
    ThreeBefore(Punct('{'), Lit(key), Punct(':'), [Punct('}')]);
    NoMember(key);
  }

  lemma NoMember(key: Text)
    ensures ParseAll([Punct('{'), Lit(key), Punct(':')] + [Punct('}')]) == None
  {
    hide DecodeBody;
    var ts := [Punct('{'), Lit(key), Punct(':')] + [Punct('}')];
    var m := ts[1..];
    assert m[2..] == [Punct('}')] && ts[1] == Lit(key);
    assert ParseValue([Punct('}')]) == None;
    MembersAre(m);
    hide ParseMembers;
  }

  lemma NoValueStays(key: Text, ws: Text, ws': Text)
    requires IsIdent(key) && AllSpace(ws) && AllSpace(ws')
    ensures EscapeStringControls(NoValue(key, ws, ws')) == NoValue(key, ws, ws')
    ensures UnEscapeStructuralQuotes(NoValue(key, ws, ws')) == None
  {
    hide EscapeFrom, EscapeBody, IsIdent, AllSpace, Unescaped;
    IdentStays(key);
    ColonPlain(ws, ws');
    var q, mid := [QUOTE] + key + [QUOTE], ws + ([':'] + ws');
    EscapeOutside("{", q + (mid + "}"));
    EscapeWholeLiteral(key, mid + "}");
    EscapeOutside(mid, "}");
    EscapeOutside("}", "");
    EscapeNothing();
    assert "}" + "" == "}";
    KeyUnescaped(key);
    NoQuoteUnescaped("{");
    NoQuoteUnescaped(mid + "}");
    UnescapedConcat(q, mid + "}");
    UnescapedConcat("{", q + (mid + "}"));
    NothingCollected(NoValue(key, ws, ws'));
  }

  lemma QuoteNoValue(key: Text, ws: Text, sep: char, ws': Text)
    requires IsIdent(key) && AllSpace(ws) && AllSpace(ws') && (sep == ':' || sep == '=')
    ensures QuoteBareKeys("{" + key + ws + [sep] + ws' + "}") == NoValue(key, ws, ws')
  {
    hide QuoteFrom, IsIdent, AllSpace;
    SpaceIsSpace(ws);
    BlankPlain(ws');
    var tail := ws' + "}";
    assert "{" + key + ws + [sep] + ws' + "}" == ['{'] + (key + ws + [sep] + tail);
    HeadRound('{', key + ws + [sep] + tail, false, false) by { assert !LooksAhead('{', false, false); }
    QuoteBareKey(key, ws, sep, tail);
    QuotePlain(tail, "");
    QuoteEmpty();
    assert tail + "" == tail;
    assert [QUOTE] + key + [QUOTE] + ws + [':'] + tail == [QUOTE] + key + [QUOTE] + (ws + ([':'] + ws') + "}");
  }

  lemma BlankPlain(ws: Text)
    requires AllSpace(ws)
    ensures forall i :: 0 <= i < |ws + "}"| ==> IsPlain((ws + "}")[i])
  {}

  lemma RescueNoValue(key: Text, ws: Text, ws': Text)
    requires IsIdent(key) && AllSpace(ws) && AllSpace(ws')
    ensures Rescue(NoValue(key, ws, ws')) == Refused
  {
    hide FromStr, IsIdent, AllSpace, CommaFrom, Trim, Inner, SplitAtColon, Rescue, NoValue;
    var part := [QUOTE] + key + [QUOTE];
    InnerNoValue(key, ws, ws');
    TrimPart(key, ws);
    assert part + ws + ":" + "" == part + ws + ":";
    TrimFixes("");
    SplitAt(part + ws, "", part, "");
    IdentStays(key);
    EmptyValueRefused(NoValue(key, ws, ws'), part + ws + ":", part);
  }

  lemma InnerNoValue(key: Text, ws: Text, ws': Text)
    requires AllSpace(ws')
    ensures Inner(NoValue(key, ws, ws')) == Some([QUOTE] + key + [QUOTE] + ws + ":")
  {
    hide Trim, Inner;
    var p := [QUOTE] + key + [QUOTE] + ws + ":";
    NoSpaces();
    SpaceIsSpace(ws');
    var s := NoValue(key, ws, ws');
    assert s == "{" + (p + ws') + "}" && s + "" == s;
    InnerTrimmed(p + ws', "");
    TrimAround("", p, ws');
    assert "" + p + ws' == p + ws';
  }

  lemma EmptyValueRefused(quoted: Text, inner: Text, part: Text)
    requires Inner(quoted) == Some(inner) && SplitAtColon(inner) == Some((part, ""))
    requires |part| >= 2
    ensures Rescue(quoted) == Refused
  {
    hide Inner, SplitAtColon, FromStr, CommaFrom;
  }

  /** A bare key with nothing but white space for its value is refused. */
  lemma NoValueRefused(key: Text, ws: Text, sep: char, ws': Text)
    requires IsIdent(key) && AllSpace(ws) && AllSpace(ws') && (sep == ':' || sep == '=')
    ensures LenientParseObject("{" + key + ws + [sep] + ws' + "}") == Refused
  {
    hide QuoteBareKeys, EscapeStringControls, UnEscapeStructuralQuotes, FromStr, Rescue, LenientParseObject;
    hide IsIdent, AllSpace, NoValue;
    QuoteNoValue(key, ws, sep, ws');
    NoValueIsNoJson(key, ws, ws');
    NoValueStays(key, ws, ws');
    StagesFail("{" + key + ws + [sep] + ws' + "}", NoValue(key, ws, ws'));
    RescueNoValue(key, ws, ws');
  }

  // ---- Incomplete unicode escapes ----

  /** The text of a single key and its string value. */
  function SingleString(key: Text, ws: Text, ws': Text, b: Text): Text {
    "{" + ([QUOTE] + key + [QUOTE] + (ws + ([':'] + ws') + ([QUOTE] + b + [QUOTE] + "}")))
  }

  lemma QuoteSingleString(key: Text, ws: Text, ws': Text, b: Text)
    requires IsIdent(key) && AllSpace(ws) && AllSpace(ws') && Balanced(b) && Ascii(b)
    ensures QuoteBareKeys(SingleString(key, ws, ws', b)) == SingleString(key, ws, ws', b)
  {
    hide QuoteFrom, IsIdent, AllSpace, Balanced;
    IdentStays(key);
    ColonPlain(ws, ws');
    var mid, v := ws + ([':'] + ws'), [QUOTE] + b + [QUOTE] + "}";
    var q := [QUOTE] + key + [QUOTE];
    assert !LooksAhead('{', false, false) && !LooksAhead('}', false, false);
    HeadRound('{', q + (mid + v), false, false);
    QuoteWholeLiteral(key, mid + v, true);
    QuotePlain(mid, v);
    QuoteWholeLiteral(b, "}", false);
    HeadRound('}', "", false, false);
    QuoteEmpty();
    assert ['}'] + "" == "}";
  }

  lemma ColonPlain(ws: Text, ws': Text)
    requires AllSpace(ws) && AllSpace(ws')
    ensures var r := ws + ([':'] + ws'); Ascii(r) && QUOTE !in r && BACKSLASH !in r && forall i :: 0 <= i < |r| ==>
            IsPlain(r[i])
  {
    var r := ws + ([':'] + ws');
    forall i | 0 <= i < |r| ensures IsPlain(r[i]) && r[i] != BACKSLASH {
      if i < |ws| { assert r[i] == ws[i]; } else if i > |ws| { assert r[i] == ws'[i - |ws| - 1]; }
    }
  }

  lemma EscapeSingleString(key: Text, ws: Text, ws': Text, b: Text)
    requires IsIdent(key) && AllSpace(ws) && AllSpace(ws') && Balanced(b) && Ascii(b)
    ensures EscapeStringControls(SingleString(key, ws, ws', b)) == SingleString(key, ws, ws', EscapeBody(b))
  {
    hide EscapeFrom, EscapeBody, IsIdent, AllSpace, Balanced;
    IdentStays(key);
    ColonPlain(ws, ws');
    var mid := ws + ([':'] + ws');
    EscapeOutside("{", [QUOTE] + key + [QUOTE] + (mid + ([QUOTE] + b + [QUOTE] + "}")));
    EscapeWholeLiteral(key, mid + ([QUOTE] + b + [QUOTE] + "}"));
    EscapeOutside(mid, [QUOTE] + b + [QUOTE] + "}");
    EscapeWholeLiteral(b, "}");
    EscapeOutside("}", "");
    EscapeNothing();
    assert "}" + "" == "}";
  }

  /** A string body that does not decode makes the whole text no JSON. */
  lemma SingleStringIsNoJson(key: Text, ws: Text, ws': Text, b: Text)
    requires IsIdent(key) && AllSpace(ws) && AllSpace(ws') && Balanced(b) && DecodeBody(b) == None
    ensures FromStr(SingleString(key, ws, ws', b)) == None && FromStr([QUOTE] + b + [QUOTE]) == None
  {
    hide Lex, IsIdent, DecodeBody, Balanced;
    var v := [QUOTE] + b + [QUOTE] + "}";
    SingleStringRegroup(key, ws, ws', b);
    LexHead(key, ws, ws' + v);
    LexSpace(ws', v);
    LexLit(b, "}");
    LexLit(b, "");
    assert [QUOTE] + b + [QUOTE] + "" == [QUOTE] + b + [QUOTE];
    LexOneBrace();
    var ts := [Lit(b), Punct('}')];
    assert [Lit(b)] + [Punct('}')] == ts;
    ThreeBefore(Punct('{'), Lit(key), Punct(':'), ts);
    StringShape(key, b);
  }

  lemma SingleStringRegroup(key: Text, ws: Text, ws': Text, b: Text)
    ensures SingleString(key, ws, ws', b)
         == "{" + ([QUOTE] + key + [QUOTE] + (ws + ([':'] + (ws' + ([QUOTE] + b + [QUOTE] + "}")))))
  {
    var v := [QUOTE] + b + [QUOTE] + "}";
    ConcatAssociative([':'], ws', v);
    ConcatAssociative(ws, [':'] + ws', v);
  }

  lemma LexOneBrace()
    ensures Lex("}") == Some([Punct('}')]) && Lex("") == Some([])
  {
    assert "}"[1..] == "";
    assert [Punct('}')] + [] == [Punct('}')];
  }

  lemma StringShape(key: Text, b: Text)
    requires DecodeBody(b) == None
    ensures ParseAll([Punct('{'), Lit(key), Punct(':')] + [Lit(b), Punct('}')]) == None && ParseAll([Lit(b)]) == None
  {
    hide DecodeBody, ParseValue;
    var all := [Punct('{'), Lit(key), Punct(':')] + [Lit(b), Punct('}')];
    if ParseAll(all).Some? {
      AcceptedShape(all);
      ObjectShape(key, [Lit(b), Punct('}')]);
    }
    if ParseAll([Lit(b)]).Some? { AcceptedShape([Lit(b)]); }
  }

  /** Escaping does not make a body end in a backslash. */
  lemma {:induction false} EscapedEnd(b: Text)
    requires b != "" && b[|b| - 1] != BACKSLASH
    ensures EscapeBody(b) != "" && EscapeBody(b)[|EscapeBody(b)| - 1] != BACKSLASH
    decreases |b|
  {
    hide EscapeChar;
    var n := if b[0] == BACKSLASH && |b| > 1 && IsValidEscape(b[1]) then 2 else 1;
    var e := EscapeBody(b);
    if |b| > n {
      EscapedEnd(b[n..]);
      assert e[|e| - 1] == EscapeBody(b[n..])[|EscapeBody(b[n..])| - 1];
    } else {
      assert b[n..] == "" && EscapeBody("") == "";
      if n == 1 { EscapedCharEnd(b[0]); assert e == EscapeChar(b[0]); }
    }
  }

  lemma EscapedCharEnd(c: char)
    requires c != BACKSLASH
    ensures EscapeChar(c) != "" && EscapeChar(c)[|EscapeChar(c)| - 1] != BACKSLASH
  {}

  lemma SingleStringUnescaped(key: Text, ws: Text, ws': Text, b: Text)
    requires IsIdent(key) && AllSpace(ws) && AllSpace(ws') && QUOTE !in b && b != "" && b[|b| - 1] != BACKSLASH
    ensures UnEscapeStructuralQuotes(SingleString(key, ws, ws', b)) == None
  {
    hide IsIdent, AllSpace, Unescaped;
    ColonPlain(ws, ws');
    var q, mid := [QUOTE] + key + [QUOTE], ws + ([':'] + ws');
    KeyUnescaped(key);
    NoQuoteUnescaped("{");
    NoQuoteUnescaped(mid);
    NoQuoteUnescaped(b);
    NoQuoteUnescaped("}");
    OneQuoteUnescaped();
    UnescapedConcat([QUOTE], b);
    UnescapedConcat([QUOTE] + b, [QUOTE]);
    UnescapedConcat([QUOTE] + b + [QUOTE], "}");
    assert mid[|mid| - 1] != BACKSLASH;
    UnescapedConcat(mid, [QUOTE] + b + [QUOTE] + "}");
    UnescapedConcat(q, mid + ([QUOTE] + b + [QUOTE] + "}"));
    UnescapedConcat("{", q + (mid + ([QUOTE] + b + [QUOTE] + "}")));
    NothingCollected(SingleString(key, ws, ws', b));
  }

  lemma OneQuoteUnescaped()
    ensures Unescaped([QUOTE])
  {}

  lemma RescueSingleString(key: Text, ws: Text, ws': Text, b: Text)
    requires IsIdent(key) && AllSpace(ws) && AllSpace(ws') && FromStr([QUOTE] + b + [QUOTE]) == None
    ensures Rescue(SingleString(key, ws, ws', b)) == Refused
  {
    hide FromStr, Trim, IsIdent, AllSpace, SplitAtColon, CommaFrom;
    var value := [QUOTE] + b + [QUOTE];
    InnerSingleString(key, ws, ws', b);
    TrimPart(key, ws);
    TrimValue(ws', value) by { NoSpaces(); }
    SplitAt([QUOTE] + key + [QUOTE] + ws, ws' + value, [QUOTE] + key + [QUOTE], value);
    IdentStays(key);
    var part := [QUOTE] + key + [QUOTE];
    assert part[1..|part| - 1] == key;
  }

  lemma InnerSingleString(key: Text, ws: Text, ws': Text, b: Text)
    ensures Inner(SingleString(key, ws, ws', b)) == Some([QUOTE] + key + [QUOTE] + ws + ":"
            + (ws' + ([QUOTE] + b + [QUOTE])))
  {
    var body := [QUOTE] + key + [QUOTE] + ws + ":" + (ws' + ([QUOTE] + b + [QUOTE]));
    var s := SingleString(key, ws, ws', b);
    NoSpaces();
    assert s == "{" + body + "}" by {
      ConcatAssociative([':'], ws', [QUOTE] + b + [QUOTE]);
      assert s == "{" + ([QUOTE] + key + [QUOTE] + (ws + ([':'] + ws') + ([QUOTE] + b + [QUOTE]))) + "}";
      assert [QUOTE] + key + [QUOTE] + (ws + ([':'] + ws') + ([QUOTE] + b + [QUOTE])) == body;
    }
    TrimFixes(s);
    assert s[1..|s| - 1] == body;
    assert body[|body| - 1] == QUOTE && body[0] == QUOTE;
    TrimFixes(body);
  }

  /**
   * A string with an incomplete unicode escape is not recovered: `C:\users` in a value that holds no
   * quotes and does not end in a backslash makes the whole text be refused.
   */
  lemma IncompleteEscapeRefused(key: Text, ws: Text, ws': Text, b: Text)
    requires IsIdent(key) && AllSpace(ws) && AllSpace(ws') && Ascii(b) && Balanced(b) && !UnicodeComplete(b)
    requires QUOTE !in b && b[|b| - 1] != BACKSLASH
    ensures LenientParseObject(SingleString(key, ws, ws', b)) == Refused
  {
    hide QuoteBareKeys, EscapeStringControls, UnEscapeStructuralQuotes, FromStr, Rescue, SingleString;
    hide IsIdent, AllSpace, EscapeBody, DecodeBody;
    var raw := SingleString(key, ws, ws', b);
    QuoteSingleString(key, ws, ws', b);
    EscapeSingleString(key, ws, ws', b);
    if DecodeBody(b).Some? { LenientExtends(b); }
    CompleteIffLenient(b);
    EscapedDecodesIff(b);
    EscapedBalanced(b);
    SingleStringIsNoJson(key, ws, ws', b);
    SingleStringIsNoJson(key, ws, ws', EscapeBody(b));
    NeverClosed(b);
    EscapedEnd(b);
    SingleStringUnescaped(key, ws, ws', EscapeBody(b));
    RescueSingleString(key, ws, ws', b);
  }

  // ---- A JSON value under a key that does not decode ----

  /** The text of a single key and a word. */
  function SingleWord(b: Text, ws: Text, ws': Text, v: Text): Text {
    "{" + ([QUOTE] + b + [QUOTE] + (ws + ([':'] + ws') + (v + "}")))
  }

  lemma WordPlain(v: Text)
    requires LexemeOk(Word(v))
    ensures Ascii(v + "}") && QUOTE !in v + "}" && BACKSLASH !in v + "}" && Trimmed(v) && ':' !in v
    ensures forall i :: 0 <= i < |v + "}"| ==> IsPlain((v + "}")[i])
  {}

  lemma QuoteSingleWord(b: Text, ws: Text, ws': Text, v: Text)
    requires Balanced(b) && Ascii(b) && AllSpace(ws) && AllSpace(ws') && LexemeOk(Word(v))
    ensures QuoteBareKeys(SingleWord(b, ws, ws', v)) == SingleWord(b, ws, ws', v)
    ensures EscapeStringControls(SingleWord(b, ws, ws', v)) == SingleWord(EscapeBody(b), ws, ws', v)
  {
    hide QuoteFrom, EscapeFrom, EscapeBody, Balanced, AllSpace, LexemeOk;
    ColonPlain(ws, ws');
    WordPlain(v);
    var mid, t := ws + ([':'] + ws'), v + "}";
    assert !LooksAhead('{', false, false);
    HeadRound('{', [QUOTE] + b + [QUOTE] + (mid + t), false, false);
    QuoteWholeLiteral(b, mid + t, true);
    QuotePlain(mid, t);
    QuotePlain(t, "");
    QuoteEmpty();
    EscapeOutside("{", [QUOTE] + b + [QUOTE] + (mid + t));
    EscapeWholeLiteral(b, mid + t);
    EscapeOutside(mid, t);
    EscapeOutside(t, "");
    EscapeNothing();
    assert t + "" == t;
  }

  lemma SingleWordIsNoJson(b: Text, ws: Text, ws': Text, v: Text)
    requires Balanced(b) && DecodeBody(b) == None && AllSpace(ws) && AllSpace(ws') && LexemeOk(Word(v))
    ensures FromStr(SingleWord(b, ws, ws', v)) == None
  {
    hide Lex, DecodeBody, Balanced, AllSpace, LexemeOk;
    var t := v + "}";
    ConcatAssociative([':'], ws', t);
    ConcatAssociative(ws, [':'] + ws', t);
    LexOne(Punct('{'), [QUOTE] + b + [QUOTE] + (ws + ([':'] + (ws' + t)))) by { BraceOk(); }
    LexOne(Lit(b), ws + ([':'] + (ws' + t))) by { LiteralOk(b); }
    LexSpace(ws, [':'] + (ws' + t));
    LexOne(Punct(':'), ws' + t) by { BraceOk(); }
    LexSpace(ws', t);
    LexOne(Word(v), "}");
    LexOneBrace();
    assert [Word(v)] + [Punct('}')] == [Word(v), Punct('}')];
    ThreeBefore(Punct('{'), Lit(b), Punct(':'), [Word(v), Punct('}')]);
    KeyDoesNotDecode(b, [Word(v), Punct('}')]);
  }

  lemma BraceOk()
    ensures LexemeOk(Punct('{')) && LexemeOk(Punct(':'))
  {}

  lemma LiteralOk(b: Text)
    requires Balanced(b)
    ensures LexemeOk(Lit(b))
  {}

  lemma KeyDoesNotDecode(b: Text, tail: seq<Lexeme>)
    requires DecodeBody(b) == None
    ensures ParseAll([Punct('{'), Lit(b), Punct(':')] + tail) == None
  {
    hide DecodeBody, ParseAll, IsScalarWord;
    var ts := [Punct('{'), Lit(b), Punct(':')] + tail;
    assert ts[1..][0] == Lit(b);
    if ParseAll(ts).Some? { AcceptedShape(ts); }
  }

  lemma SingleWordUnescaped(b: Text, ws: Text, ws': Text, v: Text)
    requires QUOTE !in b && b != "" && b[|b| - 1] != BACKSLASH && AllSpace(ws) && AllSpace(ws') && LexemeOk(Word(v))
    ensures UnEscapeStructuralQuotes(SingleWord(b, ws, ws', v)) == None
  {
    hide AllSpace, Unescaped, LexemeOk;
    ColonPlain(ws, ws');
    WordPlain(v);
    var q, mid := [QUOTE] + b + [QUOTE], ws + ([':'] + ws');
    NoQuoteUnescaped("{");
    NoQuoteUnescaped(b);
    OneQuoteUnescaped();
    UnescapedConcat([QUOTE], b);
    UnescapedConcat([QUOTE] + b, [QUOTE]);
    NoQuoteUnescaped(mid + (v + "}"));
    UnescapedConcat(q, mid + (v + "}"));
    UnescapedConcat("{", q + (mid + (v + "}")));
    NothingCollected(SingleWord(b, ws, ws', v));
  }

  lemma InnerSingleWord(b: Text, ws: Text, ws': Text, v: Text)
    requires LexemeOk(Word(v))
    ensures Inner(SingleWord(b, ws, ws', v)) == Some([QUOTE] + b + [QUOTE] + ws + ":" + (ws' + v))
  {
    hide Trim, Inner, LexemeOk;
    WordPlain(v);
    WordNotEmpty(v);
    var body := [QUOTE] + b + [QUOTE] + ws + ":" + (ws' + v);
    SingleWordRegroup(b, ws, ws', v);
    InnerTrimmed(body, "");
    BodyFixed([QUOTE] + b + [QUOTE] + ws + ":" + ws', v);
    ConcatAssociative([QUOTE] + b + [QUOTE] + ws + ":", ws', v);
  }

  lemma BodyFixed(p: Text, v: Text)
    requires p != "" && p[0] == QUOTE && v != "" && Trimmed(v)
    ensures Trim(p + v) == p + v
  {
    assert (p + v)[|p + v| - 1] == v[|v| - 1];
    TrimFixes(p + v);
  }

  lemma SingleWordRegroup(b: Text, ws: Text, ws': Text, v: Text)
    ensures SingleWord(b, ws, ws', v) == "{" + ([QUOTE] + b + [QUOTE] + ws + ":" + (ws' + v)) + "}" + ""
  {
    var q := [QUOTE] + b + [QUOTE];
    ConcatAssociative([':'], ws', v + "}");
    ConcatAssociative(ws', v, "}");
    ConcatAssociative(ws, [':'], ws' + v + "}");
    ConcatAssociative(ws + [':'], ws' + v, "}");
    ConcatAssociative(q, ws + [':'] + (ws' + v), "}");
    ConcatAssociative(q, ws + [':'], ws' + v);
    ConcatAssociative(q, ws, [':']);
    ConcatAssociative(ws, [':'] + ws', v + "}");
    EmptyAfter("{" + (q + ws + ":" + (ws' + v)) + "}");
  }

  lemma EmptyAfter(t: Text)
    ensures t + "" == t
  {}

  lemma WordNotEmpty(v: Text)
    requires LexemeOk(Word(v))
    ensures v != ""
  {}

  lemma SplitSingleWord(b: Text, ws: Text, ws': Text, v: Text)
    requires ':' !in b && AllSpace(ws) && AllSpace(ws') && LexemeOk(Word(v))
    ensures SplitAtColon([QUOTE] + b + [QUOTE] + ws + ":" + (ws' + v)) == Some(([QUOTE] + b + [QUOTE], v))
  {
    WordPlain(v);
    TrimValue(ws', v);
    SpaceIsSpace(ws);
    var q := [QUOTE] + b + [QUOTE];
    NoSpaces();
    assert ':' !in q + ws;
    hide Trim, AllSpace, LexemeOk;
    TrimAround("", q, ws);
    assert "" + q + ws == q + ws;
    SplitAt(q + ws, ws' + v, q, v);
  }

  /**
   * A key with an incomplete unicode escape keeps a word that is a JSON value as that value, under the
   * key's own raw text.
   */
  lemma RawKeyKept(b: Text, ws: Text, ws': Text, v: Text)
    requires Ascii(b) && Balanced(b) && !UnicodeComplete(b) && QUOTE !in b && ':' !in b && b[|b| - 1] != BACKSLASH
    requires AllSpace(ws) && AllSpace(ws') && IsScalarWord(v)
    ensures LenientParseObject(SingleWord(b, ws, ws', v)) == Parsed(Obj(Cons(Member(b, Scalar(v)), Nil)))
  {
    ScalarIsWord(v);
    hide QuoteBareKeys, EscapeStringControls, UnEscapeStructuralQuotes, FromStr, Rescue, SingleWord, SplitAtColon;
    hide AllSpace, EscapeBody, DecodeBody, IsScalarWord, LexemeOk, Inner;
    QuoteSingleWord(b, ws, ws', v);
    if DecodeBody(b).Some? { LenientExtends(b); }
    CompleteIffLenient(b);
    EscapedDecodesIff(b);
    EscapedBalanced(b);
    SingleWordIsNoJson(b, ws, ws', v);
    SingleWordIsNoJson(EscapeBody(b), ws, ws', v);
    NeverClosed(b);
    EscapedEnd(b);
    SingleWordUnescaped(EscapeBody(b), ws, ws', v);
    InnerSingleWord(b, ws, ws', v);
    SplitSingleWord(b, ws, ws', v);
    WordIsJson(v);
    RescueWord(SingleWord(b, ws, ws', v), [QUOTE] + b + [QUOTE] + ws + ":" + (ws' + v), b, v);
  }

  lemma WordIsJson(v: Text)
    requires IsScalarWord(v)
    ensures FromStr(v) == Some(Scalar(v)) && v != ""
  {
    ScalarIsWord(v);
    LexOne(Word(v), "");
    assert v + "" == v && Lex("") == Some([]) && [Word(v)] + [] == [Word(v)];
    OneWordParses(v);
    WordNotEmpty(v);
    hide Lex;
  }

  lemma RescueWord(quoted: Text, inner: Text, b: Text, v: Text)
    requires Inner(quoted) == Some(inner) && SplitAtColon(inner) == Some(([QUOTE] + b + [QUOTE], v)) && QUOTE !in b
    requires v != "" && FromStr(v) == Some(Scalar(v))
    ensures Rescue(quoted) == Parsed(Obj(Cons(Member(b, Scalar(v)), Nil)))
  {
    hide FromStr, Inner, SplitAtColon, CommaFrom;
    var q := [QUOTE] + b + [QUOTE];
    assert q[1..|q| - 1] == b;
  }
}
