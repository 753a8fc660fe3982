// When the recovery of a tool call panics: the shape of the text, read off the
// raw bytes, and how the panic reaches the extraction of a whole reply.
module LenientPanics {
  import opened Texts
  import opened Json
  import opened JsonText
  import opened JsonScan
  import opened EscapeLaws
  import opened QuoteLaws
  import opened JsonLenient
  import opened ToolFormat
  import opened Drifted
  import opened ToolText

  // ---- Shape ----

  /** What follows `c`, when `c` comes first but for white space. */
  function AfterSpace(s: Text, c: char): Option<Text> {
    var t := TrimStart(s);
    if t != "" && t[0] == c then Some(t[1..]) else None
  }

  /** `{`, a quote and `:` come first but for white space. */
  predicate OpensWithQuote(s: Text) {
    && AfterSpace(s, '{').Some?
    && AfterSpace(AfterSpace(s, '{').value, QUOTE).Some?
    && AfterSpace(AfterSpace(AfterSpace(s, '{').value, QUOTE).value, ':').Some?
  }

  /** The last character that is no white space. */
  function LastSolid(s: Text): Option<char> {
    var t := TrimEnd(s);
    if t == "" then None else Some(t[|t| - 1])
  }

  /** Braces around a text in which a colon follows the first quote at once. */
  predicate LoneQuoteFirst(s: Text) {
    OpensWithQuote(s) && LastSolid(s) == Some('}')
  }

  predicate OnlySpace(ws: Text) {
    forall i :: 0 <= i < |ws| ==> IsSpace(ws[i])
  }

  // ---- Trimming ----

  lemma TrimStartSplit(s: Text) returns (ws: Text)
    ensures s == ws + TrimStart(s) && OnlySpace(ws)
    ensures TrimStart(s) == "" || !IsSpace(TrimStart(s)[0])
  {
    TrimStartIs(s);
    ws := s[..|s| - |TrimStart(s)|];
    SkippedIsSpace(s);
  }

  lemma {:induction false} SkippedIsSpace(s: Text)
    ensures OnlySpace(s[..|s| - |TrimStart(s)|])
  {
    if s != "" && IsSpace(s[0]) {
      SkippedIsSpace(s[1..]);
      var n := |s| - |TrimStart(s)|;
      assert s[..n] == [s[0]] + s[1..][..n - 1];
    }
  }

  lemma {:induction false} TrimEndSplit(s: Text) returns (ws: Text)
    ensures s == TrimEnd(s) + ws && OnlySpace(ws)
    decreases |s|
  {
    if s != "" && IsSpace(s[|s| - 1]) {
      ws := TrimEndSplit(s[..|s| - 1]);
      ws := ws + [s[|s| - 1]];
    } else {
      ws := "";
    }
  }

  lemma TrimSplit(s: Text) returns (before: Text, after: Text)
    ensures s == before + Trim(s) + after && OnlySpace(before) && OnlySpace(after)
  {
    before := TrimStartSplit(s);
    after := TrimEndSplit(TrimStart(s));
    hide TrimStart, TrimEnd;
    ConcatAssociative(before, Trim(s), after);
  }

  lemma {:induction false} TrimEndConcat(a: Text, b: Text)
    ensures TrimEnd(a + b) == if TrimEnd(b) == "" then TrimEnd(a) else a + TrimEnd(b)
    decreases |b|
  {
    if b == "" {
      assert a + b == a;
    } else {
      var n := |b| - 1;
      assert (a + b)[..|a + b| - 1] == a + b[..n];
      if IsSpace(b[n]) { TrimEndConcat(a, b[..n]); }
    }
  }

  lemma LastConcat(a: Text, b: Text)
    ensures LastSolid(a + b) == if LastSolid(b).None? then LastSolid(a) else LastSolid(b)
  {
    TrimEndConcat(a, b);
    hide TrimEnd;
  }

  lemma SpacesHaveNoLast(ws: Text)
    requires OnlySpace(ws)
    ensures LastSolid(ws) == None
  {
    TrimEndSkips("", ws);
    assert "" + ws == ws;
  }

  lemma LastIs(s: Text)
    requires s != "" && !IsSpace(s[|s| - 1])
    ensures LastSolid(s) == Some(s[|s| - 1])
  {}

  lemma AfterSpaceIs(ws: Text, c: char, rest: Text)
    requires OnlySpace(ws) && !IsSpace(c)
    ensures AfterSpace(ws + ([c] + rest), c) == Some(rest)
  {
    TrimStartSkips(ws, [c] + rest);
  }

  lemma AfterSpaceSplit(s: Text, c: char) returns (ws: Text)
    requires AfterSpace(s, c).Some?
    ensures s == ws + ([c] + AfterSpace(s, c).value) && OnlySpace(ws)
  {
    ws := TrimStartSplit(s);
    var t := TrimStart(s);
    assert t == [c] + t[1..];
    hide TrimStart;
  }

  // ---- The shape is what the rescue looks for ----

  /** The key part before the first colon is one quote. */
  predicate LoneKey(quoted: Text) {
    && Inner(quoted).Some? && SplitAtColon(Inner(quoted).value).Some?
    && SplitAtColon(Inner(quoted).value).value.0 == [QUOTE]
  }

  /** A text of the shape, in parts. */
  function Shape(a: Text, b: Text, c: Text, x: Text): Text {
    a + (['{'] + (b + ([QUOTE] + (c + ([':'] + x)))))
  }

  lemma ShapeOpens(a: Text, b: Text, c: Text, x: Text)
    requires OnlySpace(a) && OnlySpace(b) && OnlySpace(c)
    ensures OpensWithQuote(Shape(a, b, c, x))
  {
    hide AfterSpace, IsSpace;
    AfterSpaceIs(c, ':', x) by { NoSpaces(); }
    AfterSpaceIs(b, QUOTE, c + ([':'] + x)) by { NoSpaces(); }
    AfterSpaceIs(a, '{', b + ([QUOTE] + (c + ([':'] + x)))) by { NoSpaces(); }
  }

  lemma NoSpaces()
    ensures !IsSpace('{') && !IsSpace('}') && !IsSpace(QUOTE) && !IsSpace(':')
  {}

  lemma OpensInShape(s: Text) returns (a: Text, b: Text, c: Text, x: Text)
    requires OpensWithQuote(s)
    ensures s == Shape(a, b, c, x) && OnlySpace(a) && OnlySpace(b) && OnlySpace(c)
  {
    hide AfterSpace, OnlySpace;
    a := AfterSpaceSplit(s, '{');
    var t := AfterSpace(s, '{').value;
    b := AfterSpaceSplit(t, QUOTE);
    var u := AfterSpace(t, QUOTE).value;
    c := AfterSpaceSplit(u, ':');
    x := AfterSpace(u, ':').value;
  }

  lemma ShapeLast(a: Text, b: Text, c: Text, x: Text)
    ensures LastSolid(Shape(a, b, c, x)) == if LastSolid(x).None? then Some(':') else LastSolid(x)
  {
    hide LastSolid;
    var p := a + ['{'] + b + [QUOTE] + c + [':'];
    assert Shape(a, b, c, x) == p + x;
    LastConcat(p, x);
    LastIs(p) by { NoSpaces(); }
  }

  lemma ShapeHasLoneKey(a: Text, b: Text, c: Text, y: Text, d: Text)
    requires OnlySpace(a) && OnlySpace(b) && OnlySpace(c) && OnlySpace(d)
    ensures LoneKey(Shape(a, b, c, y + (['}'] + d)))
  {
    hide Trim, TrimEnd, Find, SplitAtColon, IsSpace;
    var body := b + ([QUOTE] + (c + ([':'] + y)));
    var t := ['{'] + body + ['}'];
    ShapeBraces(a, b, c, y, d);
    NoSpaces();
    TrimAround(a, t, d);
    assert t[1..|t| - 1] == body;
    BodyTrimmed(b, c, y);
    SplitQuote(c, TrimEnd(y));
  }

  lemma ShapeBraces(a: Text, b: Text, c: Text, y: Text, d: Text)
    ensures Shape(a, b, c, y + (['}'] + d)) == a + (['{'] + (b + ([QUOTE] + (c + ([':'] + y)))) + ['}']) + d
  {}

  /** Trimming the text between the braces leaves the quote first and the colon in place. */
  lemma BodyTrimmed(b: Text, c: Text, y: Text)
    requires OnlySpace(b) && OnlySpace(c)
    ensures Trim(b + ([QUOTE] + (c + ([':'] + y)))) == [QUOTE] + c + ":" + TrimEnd(y)
  {
    var u := [QUOTE] + (c + ([':'] + y));
    TrimStartSkips(b, u);
    var p := [QUOTE] + c + [':'];
    assert u == p + y;
    TrimEndConcat(p, y);
    assert TrimEnd(p) == p;
  }

  lemma SplitQuote(c: Text, y: Text)
    requires OnlySpace(c)
    ensures SplitAtColon([QUOTE] + c + ":" + y) == Some(([QUOTE], Trim(y)))
  {
    TrimAround("", [QUOTE], c);
    assert "" + [QUOTE] + c == [QUOTE] + c;
    SplitAt([QUOTE] + c, y, [QUOTE], Trim(y));
  }

  /** A text with a lone key, in parts. */
  lemma LoneKeyInShape(q: Text) returns (a: Text, b: Text, c: Text, y: Text, d: Text)
    requires LoneKey(q)
    ensures q == Shape(a, b, c, y + (['}'] + d)) && OnlySpace(a) && OnlySpace(b) && OnlySpace(c) && OnlySpace(d)
  {
    hide Trim, Find, OccursAt, Contains, IsSpace;
    var t := Trim(q);
    a, d := TrimSplit(q);
    var body := t[1..|t| - 1];
    assert t == ['{'] + body + ['}'];
    var b', e := TrimSplit(body);
    var inner := Trim(body);
    var k := Find(inner, ":").value;
    ColonAt(inner, k);
    var b'';
    b'', c := TrimSplit(inner[..k]);
    b := b' + b'';
    y := inner[k + 1..] + e;
    LoneRegroup(a, b', b'', c, inner[k + 1..], e, d);
  }

  lemma ColonAt(s: Text, k: nat)
    requires OccursAt(s, ":", k)
    ensures k < |s| && s == s[..k] + [':'] + s[k + 1..]
  {
    assert s[k..][0] == ':';
  }

  lemma LoneRegroup(a: Text, b: Text, b': Text, c: Text, y: Text, e: Text, d: Text)
    ensures a + (['{'] + (b + (b' + [QUOTE] + c + [':'] + y) + e) + ['}']) + d
         == Shape(a, b + b', c, (y + e) + (['}'] + d))
  {}

  /** What the rescue looks for in the quoted text, as a shape. */
  lemma LoneKeyIsShape(q: Text)
    ensures LoneKey(q) <==> LoneQuoteFirst(q)
  {
    hide LoneKey, OpensWithQuote, LastSolid, Shape, OnlySpace;
    if LoneKey(q) {
      var a, b, c, y, d := LoneKeyInShape(q);
      ShapeOpens(a, b, c, y + (['}'] + d));
      ShapeLast(a, b, c, y + (['}'] + d));
      LastBrace(y, d);
    }
    if LoneQuoteFirst(q) {
      var a, b, c, x := OpensInShape(q);
      ShapeLast(a, b, c, x);
      assert LastSolid(x) == Some('}');
      var y, d := BraceSplit(x);
      ShapeHasLoneKey(a, b, c, y, d);
    }
  }

  lemma LastBrace(y: Text, d: Text)
    requires OnlySpace(d)
    ensures LastSolid(y + (['}'] + d)) == Some('}')
  {
    hide LastSolid, OnlySpace;
    LastConcat(y, ['}'] + d);
    LastConcat(['}'], d);
    SpacesHaveNoLast(d);
    LastIs(['}']) by { NoSpaces(); }
  }

  lemma BraceSplit(x: Text) returns (y: Text, d: Text)
    requires LastSolid(x) == Some('}')
    ensures x == y + (['}'] + d) && OnlySpace(d)
  {
    d := TrimEndSplit(x);
    var t := TrimEnd(x);
    y := t[..|t| - 1];
    assert t == y + ['}'];
    hide TrimEnd;
  }

  // ---- Quoting keys keeps the shape ----

  lemma SpaceNext(c: char, inString: bool, open: bool)
    requires IsSpace(c)
    ensures c < 128 as char && !LooksAhead(c, inString, open) && NextState(c, inString, open).0 == inString
  {}

  /** White space at the start is copied; a key may no longer begin after some of it. */
  lemma {:induction false} QuoteSkipsSpace(s: Text, inString: bool, open: bool) returns (open': bool)
    requires Ascii(s)
    ensures QuoteFrom(s, inString, open) == s[..|s| - |TrimStart(s)|] + QuoteFrom(TrimStart(s), inString, open')
    ensures open' ==> open
  {
    hide QuoteFrom;
    open' := open;
    if s != "" && IsSpace(s[0]) {
      var next := NextState(s[0], inString, open);
      SpaceNext(s[0], inString, open);
      open' := QuoteSkipsSpace(s[1..], inString, next.1);
      assert s == [s[0]] + s[1..];
      HeadRound(s[0], s[1..], inString, open);
      var n := |s| - |TrimStart(s)|;
      assert s[..n] == [s[0]] + s[1..][..n - 1];
    } else {
      assert s[..0] == "";
    }
  }

  /** The first solid character of a quoted text: the same, or the quote of a key. */
  lemma QuotedHead(t: Text, inString: bool, open: bool)
    requires Ascii(t) && t != "" && !IsSpace(t[0])
    ensures var out := QuoteFrom(t, inString, open);
            out != "" && (out[0] == t[0] || (!inString && open && IsIdentStart(t[0]) && KeyFirst(out)))
  {
    hide QuoteFrom, IsIdent;
    assert t == [t[0]] + t[1..];
    if !LooksAhead(t[0], inString, open) {
      HeadRound(t[0], t[1..], inString, open);
    } else if inString {
      if |t| == 1 {
        assert t == [BACKSLASH];
        EscapeRound(' ', "", open);
      } else {
        EscapeRound(t[1], t[2..], open);
        assert t == [BACKSLASH, t[1]] + t[2..];
      }
    } else {
      IdentHead(t);
    }
  }

  /** A quote and an identifier character. */
  predicate KeyFirst(out: Text) {
    |out| > 1 && out[0] == QUOTE && IsIdentStart(out[1])
  }

  lemma IdentHead(t: Text)
    requires Ascii(t) && t != "" && IsIdentStart(t[0])
    ensures var out := QuoteFrom(t, false, true); out != "" && (out[0] == t[0] || KeyFirst(out))
  {
    hide QuoteFrom;
    var w, ws, rest := IdentSplit(t);
    var r := if rest == "" then "" else rest[1..];
    assert w[0] == t[0];
    if rest != "" && (rest[0] == ':' || rest[0] == '=') {
      assert t == w + ws + [rest[0]] + r;
      QuoteBareKey(w, ws, rest[0], r);
    } else {
      QuoteBareWord(w, ws, rest);
    }
  }

  /** Skipping white space before and after quoting. */
  lemma QuoteThenSkip(s: Text, inString: bool, open: bool) returns (open': bool)
    requires Ascii(s)
    ensures TrimStart(QuoteFrom(s, inString, open)) == QuoteFrom(TrimStart(s), inString, open')
    ensures (open' ==> open) && Ascii(TrimStart(s)) && (TrimStart(s) == "" || !IsSpace(TrimStart(s)[0]))
  {
    open' := QuoteSkipsSpace(s, inString, open);
    TrimStartIs(s);
    SkippedIsSpace(s);
    hide QuoteFrom, TrimStart, IsSpace;
    var t := TrimStart(s);
    var ws := s[..|s| - |t|];
    var out := QuoteFrom(t, inString, open');
    assert s == ws + t;
    AsciiParts(ws, t);
    if t == "" { QuoteEmpty(); } else { QuotedHead(t, inString, open'); NoSpaces(); SolidIdent(); }
    TrimStartSkips(ws, out);
  }

  lemma SolidIdent()
    ensures forall c :: IsIdentStart(c) ==>
              !IsSpace(c) && !IsAsciiSpace(c) && c != ':' && c != '{' && c != ',' && c != QUOTE
  {}

  /** Quoting and the first solid character. */
  lemma QuoteAfter(s: Text, c: char, inString: bool, open: bool) returns (open': bool)
    requires Ascii(s) && (c == '{' || c == QUOTE || c == ':')
    ensures var out := QuoteFrom(s, inString, open);
            match AfterSpace(s, c)
            case Some(r) =>
              var next := NextState(c, inString, open');
              Ascii(r) && AfterSpace(out, c) == Some(QuoteFrom(r, next.0, next.1))
            case None => AfterSpace(out, c).None? || (c == QUOTE && open && !inString && KeyFirst(TrimStart(out)))
  {
    hide QuoteFrom, TrimStart, IsIdentStart;
    open' := QuoteThenSkip(s, inString, open);
    var t := TrimStart(s);
    SolidIdent();
    if t == "" {
      QuoteEmpty();
    } else if t[0] == c {
      assert t == [c] + t[1..];
      AsciiParts([c], t[1..]);
      assert !LooksAhead(c, inString, open');
      HeadRound(c, t[1..], inString, open');
    } else {
      QuotedHead(t, inString, open');
    }
  }

  lemma NoColonAfterKey(out: Text)
    requires KeyFirst(TrimStart(out))
    ensures AfterSpace(out, QUOTE).Some? && AfterSpace(AfterSpace(out, QUOTE).value, ':').None?
  {
    var r := TrimStart(out)[1..];
    assert r[0] == TrimStart(out)[1];
    SolidIdent();
    hide IsIdentStart;
    assert TrimStart(r) == r;
  }

  /** Quoting keys neither makes nor hides the opening. */
  lemma QuoteKeepsOpening(s: Text)
    requires Ascii(s)
    ensures OpensWithQuote(QuoteBareKeys(s)) <==> OpensWithQuote(s)
  {
    hide QuoteFrom, AfterSpace, TrimStart;
    var o := QuoteAfter(s, '{', false, false);
    if AfterSpace(s, '{').Some? {
      var r := AfterSpace(s, '{').value;
      o := QuoteAfter(r, QUOTE, false, true);
      if AfterSpace(r, QUOTE).Some? {
        o := QuoteAfter(AfterSpace(r, QUOTE).value, ':', true, false);
      } else if AfterSpace(QuoteFrom(r, false, true), QUOTE).Some? {
        NoColonAfterKey(QuoteFrom(r, false, true));
      }
    }
  }

  /** Both are nothing but white space, or both end in `}`, or neither. */
  predicate EndsAlike(s: Text, t: Text) {
    LastSolid(s).None? == LastSolid(t).None? && (LastSolid(s) == Some('}') <==> LastSolid(t) == Some('}'))
  }

  lemma EndsAlikeConcat(a: Text, b: Text, a': Text, b': Text)
    requires EndsAlike(a, a') && EndsAlike(b, b')
    ensures EndsAlike(a + b, a' + b')
  {
    hide LastSolid;
    LastConcat(a, b);
    LastConcat(a', b');
  }

  /** The end of what a round reads and of what it writes. */
  lemma RoundEndsAlike(s: Text, inString: bool, open: bool)
    requires s != "" && Ascii(s)
    ensures var st := QuoteStep(s, inString, open); EndsAlike(s[..st.taken], st.text)
  {
    hide LastSolid, IdentRun, SpaceRun;
    if !inString && s[0] != QUOTE && open && IsIdentStart(s[0]) {
      KeyRoundEndsAlike(s);
    } else if inString && s[0] == BACKSLASH && |s| > 1 {
      assert s[..2] == [s[0]] + [s[1]];
    } else {
      assert s[..1] == [s[0]];
    }
  }

  lemma KeyRoundEndsAlike(s: Text)
    requires s != "" && IsIdentStart(s[0])
    ensures var st := QuoteStep(s, false, true); EndsAlike(s[..st.taken], st.text)
  {
    hide LastSolid, IsIdentStart, IsIdentChar;
    var w := IdentRun(s);
    var ws := SpaceRun(s[|w|..]);
    var j := |w| + |ws|;
    IdentRunStart(s);
    SolidIdent();
    hide IdentRun, SpaceRun, IsIdent, IsAsciiSpace;
    IdentEnd(w);
    assert s[..|w|] == w;
    LastIs([QUOTE] + w + [QUOTE]) by { NoSpaces(); }
    if j < |s| && s[j] == '=' {
      assert s[..j + 1] == w + ws + [s[j]];
      LastIs(w + ws + ['=']);
      LastIs([QUOTE] + w + [QUOTE] + ws + [':']);
    }
  }

  lemma IdentEnd(w: Text)
    requires w != "" && forall i :: 0 <= i < |w| ==> IsIdentChar(w[i])
    ensures LastSolid(w).Some? && LastSolid(w) != Some('}')
  {
    assert IsIdentChar(w[|w| - 1]);
  }

  lemma {:induction false} QuoteEndsAlike(s: Text, inString: bool, open: bool)
    requires Ascii(s)
    ensures EndsAlike(s, QuoteFrom(s, inString, open))
    decreases |s|
  {
    hide LastSolid, QuoteStep, EndsAlike, QuoteFrom;
    if s == "" {
      QuoteEmpty();
      assert EndsAlike("", "") by { NothingEndsAlike(); }
    } else {
      var st := QuoteStep(s, inString, open);
      var t := s[st.taken..];
      assert s == s[..st.taken] + t;
      AsciiParts(s[..st.taken], t);
      QuoteEndsAlike(t, st.inString, st.open);
      RoundEndsAlike(s, inString, open);
      QuoteRoundIs(s, inString, open, st);
      EndsAlikeConcat(s[..st.taken], t, st.text, QuoteFrom(t, st.inString, st.open));
    }
  }

  lemma NothingEndsAlike()
    ensures EndsAlike("", "")
  {}

  // ---- Exactly when recovery panics ----

  /**
   * A slice goes out of range exactly when no stage parses and the text is braces around a quote,
   * a colon and anything, with white space anywhere between them.
   */
  lemma PanicsExactly(raw: Text)
    requires Ascii(raw)
    ensures LenientParseObject(raw) == Panics <==> Stages(raw) == None && LoneQuoteFirst(raw)
  {
    hide Stages, QuoteFrom, OpensWithQuote, LastSolid, Rescue;
    var q := QuoteBareKeys(raw);
    RescuePanics(q);
    LoneKeyIsShape(q);
    QuoteKeepsOpening(raw);
    QuoteEndsAlike(raw, false, false);
  }

  lemma RescuePanics(q: Text)
    ensures Rescue(q) == Panics <==> LoneKey(q)
  {
    hide Inner, SplitAtColon, FromStr, CommaFrom;
  }

  // ---- What a server sees ----

  /** The text from the first brace on, once leaked quotes are in place. */
  function ArgsText(body: Text): Option<Text> {
    var stripped := Trim(StripPrefix(Trim(Replace(body, LEAK, [QUOTE])), CALL));
    match Find(stripped, "{")
    case Some(brace) => assert OccursAt(stripped, "{", brace); Some(stripped[brace..])
    case None => None
  }

  /** A body whose arguments make recovery panic. */
  predicate Crashing(body: Text) {
    ArgsText(body).Some? && Stages(ArgsText(body).value) == None && LoneQuoteFirst(ArgsText(body).value)
  }

  lemma {:induction false} ReplaceAscii(s: Text)
    requires Ascii(s)
    ensures Ascii(Replace(s, LEAK, [QUOTE]))
    decreases |s|
  {
    if s != "" {
      var n := if LEAK <= s then |LEAK| else 1;
      ReplaceAscii(s[n..]);
    }
  }

  lemma TrimAscii(s: Text)
    requires Ascii(s)
    ensures Ascii(Trim(s))
  {
    TrimStartIs(s);
  }

  lemma ArgsAscii(body: Text)
    requires Ascii(body)
    ensures ArgsText(body).Some? ==> Ascii(ArgsText(body).value)
  {
    hide Trim, Replace, Find;
    var t := Replace(body, LEAK, [QUOTE]);
    ReplaceAscii(body);
    TrimAscii(t);
    TrimAscii(StripPrefix(Trim(t), CALL));
  }

  lemma StrippedCrashes(stripped: Text)
    ensures ParseStripped(stripped) == Crash <==>
              Find(stripped, "{").Some? && ParseArgs(stripped[Find(stripped, "{").value..]) == Panics
  {
    hide ParseArgs, Trim, Find, IsNameChar, Put;
    assert stripped == "" ==> Find(stripped, "{").None? by { if stripped == "" { LacksChar(stripped, '{'); } }
  }

  /** The parser of one body panics exactly on crashing bodies. */
  lemma CrashExactly(body: Text)
    requires Ascii(body)
    ensures ParseBody(body) == Crash <==> Crashing(body)
  {
    hide Trim, Replace, Find, ParseStripped, Stages, LoneQuoteFirst, FromStr, LenientParseObject;
    var stripped := Trim(StripPrefix(Trim(Replace(body, LEAK, [QUOTE])), CALL));
    StrippedCrashes(stripped);
    ArgsAscii(body);
    if ArgsText(body).Some? {
      var raw := ArgsText(body).value;
      PanicsExactly(raw);
      if FromStr(raw).Some? { StrictStays(raw); }
    }
  }

  lemma {:induction false} CallsCrash(bodies: seq<Text>, n: nat)
    ensures CallsFrom(bodies, n) == None <==> exists i :: 0 <= i < |bodies| && ParseBody(bodies[i]) == Crash
  {
    hide ParseBody, Print, Remove, CallId;
    if bodies != [] {
      CallsCrash(bodies[1..], n);
      CallsCrash(bodies[1..], n + 1);
      if i :| 0 <= i < |bodies[1..]| && ParseBody(bodies[1..][i]) == Crash {
        assert ParseBody(bodies[i + 1]) == Crash;
      }
      if i :| 0 <= i < |bodies| && ParseBody(bodies[i]) == Crash {
        if i > 0 { assert ParseBody(bodies[1..][i - 1]) == Crash; }
      }
    }
  }

  lemma {:induction false} BodiesAscii(s: Text)
    requires Ascii(s)
    ensures forall i :: 0 <= i < |Bodies(s)| ==> Ascii(Bodies(s)[i])
    decreases |s|
  {
    hide Find, Contains;
    if Cut(s, OPEN_MARKER).Some? {
      var t := Cut(s, OPEN_MARKER).value.1;
      assert Ascii(t);
      if Cut(t, CLOSE_MARKER).Some? {
        BodiesAscii(Cut(t, CLOSE_MARKER).value.1);
      }
    }
  }

  /** Numbering bodies panics exactly when one of them is crashing. */
  lemma CallsPanicExactly(bodies: seq<Text>)
    requires forall i :: 0 <= i < |bodies| ==> Ascii(bodies[i])
    ensures CallsFrom(bodies, 0) == None <==> exists i :: 0 <= i < |bodies| && Crashing(bodies[i])
  {
    hide ParseBody, Crashing, CallsFrom, Ascii;
    CallsCrash(bodies, 0);
    forall i | 0 <= i < |bodies| ensures ParseBody(bodies[i]) == Crash <==> Crashing(bodies[i]) {
      CrashExactly(bodies[i]);
    }
    if i :| 0 <= i < |bodies| && ParseBody(bodies[i]) == Crash { assert Crashing(bodies[i]); }
    if i :| 0 <= i < |bodies| && Crashing(bodies[i]) { assert ParseBody(bodies[i]) == Crash; }
  }

  /** Extraction from a reply panics exactly when one of its bodies is crashing. */
  lemma ExtractPanicsExactly(text: Text)
    requires Ascii(text)
    ensures ExtractToolCalls(text) == None <==> exists i :: 0 <= i < |Bodies(text)| && Crashing(Bodies(text)[i])
  {
    hide Bodies, ParseBody, Crashing, CallsFrom, Ascii;
    BodiesAscii(text);
    CallsPanicExactly(Bodies(text));
    assert ExtractToolCalls(text) == CallsFrom(Bodies(text), 0);
  }

  /** One quote in the whole body leaks nothing. */
  lemma OneQuoteNoLeak(p: Text, x: Text)
    requires '<' !in p && QUOTE !in x
    ensures Replace(p + "{\":" + x + "}", LEAK, [QUOTE]) == p + "{\":" + x + "}"
  {
    var s := "{\":" + x + "}";
    assert p + "{\":" + x + "}" == p + s;
    forall k | 0 <= k < |s| ensures !(LEAK <= (s + "")[k..]) {
      assert s + "" == s;
      if k + 2 < |s| { assert s[k..][2] == s[k + 2] && (k > 0 ==> s[k + 2] != QUOTE); }
    }
    hide Replace;
    ReplaceNone(s, "");
    ReplaceNothing();
    assert s + "" == s;
    ReplaceCopies(p, s);
  }

  /** Such a body under any name, whatever comes before the reply's markers and after them. */
  lemma LoneQuoteCrashes(prose: Text, name: Text, x: Text, rest: Text)
    requires !Contains(prose, OPEN_MARKER) && IsName(name) && Ascii(x) && QUOTE !in x
    requires !Contains(CALL + name + "{\":" + x + "}", CLOSE_MARKER)
    ensures ExtractToolCalls(prose + OPEN_MARKER + (CALL + name + "{\":" + x + "}" + CLOSE_MARKER + rest)) == None
  {
    hide Find, Contains, Cut, Bodies, LenientParseObject, FromStr, Trim, Replace, ParseStripped, IsName;
    var raw := "{\":" + x + "}";
    var body := CALL + name + "{\":" + x + "}";
    var t := body + CLOSE_MARKER + rest;
    MarkerHeads();
    CutAfter(prose, OPEN_MARKER, t);
    CutAfter(body, CLOSE_MARKER, rest);
    BodiesStep(prose + OPEN_MARKER + t, prose, t, body, rest);
    assert '<' !in CALL + name by { NameStart(name); }
    OneQuoteNoLeak(CALL + name, x);
    assert body == CALL + (name + raw);
    SplitBody(name, raw) by { NoSpaces(); }
    LoneQuotePanics(x);
    RawIsNotStrict(x);
  }

  lemma NameStart(name: Text)
    requires IsName(name)
    ensures '<' !in name
  {}

  lemma MarkerHeads()
    ensures HeadUnique(OPEN_MARKER) && HeadUnique(CLOSE_MARKER)
  {}

  lemma RawIsNotStrict(x: Text)
    requires QUOTE !in x
    ensures FromStr("{\":" + x + "}") == None
  {
    var u := ":" + x + "}";
    assert "{\":" + x + "}" == ['{', QUOTE] + u;
    NeverClosed(u);
    LexUnclosed(u);
  }
}
