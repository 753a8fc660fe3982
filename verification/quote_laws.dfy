// What quoting bare keys preserves, on ASCII texts.
module QuoteLaws {
  import opened Texts
  import opened Json
  import opened JsonText
  import opened JsonScan
  import opened EscapeLaws

  /** A character that the scanner copies outside strings once no key can begin. */
  predicate IsPlain(c: char) {
    c != QUOTE && c != '{' && c != ',' && c < 128 as char
  }

  lemma {:induction false} QuotePlain(p: Text, rest: Text)
    requires forall i :: 0 <= i < |p| ==> IsPlain(p[i])
    ensures QuoteFrom(p + rest, false, false) == p + QuoteFrom(rest, false, false)
  {
    hide QuoteFrom, IsPlain;
    if p == "" {
      assert p + rest == rest;
    } else {
      var s := p + rest;
      assert s[0] == p[0] && s[1..] == p[1..] + rest;
      QuotePlain(p[1..], rest);
      PlainRound(s);
      assert p == [p[0]] + p[1..];
    }
  }

  lemma PlainRound(s: Text)
    requires s != "" && IsPlain(s[0])
    ensures QuoteFrom(s, false, false) == [s[0]] + QuoteFrom(s[1..], false, false)
  {}

  /** White space is copied whether or not a key can begin. */
  lemma {:induction false} QuoteSpace(ws: Text, rest: Text, open: bool)
    requires forall i :: 0 <= i < |ws| ==> IsAsciiSpace(ws[i])
    ensures QuoteFrom(ws + rest, false, open) == ws + QuoteFrom(rest, false, open)
  {
    hide QuoteFrom, IsAsciiSpace;
    if ws == "" {
      assert ws + rest == rest;
    } else {
      var s := ws + rest;
      assert s[0] == ws[0] && s[1..] == ws[1..] + rest;
      QuoteSpace(ws[1..], rest, open);
      SpaceRound(s, open);
      assert ws == [ws[0]] + ws[1..];
    }
  }

  lemma SpaceRound(s: Text, open: bool)
    requires s != "" && IsAsciiSpace(s[0])
    ensures QuoteFrom(s, false, open) == [s[0]] + QuoteFrom(s[1..], false, open)
  {}

  lemma QuoteRoundIs(s: Text, inString: bool, open: bool, st: Step)
    requires s != "" && QuoteStep(s, inString, open) == st
    ensures QuoteFrom(s, inString, open) == st.text + QuoteFrom(s[st.taken..], st.inString, st.open)
  {
    hide QuoteStep;
  }

  /** One round inside a string body. */
  lemma LiteralRound(b: Text, rest: Text, open: bool) returns (n: nat)
    requires b != "" && Balanced(b) && Ascii(b)
    ensures 0 < n <= |b| && Balanced(b[n..]) && Ascii(b[n..])
    ensures var s := b + [QUOTE] + rest;
            QuoteStep(s, true, open) == Step(b[..n], n, true, open) && s[n..] == b[n..] + [QUOTE] + rest
  {
    hide IdentRun, SpaceRun;
    n := if b[0] == BACKSLASH then 2 else 1;
    assert (b + [QUOTE] + rest)[0] == b[0];
  }

  /** The inside of a string and its closing quote are copied. */
  lemma {:induction false} QuoteLiteral(b: Text, rest: Text, open: bool)
    requires Balanced(b) && Ascii(b)
    ensures QuoteFrom(b + [QUOTE] + rest, true, open) == b + [QUOTE] + QuoteFrom(rest, false, open)
    decreases |b|
  {
    hide IdentRun, SpaceRun, QuoteFrom, QuoteStep, Balanced;
    var s := b + [QUOTE] + rest;
    if b == "" {
      assert s == [QUOTE] + rest && s[1..] == rest;
      EndOfLiteral(rest, open);
    } else {
      var n := LiteralRound(b, rest, open);
      QuoteLiteral(b[n..], rest, open);
      QuoteRoundIs(s, true, open, Step(b[..n], n, true, open));
      assert b == b[..n] + b[n..];
      Regroup(b[..n], b[n..], [QUOTE], QuoteFrom(rest, false, open));
    }
  }

  lemma EndOfLiteral(rest: Text, open: bool)
    ensures QuoteFrom([QUOTE] + rest, true, open) == [QUOTE] + QuoteFrom(rest, false, open)
  {
    assert ([QUOTE] + rest)[1..] == rest;
    QuoteRoundIs([QUOTE] + rest, true, open, Step([QUOTE], 1, false, open));
  }

  /** A whole string literal outside strings. */
  lemma QuoteWholeLiteral(b: Text, rest: Text, open: bool)
    requires Balanced(b) && Ascii(b)
    ensures QuoteFrom([QUOTE] + b + [QUOTE] + rest, false, open)
            == [QUOTE] + b + [QUOTE] + QuoteFrom(rest, false, false)
  {
    hide IdentRun, SpaceRun, Balanced, QuoteFrom;
    var s := [QUOTE] + b + [QUOTE] + rest;
    assert s[1..] == b + [QUOTE] + rest;
    QuoteRoundIs(s, false, open, Step([QUOTE], 1, true, false));
    QuoteLiteral(b, rest, false);
    Regroup([QUOTE], b, [QUOTE], QuoteFrom(rest, false, false));
  }

  // ---- Bare keys ----

  /** A key: letters, digits and underscores, and no digit first. */
  predicate IsIdent(w: Text) {
    && w != "" && !('0' <= w[0] <= '9')
    && forall i :: 0 <= i < |w| ==>
         'a' <= w[i] <= 'z' || 'A' <= w[i] <= 'Z' || '0' <= w[i] <= '9' || w[i] == '_'
  }

  /** It is what the scanner takes for one. */
  lemma IdentIs(w: Text)
    ensures IsIdent(w) <==> w != "" && IsIdentStart(w[0]) && forall i :: 0 <= i < |w| ==> IsIdentChar(w[i])
  {}

  /** The white space between a key and its separator: blank, tab, newline, return and form feed. */
  predicate AllAsciiSpace(ws: Text) {
    forall i :: 0 <= i < |ws| ==> ws[i] in [' ', '\t', '\n', '\r', 12 as char]
  }

  /** It is what the scanner takes for white space. */
  lemma AsciiSpaceIs(ws: Text)
    ensures AllAsciiSpace(ws) <==> forall i :: 0 <= i < |ws| ==> IsAsciiSpace(ws[i])
  {}

  lemma IdentParts(w: Text, ws: Text, rest: Text)
    requires IsIdent(w) && AllAsciiSpace(ws) && (rest == "" || !IsAsciiSpace(rest[0]))
    requires ws == "" ==> rest == "" || !IsIdentChar(rest[0])
    ensures var s := w + ws + rest;
            IdentRun(s) == w && SpaceRun(s[|w|..]) == ws && s[|w| + |ws|..] == rest
  {
    var s := w + ws + rest;
    hide IdentRun, SpaceRun;
    assert s == w + (ws + rest) && s[|w|..] == ws + rest;
    IdentRunIs(w, ws + rest);
    SpaceRunIs(ws, rest);
  }

  /** The round at an identifier, when `rest` follows it. */
  lemma IdentRound(w: Text, ws: Text, rest: Text)
    requires IsIdent(w) && AllAsciiSpace(ws) && (rest == "" || !IsAsciiSpace(rest[0]))
    requires ws == "" ==> rest == "" || !IsIdentChar(rest[0])
    ensures QuoteStep(w + ws + rest, false, true) ==
            var q := [QUOTE] + w + [QUOTE];
            if rest != "" && rest[0] == ':' then Step(q, |w|, false, false)
            else if rest != "" && rest[0] == '=' then Step(q + ws + [':'], |w| + |ws| + 1, false, false)
            else Step(w, |w|, false, false)
  {
    var s := w + ws + rest;
    IdentParts(w, ws, rest);
    assert IsIdentStart(s[0]) && s[0] == w[0];
    assert rest != "" ==> s[|w| + |ws|] == rest[0];
    hide IdentRun, SpaceRun, IsIdent;
  }

  lemma {:induction false} QuoteBareKey(w: Text, ws: Text, sep: char, rest: Text)
    requires IsIdent(w) && AllAsciiSpace(ws) && (sep == ':' || sep == '=')
    ensures QuoteFrom(w + ws + [sep] + rest, false, true)
            == [QUOTE] + w + [QUOTE] + ws + [':'] + QuoteFrom(rest, false, false)
  {
    hide IdentRun, SpaceRun, IsIdent, QuoteFrom, QuoteStep;
    var s := w + ws + ([sep] + rest);
    assert s == w + ws + [sep] + rest;
    IdentRound(w, ws, [sep] + rest);
    var q := [QUOTE] + w + [QUOTE];
    if sep == '=' {
      QuoteRoundIs(s, false, true, Step(q + ws + [':'], |w| + |ws| + 1, false, false));
      assert s[|w| + |ws| + 1..] == rest;
    } else {
      QuoteRoundIs(s, false, true, Step(q, |w|, false, false));
      assert s[|w|..] == (ws + [':']) + rest;
      QuotePlain(ws + [':'], rest);
      assert q + (ws + [':'] + QuoteFrom(rest, false, false)) == q + ws + [':'] + QuoteFrom(rest, false, false);
    }
  }

  /** An identifier that no separator follows is copied. */
  lemma {:induction false} QuoteBareWord(w: Text, ws: Text, rest: Text)
    requires IsIdent(w) && AllAsciiSpace(ws) && (rest == "" || !IsAsciiSpace(rest[0]))
    requires ws == "" ==> rest == "" || !IsIdentChar(rest[0])
    requires rest != "" ==> rest[0] != ':' && rest[0] != '='
    ensures QuoteFrom(w + ws + rest, false, true) == w + ws + QuoteFrom(rest, false, false)
  {
    hide IdentRun, SpaceRun, IsIdent, QuoteFrom, QuoteStep;
    var s := w + ws + rest;
    IdentRound(w, ws, rest);
    QuoteRoundIs(s, false, true, Step(w, |w|, false, false));
    assert s[|w|..] == ws + rest;
    QuoteSpace(ws, rest, false);
  }

  /** A run of ASCII without quotes, delimiters, separators or white space. */
  predicate IsRun(p: Text) {
    p != "" && forall i :: 0 <= i < |p| ==>
      ' ' < p[i] < 128 as char && p[i] != '\"' && p[i] != '{' && p[i] != ',' && p[i] != ':' && p[i] != '='
  }

  lemma RunIsPlain(p: Text)
    requires IsRun(p)
    ensures forall i :: 0 <= i < |p| ==> IsPlain(p[i]) && !IsAsciiSpace(p[i]) && p[i] != ':' && p[i] != '='
  {}

  /** A run that is no key is copied even in key position, whatever comes after it. */
  lemma OddRunNotQuoted(p: Text, rest: Text)
    requires IsRun(p) && !IsIdent(p)
    ensures QuoteFrom(p + rest, false, true) == p + QuoteFrom(rest, false, false)
  {
    hide QuoteFrom;
    RunIsPlain(p);
    IdentIs(p);
    if IsIdentStart(p[0]) {
      var w := IdentRun(p);
      var tail := p[|w|..];
      IdentRunStart(p);
      assert p == w + tail && tail != "";
      assert IsIdent(w) by { hide IsIdentStart, IsIdentChar; }
      hide IsIdent, IdentRun;
      assert tail[0] == p[|w|];
      assert w + "" + (tail + rest) == p + rest && w + "" == w;
      QuoteBareWord(w, "", tail + rest);
      PlainEnd(p, |w|);
      QuotePlain(tail, rest);
      ConcatAssociative(w, tail, QuoteFrom(rest, false, false));
    } else {
      var c, t := p[0], p[1..];
      assert p == [c] + t && p + rest == [c] + (t + rest);
      assert !LooksAhead(c, false, true) && NextState(c, false, true) == (false, false);
      HeadRound(c, t + rest, false, true);
      PlainEnd(p, 1);
      QuotePlain(t, rest);
      ConcatAssociative([c], t, QuoteFrom(rest, false, false));
    }
  }

  lemma PlainEnd(p: Text, n: nat)
    requires n <= |p| && forall i :: 0 <= i < |p| ==> IsPlain(p[i])
    ensures forall i :: 0 <= i < |p[n..]| ==> IsPlain(p[n..][i])
  {
    hide IsPlain;
    assert forall i :: 0 <= i < |p[n..]| ==> p[n..][i] == p[n + i];
  }

  // ---- A second pass changes nothing ----

  /** The state after a character that is read by itself. */
  function NextState(c: char, inString: bool, open: bool): (bool, bool) {
    if inString then (c != QUOTE, open)
    else (c == QUOTE, c == '{' || c == ',' || (IsAsciiSpace(c) && open))
  }

  /** Whether a round at `c` may look beyond it. */
  predicate LooksAhead(c: char, inString: bool, open: bool) {
    if inString then c == BACKSLASH else open && IsIdentStart(c)
  }

  lemma HeadRound(c: char, t: Text, inString: bool, open: bool)
    requires c < 128 as char && !LooksAhead(c, inString, open)
    ensures var next := NextState(c, inString, open);
            QuoteFrom([c] + t, inString, open) == [c] + QuoteFrom(t, next.0, next.1)
  {
    var next := NextState(c, inString, open);
    var s := [c] + t;
    assert s[1..] == t;
    assert QuoteStep(s, inString, open) == Step([c], 1, next.0, next.1) by { hide IdentRun, SpaceRun; }
    hide QuoteFrom, QuoteStep;
    QuoteRoundIs(s, inString, open, Step([c], 1, next.0, next.1));
  }

  lemma EscapeRound(c: char, t: Text, open: bool)
    requires c < 128 as char
    ensures QuoteFrom([BACKSLASH, c] + t, true, open) == [BACKSLASH, c] + QuoteFrom(t, true, open)
    ensures QuoteFrom([BACKSLASH], true, open) == [BACKSLASH]
  {
    var s := [BACKSLASH, c] + t;
    assert s[2..] == t;
    QuoteRoundIs(s, true, open, Step([BACKSLASH, c], 2, true, open));
    QuoteRoundIs([BACKSLASH], true, open, Step([BACKSLASH], 1, true, open));
  }

  lemma IdentBalanced(w: Text)
    requires IsIdent(w)
    ensures Balanced(w) && Ascii(w)
  {
    BalancedAfterPlain(w, "");
    assert w + "" == w;
  }

  /** A first solid character stays first when no key can begin. */
  lemma HeadStays(s: Text)
    requires s != "" && Ascii(s)
    ensures QuoteFrom(s, false, false) != "" && QuoteFrom(s, false, false)[0] == s[0]
  {
    HeadRound(s[0], s[1..], false, false);
    assert s == [s[0]] + s[1..];
  }

  /** A text that begins with an identifier: the identifier, the white space after it, and the rest. */
  lemma IdentSplit(s: Text) returns (w: Text, ws: Text, rest: Text)
    requires s != "" && IsIdentStart(s[0])
    ensures s == w + ws + rest && IsIdent(w) && AllAsciiSpace(ws) && (rest == "" || !IsAsciiSpace(rest[0]))
    ensures ws == "" ==> rest == "" || !IsIdentChar(rest[0])
  {
    hide IdentRun, SpaceRun, IsIdentChar, IsAsciiSpace, IsIdentStart, IsIdent;
    w := IdentRun(s);
    var t := s[|w|..];
    ws := SpaceRun(t);
    AsciiSpaceIs(ws);
    rest := t[|ws|..];
    IdentRunStart(s);
    ConcatAssociative(w, ws, rest);
  }

  lemma IdentRunStart(s: Text)
    requires s != "" && IsIdentStart(s[0])
    ensures IdentRun(s) != "" && IsIdent(IdentRun(s))
  {}

  lemma QuotedKeyAgain(w: Text, ws: Text, rest: Text)
    requires IsIdent(w) && AllAsciiSpace(ws)
    ensures QuoteFrom([QUOTE] + w + [QUOTE] + ws + [':'] + rest, false, true)
         == [QUOTE] + w + [QUOTE] + ws + [':'] + QuoteFrom(rest, false, false)
  {
    hide QuoteFrom, IsIdent;
    IdentBalanced(w);
    var p := ws + [':'];
    var q := [QUOTE] + w + [QUOTE];
    assert q + ws + [':'] + rest == q + (p + rest);
    QuoteWholeLiteral(w, p + rest, true);
    QuotePlain(p, rest);
    assert q + (p + QuoteFrom(rest, false, false)) == q + ws + [':'] + QuoteFrom(rest, false, false);
  }

  lemma {:induction false} QuoteTwiceAtIdent(s: Text)
    requires Ascii(s) && s != "" && IsIdentStart(s[0])
    ensures QuoteFrom(QuoteFrom(s, false, true), false, true) == QuoteFrom(s, false, true)
    decreases |s|, 0
  {
    hide QuoteFrom, IsIdent;
    var w, ws, rest := IdentSplit(s);
    AsciiParts(w + ws, rest);
    assert |w| > 0 by { IdentNonempty(w); }
    if rest != "" && (rest[0] == ':' || rest[0] == '=') {
      var tail := rest[1..];
      assert s == w + ws + [rest[0]] + tail;
      AsciiParts(rest[..1], tail);
      QuoteBareKey(w, ws, rest[0], tail);
      QuoteTwice(tail, false, false);
      QuotedKeyAgain(w, ws, QuoteFrom(tail, false, false));
    } else {
      QuoteBareWord(w, ws, rest);
      QuoteTwice(rest, false, false);
      if rest == "" { assert QuoteFrom(rest, false, false) == "" by { QuoteEmpty(); } } else { HeadStays(rest); }
      QuoteBareWord(w, ws, QuoteFrom(rest, false, false));
    }
  }

  lemma IdentNonempty(w: Text)
    requires IsIdent(w)
    ensures w != ""
  {}

  lemma QuoteEmpty()
    ensures forall inString, open :: QuoteFrom("", inString, open) == ""
  {}

  lemma {:induction false} QuoteTwice(s: Text, inString: bool, open: bool)
    requires Ascii(s)
    ensures QuoteFrom(QuoteFrom(s, inString, open), inString, open) == QuoteFrom(s, inString, open)
    decreases |s|, 1
  {
    hide QuoteFrom;
    QuoteEmpty();
    if s == "" {
    } else if !LooksAhead(s[0], inString, open) {
      var next := NextState(s[0], inString, open);
      var t := s[1..];
      assert s == [s[0]] + t;
      QuoteTwice(t, next.0, next.1);
      HeadRound(s[0], t, inString, open);
      HeadRound(s[0], QuoteFrom(t, next.0, next.1), inString, open);
    } else if !inString {
      QuoteTwiceAtIdent(s);
    } else if |s| == 1 {
      assert s == [BACKSLASH];
      EscapeRound(' ', "", open);
    } else {
      var t := s[2..];
      assert s == [BACKSLASH, s[1]] + t;
      QuoteTwice(t, true, open);
      EscapeRound(s[1], t, open);
      EscapeRound(s[1], QuoteFrom(t, true, open), open);
    }
  }

  lemma QuoteIdempotent(s: Text)
    requires Ascii(s)
    ensures QuoteBareKeys(QuoteBareKeys(s)) == QuoteBareKeys(s)
  {
    QuoteTwice(s, false, false);
  }

  // ---- Strict texts are left alone ----

  /** The lexemes after a string may begin with a colon. */
  predicate Settled(ts: seq<Lexeme>, open: bool) {
    WellShaped(ts, open) || (ts != [] && ts[0] == Punct(':') && WellShaped(ts[1..], false))
  }

  /** The next solid character is one that may come after a value. */
  predicate EndsValue(s: Text) {
    var n := |SpaceRun(s)|;
    n < |s| ==> s[n] == ',' || s[n] == ']' || s[n] == '}'
  }

  /** After a value the next solid character is no key separator. */
  lemma {:induction false} NoSeparatorAfterValue(s: Text)
    requires Lex(s).Some? && Follows(Lex(s).value)
    ensures EndsValue(s)
  {
    hide ScanBody, WordRun;
    if s != "" && IsJsonSpace(s[0]) {
      NoSeparatorAfterValue(s[1..]);
    }
  }

  lemma ScalarStart(w: Text)
    requires IsScalarWord(w) && w != ""
    ensures IsIdentStart(w[0]) ==> IsIdent(w)
    ensures forall i :: 0 <= i < |w| && IsWordChar(w[i]) ==> IsPlain(w[i])
  {
    assert IsIdentStart(w[0]) ==> DigitRun(w) == "";
  }

  /** What the first lexeme of a settled sequence leaves to be settled. */
  lemma SettledNext(ts: seq<Lexeme>, open: bool)
    requires ts != [] && Settled(ts, open)
    ensures ts[0].Punct? ==> Settled(ts[1..], ts[0].c == '{' || ts[0].c == ',')
    ensures ts[0].Lit? ==> Settled(ts[1..], false)
    ensures ts[0].Word? ==> Settled(ts[1..], false) && Follows(ts[1..]) && IsScalarWord(ts[0].text)
  {
    hide IsScalarWord, DecodeBody;
    if |ts| > 1 { assert ts[1..][1..] == ts[2..]; }
  }

  lemma QuoteAtWord(w: Text, rest: Text, open: bool)
    requires w != "" && IsScalarWord(w) && (forall i :: 0 <= i < |w| ==> IsWordChar(w[i])) && EndsValue(rest)
    ensures QuoteFrom(w + rest, false, open) == w + QuoteFrom(rest, false, false)
  {
    hide QuoteFrom, IsScalarWord, IsIdent, IsWordChar;
    ScalarStart(w);
    if open && IsIdentStart(w[0]) {
      var ws := SpaceRun(rest);
      var tail := rest[|ws|..];
      assert rest == ws + tail && w + rest == w + ws + tail;
      QuoteBareWord(w, ws, tail);
      QuoteSpace(ws, tail, false);
      ConcatAssociative(w, ws, QuoteFrom(tail, false, false));
    } else {
      var t := w[1..] + rest;
      assert w + rest == [w[0]] + t && w == [w[0]] + w[1..];
      WordCharState(w[0], open);
      HeadRound(w[0], t, false, open);
      QuotePlain(w[1..], rest);
    }
  }

  lemma WordCharState(c: char, open: bool)
    requires IsWordChar(c)
    ensures NextState(c, false, open) == (false, false) && c < 128 as char
  {}

  lemma {:induction false} QuoteFixesLexed(s: Text, open: bool)
    requires Ascii(s) && Lex(s).Some? && Settled(Lex(s).value, open)
    ensures QuoteFrom(s, false, open) == s
    decreases |s|
  {
    hide QuoteFrom, ScanBody, WordRun, Settled, IsScalarWord, IsWordChar, EndsValue;
    if s == "" {
      QuoteEmpty();
    } else if IsJsonSpace(s[0]) {
      QuoteFixesLexed(s[1..], open);
      SpaceRound(s, open);
    } else if IsPunct(s[0]) {
      SettledNext(Lex(s).value, open);
      assert s == [s[0]] + s[1..];
      HeadRound(s[0], s[1..], false, open);
      QuoteFixesLexed(s[1..], s[0] == '{' || s[0] == ',');
    } else if s[0] == QUOTE {
      SettledNext(Lex(s).value, open);
      var b, rest := ScanBody(s[1..]).value.0, ScanBody(s[1..]).value.1;
      ScannedBalanced(s[1..]);
      assert s == [QUOTE] + b + [QUOTE] + rest;
      AsciiParts([QUOTE] + b + [QUOTE], rest);
      AsciiParts([QUOTE] + b, [QUOTE]);
      AsciiParts([QUOTE], b);
      QuoteWholeLiteral(b, rest, open);
      QuoteFixesLexed(rest, false);
    } else {
      SettledNext(Lex(s).value, open);
      var w := WordRun(s);
      var rest := s[|w|..];
      assert s == w + rest;
      assert w != "" by { WordRunStarts(s); }
      AsciiParts(w, rest);
      QuoteFixesLexed(rest, false);
      NoSeparatorAfterValue(rest);
      QuoteAtWord(w, rest, open);
    }
  }

  lemma WordRunStarts(s: Text)
    requires s != "" && IsWordChar(s[0])
    ensures WordRun(s) != ""
  {}

  lemma RoundGrows(s: Text, inString: bool, open: bool)
    requires s != ""
    ensures var st := QuoteStep(s, inString, open);
            |st.text| >= st.taken && (|st.text| == st.taken ==> Ascii(s[..st.taken]))
  {
    hide IdentRun, SpaceRun;
    if !inString && open && IsIdentStart(s[0]) {
      IdentRunAscii(s);
    }
  }

  lemma IdentRunAscii(s: Text)
    ensures Ascii(IdentRun(s))
  {
    hide IdentRun;
  }

  lemma {:induction false} QuoteGrows(s: Text, inString: bool, open: bool)
    ensures |QuoteFrom(s, inString, open)| >= |s|
    ensures QuoteFrom(s, inString, open) == s ==> Ascii(s)
    decreases |s|
  {
    hide QuoteStep;
    if s != "" {
      var st := QuoteStep(s, inString, open);
      RoundGrows(s, inString, open);
      var t := s[st.taken..];
      QuoteGrows(t, st.inString, st.open);
      assert s == s[..st.taken] + t;
      AsciiParts(s[..st.taken], t);
      var r := QuoteFrom(t, st.inString, st.open);
      if st.text + r == s {
        assert |st.text| == st.taken && r == (st.text + r)[st.taken..];
      }
    }
  }

  /** Quoting leaves a strict JSON text as it is exactly when it is ASCII. */
  lemma QuoteFixesStrict(s: Text)
    requires FromStr(s).Some?
    ensures QuoteBareKeys(s) == s <==> Ascii(s)
  {
    QuoteGrows(s, false, false);
    AcceptedShape(Lex(s).value);
    if Ascii(s) { QuoteFixesLexed(s, false); }
  }

  // ---- Only keys are edited ----

  /** A stretch of a text: one character or a string, copied, or a bare key with its separator. */
  datatype Piece = Other(c: char) | Whole(body: Text) | Unended(body: Text) | Key(word: Text, ws: Text, sep: char)

  function Before(p: Piece): Text {
    match p
    case Other(c) => [c]
    case Whole(b) => [QUOTE] + b + [QUOTE]
    case Unended(b) => [QUOTE] + b
    case Key(w, ws, sep) => w + ws + [sep]
  }

  /** A key gains its quotes and `:`; everything else is as before. */
  function After(p: Piece): Text {
    match p
    case Key(w, ws, sep) => [QUOTE] + w + [QUOTE] + ws + [':']
    case _ => Before(p)
  }

  function AllBefore(ps: seq<Piece>): Text {
    if ps == [] then "" else Before(ps[0]) + AllBefore(ps[1..])
  }

  function AllAfter(ps: seq<Piece>): Text {
    if ps == [] then "" else After(ps[0]) + AllAfter(ps[1..])
  }

  /** Strings are whole or run to the end, and keys are identifiers that come after `{` or `,`. */
  predicate InPlace(ps: seq<Piece>, open: bool) {
    ps == [] ||
    match ps[0]
    case Other(c) => c != QUOTE && InPlace(ps[1..], NextState(c, false, open).1)
    case Whole(b) => Balanced(b) && InPlace(ps[1..], false)
    case Unended(b) => ScanBody(b).None? && |ps| == 1
    case Key(w, ws, sep) =>
      open && IsIdent(w) && AllAsciiSpace(ws) && (sep == ':' || sep == '=') && InPlace(ps[1..], false)
  }

  lemma {:induction false} QuoteUnclosed(u: Text, open: bool)
    requires Ascii(u) && ScanBody(u).None?
    ensures QuoteFrom(u, true, open) == u
    decreases |u|
  {
    hide QuoteFrom;
    QuoteEmpty();
    if u == "" {
    } else if u[0] != BACKSLASH {
      assert u == [u[0]] + u[1..];
      QuoteUnclosed(u[1..], open);
      HeadRound(u[0], u[1..], true, open);
    } else if |u| == 1 {
      assert u == [BACKSLASH];
      EscapeRound(' ', "", open);
    } else {
      assert u == [BACKSLASH, u[1]] + u[2..];
      QuoteUnclosed(u[2..], open);
      EscapeRound(u[1], u[2..], open);
    }
  }

  lemma OnePiece(p: Piece, ps: seq<Piece>)
    ensures AllBefore([p] + ps) == Before(p) + AllBefore(ps) && AllAfter([p] + ps) == After(p) + AllAfter(ps)
  {
    assert ([p] + ps)[1..] == ps;
  }

  lemma NoPieces(ps: seq<Piece>)
    requires AllBefore(ps) == ""
    ensures ps == []
  {}

  /** The pieces of a text: before, they spell the text; after, they spell what quoting makes of it. */
  lemma {:induction false} QuoteEditsKeys(s: Text, open: bool) returns (ps: seq<Piece>)
    requires Ascii(s)
    ensures InPlace(ps, open) && AllBefore(ps) == s && AllAfter(ps) == QuoteFrom(s, false, open)
    decreases |s|
  {
    ps := [];
    if s != "" {
      var p, rest, open' := FirstPiece(s, open);
      var more := QuoteEditsKeys(rest, open');
      ps := [p] + more;
      OnePiece(p, more);
      assert ps[1..] == more;
      if p.Unended? { NoPieces(more); }
      hide QuoteFrom, AllBefore, AllAfter;
    } else {
      QuoteEmpty();
    }
  }

  /** How a first piece and what follows it fit together. */
  predicate Fits(p: Piece, rest: Text, open: bool, open': bool) {
    match p
    case Other(c) => c != QUOTE && open' == NextState(c, false, open).1
    case Whole(b) => Balanced(b) && !open'
    case Unended(b) => ScanBody(b).None? && rest == ""
    case Key(w, ws, sep) => open && IsIdent(w) && AllAsciiSpace(ws) && (sep == ':' || sep == '=') && !open'
  }

  lemma FirstPiece(s: Text, open: bool) returns (p: Piece, rest: Text, open': bool)
    requires s != "" && Ascii(s)
    ensures s == Before(p) + rest && |rest| < |s| && Ascii(rest) && Fits(p, rest, open, open')
    ensures QuoteFrom(s, false, open) == After(p) + QuoteFrom(rest, false, open')
  {
    hide QuoteFrom, ScanBody, IsIdent, Balanced;
    var u := s[1..];
    assert s == [s[0]] + u;
    AsciiParts([s[0]], u);
    if s[0] == QUOTE {
      p, rest := StringPiece(u, open);
      open' := false;
    } else if open && IsIdentStart(s[0]) {
      p, rest := IdentPiece(s);
      open' := false;
    } else {
      HeadRound(s[0], u, false, open);
      p, rest, open' := Other(s[0]), u, NextState(s[0], false, open).1;
    }
  }

  lemma StringPiece(u: Text, open: bool) returns (p: Piece, rest: Text)
    requires Ascii(u)
    ensures [QUOTE] + u == Before(p) + rest && |rest| <= |u| && Ascii(rest) && Fits(p, rest, open, false)
    ensures QuoteFrom([QUOTE] + u, false, open) == After(p) + QuoteFrom(rest, false, false)
  {
    hide QuoteFrom;
    QuoteEmpty();
    if ScanBody(u).Some? {
      var b := ScanBody(u).value.0;
      rest := ScanBody(u).value.1;
      ScannedBalanced(u);
      hide ScanBody;
      AsciiParts(b + [QUOTE], rest);
      AsciiParts(b, [QUOTE]);
      assert [QUOTE] + u == [QUOTE] + b + [QUOTE] + rest;
      QuoteWholeLiteral(b, rest, open);
      p := Whole(b);
    } else {
      p, rest := Unended(u), "";
      HeadRound(QUOTE, u, false, open);
      QuoteUnclosed(u, false);
    }
  }

  lemma IdentPiece(s: Text) returns (p: Piece, rest: Text)
    requires s != "" && IsIdentStart(s[0]) && Ascii(s)
    ensures s == Before(p) + rest && |rest| < |s| && Ascii(rest) && Fits(p, rest, true, false)
    ensures QuoteFrom(s, false, true) == After(p) + QuoteFrom(rest, false, false)
  {
    hide QuoteFrom, IsIdent;
    var w, ws, tail := IdentSplit(s);
    AsciiParts(w + ws, tail);
    IdentNonempty(w);
    if tail != "" && (tail[0] == ':' || tail[0] == '=') {
      rest := tail[1..];
      p := Key(w, ws, tail[0]);
      assert tail == [tail[0]] + rest;
      AsciiParts(tail[..1], rest);
      assert s == w + ws + [tail[0]] + rest;
      QuoteBareKey(w, ws, tail[0], rest);
    } else {
      p, rest := Other(s[0]), s[1..];
      QuoteBareWord(w, ws, tail);
      IdentPlain(w, ws);
      assert rest == w[1..] + ws + tail;
      QuotePlain(w[1..] + ws, tail);
      assert w + ws == [s[0]] + (w[1..] + ws);
    }
  }

  lemma IdentPlain(w: Text, ws: Text)
    requires IsIdent(w) && AllAsciiSpace(ws)
    ensures forall i :: 0 <= i < |w[1..] + ws| ==> IsPlain((w[1..] + ws)[i])
  {
    forall i | 0 <= i < |w[1..] + ws| ensures IsPlain((w[1..] + ws)[i]) {
      if i < |w| - 1 { assert (w[1..] + ws)[i] == w[i + 1]; } else { assert (w[1..] + ws)[i] == ws[i - (|w| - 1)]; }
    }
  }

  /** What quoting makes of a text differs from it at bare keys only, and shows the same strings. */
  lemma QuoteOnlyEditsKeys(s: Text)
    requires Ascii(s)
    ensures exists ps :: InPlace(ps, false) && AllBefore(ps) == s && AllAfter(ps) == QuoteBareKeys(s)
  {
    var ps := QuoteEditsKeys(s, false);
  }
}
