// The regular expressions of the structural rescue, spelled out: what each of
// them matches at the start of a text, part by part.
module StructuralPatterns {
  import opened Texts
  import opened Json
  import opened StructuralQuotes
  import opened StructuralRecovery

  // ---- The parts ----

  /** Any white space. */
  predicate White(ws: Text) {
    forall i :: 0 <= i < |ws| ==> ws[i] == ' ' || (9 as char <= ws[i] <= 13 as char)
  }

  /** A quote, escaped or not. */
  predicate AnyQuote(q: Text) {
    q == "\"" || q == "\\\""
  }

  /** Key between quotes, and its colon. */
  datatype KeyPart = KeyPart(before: Text, open: Text, key: Text, close: Text, mid: Text)

  predicate KeyPartOk(k: KeyPart) {
    White(k.before) && AnyQuote(k.open) && PatternKey(k.key) && AnyQuote(k.close) && White(k.mid)
  }

  function KeyPartThen(k: KeyPart, rest: Text): Text {
    k.before + (k.open + (k.key + (k.close + (k.mid + ([':'] + rest)))))
  }

  const KEY_PARTS: Pattern := Cons(Spaces, Cons(Quote, Cons(Atom.Key, Cons(Quote, Cons(Spaces, Cons(Colon, Nil))))))

  // ---- One atom ----

  lemma SpacesIs(t: Text) returns (ws: Text)
    ensures AfterAtom(Spaces, t).Some?
    ensures t == ws + AfterAtom(Spaces, t).value && White(ws)
    ensures var u := AfterAtom(Spaces, t).value; u == "" || !IsSpace(u[0])
  {
    TrimStartIs(t);
    ws := t[..|t| - |TrimStart(t)|];
    SkippedIsWhite(t);
  }

  lemma {:induction false} SkippedIsWhite(s: Text)
    ensures White(s[..|s| - |TrimStart(s)|])
  {
    if s != "" && IsSpace(s[0]) {
      SkippedIsWhite(s[1..]);
      var n := |s| - |TrimStart(s)|;
      assert s[..n] == [s[0]] + s[1..][..n - 1];
    }
  }

  lemma SpacesMatch(ws: Text, t: Text)
    requires White(ws) && t != "" && !IsSpace(t[0])
    ensures AfterAtom(Spaces, ws + t) == Some(t)
  {
    TrimStartSkips(ws, t);
  }

  lemma QuoteIsAny(t: Text) returns (q: Text)
    requires AfterAtom(Quote, t).Some?
    ensures t == q + AfterAtom(Quote, t).value && AnyQuote(q)
  {
    q := if EscapedQuoteStarts(t) then t[..2] else t[..1];
    assert EscapedQuoteStarts(t) ==> t[..2] == [t[0], t[1]];
  }

  lemma QuoteMatches(q: Text, t: Text)
    requires AnyQuote(q)
    ensures AfterAtom(Quote, q + t) == Some(t) && q + t != "" && !IsSpace((q + t)[0]) && !IsKeyChar((q + t)[0])
  {
    assert (q + t)[|q|..] == t;
  }

  lemma KeyIs(t: Text) returns (k: Text)
    requires AfterAtom(Atom.Key, t).Some?
    ensures t == k + AfterAtom(Atom.Key, t).value && PatternKey(k)
  {
    var n := KeyLength(t);
    k := t[..n];
    assert IsKeyChar(t[0]) ==> n > 0 by { if IsKeyChar(t[0]) { KeyHead(t); } }
    hide KeyLength;
  }

  lemma KeyHead(t: Text)
    requires t != "" && IsKeyChar(t[0])
    ensures KeyLength(t) > 0
  {}

  lemma CharIs(t: Text, c: char)
    requires AfterChar(t, c).Some?
    ensures t == [c] + AfterChar(t, c).value
  {}

  // ---- A key and its colon ----

  lemma StepBack(x: Atom, p: Pattern, t: Text)
    requires AfterMatch(Cons(x, p), t).Some?
    ensures AfterAtom(x, t).Some? && AfterMatch(p, AfterAtom(x, t).value) == AfterMatch(Cons(x, p), t)
  {
    hide AfterAtom;
  }

  /** What matches the parts up to the colon is them. */
  lemma KeyPartsAre(p: Pattern, t: Text) returns (k: KeyPart, rest: Text)
    requires AfterMatch(Cons(Spaces, Cons(Quote, Cons(Atom.Key, Cons(Quote, Cons(Spaces, Cons(Colon, p)))))), t).Some?
    ensures t == KeyPartThen(k, rest) && KeyPartOk(k)
    ensures var q := Cons(Spaces, Cons(Quote, Cons(Atom.Key, Cons(Quote, Cons(Spaces, Cons(Colon, p))))));
            AfterMatch(p, rest) == AfterMatch(q, t)
  {
    hide AfterAtom, AfterMatch, White, AnyQuote, PatternKey;
    var p5 := Cons(Colon, p);
    var p4 := Cons(Spaces, p5);
    var p3 := Cons(Quote, p4);
    var p2 := Cons(Atom.Key, p3);
    var p1 := Cons(Quote, p2);
    StepBack(Spaces, p1, t);
    var before := SpacesIs(t);
    var t1 := AfterAtom(Spaces, t).value;
    StepBack(Quote, p2, t1);
    var open := QuoteIsAny(t1);
    var t2 := AfterAtom(Quote, t1).value;
    StepBack(Atom.Key, p3, t2);
    var key := KeyIs(t2);
    var t3 := AfterAtom(Atom.Key, t2).value;
    StepBack(Quote, p4, t3);
    var close := QuoteIsAny(t3);
    var t4 := AfterAtom(Quote, t3).value;
    StepBack(Spaces, p5, t4);
    var mid := SpacesIs(t4);
    var t5 := AfterAtom(Spaces, t4).value;
    StepBack(Colon, p, t5);
    ColonIs(t5);
    k, rest := KeyPart(before, open, key, close, mid), AfterAtom(Colon, t5).value;
  }

  lemma ColonIs(t: Text)
    requires AfterAtom(Colon, t).Some?
    ensures t == [':'] + AfterAtom(Colon, t).value
  {
    CharIs(t, ':');
  }

  /** These parts match. */
  lemma KeyPartsMatch(p: Pattern, k: KeyPart, rest: Text)
    requires KeyPartOk(k)
    ensures var q := Cons(Spaces, Cons(Quote, Cons(Atom.Key, Cons(Quote, Cons(Spaces, Cons(Colon, p))))));
            AfterMatch(q, KeyPartThen(k, rest)) == AfterMatch(p, rest)
  {
    hide AfterAtom, AfterMatch, White, AnyQuote, PatternKey, IsSpace, IsKeyChar;
    var c := [':'] + rest;
    var t4 := k.mid + c;
    var t3 := k.close + t4;
    var t2 := k.key + t3;
    var t1 := k.open + t2;
    ColonFirst(rest);
    QuoteMatches(k.open, t2);
    QuoteMatches(k.close, t4);
    SpacesMatch(k.before, t1);
    KeyAtom(k.key, t3);
    SpacesMatch(k.mid, c);
    Step(Colon, p, c, rest);
    Step(Spaces, Cons(Colon, p), t4, c);
    Step(Quote, Cons(Spaces, Cons(Colon, p)), t3, t4);
    Step(Atom.Key, Cons(Quote, Cons(Spaces, Cons(Colon, p))), t2, t3);
    Step(Quote, Cons(Atom.Key, Cons(Quote, Cons(Spaces, Cons(Colon, p)))), t1, t2);
    Step(Spaces, Cons(Quote, Cons(Atom.Key, Cons(Quote, Cons(Spaces, Cons(Colon, p))))), k.before + t1, t1);
  }

  // ---- The three expressions ----

  /** A delimiter, a key and its colon, and the quote that opens its value. */
  ghost predicate KvText(t: Text, u: Text, d: char, k: KeyPart, ws: Text, q: Text) {
    (d == '{' || d == ',') && KeyPartOk(k) && White(ws) && AnyQuote(q) && t == [d] + KeyPartThen(k, ws + (q + u))
  }

  /** A quote, a comma, and the next key and its colon. */
  ghost predicate CloseText(t: Text, u: Text, q: Text, ws: Text, k: KeyPart) {
    AnyQuote(q) && White(ws) && KeyPartOk(k) && t == q + (ws + ("," + KeyPartThen(k, u)))
  }

  /** An escaped quote before the closing brace. */
  ghost predicate LastText(t: Text, u: Text, ws: Text) {
    White(ws) && t == "\\\"" + (ws + ("}" + u))
  }

  /** `STRUCTURAL_KV_PAIR` */
  lemma KvPairIs(t: Text, u: Text)
    ensures AfterMatch(KV_PAIR, t) == Some(u) <==> exists d, k, ws, q :: KvText(t, u, d, k, ws, q)
  {
    hide AfterAtom, AfterMatch, White, AnyQuote, KeyPartOk, KeyPartThen;
    var tail := Cons(Spaces, Cons(Quote, Nil));
    if AfterMatch(KV_PAIR, t) == Some(u) {
      StepBack(Delim, KV_TAIL, t);
      DelimIs(t);
      var k, rest := KeyPartsAre(tail, t[1..]);
      StepBack(Spaces, Cons(Quote, Nil), rest);
      var ws := SpacesIs(rest);
      var r := AfterAtom(Spaces, rest).value;
      StepBack(Quote, Nil, r);
      var q := QuoteIsAny(r);
      AfterNil(AfterAtom(Quote, r).value);
      assert KvText(t, u, t[0], k, ws, q);
    }
    if d, k, ws, q :| KvText(t, u, d, k, ws, q) {
      var rest := ws + (q + u);
      DelimMatches(d, KeyPartThen(k, rest));
      Step(Delim, KV_TAIL, t, KeyPartThen(k, rest));
      KeyPartsMatch(tail, k, rest);
      QuoteMatches(q, u);
      SpacesMatch(ws, q + u);
      Step(Spaces, Cons(Quote, Nil), rest, q + u);
      Step(Quote, Nil, q + u, u);
      AfterNil(u);
    }
  }

  lemma DelimIs(t: Text)
    requires AfterAtom(Delim, t).Some?
    ensures t != "" && (t[0] == '{' || t[0] == ',') && t == [t[0]] + t[1..] && AfterAtom(Delim, t) == Some(t[1..])
  {}

  lemma DelimMatches(d: char, t: Text)
    requires d == '{' || d == ','
    ensures AfterAtom(Delim, [d] + t) == Some(t)
  {
    assert ([d] + t)[1..] == t;
  }

  /** `STRUCTURAL_VALUE_CLOSE_THEN_KEY` */
  lemma CloseThenKeyIs(t: Text, u: Text)
    ensures AfterMatch(CLOSE_THEN_KEY, t) == Some(u) <==> exists q, ws, k :: CloseText(t, u, q, ws, k)
  {
    hide AfterAtom, AfterMatch, White, AnyQuote, KeyPartOk, KeyPartThen;
    var p2 := Cons(Comma, KEY_PARTS);
    var p1 := Cons(Spaces, p2);
    if AfterMatch(CLOSE_THEN_KEY, t) == Some(u) {
      StepBack(Quote, p1, t);
      var q := QuoteIsAny(t);
      var t1 := AfterAtom(Quote, t).value;
      StepBack(Spaces, p2, t1);
      var ws := SpacesIs(t1);
      var t2 := AfterAtom(Spaces, t1).value;
      StepBack(Comma, KEY_PARTS, t2);
      CommaIs(t2);
      var k, rest := KeyPartsAre(Nil, AfterAtom(Comma, t2).value);
      AfterNil(rest);
      assert CloseText(t, u, q, ws, k);
    }
    if q, ws, k :| CloseText(t, u, q, ws, k) {
      var t2 := "," + KeyPartThen(k, u);
      QuoteMatches(q, ws + t2);
      CommaFirst(KeyPartThen(k, u));
      SpacesMatch(ws, t2);
      CommaAtom(KeyPartThen(k, u));
      Step(Quote, p1, t, ws + t2);
      Step(Spaces, p2, ws + t2, t2);
      Step(Comma, KEY_PARTS, t2, KeyPartThen(k, u));
      KeyPartsMatch(Nil, k, u);
      AfterNil(u);
    }
  }

  lemma CommaIs(t: Text)
    requires AfterAtom(Comma, t).Some?
    ensures t == "," + AfterAtom(Comma, t).value
  {
    CharIs(t, ',');
  }

  lemma CommaFirst(t: Text)
    ensures "," + t != "" && !IsSpace(("," + t)[0]) && "}" + t != "" && !IsSpace(("}" + t)[0])
  {}

  /** `STRUCTURAL_VALUE_CLOSE` */
  lemma LastCloseIs(t: Text, u: Text)
    ensures AfterMatch(LAST_CLOSE, t) == Some(u) <==> exists ws :: LastText(t, u, ws)
  {
    hide AfterAtom, AfterMatch, White;
    var p1 := Cons(Spaces, Cons(Close, Nil));
    if AfterMatch(LAST_CLOSE, t) == Some(u) {
      StepBack(EscapedQuote, p1, t);
      EscapedIs(t);
      var t1 := AfterAtom(EscapedQuote, t).value;
      StepBack(Spaces, Cons(Close, Nil), t1);
      var ws := SpacesIs(t1);
      var t2 := AfterAtom(Spaces, t1).value;
      StepBack(Close, Nil, t2);
      CloseIs(t2);
      AfterNil(AfterAtom(Close, t2).value);
      assert LastText(t, u, ws);
    }
    if ws :| LastText(t, u, ws) {
      var t2 := "}" + u;
      CommaFirst(u);
      EscapedAtom(ws + t2);
      QIs();
      SpacesMatch(ws, t2);
      CloseMatch(u);
      Step(EscapedQuote, p1, t, ws + t2);
      Step(Spaces, Cons(Close, Nil), ws + t2, t2);
      Step(Close, Nil, t2, u);
      AfterNil(u);
    }
  }

  lemma EscapedIs(t: Text)
    requires AfterAtom(EscapedQuote, t).Some?
    ensures t == "\\\"" + AfterAtom(EscapedQuote, t).value
  {
    assert t[..2] == [t[0], t[1]];
  }

  lemma CloseIs(t: Text)
    requires AfterAtom(Close, t).Some?
    ensures t == "}" + AfterAtom(Close, t).value
  {
    CharIs(t, '}');
  }

  lemma CloseMatch(t: Text)
    ensures AfterAtom(Close, "}" + t) == Some(t)
  {
    CharAtom('}', t);
  }
}
