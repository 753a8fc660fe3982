// What the rescue of structural quotes is for: an object of strings of whose
// structural quotes any were written escaped is recovered.
module StructuralRecovery {
  import opened Texts
  import opened Json
  import opened JsonText
  import opened JsonScan
  import opened EscapeLaws
  import opened QuoteLaws
  import opened StructuralQuotes
  import opened JsonLenient
  import opened LenientRefusals

  /** A structural quote, as it is or escaped. */
  function Q(escaped: bool): Text {
    if escaped then [BACKSLASH, QUOTE] else [QUOTE]
  }

  /** A member of strings: the blanks around its parts, and which of its four quotes are escaped. */
  datatype Field = Field(
    before: Text, key: Text, mid: Text, after: Text, value: Text, end: Text,
    keyOpen: bool, keyClose: bool, valueOpen: bool, valueClose: bool)

  /** A member and what follows it. */
  function FieldThen(f: Field, rest: Text): Text {
    f.before + (Q(f.keyOpen) + (f.key + (Q(f.keyClose) + (f.mid + ([':'] + ValueThen(f, rest))))))
  }

  /** The part after the colon. */
  function ValueThen(f: Field, rest: Text): Text {
    f.after + (Q(f.valueOpen) + (f.value + (Q(f.valueClose) + (f.end + rest))))
  }

  function Fields(fs: seq<Field>): Text {
    if fs == [] then "}"
    else FieldThen(fs[0], if |fs| == 1 then "}" else "," + Fields(fs[1..]))
  }

  /** The member with its quotes as they should be. */
  function Clean(f: Field): Field {
    f.(keyOpen := false, keyClose := false, valueOpen := false, valueClose := false)
  }

  function CleanAll(fs: seq<Field>): seq<Field> {
    if fs == [] then [] else [Clean(fs[0])] + CleanAll(fs[1..])
  }

  function Members(fs: seq<Field>): List<Member> {
    if fs == [] then Nil else Cons(Member(fs[0].key, Str(fs[0].value)), Members(fs[1..]))
  }

  predicate Blank(ws: Text) {
    forall i :: 0 <= i < |ws| ==> ws[i] == ' '
  }

  /** Keys as the patterns take them. */
  predicate PatternKey(key: Text) {
    && 0 < |key| <= 31 && ('a' <= key[0] <= 'z' || 'A' <= key[0] <= 'Z' || key[0] == '_')
    && forall i :: 0 <= i < |key| ==>
         || 'a' <= key[i] <= 'z' || 'A' <= key[i] <= 'Z' || '0' <= key[i] <= '9'
         || key[i] == '_' || key[i] == '.' || key[i] == '-'
  }

  /** Text without quotes, backslashes and control characters. */
  predicate Mild(v: Text) {
    forall i :: 0 <= i < |v| ==> v[i] != QUOTE && v[i] != BACKSLASH && ' ' <= v[i] < 128 as char
  }

  predicate Placed(f: Field) {
    Blank(f.before) && Blank(f.mid) && Blank(f.after) && Blank(f.end) && PatternKey(f.key) && Mild(f.value)
  }

  /** No key can seem to begin inside a value. */
  predicate FieldOk(f: Field) {
    Placed(f) && ',' !in f.value && '{' !in f.value
  }

  predicate AllOk(fs: seq<Field>) {
    forall i :: 0 <= i < |fs| ==> FieldOk(fs[i])
  }

  // ---- Matches ----

  lemma QuoteAtom(e: bool, t: Text)
    ensures AfterAtom(Quote, Q(e) + t) == Some(t)
  {
    assert (Q(e) + t)[|Q(e)|..] == t;
  }

  lemma SpacesAtom(ws: Text, t: Text)
    requires Blank(ws) && t != "" && !IsSpace(t[0])
    ensures AfterAtom(Spaces, ws + t) == Some(t)
  {
    TrimStartSkips(ws, t);
  }

  lemma {:induction false} KeyLengthIs(key: Text, t: Text)
    requires (forall i :: 0 <= i < |key| ==> IsKeyChar(key[i])) && t != "" && !IsKeyChar(t[0])
    ensures KeyLength(key + t) == |key|
  {
    if key == "" {
      assert key + t == t;
    } else {
      assert (key + t)[1..] == key[1..] + t;
      KeyLengthIs(key[1..], t);
    }
  }

  lemma KeyAtom(key: Text, t: Text)
    requires PatternKey(key) && t != "" && !IsKeyChar(t[0])
    ensures AfterAtom(Atom.Key, key + t) == Some(t)
  {
    KeyLengthIs(key, t);
    assert (key + t)[|key|..] == t && (key + t)[0] == key[0];
    hide KeyLength;
  }

  lemma CharAtom(c: char, t: Text)
    ensures AfterChar([c] + t, c) == Some(t)
  {
    assert ([c] + t)[1..] == t;
  }

  lemma Step(x: Atom, p: Pattern, t: Text, u: Text)
    requires AfterAtom(x, t) == Some(u)
    ensures AfterMatch(Cons(x, p), t) == AfterMatch(p, u)
  {
    hide AfterAtom;
  }

  lemma QFirst(e: bool, t: Text)
    ensures Q(e) + t != "" && !IsSpace((Q(e) + t)[0]) && !IsKeyChar((Q(e) + t)[0])
  {}

  /** The part of the patterns that begins with a key: quote, key, quote, colon. */
  lemma KeyMatches(p: Pattern, f: Field, rest: Text)
    requires Placed(f)
    ensures AfterMatch(Cons(Spaces, Cons(Quote, Cons(Atom.Key, Cons(Quote, Cons(Spaces, Cons(Colon, p)))))),
            FieldThen(f, rest))
         == AfterMatch(p, ValueThen(f, rest))
  {
    hide AfterAtom, AfterMatch, Q, ValueThen, PatternKey, IsSpace, IsKeyChar;
    var v := ValueThen(f, rest);
    var c := [':'] + v;
    var m := f.mid + c;
    var k := Q(f.keyClose) + m;
    var q := Q(f.keyOpen) + (f.key + k);
    ColonFirst(v);
    QFirst(f.keyOpen, f.key + k);
    QFirst(f.keyClose, m);
    SpacesAtom(f.before, q);
    QuoteAtom(f.keyOpen, f.key + k);
    KeyAtom(f.key, k);
    QuoteAtom(f.keyClose, m);
    SpacesAtom(f.mid, c);
    Step(Colon, p, c, v);
    Step(Spaces, Cons(Colon, p), m, c);
    Step(Quote, Cons(Spaces, Cons(Colon, p)), k, m);
    Step(Atom.Key, Cons(Quote, Cons(Spaces, Cons(Colon, p))), f.key + k, k);
    Step(Quote, Cons(Atom.Key, Cons(Quote, Cons(Spaces, Cons(Colon, p)))), q, f.key + k);
    Step(Spaces, Cons(Quote, Cons(Atom.Key, Cons(Quote, Cons(Spaces, Cons(Colon, p))))), f.before + q, q);
  }

  lemma ColonFirst(v: Text)
    ensures AfterAtom(Colon, [':'] + v) == Some(v) && !IsSpace(([':'] + v)[0])
  {
    CharAtom(':', v);
  }

  /** After a delimiter: the pattern of a key and the opening of its value. */
  lemma KvMatches(delim: char, f: Field, rest: Text)
    requires Placed(f) && (delim == '{' || delim == ',')
    ensures AfterMatch(KV_PAIR, [delim] + FieldThen(f, rest)) == Some(f.value + (Q(f.valueClose) + (f.end + rest)))
  {
    hide AfterMatch, FieldThen, Q;
    var tail := Cons(Spaces, Cons(Quote, Nil));
    assert AfterAtom(Delim, [delim] + FieldThen(f, rest)) == Some(FieldThen(f, rest)) by {
      assert ([delim] + FieldThen(f, rest))[1..] == FieldThen(f, rest);
    }
    Step(Delim, KV_TAIL, [delim] + FieldThen(f, rest), FieldThen(f, rest));
    KeyMatches(tail, f, rest);
    var u := f.value + (Q(f.valueClose) + (f.end + rest));
    QFirst(f.valueOpen, u);
    SpacesAtom(f.after, Q(f.valueOpen) + u);
    QuoteAtom(f.valueOpen, u);
    Step(Spaces, Cons(Quote, Nil), f.after + (Q(f.valueOpen) + u), Q(f.valueOpen) + u);
    Step(Quote, Nil, Q(f.valueOpen) + u, u);
    AfterNil(u);
  }

  lemma AfterNil(u: Text)
    ensures AfterMatch(Nil, u) == Some(u)
  {}

  /** The close of a value before the next key. */
  lemma CloseMatches(f: Field, g: Field, rest: Text)
    requires Placed(f) && Placed(g)
    ensures AfterMatch(CLOSE_THEN_KEY, Q(f.valueClose) + (f.end + ("," + FieldThen(g, rest))))
            == Some(ValueThen(g, rest))
  {
    hide AfterMatch, FieldThen, Q, AfterAtom, ValueThen;
    var u := "," + FieldThen(g, rest);
    var p := Cons(Comma, Cons(Spaces, KEY_COLON));
    QuoteAtom(f.valueClose, f.end + u);
    SpacesAtom(f.end, u);
    assert AfterAtom(Comma, u) == Some(FieldThen(g, rest)) by { CommaAtom(FieldThen(g, rest)); }
    Step(Quote, Cons(Spaces, p), Q(f.valueClose) + (f.end + u), f.end + u);
    Step(Spaces, p, f.end + u, u);
    Step(Comma, Cons(Spaces, KEY_COLON), u, FieldThen(g, rest));
    KeyMatches(Nil, g, rest);
    AfterNil(ValueThen(g, rest));
  }

  lemma CommaAtom(t: Text)
    ensures AfterAtom(Comma, "," + t) == Some(t)
  {
    assert ("," + t)[1..] == t;
  }

  /** The close of the last value. */
  lemma LastMatches(end: Text)
    requires Blank(end)
    ensures AfterMatch(LAST_CLOSE, Q(true) + (end + "}")) == Some("")
  {
    hide AfterMatch, AfterAtom;
    assert AfterAtom(EscapedQuote, Q(true) + (end + "}")) == Some(end + "}") by { EscapedAtom(end + "}"); }
    SpacesAtom(end, "}");
    assert AfterAtom(Close, "}") == Some("") by { CloseAtom(); }
    Step(EscapedQuote, Cons(Spaces, Cons(Close, Nil)), Q(true) + (end + "}"), end + "}");
    Step(Spaces, Cons(Close, Nil), end + "}", "}");
    Step(Close, Nil, "}", "");
    AfterNil("");
  }

  lemma EscapedAtom(t: Text)
    ensures AfterAtom(EscapedQuote, Q(true) + t) == Some(t)
  {
    assert (Q(true) + t)[2..] == t;
  }

  lemma CloseAtom()
    ensures AfterAtom(Close, "}") == Some("")
  {
    assert "}"[1..] == "";
  }

  // ---- The rewrite, from the end of the text ----

  predicate Ends(s: Text, t: Text) {
    |t| <= |s| && s[|s| - |t|..] == t
  }

  lemma EndsPart(s: Text, p: Text, t: Text)
    requires Ends(s, p + t)
    ensures Ends(s, t) && s[|s| - |p + t|..|s| - |t|] == p
  {
    var i := |s| - |p + t|;
    assert s[i..][|p|..] == t && s[i..][..|p|] == p;
  }

  /** What the rewrite makes of the end of a text. */
  function Rest(s: Text, t: Text): Text {
    if |t| <= |s| then Without(s, Collected(s), |s| - |t|) else ""
  }

  lemma PlainPiece(s: Text, p: Text, t: Text)
    requires Ends(s, p + t) && BACKSLASH !in p
    ensures Ends(s, t) && Rest(s, p + t) == p + Rest(s, t)
  {
    hide Collected, Without;
    EndsPart(s, p, t);
    CollectedEscapes(s);
    var i, n := |s| - |p + t|, |s| - |t|;
    forall k | i <= k < n ensures k !in Collected(s) {
      assert s[k] == p[k - i];
    }
    WithoutCopies(s, Collected(s), i, n);
  }

  lemma QuotePiece(s: Text, e: bool, t: Text)
    requires Ends(s, Q(e) + t) && (e ==> |s| - |t| - 2 in Collected(s))
    ensures Ends(s, t) && Rest(s, Q(e) + t) == [QUOTE] + Rest(s, t)
  {
    hide Collected, Without;
    if e {
      EndsPart(s, Q(e), t);
      CollectedEscapes(s);
      WithoutHead(s, Collected(s), |s| - |t| - 2);
    } else {
      PlainPiece(s, Q(e), t);
    }
  }

  /** An escaped quote inside a match is collected. */
  lemma InsideMatch(p: Pattern, s: Text, u: Text, v: Text, t: Text)
    requires IsPattern(p) && Ends(s, u) && AfterMatch(p, u) == Some(v)
    requires Ends(s, Q(true) + t) && |v| <= |t| && |t| + 2 <= |u|
    ensures |s| - |t| - 2 in Collected(s)
  {
    hide AfterMatch, Collected, IsPattern, CoveredBy, Q;
    QLength(true);
    EscapedAtEnd(s, t);
    MatchCovers(p, s, u, v, |s| - |t| - 2);
    CoveredIsCollected(p, s, |s| - |t| - 2);
  }

  lemma MatchCovers(p: Pattern, s: Text, u: Text, v: Text, k: nat)
    requires Ends(s, u) && AfterMatch(p, u) == Some(v) && |s| - |u| <= k && k + 1 < |s| - |v|
    ensures CoveredBy(p, s, k)
  {
    hide AfterMatch;
    assert MatchEnd(p, s, |s| - |u|) == Some(|s| - |v|);
  }

  lemma EscapedAtEnd(s: Text, t: Text)
    requires Ends(s, Q(true) + t)
    ensures EscapedQuoteAt(s, |s| - |t| - 2)
  {
    var k := |s| - |t| - 2;
    EndsPart(s, Q(true), t);
    assert s[k..k + 2] == Q(true);
    assert s[k] == s[k..k + 2][0] && s[k + 1] == s[k..k + 2][1];
  }

  lemma CoveredIsCollected(p: Pattern, s: Text, k: nat)
    requires IsPattern(p) && EscapedQuoteAt(s, k) && CoveredBy(p, s, k)
    ensures k in Collected(s)
  {
    hide CoveredBy, KV_PAIR, CLOSE_THEN_KEY, LAST_CLOSE;
  }

  /** One member: its key and the opening of its value come out clean, and its close if it is collected. */
  lemma FieldRewrites(s: Text, delim: char, f: Field, rest: Text)
    requires Placed(f) && (delim == '{' || delim == ',') && Ends(s, [delim] + FieldThen(f, rest))
    requires f.valueClose ==> |s| - |f.end + rest| - 2 in Collected(s)
    ensures Ends(s, rest) && Ends(s, FieldThen(f, rest))
    ensures Rest(s, FieldThen(f, rest)) == FieldThen(Clean(f), Rest(s, rest))
  {
    KvMatches(delim, f, rest);
    NoSlash(f);
    EndsPart(s, [delim], FieldThen(f, rest));
    hide AfterMatch, Collected, Without, Placed, Q, Rest;
    KeyRewrites(s, [delim] + FieldThen(f, rest), f, rest);
    ValueRewrites(s, [delim] + FieldThen(f, rest), f, rest);
  }

  predicate SlashFree(f: Field) {
    && BACKSLASH !in f.before && BACKSLASH !in f.key && BACKSLASH !in f.mid && BACKSLASH !in f.after
    && BACKSLASH !in f.value && BACKSLASH !in f.end
  }

  lemma NoSlash(f: Field)
    requires Placed(f)
    ensures SlashFree(f)
  {
    assert !IsKeyChar(BACKSLASH);
  }

  lemma QLength(e: bool)
    ensures |Q(e)| == (if e then 2 else 1)
  {}

  lemma KeyRewrites(s: Text, u: Text, f: Field, rest: Text)
    requires SlashFree(f) && Ends(s, u) && u != "" && u[1..] == FieldThen(f, rest) && Ends(s, FieldThen(f, rest))
    requires AfterMatch(KV_PAIR, u) == Some(f.value + (Q(f.valueClose) + (f.end + rest)))
    ensures Ends(s, ValueThen(f, rest))
    ensures var c := Clean(f);
            Rest(s, FieldThen(f, rest))
            == c.before + (Q(c.keyOpen) + (c.key + (Q(c.keyClose) + (c.mid + ([':'] + Rest(s, ValueThen(f, rest)))))))
  {
    hide AfterMatch, Collected, Without, Q, Rest, Ends, KV_PAIR;
    var v := f.value + (Q(f.valueClose) + (f.end + rest));
    var w := ValueThen(f, rest);
    var c := [':'] + w;
    var m := f.mid + c;
    var k := Q(f.keyClose) + m;
    QLength(f.keyOpen);
    QLength(f.keyClose);
    QLength(f.valueOpen);
    QLength(false);
    QIs();
    PlainPiece(s, f.before, Q(f.keyOpen) + (f.key + k));
    OpenRewrites(s, u, v, f.keyOpen, f.key + k);
    PlainPiece(s, f.key, k);
    OpenRewrites(s, u, v, f.keyClose, m);
    PlainPiece(s, f.mid, c);
    PlainPiece(s, [':'], w);
  }

  /** A quote inside a match of the pattern of a key and the opening of its value. */
  lemma OpenRewrites(s: Text, u: Text, v: Text, e: bool, t: Text)
    requires Ends(s, u) && AfterMatch(KV_PAIR, u) == Some(v) && Ends(s, Q(e) + t) && |v| <= |t| && |Q(e) + t| <= |u|
    ensures Ends(s, t) && Rest(s, Q(e) + t) == [QUOTE] + Rest(s, t)
  {
    hide AfterMatch, Collected, Rest, KV_PAIR;
    if e { InsideMatch(KV_PAIR, s, u, v, t); }
    QuotePiece(s, e, t);
  }

  lemma QIs()
    ensures Q(false) == [QUOTE] && Q(true) == [BACKSLASH, QUOTE]
  {}

  lemma ValueRewrites(s: Text, u: Text, f: Field, rest: Text)
    requires SlashFree(f) && Ends(s, u) && Ends(s, ValueThen(f, rest)) && |u| > |ValueThen(f, rest)|
    requires AfterMatch(KV_PAIR, u) == Some(f.value + (Q(f.valueClose) + (f.end + rest)))
    requires f.valueClose ==> |s| - |f.end + rest| - 2 in Collected(s)
    ensures Ends(s, rest) && Rest(s, ValueThen(f, rest)) == ValueThen(Clean(f), Rest(s, rest))
  {
    hide AfterMatch, Collected, Without, Q, Rest, Ends, KV_PAIR;
    var v := f.value + (Q(f.valueClose) + (f.end + rest));
    QLength(f.valueOpen);
    QIs();
    PlainPiece(s, f.after, Q(f.valueOpen) + v);
    OpenRewrites(s, u, v, f.valueOpen, v);
    PlainPiece(s, f.value, Q(f.valueClose) + (f.end + rest));
    QuotePiece(s, f.valueClose, f.end + rest);
    PlainPiece(s, f.end, rest);
  }

  lemma FieldsOne(fs: seq<Field>)
    requires fs != []
    ensures Fields(fs) == FieldThen(fs[0], if |fs| == 1 then "}" else "," + Fields(fs[1..]))
  {}

  /** A close that is escaped is collected: before the next key, or before the brace. */
  lemma ValueCloseCollected(s: Text, fs: seq<Field>)
    requires fs != [] && AllOk(fs) && Ends(s, Fields(fs)) && fs[0].valueClose
    ensures var f := fs[0];
            var rest := if |fs| == 1 then "}" else "," + Fields(fs[1..]);
            Ends(s, Q(true) + (f.end + rest)) && |s| - |f.end + rest| - 2 in Collected(s)
  {
    hide AfterMatch, Collected, Q, FieldThen;
    var f := fs[0];
    var rest := if |fs| == 1 then "}" else "," + Fields(fs[1..]);
    var u := Q(f.valueClose) + (f.end + rest);
    assert FieldOk(f);
    FieldsOne(fs);
    CloseEnds(s, f, rest);
    if |fs| == 1 {
      LastMatches(f.end);
      QLength(true);
      InsideMatch(LAST_CLOSE, s, u, "", f.end + rest);
    } else {
      var g := fs[1];
      assert FieldOk(g) && fs[1..][0] == g;
      FieldsOne(fs[1..]);
      var rest' := if |fs[1..]| == 1 then "}" else "," + Fields(fs[1..][1..]);
      CloseMatches(f, g, rest');
      QLength(true);
      ValueShorter(g, rest');
      InsideMatch(CLOSE_THEN_KEY, s, u, ValueThen(g, rest'), f.end + rest);
    }
  }

  lemma CloseEnds(s: Text, f: Field, rest: Text)
    requires Ends(s, FieldThen(f, rest))
    ensures Ends(s, Q(f.valueClose) + (f.end + rest))
  {
    var v := ValueThen(f, rest);
    var p := f.before + (Q(f.keyOpen) + (f.key + (Q(f.keyClose) + (f.mid + [':']))));
    var p' := f.after + (Q(f.valueOpen) + f.value);
    var q := Q(f.valueClose) + (f.end + rest);
    hide Q;
    assert FieldThen(f, rest) == p + v && v == p' + q;
    EndsPart(s, p, v);
    EndsPart(s, p', q);
  }

  lemma ValueShorter(g: Field, rest: Text)
    ensures |ValueThen(g, rest)| < |FieldThen(g, rest)|
  {}

  /** From any delimiter on the rewrite gives the members with their quotes as they should be. */
  lemma {:induction false} FieldsRewrite(s: Text, delim: char, fs: seq<Field>)
    requires fs != [] && AllOk(fs) && (delim == '{' || delim == ',') && Ends(s, [delim] + Fields(fs))
    ensures Ends(s, Fields(fs)) && Rest(s, Fields(fs)) == Fields(CleanAll(fs))
    decreases |fs|
  {
    hide Collected, Rest, FieldThen, Fields, Q, CleanAll;
    var f := fs[0];
    var rest := if |fs| == 1 then "}" else "," + Fields(fs[1..]);
    assert FieldOk(f);
    FieldsOne(fs);
    EndsPart(s, [delim], Fields(fs));
    if f.valueClose { ValueCloseCollected(s, fs); }
    FieldRewrites(s, delim, f, rest);
    CleanOne(fs);
    FieldsOne(CleanAll(fs));
    if |fs| == 1 {
      LastPiece(s);
    } else {
      FieldsRewrite(s, ',', fs[1..]);
      PlainPiece(s, ",", Fields(fs[1..]));
    }
  }

  lemma LastPiece(s: Text)
    requires Ends(s, "}")
    ensures Rest(s, "}") == "}"
  {
    hide Collected;
    assert "}" + "" == "}";
    PlainPiece(s, "}", "");
    WithoutEnd(s, Collected(s));
  }

  lemma CleanOne(fs: seq<Field>)
    requires fs != []
    ensures CleanAll(fs) != [] && CleanAll(fs)[0] == Clean(fs[0]) && CleanAll(fs)[1..] == CleanAll(fs[1..])
    ensures |CleanAll(fs)| == 1 <==> |fs| == 1
  {
    if |fs| > 1 { assert CleanAll(fs[1..]) != []; }
  }

  lemma AllRewritten(fs: seq<Field>)
    requires fs != [] && AllOk(fs)
    ensures Rewritten("{" + Fields(fs)) == "{" + Fields(CleanAll(fs))
  {
    hide Collected, Fields, CleanAll, Without;
    var s := "{" + Fields(fs);
    assert s[0..] == s;
    FieldsRewrite(s, '{', fs);
    PlainPiece(s, "{", Fields(fs));
  }

  // ---- The text as it should be ----

  lemma {:induction false} MildDecodes(v: Text)
    requires forall i :: 0 <= i < |v| ==> v[i] != QUOTE && v[i] != BACKSLASH && ' ' <= v[i]
    ensures DecodeBody(v) == Some(v) && Balanced(v)
  {
    if v != "" {
      MildDecodes(v[1..]);
      assert v == [v[0]] + v[1..];
    }
  }

  lemma KeyIsMild(key: Text)
    requires PatternKey(key)
    ensures Mild(key)
  {}

  function FieldLexemes(fs: seq<Field>): seq<Lexeme> {
    if fs == [] then []
    else [Lit(fs[0].key), Punct(':'), Lit(fs[0].value), Punct(if |fs| == 1 then '}' else ',')] + FieldLexemes(fs[1..])
  }

  lemma BlankIsSpace(ws: Text)
    requires Blank(ws)
    ensures AllSpace(ws)
  {}

  lemma LexField(f: Field, rest: Text)
    requires Placed(f)
    ensures Lex(FieldThen(Clean(f), rest)) == Prepend(Lit(f.key), Prepend(Punct(':'), Prepend(Lit(f.value), Lex(rest))))
  {
    KeyIsMild(f.key);
    MildDecodes(f.key);
    MildDecodes(f.value);
    BlankIsSpace(f.before);
    BlankIsSpace(f.mid);
    BlankIsSpace(f.after);
    BlankIsSpace(f.end);
    CleanText(f, rest);
    hide Lex, Balanced, Placed, AllSpace, FieldThen;
    var v := f.after + ([QUOTE] + f.value + [QUOTE] + (f.end + rest));
    LexSpace(f.before, [QUOTE] + f.key + [QUOTE] + (f.mid + ([':'] + v)));
    LexOne(Lit(f.key), f.mid + ([':'] + v));
    LexSpace(f.mid, [':'] + v);
    LexOne(Punct(':'), v);
    LexSpace(f.after, [QUOTE] + f.value + [QUOTE] + (f.end + rest));
    LexOne(Lit(f.value), f.end + rest);
    LexSpace(f.end, rest);
  }

  lemma CleanText(f: Field, rest: Text)
    ensures FieldThen(Clean(f), rest)
         == f.before + ([QUOTE] + f.key + [QUOTE] + (f.mid
             + ([':'] + (f.after + ([QUOTE] + f.value + [QUOTE] + (f.end + rest))))))
  {
    QIs();
    hide Q;
    var e := f.end + rest;
    assert [QUOTE] + (f.value + ([QUOTE] + e)) == [QUOTE] + f.value + [QUOTE] + e;
    var m := f.mid + ([':'] + (f.after + ([QUOTE] + f.value + [QUOTE] + e)));
    assert [QUOTE] + (f.key + ([QUOTE] + m)) == [QUOTE] + f.key + [QUOTE] + m;
  }

  lemma {:induction false} LexFields(fs: seq<Field>)
    requires fs != [] && AllOk(fs)
    ensures Lex(Fields(CleanAll(fs))) == Some(FieldLexemes(fs))
    decreases |fs|
  {
    hide Lex, Fields, CleanAll;
    assert FieldOk(fs[0]);
    CleanOne(fs);
    FieldsOne(CleanAll(fs));
    if |fs| == 1 {
      LexField(fs[0], "}");
      LexOneBrace();
      FourLexemes(fs[0], '}', []);
      assert fs[1..] == [] && [Punct('}')] + [] == [Punct('}')];
    } else {
      LexFields(fs[1..]);
      LexField(fs[0], "," + Fields(CleanAll(fs[1..])));
      LexOne(Punct(','), Fields(CleanAll(fs[1..])));
      FourLexemes(fs[0], ',', FieldLexemes(fs[1..]));
    }
  }

  lemma FourLexemes(f: Field, c: char, ts: seq<Lexeme>)
    ensures Prepend(Lit(f.key), Prepend(Punct(':'), Prepend(Lit(f.value), Some([Punct(c)] + ts))))
         == Some([Lit(f.key), Punct(':'), Lit(f.value), Punct(c)] + ts)
  {
    assert [Lit(f.key)] + ([Punct(':')] + ([Lit(f.value)] + ([Punct(c)] + ts)))
        == [Lit(f.key), Punct(':'), Lit(f.value), Punct(c)] + ts;
  }

  lemma {:induction false} ParseFields(fs: seq<Field>)
    requires fs != [] && AllOk(fs)
    ensures ParseMembers(FieldLexemes(fs)) == Some((Members(fs), []))
    decreases |fs|
  {
    var f, ts := fs[0], FieldLexemes(fs);
    assert FieldOk(f);
    KeyIsMild(f.key);
    MildDecodes(f.key);
    MildDecodes(f.value);
    hide DecodeBody, ParseMembers, ParseValue, Placed, Balanced, FieldLexemes, Members, AllOk;
    var more := [Punct(if |fs| == 1 then '}' else ',')] + FieldLexemes(fs[1..]);
    FieldLexemesAre(fs, more);
    ParseString(f.value, more);
    if |fs| > 1 { ParseFields(fs[1..]) by { OkTail(fs); } }
    ParseMembersIs(ts, Members(fs), more, []);
  }

  lemma OkTail(fs: seq<Field>)
    requires fs != [] && AllOk(fs)
    ensures AllOk(fs[1..])
  {
    hide FieldOk;
  }

  lemma FieldLexemesAre(fs: seq<Field>, more: seq<Lexeme>)
    requires fs != [] && more == [Punct(if |fs| == 1 then '}' else ',')] + FieldLexemes(fs[1..])
    ensures var ts := FieldLexemes(fs);
            && |ts| >= 2 && ts[0] == Lit(fs[0].key) && ts[1] == Punct(':') && ts[2..] == [Lit(fs[0].value)] + more
            && more[1..] == FieldLexemes(fs[1..]) && (|fs| == 1 ==> more[1..] == [])
    ensures Members(fs) == Cons(Member(fs[0].key, Str(fs[0].value)), Members(fs[1..]))
    ensures Members(fs[1..]).Nil? <==> |fs| == 1
  {
    FieldLexemesOne(fs);
    hide FieldLexemes;
    FourSplit(Lit(fs[0].key), Punct(':'), Lit(fs[0].value), more[0], FieldLexemes(fs[1..]));
    MembersOne(fs);
    hide Members;
    if |fs| == 1 { NoFieldLexemes(fs[1..]); }
  }

  lemma FourSplit(x: Lexeme, y: Lexeme, z: Lexeme, u: Lexeme, r: seq<Lexeme>)
    ensures var ts := [x, y, z, u] + r;
            |ts| >= 2 && ts[0] == x && ts[1] == y && ts[2..] == [z] + ([u] + r) && ([u] + r)[1..] == r
  {}

  lemma MembersOne(fs: seq<Field>)
    requires fs != []
    ensures Members(fs) == Cons(Member(fs[0].key, Str(fs[0].value)), Members(fs[1..]))
    ensures Members(fs[1..]).Nil? <==> |fs| == 1
  {}

  lemma FieldLexemesOne(fs: seq<Field>)
    requires fs != []
    ensures FieldLexemes(fs)
         == [Lit(fs[0].key), Punct(':'), Lit(fs[0].value), Punct(if |fs| == 1 then '}' else ',')]
             + FieldLexemes(fs[1..])
  {}

  lemma NoFieldLexemes(fs: seq<Field>)
    requires fs == []
    ensures FieldLexemes(fs) == []
  {}

  lemma ParseString(v: Text, more: seq<Lexeme>)
    requires DecodeBody(v) == Some(v)
    ensures ParseValue([Lit(v)] + more) == Some((Str(v), more))
  {
    hide DecodeBody;
    assert ([Lit(v)] + more)[1..] == more;
  }

  lemma CleanParses(fs: seq<Field>)
    requires fs != [] && AllOk(fs)
    ensures FromStr("{" + Fields(CleanAll(fs))) == Some(Obj(MapOf(Members(fs))))
  {
    hide Lex, Fields, CleanAll, ParseMembers, MapOf, ParseValue;
    LexFields(fs);
    ParseFields(fs);
    LexOne(Punct('{'), Fields(CleanAll(fs)));
    assert [Punct('{')] + FieldLexemes(fs) == [Punct('{')] + FieldLexemes(fs);
    var ts := [Punct('{')] + FieldLexemes(fs);
    assert ts[1..] == FieldLexemes(fs) && ts[1] == Lit(fs[0].key);
    ParseObjIs(ts, Members(fs), []);
  }

  // ---- The earlier stages leave such a text alone ----

  /** No identifier comes first after a delimiter; `open`: only white space since the last one. */
  predicate NoBareKey(s: Text, open: bool) {
    s == "" || ((open ==> !IsIdentStart(s[0])) && NoBareKey(s[1..], NowOpen(s[0], open)))
  }

  predicate NowOpen(c: char, open: bool) {
    c == '{' || c == ',' || (IsAsciiSpace(c) && open)
  }

  /** Whatever the scanner takes for a string, it quotes nothing. */
  lemma {:induction false} NoKeyQuoted(s: Text, inString: bool, o: bool, open: bool)
    requires Ascii(s) && NoBareKey(s, open) && (o ==> open) && (inString ==> !o)
    ensures QuoteFrom(s, inString, o) == s
    decreases |s|
  {
    hide QuoteFrom, IsIdentStart;
    QuoteEmpty();
    if s == "" {
    } else if inString && s[0] == BACKSLASH {
      if |s| == 1 {
        assert s == [BACKSLASH];
        EscapeRound(' ', "", o);
      } else {
        assert s == [BACKSLASH, s[1]] + s[2..] && s[1..][1..] == s[2..];
        EscapeRound(s[1], s[2..], o);
        NoKeyQuoted(s[2..], true, o, NowOpen(s[1], NowOpen(s[0], open)));
      }
    } else {
      assert s == [s[0]] + s[1..];
      var next := NextState(s[0], inString, o);
      HeadRound(s[0], s[1..], inString, o);
      QuoteNotOpen(s[0], inString, o);
      NoKeyQuoted(s[1..], next.0, next.1, NowOpen(s[0], open));
    }
  }

  lemma QuoteNotOpen(c: char, inString: bool, o: bool)
    requires inString ==> !o
    ensures NextState(c, inString, o).0 ==> !NextState(c, inString, o).1
  {}

  /** Every backslash comes before a quote, and there are no controls. */
  predicate OnlyEscapedQuotes(s: Text) {
    forall i :: 0 <= i < |s| ==> Fine(s, i)
  }

  predicate Fine(s: Text, i: nat)
    requires i < |s|
  {
    s[i] >= ' ' && (s[i] == BACKSLASH ==> i + 1 < |s| && s[i + 1] == QUOTE)
  }

  /** Whatever the scanner takes for a string, it escapes nothing. */
  lemma {:induction false} NothingEscaped(s: Text, inString: bool)
    requires Ascii(s) && OnlyEscapedQuotes(s)
    ensures EscapeFrom(s, inString) == s
    decreases |s|
  {
    hide EscapeFrom, EscapeStep, OnlyEscapedQuotes;
    if s == "" {
      assert EscapeFrom("", inString) == "" by { EscapeEmpty(); }
    } else {
      var st := EscapeStep(s, inString);
      CopyStep(s, inString);
      assert s == s[..st.taken] + s[st.taken..];
      AsciiParts(s[..st.taken], s[st.taken..]);
      EscapedQuotesTail(s, st.taken);
      NothingEscaped(s[st.taken..], st.inString);
      EscapeFromIs'(s, inString, st);
    }
  }

  lemma EscapeEmpty()
    ensures forall inString :: EscapeFrom("", inString) == ""
  {}

  lemma EscapedQuotesTail(s: Text, n: nat)
    requires OnlyEscapedQuotes(s) && n <= |s|
    ensures OnlyEscapedQuotes(s[n..])
  {
    var t := s[n..];
    forall i | 0 <= i < |t| ensures Fine(t, i) {
      assert Fine(s, n + i) && t[i] == s[n + i] && (i + 1 < |t| ==> t[i + 1] == s[n + i + 1]);
    }
  }

  lemma CopyStep(s: Text, inString: bool)
    requires s != "" && Ascii(s) && OnlyEscapedQuotes(s)
    ensures var st := EscapeStep(s, inString); st.text == s[..st.taken]
  {
    assert Fine(s, 0) && s[..1] == [s[0]];
    if |s| > 1 { assert s[..2] == [s[0]] + [s[1]]; }
  }

  lemma EscapeFromIs'(s: Text, inString: bool, st: JsonScan.Step)
    requires s != "" && EscapeStep(s, inString) == st
    ensures EscapeFrom(s, inString) == st.text + EscapeFrom(s[st.taken..], st.inString)
  {
    hide EscapeStep;
  }

  lemma {:induction false} ClosedPiece(p: Text, rest: Text)
    requires '{' !in p && ',' !in p && NoBareKey(rest, false)
    ensures NoBareKey(p + rest, false)
  {
    if p == "" {
      assert p + rest == rest;
    } else {
      assert (p + rest)[1..] == p[1..] + rest;
      ClosedPiece(p[1..], rest);
    }
  }

  lemma {:induction false} BlankPiece(p: Text, rest: Text)
    requires Blank(p) && NoBareKey(rest, true)
    ensures NoBareKey(p + rest, true)
  {
    if p == "" {
      assert p + rest == rest;
    } else {
      assert (p + rest)[1..] == p[1..] + rest;
      BlankPiece(p[1..], rest);
    }
  }

  /** The text of a member after the blanks before it. */
  function Inside(f: Field): Text {
    Q(f.keyOpen) + (f.key + (Q(f.keyClose) + (f.mid
        + ([':'] + (f.after + (Q(f.valueOpen) + (f.value + (Q(f.valueClose) + f.end))))))))
  }

  lemma FieldIsInside(f: Field, rest: Text)
    ensures FieldThen(f, rest) == f.before + (Inside(f) + rest)
  {
    hide Q;
    var e := Q(f.valueClose) + f.end;
    var v := f.after + (Q(f.valueOpen) + (f.value + e));
    var m := f.mid + ([':'] + v);
    ConcatAssociative(Q(f.valueClose), f.end, rest);
    ConcatAssociative(f.value, e, rest);
    ConcatAssociative(Q(f.valueOpen), f.value + e, rest);
    ConcatAssociative(f.after, Q(f.valueOpen) + (f.value + e), rest);
    assert ValueThen(f, rest) == v + rest;
    ConcatAssociative([':'], v, rest);
    ConcatAssociative(f.mid, [':'] + v, rest);
    ConcatAssociative(Q(f.keyClose), m, rest);
    ConcatAssociative(f.key, Q(f.keyClose) + m, rest);
    ConcatAssociative(Q(f.keyOpen), f.key + (Q(f.keyClose) + m), rest);
  }

  predicate NoDelimiter(p: Text) {
    '{' !in p && ',' !in p
  }

  lemma NoDelimiterConcat(a: Text, b: Text)
    requires NoDelimiter(a) && NoDelimiter(b)
    ensures NoDelimiter(a + b)
  {}

  lemma PartsHaveNoDelimiter(f: Field)
    requires FieldOk(f)
    ensures NoDelimiter(f.key) && NoDelimiter(f.mid) && NoDelimiter(f.after) && NoDelimiter(f.value)
            && NoDelimiter(f.end)
    ensures forall e :: NoDelimiter(Q(e))
  {
    assert !IsKeyChar('{') && !IsKeyChar(',');
  }

  lemma InsideHasNoDelimiter(f: Field)
    requires FieldOk(f)
    ensures NoDelimiter(Inside(f))
  {
    PartsHaveNoDelimiter(f);
    assert NoDelimiter([':']);
    hide NoDelimiter, Q, Placed;
    var e := Q(f.valueClose) + f.end;
    var v := f.after + (Q(f.valueOpen) + (f.value + e));
    var m := f.mid + ([':'] + v);
    NoDelimiterConcat(Q(f.valueClose), f.end);
    NoDelimiterConcat(f.value, e);
    NoDelimiterConcat(Q(f.valueOpen), f.value + e);
    NoDelimiterConcat(f.after, Q(f.valueOpen) + (f.value + e));
    NoDelimiterConcat([':'], v);
    NoDelimiterConcat(f.mid, [':'] + v);
    NoDelimiterConcat(Q(f.keyClose), m);
    NoDelimiterConcat(f.key, Q(f.keyClose) + m);
    NoDelimiterConcat(Q(f.keyOpen), f.key + (Q(f.keyClose) + m));
  }

  lemma FieldNoBareKey(f: Field, rest: Text)
    requires FieldOk(f) && NoBareKey(rest, false)
    ensures NoBareKey(FieldThen(f, rest), true)
  {
    hide FieldThen, Inside, NoBareKey;
    var p := Inside(f);
    FieldIsInside(f, rest);
    InsideHasNoDelimiter(f);
    InsideStarts(f);
    ClosedPiece(p[1..], rest);
    assert (p + rest)[1..] == p[1..] + rest;
    QuoteCloses(p + rest);
    BlankPiece(f.before, p + rest);
  }

  lemma InsideStarts(f: Field)
    ensures Inside(f) != "" && (Inside(f)[0] == QUOTE || Inside(f)[0] == BACKSLASH)
  {}

  lemma QuoteCloses(t: Text)
    requires t != "" && (t[0] == QUOTE || t[0] == BACKSLASH) && NoBareKey(t[1..], false)
    ensures NoBareKey(t, true)
  {}

  lemma {:induction false} FieldsNoBareKey(fs: seq<Field>)
    requires fs != [] && AllOk(fs)
    ensures NoBareKey(Fields(fs), true)
    decreases |fs|
  {
    hide FieldThen, Fields;
    assert FieldOk(fs[0]);
    FieldsOne(fs);
    if |fs| > 1 {
      var t := Fields(fs[1..]);
      FieldsNoBareKey(fs[1..]);
      assert ("," + t)[1..] == t;
      FieldNoBareKey(fs[0], "," + t);
    } else {
      assert "}"[1..] == "";
      FieldNoBareKey(fs[0], "}");
    }
  }

  predicate Tame(s: Text) {
    Ascii(s) && OnlyEscapedQuotes(s)
  }

  lemma TameConcat(a: Text, b: Text)
    requires Tame(a) && Tame(b)
    ensures Tame(a + b)
  {
    var s := a + b;
    forall i | 0 <= i < |s| ensures Fine(s, i) {
      if i < |a| {
        assert Fine(a, i) && s[i] == a[i] && (i + 1 < |a| ==> s[i + 1] == a[i + 1]);
      } else {
        assert Fine(b, i - |a|) && s[i] == b[i - |a|] && (i + 1 < |s| ==> s[i + 1] == b[i + 1 - |a|]);
      }
    }
  }

  lemma MildIsTame(v: Text)
    requires Mild(v)
    ensures Tame(v)
  {}

  lemma BlankIsTame(ws: Text)
    requires Blank(ws)
    ensures Tame(ws)
  {}

  lemma QIsTame(e: bool)
    ensures Tame(Q(e)) && Tame(":") && Tame(",") && Tame("{") && Tame("}")
  {}

  lemma FieldIsTame(f: Field, rest: Text)
    requires Placed(f) && Tame(rest)
    ensures Tame(FieldThen(f, rest))
  {
    hide Tame, Q, PatternKey, Mild, Blank;
    BlankIsTame(f.before);
    BlankIsTame(f.mid);
    BlankIsTame(f.after);
    BlankIsTame(f.end);
    KeyIsMild(f.key);
    MildIsTame(f.key);
    MildIsTame(f.value);
    QIsTame(f.keyOpen);
    QIsTame(f.keyClose);
    QIsTame(f.valueOpen);
    QIsTame(f.valueClose);
    TameConcat(f.end, rest);
    TameConcat(Q(f.valueClose), f.end + rest);
    TameConcat(f.value, Q(f.valueClose) + (f.end + rest));
    TameConcat(Q(f.valueOpen), f.value + (Q(f.valueClose) + (f.end + rest)));
    var v := ValueThen(f, rest);
    TameConcat(f.after, Q(f.valueOpen) + (f.value + (Q(f.valueClose) + (f.end + rest))));
    hide ValueThen;
    TameConcat([':'], v);
    TameConcat(f.mid, [':'] + v);
    TameConcat(Q(f.keyClose), f.mid + ([':'] + v));
    TameConcat(f.key, Q(f.keyClose) + (f.mid + ([':'] + v)));
    TameConcat(Q(f.keyOpen), f.key + (Q(f.keyClose) + (f.mid + ([':'] + v))));
    TameConcat(f.before, Q(f.keyOpen) + (f.key + (Q(f.keyClose) + (f.mid + ([':'] + v)))));
  }

  lemma {:induction false} FieldsAreTame(fs: seq<Field>)
    requires fs != [] && AllOk(fs)
    ensures Tame(Fields(fs))
    decreases |fs|
  {
    hide Tame, FieldThen, Fields;
    assert FieldOk(fs[0]);
    FieldsOne(fs);
    QIsTame(false);
    if |fs| > 1 {
      FieldsAreTame(fs[1..]);
      TameConcat(",", Fields(fs[1..]));
    }
    FieldIsTame(fs[0], if |fs| == 1 then "}" else "," + Fields(fs[1..]));
  }

  // ---- Recovery ----

  /**
   * The rescue of structural quotes recovers: of an object of strings any of whose structural quotes
   * were written escaped, lenient parsing gives that object, unless the text is JSON as it stands.
   */
  lemma EscapedQuotesRecovered(fs: seq<Field>)
    requires fs != [] && AllOk(fs)
    ensures var raw := "{" + Fields(fs);
            LenientParseObject(raw) == Parsed(if FromStr(raw).Some? then FromStr(raw).value
                else Obj(MapOf(Members(fs))))
  {
    hide Fields, FromStr, QuoteFrom, EscapeFrom, MapOf, Rescue, Rewritten, AllOk, OnlyEscapedQuotes, CleanAll;
    var raw := "{" + Fields(fs);
    FieldsNoBareKey(fs);
    FieldsAreTame(fs);
    QIsTame(false);
    TameConcat("{", Fields(fs));
    StartsOpen(fs);
    NoKeyQuoted(raw, false, false, false);
    NothingEscaped(raw, false);
    AllRewritten(fs);
    CleanParses(fs);
    if Collected(raw) == {} { NothingRewritten(raw); }
  }

  lemma StartsOpen(fs: seq<Field>)
    requires NoBareKey(Fields(fs), true)
    ensures NoBareKey("{" + Fields(fs), false)
  {
    hide Fields;
    assert ("{" + Fields(fs))[1..] == Fields(fs);
  }

  lemma NothingRewritten(s: Text)
    requires Collected(s) == {}
    ensures Rewritten(s) == s
  {
    hide Collected;
    WithoutCopies(s, {}, 0, |s|);
    WithoutEnd(s, {});
    assert s[0..|s|] == s && s + "" == s;
  }

  // ---- A comma in a value ----

  /** A member with an escaped key, and the value that begins with `v`. */
  function EscapedKey(key: Text, v: Text): Field {
    Field("", key, "", "", v, "", true, true, false, false)
  }

  /** What follows the value `b,` once the identifier after it was taken for a key. */
  function Misread(k: Text, d: Text): Text {
    k + ([QUOTE] + (":" + d) + [QUOTE] + "}")
  }

  /** The text as key quoting leaves it: a quote too many on either side of the identifier. */
  function Corrupted(key: Text, b: Text, k: Text, d: Text): Text {
    "{" + FieldThen(EscapedKey(key, b + ","), Misread(k, d))
  }

  predicate Plainish(v: Text) {
    Mild(v) && NoDelimiter(v)
  }

  lemma PlainishIsPlain(v: Text)
    requires Plainish(v)
    ensures forall i :: 0 <= i < |v| ==> IsPlain(v[i])
  {}

  lemma KeyBody(key: Text)
    requires PatternKey(key)
    ensures var body := key + [BACKSLASH, QUOTE] + ":"; Balanced(body) && Ascii(body)
  {
    KeyIsMild(key);
    hide PatternKey;
    BalancedAfterPlain(key, [BACKSLASH, QUOTE] + ":");
    assert key + [BACKSLASH, QUOTE] + ":" == key + ([BACKSLASH, QUOTE] + ":");
    assert ([BACKSLASH, QUOTE] + ":")[2..] == ":" && ":"[1..] == "";
  }

  lemma QuoteCorrupts(key: Text, b: Text, k: Text, d: Text)
    requires PatternKey(key) && Plainish(b) && IsIdent(k) && Plainish(d)
    ensures QuoteBareKeys("{" + FieldThen(EscapedKey(key, b + "," + k + ":" + d), "}")) == Corrupted(key, b, k, d)
  {
    hide QuoteFrom, PatternKey, Plainish, IsIdent, Balanced;
    KeyBody(key);
    PlainishIsPlain(b);
    PlainishIsPlain(d);
    var body := key + [BACKSLASH, QUOTE] + ":";
    var last := [QUOTE] + "}";
    var second := k + "" + [':'] + (d + last);
    var rest := b + ([','] + second);
    var s := [QUOTE] + body + [QUOTE] + rest;
    RawRegroup(key, b, k, d);
    QuoteEmpty();
    assert !LooksAhead('{', false, false) && !LooksAhead(BACKSLASH, false, true) && !LooksAhead(',', false, false);
    HeadRound('{', [BACKSLASH] + s, false, false);
    HeadRound(BACKSLASH, s, false, true);
    QuoteWholeLiteral(body, rest, false);
    QuotePlain(b, [','] + second);
    HeadRound(',', second, false, false);
    QuoteBareKey(k, "", ':', d + last);
    QuotePlain(d, last);
    HeadRound(QUOTE, "}", false, false);
    QuoteUnclosed("}", false) by { assert "}"[1..] == ""; }
    CorruptedRegroup(key, b, k, d);
  }

  lemma RawRegroup(key: Text, b: Text, k: Text, d: Text)
    ensures "{" + FieldThen(EscapedKey(key, b + "," + k + ":" + d), "}")
         == ['{'] + ([BACKSLASH] + ([QUOTE] + (key + [BACKSLASH, QUOTE] + ":") + [QUOTE]
            + (b + ([','] + (k + "" + [':'] + (d + ([QUOTE] + "}")))))))
  {
    var v := b + "," + k + ":" + d;
    EscapedKeyText(key, v, "}");
    assert v + [QUOTE] + "}" == b + ([','] + (k + "" + [':'] + (d + ([QUOTE] + "}"))));
    assert v + ([QUOTE] + "}") == v + [QUOTE] + "}";
  }

  lemma EscapedKeyText(key: Text, v: Text, rest: Text)
    ensures "{" + FieldThen(EscapedKey(key, v), rest)
         == ['{'] + ([BACKSLASH] + ([QUOTE] + (key + [BACKSLASH, QUOTE] + ":") + [QUOTE] + (v + ([QUOTE] + rest))))
  {
    var t := v + ([QUOTE] + rest);
    EmptyBefore(rest);
    EmptyBefore([QUOTE] + t);
    EmptyBefore([':'] + ([QUOTE] + t));
    EmptyBefore(Q(true) + (key + (Q(true) + ([':'] + ([QUOTE] + t)))));
    QIs();
    hide Q;
    KeyRegroup([BACKSLASH], [QUOTE], key, [BACKSLASH, QUOTE], [':'], [QUOTE] + t);
    ConcatAssociative([QUOTE] + (key + [BACKSLASH, QUOTE] + ":"), [QUOTE], t);
  }

  lemma EmptyBefore(t: Text)
    ensures "" + t == t
  {}

  lemma KeyRegroup(x: Text, y: Text, key: Text, e: Text, c: Text, t: Text)
    ensures x + y + (key + (e + (c + t))) == x + (y + (key + e + c) + t)
  {
    ConcatAssociative(e, c, t);
    ConcatAssociative(key, e + c, t);
    ConcatAssociative(key, e, c);
    ConcatAssociative(y, key + e + c, t);
    ConcatAssociative(x, y, key + e + c + t);
  }

  lemma CorruptedRegroup(key: Text, b: Text, k: Text, d: Text)
    ensures ['{'] + ([BACKSLASH] + ([QUOTE] + (key + [BACKSLASH, QUOTE] + ":") + [QUOTE]
              + (b + ([','] + ([QUOTE] + k + [QUOTE] + "" + [':'] + (d + ([QUOTE] + "}")))))))
         == Corrupted(key, b, k, d)
  {
    EscapedKeyText(key, b + ",", Misread(k, d));
    assert b + ([','] + ([QUOTE] + k + [QUOTE] + "" + [':'] + (d + ([QUOTE] + "}"))))
           == b + "," + ([QUOTE] + Misread(k, d));
  }

  lemma CorruptedIsTame(key: Text, b: Text, k: Text, d: Text)
    requires PatternKey(key) && Plainish(b) && IsIdent(k) && Plainish(d)
    ensures Tame(Corrupted(key, b, k, d)) && BACKSLASH !in Misread(k, d) && Placed(EscapedKey(key, b + ","))
  {
    IdentMild(k);
    hide IsIdent, PatternKey;
    assert Mild(":" + d) && Mild(b + ",");
    MildIsTame(k);
    MildIsTame(":" + d);
    assert Tame([QUOTE]) by { QIsTame(false); }
    QIsTame(false);
    hide Tame, Mild;
    TameConcat([QUOTE], ":" + d);
    TameConcat([QUOTE] + (":" + d), [QUOTE]);
    TameConcat([QUOTE] + (":" + d) + [QUOTE], "}");
    TameConcat(k, [QUOTE] + (":" + d) + [QUOTE] + "}");
    FieldIsTame(EscapedKey(key, b + ","), Misread(k, d));
    TameConcat("{", FieldThen(EscapedKey(key, b + ","), Misread(k, d)));
    MildNoSlash(k);
    MildNoSlash(":" + d);
  }

  lemma MildNoSlash(v: Text)
    requires Mild(v)
    ensures BACKSLASH !in v
  {}

  lemma IdentMild(k: Text)
    requires IsIdent(k)
    ensures Mild(k) && LexemeOk(Word(k))
  {}

  lemma CorruptedRewritten(key: Text, b: Text, k: Text, d: Text)
    requires PatternKey(key) && Plainish(b) && IsIdent(k) && Plainish(d)
    ensures Rewritten(Corrupted(key, b, k, d)) == "{" + FieldThen(Clean(EscapedKey(key, b + ",")), Misread(k, d))
  {
    CorruptedIsTame(key, b, k, d);
    OneFieldRewritten(EscapedKey(key, b + ","), Misread(k, d));
  }

  lemma OneFieldRewritten(f: Field, rest: Text)
    requires Placed(f) && !f.valueClose && BACKSLASH !in rest
    ensures Rewritten("{" + FieldThen(f, rest)) == "{" + FieldThen(Clean(f), rest)
  {
    hide Collected, Without, FieldThen, Placed;
    var s := "{" + FieldThen(f, rest);
    assert s[0..] == s && s == ['{'] + FieldThen(f, rest);
    FieldRewrites(s, '{', f, rest);
    assert rest + "" == rest;
    PlainPiece(s, rest, "");
    WithoutEnd(s, Collected(s));
    PlainPiece(s, "{", FieldThen(f, rest));
  }

  lemma MisreadIsNoJson(key: Text, b: Text, k: Text, d: Text)
    requires PatternKey(key) && Plainish(b) && IsIdent(k) && Plainish(d)
    ensures FromStr("{" + FieldThen(Clean(EscapedKey(key, b + ",")), Misread(k, d))) == None
  {
    CorruptedIsTame(key, b, k, d);
    IdentMild(k);
    MildDecodes(":" + d) by { assert Plainish(d); }
    hide Lex, FieldThen, IsIdent, PatternKey, Placed, Tame, Balanced, DecodeBody, LexemeOk;
    var f, rest := EscapedKey(key, b + ","), Misread(k, d);
    var tail := [QUOTE] + (":" + d) + [QUOTE] + "}";
    LexOne(Punct('{'), FieldThen(Clean(f), rest));
    LexField(f, rest);
    LexOne(Word(k), tail);
    LexLit(":" + d, "}");
    LexOneBrace();
    MisreadShape(key, b + ",", k, ":" + d);
  }

  lemma MisreadShape(key: Text, v: Text, k: Text, d: Text)
    ensures var ts := Prepend(Word(k), Prepend(Lit(d), Some([Punct('}')])));
            var all := Prepend(Punct('{'), Prepend(Lit(key), Prepend(Punct(':'), Prepend(Lit(v), ts))));
            all.Some? && ParseAll(all.value) == None
  {
    hide DecodeBody, IsScalarWord, ParseAll;
    var more := [Word(k)] + ([Lit(d)] + [Punct('}')]);
    var tail := [Lit(v)] + more;
    var all := [Punct('{')] + ([Lit(key)] + ([Punct(':')] + tail));
    assert all == [Punct('{'), Lit(key), Punct(':')] + tail;
    assert tail[1..] == more && more[1..][0] == Lit(d);
    assert !WellShaped(more, false) && !WellShaped(tail, false);
    if ParseAll(all).Some? {
      AcceptedShape(all);
      ObjectShape(key, tail);
    }
  }

  lemma CorruptedRefused(key: Text, b: Text, k: Text, d: Text)
    requires PatternKey(key)
    ensures FromStr(Corrupted(key, b, k, d)) == None && Rescue(Corrupted(key, b, k, d)) == Refused
  {
    hide PatternKey, Corrupted, Rescue, FromStr;
    var part := [BACKSLASH, QUOTE] + key + [BACKSLASH, QUOTE];
    var r := b + "," + [QUOTE] + k + [QUOTE] + (":" + d) + [QUOTE];
    CorruptedParts(key, b, k, d);
    KeyHasNoColon(key);
    SlashIsNoJson(part + ":" + ([QUOTE] + r) + "}");
    SlashPartRefused(part, [QUOTE] + r);
  }

  lemma SlashIsNoJson(t: Text)
    requires t != "" && t[0] == BACKSLASH
    ensures FromStr(['{'] + t) == None
  {
    LexOne(Punct('{'), t);
    LexBad(t);
    hide Lex;
  }

  /** The rescue refuses a key part that begins with a backslash. */
  lemma SlashPartRefused(part: Text, r: Text)
    requires |part| > 1 && part[0] == BACKSLASH && part[|part| - 1] == QUOTE && ':' !in part
    requires r != "" && r[|r| - 1] == QUOTE
    ensures Rescue(['{'] + (part + ":" + r + "}")) == Refused
  {
    hide Trim, Inner, SplitAtColon, Rescue;
    var inner := part + ":" + r;
    assert inner[0] == BACKSLASH && inner[|inner| - 1] == QUOTE;
    InnerIs(inner);
    TrimFixes(part);
    SplitAt(part, r, part, Trim(r));
    KeyPartRefused(['{'] + (inner + "}"), inner, part, Trim(r));
  }

  lemma InnerIs(inner: Text)
    requires inner != "" && Trimmed(inner)
    ensures Inner(['{'] + (inner + "}")) == Some(inner)
  {
    var s := ['{'] + (inner + "}");
    assert s[1..|s| - 1] == inner && s[|s| - 1] == '}';
    TrimFixes(s);
    TrimFixes(inner);
    hide Trim;
  }

  lemma KeyPartRefused(quoted: Text, inner: Text, part: Text, value: Text)
    requires Inner(quoted) == Some(inner) && SplitAtColon(inner) == Some((part, value))
             && (part == "" || part[0] != QUOTE)
    ensures Rescue(quoted) == Refused
  {
    hide Inner, SplitAtColon, FromStr, CommaFrom;
  }

  lemma KeyHasNoColon(key: Text)
    requires PatternKey(key)
    ensures ':' !in [BACKSLASH, QUOTE] + key + [BACKSLASH, QUOTE]
  {
    assert !IsKeyChar(':');
  }

  lemma CorruptedParts(key: Text, b: Text, k: Text, d: Text)
    ensures Corrupted(key, b, k, d)
         == ['{'] + ([BACKSLASH, QUOTE] + key + [BACKSLASH, QUOTE] + ":"
            + ([QUOTE] + (b + "," + [QUOTE] + k + [QUOTE] + (":" + d) + [QUOTE])) + "}")
  {
    EscapedKeyText(key, b + ",", Misread(k, d));
    var x := b + "," + [QUOTE] + k + [QUOTE] + (":" + d) + [QUOTE];
    assert b + "," + ([QUOTE] + Misread(k, d)) == x + "}";
    assert [BACKSLASH] + ([QUOTE] + (key + [BACKSLASH, QUOTE] + ":") + [QUOTE] + (x + "}"))
        == [BACKSLASH, QUOTE] + key + [BACKSLASH, QUOTE] + ":" + ([QUOTE] + x) + "}";
  }

  /**
   * A comma in a value is not safe: with its key escaped, a value that goes on with an identifier and a
   * colon after a comma is taken for a further key, and the text is refused.
   */
  lemma CommaCorrupts(key: Text, b: Text, k: Text, d: Text)
    requires PatternKey(key) && Plainish(b) && IsIdent(k) && Plainish(d)
    ensures LenientParseObject("{" + FieldThen(EscapedKey(key, b + "," + k + ":" + d), "}")) == Refused
  {
    hide QuoteFrom, EscapeFrom, FromStr, Rescue, Rewritten, Collected, PatternKey, Plainish, IsIdent, Placed,
         OnlyEscapedQuotes;
    hide Corrupted, FieldThen, Misread;
    QuoteCorrupts(key, b, k, d);
    CorruptedIsTame(key, b, k, d);
    NothingEscaped(Corrupted(key, b, k, d), false);
    CorruptedRewritten(key, b, k, d);
    MisreadIsNoJson(key, b, k, d);
    CorruptedRefused(key, b, k, d);
  }
}
