// One tool call through the whole path, letter by letter: the reply as the
// model writes it, and the call as it goes over the wire.
module ToolReply {
  import opened Texts
  import Proto
  import opened Json
  import opened JsonText
  import opened JsonGrammar
  import opened EscapeLaws
  import opened QuoteLaws
  import opened ToolFormat
  import opened Drifted
  import opened EveryDrift
  import opened ToolText

  /** Text that needs no escapes, without `<`. */
  predicate Quiet(x: Text) {
    forall i :: 0 <= i < |x| ==> ' ' <= x[i] < 128 as char && x[i] != '\"' && x[i] != '\\' && x[i] != '<'
  }

  lemma {:induction false} QuietDecodes(x: Text)
    requires Quiet(x)
    ensures LenientDecode(x) == Some(x) && Balanced(x)
  {
    if x != "" {
      QuietDecodes(x[1..]);
      assert x == [x[0]] + x[1..];
    }
  }

  /** The arguments as the model writes them, with a bare key, `=` and leaked quotes. */
  function Stretches(key: Text, x: Text): seq<Drift> {
    [Plain(Token("", Punct('{')), false, false), Bare("", key, "", true), Plain(Token("", Lit(x)), true, true),
     Plain(Token("", Punct('}')), false, false)]
  }

  function Arguments(key: Text, x: Text): List<Member> {
    Cons(Member(key, Str(x)), Nil)
  }

  lemma WrittenCons(d: Drift, ds: seq<Drift>)
    ensures AllWritten([d] + ds) == Written(d) + AllWritten(ds) && AllWritten([]) == ""
  {
    assert ([d] + ds)[1..] == ds;
  }

  lemma StretchesWritten(key: Text, x: Text)
    ensures AllWritten(Stretches(key, x)) == "{" + (key + "=" + ("<|\"|>" + x + "<|\"|>" + "}"))
  {
    var ds := Stretches(key, x);
    assert Written(ds[0]) == "{" && Written(ds[3]) == "}";
    assert Written(ds[1]) == key + "=" by { assert "" + (key + "" + "=") == key + "="; }
    assert Written(ds[2]) == "<|\"|>" + x + "<|\"|>" by { assert "" + (LEAK + (x + LEAK)) == LEAK + x + LEAK; }
    assert ds == [ds[0]] + ([ds[1]] + ([ds[2]] + ([ds[3]] + [])));
    hide AllWritten, Written;
    WrittenCons(ds[0], [ds[1]] + ([ds[2]] + ([ds[3]] + [])));
    WrittenCons(ds[1], [ds[2]] + ([ds[3]] + []));
    WrittenCons(ds[2], [ds[3]] + []);
    WrittenCons(ds[3], []);
    assert "}" + "" == "}";
  }

  lemma ArgumentLexemes(key: Text, x: Text)
    ensures LexemesOf(Obj(Arguments(key, x)))
         == [Punct('{'), Lit(PrintBody(key)), Punct(':'), Lit(PrintBody(x)), Punct('}')]
  {
    hide PrintBody;
    assert MemberLexemes(Arguments(key, x)) == [Lit(PrintBody(key)), Punct(':')] + [Lit(PrintBody(x))] + [];
  }

  lemma StretchesDrift(key: Text, x: Text)
    requires IsIdent(key) && Quiet(x)
    ensures Drifts(Stretches(key, x), LexemesOf(Obj(Arguments(key, x)))) && AllDriftOk(Stretches(key, x))
  {
    ArgumentLexemes(key, x);
    QuietDecodes(x);
    IdentDecodes(key) by { IdentIs(key); }
    DecodePrinted(key);
    DecodePrinted(x);
    hide PrintBody, DecodeBody, LenientDecode, IsIdent, Quiet;
    var ds, xs := Stretches(key, x), [Punct('{'), Lit(PrintBody(key)), Punct(':'), Lit(PrintBody(x)), Punct('}')];
    FourDrifts(ds, xs);
    assert Ascii(LexemeText(Lit(x))) by { QuietAscii(x); }
  }

  lemma QuietAscii(x: Text)
    requires Quiet(x)
    ensures Ascii([QUOTE] + x + [QUOTE])
  {}

  lemma PlainDrifts(d: Drift, ds: seq<Drift>, x: Lexeme, xs: seq<Lexeme>)
    requires d.Plain? && Agrees(d.tok.lex, x) && Drifts(ds, xs)
    ensures Drifts([d] + ds, [x] + xs)
  {
    assert ([d] + ds)[1..] == ds && ([x] + xs)[1..] == xs;
    hide Agrees;
  }

  lemma BareDrifts(d: Drift, ds: seq<Drift>, x: Lexeme, xs: seq<Lexeme>)
    requires d.Bare? && Agrees(Lit(d.key), x) && Drifts(ds, xs)
    ensures Drifts([d] + ds, [x, Punct(':')] + xs)
  {
    assert ([d] + ds)[1..] == ds && ([x, Punct(':')] + xs)[2..] == xs;
    hide Agrees;
  }

  lemma FourDrifts(ds: seq<Drift>, xs: seq<Lexeme>)
    requires |ds| == 4 && |xs| == 5 && ds[0].Plain? && ds[1].Bare? && ds[2].Plain? && ds[3].Plain?
    requires Agrees(ds[0].tok.lex, xs[0]) && Agrees(Lit(ds[1].key), xs[1]) && xs[2] == Punct(':')
    requires Agrees(ds[2].tok.lex, xs[3]) && Agrees(ds[3].tok.lex, xs[4])
    ensures Drifts(ds, xs)
  {
    assert Drifts([], []);
    hide Agrees, Drifts;
    PlainDrifts(ds[3], [], xs[4], []);
    PlainDrifts(ds[2], [ds[3]] + [], xs[3], [xs[4]] + []);
    BareDrifts(ds[1], [ds[2]] + ([ds[3]] + []), xs[1], [xs[3]] + ([xs[4]] + []));
    PlainDrifts(ds[0], [ds[1]] + ([ds[2]] + ([ds[3]] + [])), xs[0], [xs[1], Punct(':')] + ([xs[3]] + ([xs[4]] + [])));
    assert ds == [ds[0]] + ([ds[1]] + ([ds[2]] + ([ds[3]] + [])));
    assert xs == [xs[0]] + ([xs[1], Punct(':')] + ([xs[3]] + ([xs[4]] + [])));
  }

  /** The arguments as the wire carries them. */
  lemma ArgumentsPrinted(key: Text, x: Text)
    requires IsIdent(key) && Quiet(x)
    ensures Print(Obj(Arguments(key, x))) == "{\"" + key + "\":\"" + x + "\"}"
  {
    ArgumentLexemes(key, x);
    assert Mild(key) && Mild(x);
    MildStays(key);
    MildStays(x);
    hide PrintBody, IsIdent, Quiet, Mild, Spelling;
    PrintedText([Punct('{'), Lit(key), Punct(':'), Lit(x), Punct('}')]);
    FiveSpelled(Punct('{'), Lit(key), Punct(':'), Lit(x), Punct('}'));
    QuotedPair(key, x);
  }

  lemma QuotedPair(key: Text, x: Text)
    ensures ['{'] + (([QUOTE] + key + [QUOTE]) + ([':'] + (([QUOTE] + x + [QUOTE]) + ['}'])))
         == "{\"" + key + "\":\"" + x + "\"}"
  {}

  lemma SpellingCons(y: Lexeme, ys: seq<Lexeme>)
    ensures Spelling([y] + ys) == LexemeText(y) + Spelling(ys) && Spelling([]) == ""
  {
    assert ([y] + ys)[1..] == ys;
  }

  lemma FiveSpelled(a: Lexeme, b: Lexeme, c: Lexeme, d: Lexeme, e: Lexeme)
    ensures Spelling([a, b, c, d, e])
         == LexemeText(a) + (LexemeText(b) + (LexemeText(c) + (LexemeText(d) + LexemeText(e))))
  {
    hide LexemeText, Spelling;
    SpellingCons(e, []);
    SpellingCons(d, [e] + []);
    SpellingCons(c, [d] + ([e] + []));
    SpellingCons(b, [c] + ([d] + ([e] + [])));
    SpellingCons(a, [b] + ([c] + ([d] + ([e] + []))));
    assert [a, b, c, d, e] == [a] + ([b] + ([c] + ([d] + ([e] + []))));
    assert LexemeText(e) + "" == LexemeText(e);
  }

  /** No close marker: every `<` in the body begins a quote token. */
  lemma BodyHasNoClose(p: Text, x: Text)
    requires '<' !in p && Quiet(x)
    ensures !Contains(p + ("<|\"|>" + x + "<|\"|>" + "}"), CLOSE_MARKER)
  {
    var q := "<|\"|>" + x + "<|\"|>" + "}";
    var s := p + q;
    forall k: nat ensures !OccursAt(s, CLOSE_MARKER, k) {
      if k + 12 <= |s| {
        var t := s[k..];
        assert t[0] == s[k] && t[1] == s[k + 1];
        if k < |p| { assert s[k] == p[k]; }
        else if k == |p| { assert s[k + 1] == q[1]; }
        else if k < |p| + 5 { assert s[k] == q[k - |p|]; }
        else if k < |p| + 5 + |x| { assert s[k] == x[k - |p| - 5]; }
      }
    }
  }

  /**
   * The reply `… <|tool_call>call:NAME{KEY=<|"|>X<|"|>}<tool_call|> …` is the call `tc-0` of NAME with the
   * arguments `{"KEY":"X"}`.
   */
  lemma ReplyIsCall(prose: Text, name: Text, key: Text, x: Text, rest: Text)
    requires !Contains(prose, "<|tool_call>") && !Contains(rest, "<|tool_call>")
    requires name != "" && IsWordName(name) && IsIdent(key) && key != "tool" && Quiet(x)
    ensures ExtractToolCalls(prose + "<|tool_call>"
                             + ("call:" + name + ("{" + (key + "=" + ("<|\"|>" + x + "<|\"|>" + "}")))
                                + "<tool_call|>" + rest))
         == Some([Proto.ToolCall("tc-0", name, "{\"" + key + "\":\"" + x + "\"}")])
  {
    hide Contains, Print, IsIdent, Quiet, ExtractToolCalls, Weave, DriftedBody, Numbered, IsWordName;
    var q := Invocation(name, Arguments(key, x));
    var body := "call:" + name + ("{" + (key + "=" + ("<|\"|>" + x + "<|\"|>" + "}")));
    BodyDrifts(name, key, x);
    assert !Contains(body, CLOSE_MARKER) by {
      IdentPlainly(key);
      NameIsWord(name);
      var p := "call:" + name + ("{" + (key + "="));
      BodyHasNoClose(p, x) by { assert '<' !in p; }
      assert body == p + ("<|\"|>" + x + "<|\"|>" + "}");
    }
    ExtractUndoesDrift([prose, rest], [q], [body], [Stretches(key, x)]);
    OneCallWoven(prose, body, rest);
    OneNumbered(name, key, x);
  }

  lemma OneNumbered(name: Text, key: Text, x: Text)
    requires IsIdent(key) && key != "tool" && Quiet(x)
    ensures Numbered([Invocation(name, Arguments(key, x))], 0)
         == [Proto.ToolCall("tc-0", name, "{\"" + key + "\":\"" + x + "\"}")]
  {
    var q := Invocation(name, Arguments(key, x));
    ArgumentsPrinted(key, x);
    hide Print, IsIdent, Quiet;
    FirstId();
    hide CallId;
    assert Remove(q.args, "tool") == q.args && [q][1..] == [];
  }

  lemma FirstId()
    ensures CallId(0) == "tc-0"
  {
    assert [('0' as int + 0 % 10) as char] == "0";
  }

  lemma ArgumentsCanonical(key: Text, x: Text)
    ensures Canonical(Obj(Arguments(key, x)))
  {
    assert CanonicalMembers(Nil) && Sorted(Nil);
  }

  lemma BodyDrifts(name: Text, key: Text, x: Text)
    requires name != "" && IsWordName(name) && IsIdent(key) && Quiet(x)
    ensures DriftedBody("call:" + name + ("{" + (key + "=" + ("<|\"|>" + x + "<|\"|>" + "}"))),
                        Invocation(name, Arguments(key, x)), Stretches(key, x))
  {
    StretchesWritten(key, x);
    StretchesDrift(key, x);
    NameIsWord(name);
    ArgumentsCanonical(key, x);
    hide IsIdent, Quiet, IsWordName, AllDriftOk, Drifts, LexemesOf, AllWritten, Stretches, IsName, Canonical;
    ConcatAssociative("call:", name, "{" + (key + "=" + ("<|\"|>" + x + "<|\"|>" + "}")));
  }

  lemma NameIsWord(name: Text)
    requires name != "" && IsWordName(name)
    ensures IsName(name) && '<' !in name
  {}

  lemma IdentPlainly(key: Text)
    requires IsIdent(key)
    ensures '<' !in key
  {}

  lemma OneCallWoven(prose: Text, body: Text, rest: Text)
    ensures Weave([prose, rest], [body]) == prose + OPEN_MARKER + (body + CLOSE_MARKER + rest)
  {
    assert [prose, rest][1..] == [rest] && [body][1..] == [];
    assert Weave([rest], []) == rest;
    assert body + (CLOSE_MARKER + rest) == body + CLOSE_MARKER + rest;
  }
}
