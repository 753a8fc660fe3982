// Drift recovery for every object: whichever way its text has drifted, parsing
// gives the object back.
module EveryDrift {
  import opened Texts
  import opened Json
  import opened JsonText
  import opened JsonScan
  import opened EscapeLaws
  import opened QuoteLaws
  import opened ToolFormat
  import opened Drifted

  /** A lexeme of the strict text: the same one, or a string that denotes what the raw body denotes. */
  predicate Agrees(raw: Lexeme, printed: Lexeme) {
    if raw.Lit? then printed.Lit? && DecodeBody(printed.body) == LenientDecode(raw.body) else raw == printed
  }

  /** The stretches stand for these lexemes, one after another. */
  predicate Drifts(ds: seq<Drift>, xs: seq<Lexeme>) {
    if ds == [] then xs == []
    else
      match ds[0]
      case Plain(t, _, _) => xs != [] && Agrees(t.lex, xs[0]) && Drifts(ds[1..], xs[1..])
      case Bare(_, key, _, _) =>
        |xs| >= 2 && Agrees(Lit(key), xs[0]) && xs[1] == Punct(':') && Drifts(ds[1..], xs[2..])
  }

  lemma {:induction false} IdentDecodes(key: Text)
    requires forall i :: 0 <= i < |key| ==> IsIdentChar(key[i])
    ensures DecodeBody(key) == LenientDecode(key) == Some(key)
  {
    if key != "" {
      IdentDecodes(key[1..]);
      assert key == [key[0]] + key[1..];
    }
  }

  lemma AlikeCons(x: Lexeme, y: Lexeme, ts: seq<Lexeme>, us: seq<Lexeme>)
    requires Alike(x, y) && AllAlike(ts, us)
    ensures AllAlike([x] + ts, [y] + us)
  {
    hide Alike;
  }

  lemma AgreesAlike(x: Lexeme, y: Lexeme)
    requires LexemeOk(x) && Ascii(LexemeText(x)) && Agrees(x, y)
    ensures Alike(Lexeme1(x), y)
  {
    hide Balanced, EscapeBody, DecodeBody, LenientDecode;
    if x.Lit? {
      AsciiParts([QUOTE] + x.body, [QUOTE]);
      AsciiParts([QUOTE], x.body);
      EscapePreservesMeaning(x.body);
    }
  }

  lemma KeyAlike(key: Text, y: Lexeme)
    requires IsIdent(key) && Agrees(Lit(key), y)
    ensures Alike(Lit(key), y)
  {
    IdentDecodes(key);
    hide DecodeBody, LenientDecode;
  }

  /** The strict rendering differs from these lexemes only in how strings are written. */
  lemma {:induction false} StrictAlike(ds: seq<Drift>, xs: seq<Lexeme>)
    requires AllDriftOk(ds) && Drifts(ds, xs)
    ensures AllAlike(Lexemes(Strict(ds)), xs)
  {
    hide Lexemes, Strict, Alike, Agrees, AllAlike, LexemeOk, AllSpace, IsIdent;
    if ds == [] {
      assert AllAlike(Lexemes(Strict([])), []) by { StrictNothing(); }
    } else {
      var ts := Lexemes(Strict(ds[1..]));
      assert DriftOk(ds[0]);
      if ds[0].Plain? {
        PlainHead(ds);
        AgreesAlike(ds[0].tok.lex, xs[0]);
        StrictAlike(ds[1..], xs[1..]);
        AlikeCons(Lexeme1(ds[0].tok.lex), xs[0], ts, xs[1..]);
        assert xs == [xs[0]] + xs[1..];
      } else {
        BareHead(ds);
        KeyAlike(ds[0].key, xs[0]);
        StrictAlike(ds[1..], xs[2..]);
        AlikeCons(Punct(':'), xs[1], ts, xs[2..]) by { SelfAlike(xs[1]); }
        AlikeCons(Lit(ds[0].key), xs[0], [Punct(':')] + ts, [xs[1]] + xs[2..]);
        assert xs == [xs[0]] + ([xs[1]] + xs[2..]);
        assert [Lit(ds[0].key), Punct(':')] + ts == [Lit(ds[0].key)] + ([Punct(':')] + ts);
      }
    }
  }

  lemma SelfAlike(x: Lexeme)
    ensures Alike(x, x)
  {}

  lemma StrictNothing()
    ensures AllAlike(Lexemes(Strict([])), [])
  {}

  /** Lenient decoding extends strict decoding. */
  lemma {:induction false} LenientExtends(b: Text)
    requires DecodeBody(b).Some?
    ensures LenientDecode(b) == DecodeBody(b)
    decreases |b|
  {
    hide DecodeUnicode;
    if b == "" {
    } else if b[0] != BACKSLASH {
      LenientExtends(b[1..]);
    } else if b[1] == 'u' {
      LenientExtends(b[2 + DecodeUnicode(b[2..]).value.1..]);
    } else {
      LenientExtends(b[2..]);
    }
  }

  lemma {:induction false} UndriftedDrifts(xs: seq<Lexeme>)
    requires Decodable(xs)
    ensures Drifts(Undrifted(Unspaced(xs)), xs)
  {
    hide DecodeBody, LenientDecode;
    if xs != [] {
      DecodableTail(xs[0], xs[1..]);
      assert xs == [xs[0]] + xs[1..];
      UndriftedDrifts(xs[1..]);
      var ds := Undrifted(Unspaced(xs));
      assert Unspaced(xs)[1..] == Unspaced(xs[1..]);
      assert ds[1..] == Undrifted(Unspaced(xs[1..]));
      if xs[0].Lit? { LenientExtends(xs[0].body); }
    }
  }

  /** The printed text is one of the drifts of its object. */
  lemma PrintDrifts(v: Json)
    requires Canonical(v)
    ensures var ds := Undrifted(Unspaced(LexemesOf(v)));
            Drifts(ds, LexemesOf(v)) && AllShaped(ds) && AllWritten(ds) == Print(v)
  {
    hide LexemesOf, Drifts, Canonical, Undrifted, Unspaced, AllShaped, AllWritten, WellShaped, Decodable, LexemeOk,
         AllOk, ParseValue;
    var xs := LexemesOf(v);
    ParsePrinted(v, []);
    assert xs + [] == xs;
    AcceptedShape(xs);
    ShapedDecodable(xs, false);
    UndriftedDrifts(xs);
    LexemesOfOk(v);
    UnspacedLexemes(xs);
    UndriftedText(Unspaced(xs));
  }

  /**
   * Drift recovery. For every object and every way to drift its text: whatever keys are bare,
   * whichever of them take `=`, whichever quotes have leaked and whatever raw characters strings
   * hold, the body gives the name and that object.
   */
  lemma {:induction false} DriftRecovery(name: Text, ds: seq<Drift>, ms: List<Member>)
    requires IsName(name) && AllDriftOk(ds) && AllWritten(ds) != "" && AllWritten(ds)[0] == '{'
    requires Canonical(Obj(ms)) && Drifts(ds, LexemesOf(Obj(ms)))
    ensures ParseBody(CALL + (name + AllWritten(ds))) == Call(name, Put(ms, Member("tool", Str(name))))
  {
    hide ParseBody, AllDriftOk, AllWritten, Strict, Lexemes, LexemesOf, ParseValue, Drifts, AllAlike, TokenText,
         Canonical;
    var xs := LexemesOf(Obj(ms));
    StrictAlike(ds, xs);
    ParseAlike(Lexemes(Strict(ds)), xs);
    ParsePrinted(Obj(ms), []);
    assert xs + [] == xs;
    SameAsStrict(name, ds, ms);
  }
}
