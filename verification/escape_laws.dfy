// What escaping control characters and invalid escapes preserves, on ASCII texts.
module EscapeLaws {
  import opened Texts
  import opened Json
  import opened JsonText
  import opened JsonScan

  lemma AsciiParts(a: Text, b: Text)
    ensures Ascii(a + b) <==> Ascii(a) && Ascii(b)
  {
    if Ascii(a + b) {
      assert forall i :: 0 <= i < |a| ==> a[i] == (a + b)[i];
      assert forall i :: 0 <= i < |b| ==> b[i] == (a + b)[|a| + i];
    }
  }

  // ---- Escaping ----

  /** The escaping of the inside of a string. */
  function EscapeBody(b: Text): Text
    decreases |b|
  {
    if b == "" then ""
    else if b[0] == BACKSLASH && |b| > 1 then
      if IsValidEscape(b[1]) then b[..2] + EscapeBody(b[2..]) else "\\\\" + EscapeBody(b[1..])
    else EscapeChar(b[0]) + EscapeBody(b[1..])
  }

  /**
   * What a string body denotes when read leniently: a raw control character denotes itself, and so does
   * a backslash that begins no escape. Only `\u` without a complete escape after it has no meaning.
   */
  function LenientDecode(b: Text): Option<Text>
    decreases |b|
  {
    if b == "" then Some("")
    else if b[0] == BACKSLASH then
      if |b| < 2 then None
      else if b[1] == 'u' then
        match DecodeUnicode(b[2..])
        case None => None
        case Some((t, n)) => Append(t, LenientDecode(b[2 + n..]))
      else if Escaped(b[1]).Some? then Append([Escaped(b[1]).value], LenientDecode(b[2..]))
      else Append([BACKSLASH], LenientDecode(b[1..]))
    else if b[0] == QUOTE then None
    else Append([b[0]], LenientDecode(b[1..]))
  }

  /** One round inside a string body is one round of escaping the body. */
  lemma BodyRound(b: Text) returns (n: nat, e: Text)
    requires b != "" && Balanced(b) && Ascii(b)
    ensures 0 < n <= |b| && EscapeBody(b) == e + EscapeBody(b[n..]) && Balanced(b[n..]) && Ascii(b[n..])
    ensures forall tail: Text :: EscapeStep(b + [QUOTE] + tail, true) == Step(e, n, true, false)
  {
    hide EscapeChar, IsValidEscape;
    if b[0] == BACKSLASH {
      if IsValidEscape(b[1]) {
        n, e := 2, b[..2];
      } else {
        n, e := 1, "\\\\";
        BadEscapeBalanced(b);
      }
    } else {
      n, e := 1, EscapeChar(b[0]);
    }
  }

  lemma BadEscapeBalanced(b: Text)
    requires |b| > 1 && b[0] == BACKSLASH && Balanced(b) && !IsValidEscape(b[1])
    ensures Balanced(b[1..])
  {
    assert b[1..][1..] == b[2..];
  }

  lemma EscapeFromIs(s: Text, n: nat, e: Text)
    requires 0 < n <= |s| && EscapeStep(s, true) == Step(e, n, true, false)
    ensures EscapeFrom(s, true) == e + EscapeFrom(s[n..], true)
  {
    hide EscapeStep;
  }

  lemma Regroup(a: Text, b: Text, c: Text, d: Text)
    ensures a + (b + c + d) == a + b + c + d
  {}

  lemma {:induction false} EscapeLiteral(b: Text, rest: Text)
    requires Balanced(b) && Ascii(b)
    ensures EscapeFrom(b + [QUOTE] + rest, true) == EscapeBody(b) + [QUOTE] + EscapeFrom(rest, false)
    decreases |b|
  {
    var s := b + [QUOTE] + rest;
    if b == "" {
      assert s == [QUOTE] + rest && s[1..] == rest;
    } else {
      var n, e := BodyRound(b);
      hide EscapeStep, EscapeBody;
      assert s[n..] == b[n..] + [QUOTE] + rest;
      EscapeLiteral(b[n..], rest);
      EscapeFromIs(s, n, e);
      Regroup(e, EscapeBody(b[n..]), [QUOTE], EscapeFrom(rest, false));
    }
  }

  /** Outside strings everything is copied. */
  lemma {:induction false} EscapeOutside(p: Text, rest: Text)
    requires QUOTE !in p && Ascii(p)
    ensures EscapeFrom(p + rest, false) == p + EscapeFrom(rest, false)
  {
    hide EscapeFrom;
    if p == "" {
      assert p + rest == rest;
    } else {
      EscapeOutside(p[1..], rest);
      EscapeOneOutside(p[0], p[1..] + rest);
      assert p + rest == [p[0]] + (p[1..] + rest) && p == [p[0]] + p[1..];
    }
  }

  lemma EscapeOneOutside(c: char, rest: Text)
    requires c != QUOTE && c < 128 as char
    ensures EscapeFrom([c] + rest, false) == [c] + EscapeFrom(rest, false)
  {
    assert ([c] + rest)[1..] == rest;
  }

  /** A whole string literal: its inside is escaped. */
  lemma EscapeWholeLiteral(b: Text, rest: Text)
    requires Balanced(b) && Ascii(b)
    ensures EscapeFrom([QUOTE] + b + [QUOTE] + rest, false)
            == [QUOTE] + EscapeBody(b) + [QUOTE] + EscapeFrom(rest, false)
  {
    var s, t := [QUOTE] + b + [QUOTE] + rest, b + [QUOTE] + rest;
    assert s[1..] == t;
    assert EscapeFrom(s, false) == [QUOTE] + EscapeFrom(t, true);
    hide EscapeFrom, EscapeBody, Balanced;
    EscapeLiteral(b, rest);
    Regroup([QUOTE], EscapeBody(b), [QUOTE], EscapeFrom(rest, false));
  }

  lemma {:induction false} EscapedBalanced(b: Text)
    requires Balanced(b) && Ascii(b)
    ensures Balanced(EscapeBody(b)) && Ascii(EscapeBody(b))
    decreases |b|
  {
    if b != "" {
      if b[0] == BACKSLASH {
        if IsValidEscape(b[1]) {
          EscapedBalanced(b[2..]);
          BalancedAfterPair(b[1], EscapeBody(b[2..]));
          assert b[..2] == [BACKSLASH, b[1]];
        } else {
          BadEscapeBalanced(b);
          EscapedBalanced(b[1..]);
          BalancedAfterPair(BACKSLASH, EscapeBody(b[1..]));
        }
      } else {
        EscapedBalanced(b[1..]);
        BalancedAfterEscape(b[0], EscapeBody(b[1..]));
      }
    }
  }

  lemma BalancedAfterPair(c: char, rest: Text)
    ensures Balanced([BACKSLASH, c] + rest) == Balanced(rest)
    ensures c < 128 as char && Ascii(rest) ==> Ascii([BACKSLASH, c] + rest)
  {
    assert ([BACKSLASH, c] + rest)[2..] == rest;
  }

  lemma BalancedAfterEscape(c: char, rest: Text)
    requires c != QUOTE && c != BACKSLASH && c < 128 as char
    ensures Balanced(EscapeChar(c) + rest) == Balanced(rest)
    ensures Ascii(rest) ==> Ascii(EscapeChar(c) + rest)
  {
    var p := EscapeChar(c);
    AsciiParts(p, rest);
    if p[0] == BACKSLASH {
      BalancedAfterPlain(p[2..], rest);
      assert (p + rest)[2..] == p[2..] + rest;
    } else {
      assert (p + rest)[1..] == rest;
    }
  }

  // ---- Escaping keeps what strings denote ----

  predicate IsHex(c: char) { HexValue(c) >= 0 }

  /** How escaping begins. */
  lemma EscapeBodyHead(x: Text)
    requires Ascii(x)
    ensures x == "" ==> EscapeBody(x) == ""
    ensures x != "" && IsHex(x[0]) ==> EscapeBody(x) == [x[0]] + EscapeBody(x[1..])
    ensures x != "" && !IsHex(x[0]) ==> EscapeBody(x) != "" && !IsHex(EscapeBody(x)[0])
  {}

  lemma EscapeKeepsHex4(t: Text)
    requires Ascii(t)
    ensures Hex4(EscapeBody(t)) == Hex4(t)
    ensures Hex4(t).Some? ==> EscapeBody(t) == t[..4] + EscapeBody(t[4..])
  {
    hide EscapeBody, HexValue;
    EscapeBodyHead(t);
    if t != "" && IsHex(t[0]) {
      var t1 := t[1..];
      EscapeBodyHead(t1);
      if t1 != "" && IsHex(t1[0]) {
        var t2 := t1[1..];
        EscapeBodyHead(t2);
        if t2 != "" && IsHex(t2[0]) {
          var t3 := t2[1..];
          EscapeBodyHead(t3);
          assert t3[..] == t[3..];
          if t3 != "" && IsHex(t3[0]) {
            assert t3[1..] == t[4..];
            assert EscapeBody(t) == [t[0]] + ([t[1]] + ([t[2]] + ([t[3]] + EscapeBody(t[4..]))));
          } else {
            assert EscapeBody(t) == [t[0]] + ([t[1]] + ([t[2]] + EscapeBody(t3)));
          }
        } else {
          assert EscapeBody(t) == [t[0]] + ([t[1]] + EscapeBody(t2));
        }
      }
    }
  }

  /** Whether a low surrogate escape begins the text. */
  predicate LowSurrogateAt(s: Text) {
    |s| >= 2 && s[0] == BACKSLASH && s[1] == 'u' && Hex4(s[2..]).Some? && 0xDC00 <= Hex4(s[2..]).value < 0xE000
  }

  lemma ControlIsNoSurrogate(c: char, rest: Text)
    requires c < ' '
    ensures !LowSurrogateAt(EscapeChar(c) + rest)
  {
    var e := EscapeChar(c) + rest;
    if e[1] == 'u' {
      assert e[2..][0] == '0' && e[2..][1] == '0';
    }
  }

  lemma EscapeKeepsSurrogate(u: Text)
    requires Ascii(u) && Balanced(u)
    ensures LowSurrogateAt(EscapeBody(u)) == LowSurrogateAt(u)
    ensures LowSurrogateAt(u) ==>
              && Hex4(EscapeBody(u)[2..]) == Hex4(u[2..])
              && |u| >= 6 && |EscapeBody(u)| >= 6 && EscapeBody(u)[6..] == EscapeBody(u[6..])
                  && EscapeBody(u)[..6] == u[..6]
  {
    if u != "" {
      var e := EscapeBody(u);
      if u[0] == BACKSLASH && u[1] == 'u' {
        EscapeKeepsHex4(u[2..]);
        hide EscapeBody, Hex4;
        assert e == u[..2] + EscapeBody(u[2..]) by { UnicodeEscapeStays(u); }
        assert e[2..] == EscapeBody(u[2..]);
        if Hex4(u[2..]).Some? {
          assert |u[2..]| >= 4 by { Hex4Length(u[2..]); }
          assert u[2..][4..] == u[6..];
          assert e == u[..2] + (u[2..][..4] + EscapeBody(u[6..]));
        }
      } else if u[0] != BACKSLASH {
        hide Hex4;
        if u[0] < ' ' { ControlIsNoSurrogate(u[0], EscapeBody(u[1..])); }
      } else {
        hide Hex4;
        assert e[0] == BACKSLASH && e[1] != 'u';
      }
    }
  }

  lemma Hex4Length(s: Text)
    requires Hex4(s).Some?
    ensures |s| >= 4
  {}

  lemma UnicodeEscapeStays(u: Text)
    requires |u| > 1 && u[0] == BACKSLASH && u[1] == 'u'
    ensures EscapeBody(u) == u[..2] + EscapeBody(u[2..])
  {}

  lemma EscapeKeepsUnicode(t: Text)
    requires Ascii(t) && Balanced(t)
    ensures DecodeUnicode(EscapeBody(t)) == DecodeUnicode(t)
    ensures DecodeUnicode(t).Some? ==>
              var n := DecodeUnicode(t).value.1;
              |EscapeBody(t)| >= n && EscapeBody(t)[n..] == EscapeBody(t[n..])
  {
    hide EscapeBody, Hex4, DecodeUnicode, LowSurrogateAt, Utf8, Balanced;
    EscapeKeepsHex4(t);
    if Hex4(t).None? {
      NoHexNoUnicode(t);
      NoHexNoUnicode(EscapeBody(t));
    } else {
      Hex4Length(t);
      var e := EscapeBody(t);
      var u := t[4..];
      HexTailBalanced(t);
      EscapeKeepsSurrogate(u);
      DecodeUnicodeIs(t);
      DecodeUnicodeIs(e);
      assert e[4..] == EscapeBody(u);
      if LowSurrogateAt(u) {
        assert u[6..] == t[10..] && e[10..] == e[4..][6..];
      }
    }
  }

  lemma NoHexNoUnicode(t: Text)
    requires Hex4(t).None?
    ensures DecodeUnicode(t).None?
  {}

  lemma HexTailBalanced(t: Text)
    requires Balanced(t) && Hex4(t).Some?
    ensures Balanced(t[4..])
  {
    assert t == t[..4] + t[4..];
    BalancedAfterPlain(t[..4], t[4..]);
  }

  lemma DecodeUnicodeIs(t: Text)
    requires Hex4(t).Some? && |t| >= 4
    ensures DecodeUnicode(t) ==
            var h := Hex4(t).value;
            if 0xD800 <= h < 0xDC00 then
              if LowSurrogateAt(t[4..]) && |t[4..]| >= 6 then
                  Some((Utf8(0x1_0000 + (h - 0xD800) * 1024 + (Hex4(t[4..][2..]).value - 0xDC00)), 10))
              else None
            else if 0xDC00 <= h < 0xE000 || h >= 0x1_0000 then None
            else Some((Utf8(h), 4))
  {
    if |t| >= 6 { assert t[4..][2..] == t[6..]; }
  }

  lemma UnicodeTailBalanced(t: Text)
    requires Balanced(t) && DecodeUnicode(t).Some?
    ensures Balanced(t[DecodeUnicode(t).value.1..])
  {
    HexTailBalanced(t);
    if DecodeUnicode(t).value.1 == 10 {
      var u := t[4..];
      assert u[2..] == t[6..] && u[2..][4..] == t[10..];
      HexTailBalanced(u[2..]);
    }
  }

  lemma DecodeEscapedChar(c: char, rest: Text)
    requires c != QUOTE && c != BACKSLASH && c < 128 as char
    ensures DecodeBody(EscapeChar(c) + rest) == Append([c], DecodeBody(rest))
  {
    hide DecodeBody, ControlEscape;
    if c == '\n' { DecodeShortEscape('n', c, rest); }
    else if c == '\r' { DecodeShortEscape('r', c, rest); }
    else if c == '\t' { DecodeShortEscape('t', c, rest); }
    else if c < ' ' { DecodeControlEscape(c, rest); }
    else { DecodePlain(c, rest); }
  }

  lemma DecodeBodyUnicode(e: Text)
    requires |e| >= 2 && e[0] == BACKSLASH && e[1] == 'u'
    ensures DecodeBody(e) == match DecodeUnicode(e[2..])
                             case None => None
                             case Some((t, n)) => Append(t, DecodeBody(e[2 + n..]))
  {}

  /** Strict decoding of an escaped body is lenient decoding of the body. */
  lemma {:induction false} EscapePreservesMeaning(b: Text)
    requires Balanced(b) && Ascii(b)
    ensures DecodeBody(EscapeBody(b)) == LenientDecode(b)
    decreases |b|
  {
    hide DecodeBody, DecodeUnicode, EscapeChar;
    if b == "" {
      assert DecodeBody("") == Some("") by { DecodeEmpty(); }
    } else if b[0] != BACKSLASH {
      EscapePreservesMeaning(b[1..]);
      DecodeEscapedChar(b[0], EscapeBody(b[1..]));
    } else if b[1] == 'u' {
      EscapeUnicodeMeaning(b);
    } else if Escaped(b[1]).Some? {
      EscapePreservesMeaning(b[2..]);
      DecodeShortEscape(b[1], Escaped(b[1]).value, EscapeBody(b[2..]));
      assert b[..2] == [BACKSLASH, b[1]];
    } else {
      BadEscapeBalanced(b);
      EscapePreservesMeaning(b[1..]);
      DecodeShortEscape(BACKSLASH, BACKSLASH, EscapeBody(b[1..]));
    }
  }

  /** No quote, and no backslash that begins an escape. Controls may stand in it. */
  predicate RawText(a: Text) {
    forall i :: 0 <= i < |a| ==> RawAt(a, i)
  }

  predicate RawAt(a: Text, i: nat)
    requires i < |a|
  {
    && a[i] != '\"' && a[i] < 128 as char
    && (a[i] == '\\' ==> i + 1 < |a| && a[i + 1] !in "\"\\/bfnrtu")
  }

  lemma RawTail(a: Text)
    requires RawText(a) && a != ""
    ensures RawAt(a, 0) && RawText(a[1..])
  {
    forall i | 0 <= i < |a| - 1 ensures RawAt(a[1..], i) {
      assert RawAt(a, i + 1);
    }
  }

  /** Such a text is read as it stands, control characters and stray backslashes included. */
  lemma {:induction false} RawTextStands(a: Text, rest: Text)
    requires RawText(a)
    ensures LenientDecode(a + rest) == Append(a, LenientDecode(rest))
  {
    hide LenientDecode, RawText;
    if a == "" {
      assert a + rest == rest;
      assert Append("", LenientDecode(rest)) == LenientDecode(rest) by { AppendNothing(LenientDecode(rest)); }
    } else {
      var t := a + rest;
      assert t[1..] == a[1..] + rest && t[0] == a[0];
      RawTail(a);
      RawTextStands(a[1..], rest);
      if a[0] == '\\' { assert t[1] == a[1]; NoEscape(a[1]); }
      RawHead(t);
      AppendTwice(a[..1], a[1..], LenientDecode(rest));
      assert a[..1] == [a[0]] && a[..1] + a[1..] == a;
    }
  }

  lemma AppendNothing(r: Option<Text>)
    ensures Append("", r) == r
  {
    if r.Some? { assert "" + r.value == r.value; }
  }

  lemma AppendTwice(a: Text, b: Text, r: Option<Text>)
    ensures Append(a, Append(b, r)) == Append(a + b, r)
  {
    if r.Some? { ConcatAssociative(a, b, r.value); }
  }

  lemma NoEscape(c: char)
    requires c !in "\"\\/bfnrtu"
    ensures Escaped(c).None? && c != 'u'
  {}

  lemma RawHead(t: Text)
    requires t != "" && t[0] != QUOTE && (t[0] == BACKSLASH ==> |t| > 1 && t[1] != 'u' && Escaped(t[1]).None?)
    ensures LenientDecode(t) == Append([t[0]], LenientDecode(t[1..]))
  {}

  /** Escaped, it is a strict string for exactly that text. */
  lemma RawTextKept(a: Text)
    requires RawText(a)
    ensures DecodeBody(EscapeBody(a)) == Some(a)
  {
    RawTextStands(a, "");
    assert a + "" == a && LenientDecode("") == Some("");
    RawBalanced(a);
    hide LenientDecode, DecodeBody, RawText, Balanced;
    EscapePreservesMeaning(a);
  }

  lemma {:induction false} RawBalanced(a: Text)
    requires RawText(a)
    ensures Balanced(a) && Ascii(a)
  {
    hide RawText;
    if a != "" {
      RawTail(a);
      RawBalanced(a[1..]);
      if a[0] == '\\' {
        RawTail(a[1..]);
        assert a[1..][1..] == a[2..];
        RawBalanced(a[2..]);
      }
    }
  }

  /** Four hex digits that are no lone surrogate: after a high surrogate comes the low one. */
  predicate CompleteEscape(t: Text) {
    && Hex4(t).Some? && |t| >= 4
    && var h := Hex4(t).value;
       !(0xDC00 <= h < 0xE000) && (0xD800 <= h < 0xDC00 ==> LowSurrogateAt(t[4..]))
  }

  /** How many characters after `\u` belong to the escape: a pair of surrogates is one. */
  function EscapeLength(t: Text): nat {
    if Hex4(t).Some? && 0xD800 <= Hex4(t).value < 0xDC00 then 10 else 4
  }

  /** Every `\u` of a string body begins a complete escape. */
  predicate UnicodeComplete(b: Text)
    decreases |b|
  {
    if b == "" then true
    else if b[0] != BACKSLASH || |b| < 2 then UnicodeComplete(b[1..])
    else if b[1] == 'u' then
      CompleteEscape(b[2..]) && (|b| >= 2 + EscapeLength(b[2..]) ==> UnicodeComplete(b[2 + EscapeLength(b[2..])..]))
    else if Escaped(b[1]).Some? then UnicodeComplete(b[2..])
    else UnicodeComplete(b[1..])
  }

  lemma CompleteDecodes(t: Text)
    ensures CompleteEscape(t) <==> DecodeUnicode(t).Some?
    ensures DecodeUnicode(t).Some? ==> DecodeUnicode(t).value.1 == EscapeLength(t) <= |t|
  {
    if Hex4(t).Some? {
      Hex4Length(t);
      DecodeUnicodeIs(t);
      Hex4Bound(t);
      if LowSurrogateAt(t[4..]) { Hex4Length(t[4..][2..]); }
      hide Hex4, DecodeUnicode, Utf8;
    }
  }

  lemma Hex4Bound(t: Text)
    requires Hex4(t).Some?
    ensures Hex4(t).value < 0x1_0000
  {}

  lemma {:induction false} CompleteIffLenient(b: Text)
    requires Balanced(b)
    ensures LenientDecode(b).Some? <==> UnicodeComplete(b)
    decreases |b|, 1
  {
    hide CompleteEscape, DecodeUnicode, EscapeLength;
    if b == "" {
    } else if b[0] != BACKSLASH {
      CompleteIffLenient(b[1..]);
    } else if b[1] == 'u' {
      CompleteIffUnicode(b);
    } else if Escaped(b[1]).Some? {
      CompleteIffLenient(b[2..]);
    } else {
      BadEscapeBalanced(b);
      CompleteIffLenient(b[1..]);
    }
  }

  lemma {:induction false} CompleteIffUnicode(b: Text)
    requires |b| > 1 && b[0] == BACKSLASH && b[1] == 'u' && Balanced(b)
    ensures LenientDecode(b).Some? <==> UnicodeComplete(b)
    decreases |b|, 0
  {
    hide CompleteEscape, DecodeUnicode, EscapeLength, Escaped;
    CompleteDecodes(b[2..]);
    if DecodeUnicode(b[2..]).Some? {
      var n := DecodeUnicode(b[2..]).value.1;
      UnicodeTailBalanced(b[2..]);
      assert b[2..][n..] == b[2 + n..];
      CompleteIffLenient(b[2 + n..]);
    }
  }

  /** An escaped string body decodes exactly when every `\u` in it begins a complete escape. */
  lemma EscapedDecodesIff(b: Text)
    requires Balanced(b) && Ascii(b)
    ensures DecodeBody(EscapeBody(b)).Some? <==> UnicodeComplete(b)
  {
    EscapePreservesMeaning(b);
    CompleteIffLenient(b);
  }

  lemma DecodeEmpty()
    ensures DecodeBody("") == Some("")
  {}

  lemma {:induction false} EscapeUnicodeMeaning(b: Text)
    requires |b| > 1 && b[0] == BACKSLASH && b[1] == 'u' && Balanced(b) && Ascii(b)
    ensures DecodeBody(EscapeBody(b)) == LenientDecode(b)
    decreases |b|, 0
  {
    hide DecodeBody, DecodeUnicode, EscapeChar;
    var t, e := b[2..], EscapeBody(b);
    UnicodeEscapeStays(b);
    assert e[2..] == EscapeBody(t);
    EscapeKeepsUnicode(t);
    DecodeBodyUnicode(e);
    if DecodeUnicode(t).Some? {
      var n := DecodeUnicode(t).value.1;
      UnicodeTailBalanced(t);
      assert t[n..] == b[2 + n..] && e[2..][n..] == e[2 + n..];
      EscapePreservesMeaning(b[2 + n..]);
    }
  }

  // ---- Escaping a whole text ----

  /** A text as what lies outside strings, its strings, and a last string that is never closed. */
  datatype Segment = Outside(c: char) | Closed(body: Text) | Unclosed(body: Text)

  function Segments(s: Text): seq<Segment>
    decreases |s|
  {
    if s == "" then []
    else if s[0] != QUOTE then [Outside(s[0])] + Segments(s[1..])
    else
      match ScanBody(s[1..])
      case None => [Unclosed(s[1..])]
      case Some((b, rest)) => [Closed(b)] + Segments(rest)
  }

  function SegmentText(g: Segment): Text {
    match g
    case Outside(c) => [c]
    case Closed(b) => [QUOTE] + b + [QUOTE]
    case Unclosed(b) => [QUOTE] + b
  }

  function SegmentsText(gs: seq<Segment>): Text {
    if gs == [] then "" else SegmentText(gs[0]) + SegmentsText(gs[1..])
  }

  function EscapeSegment(g: Segment): Segment {
    match g
    case Outside(c) => g
    case Closed(b) => Closed(EscapeBody(b))
    case Unclosed(b) => Unclosed(EscapeBody(b))
  }

  function EscapeSegments(gs: seq<Segment>): seq<Segment> {
    if gs == [] then [] else [EscapeSegment(gs[0])] + EscapeSegments(gs[1..])
  }

  lemma {:induction false} SegmentsTextIs(s: Text)
    ensures SegmentsText(Segments(s)) == s
    decreases |s|
  {
    if s != "" {
      if s[0] != QUOTE {
        SegmentsTextIs(s[1..]);
      } else if ScanBody(s[1..]).Some? {
        var b, rest := ScanBody(s[1..]).value.0, ScanBody(s[1..]).value.1;
        SegmentsTextIs(rest);
        hide ScanBody;
        assert s == [QUOTE] + (b + [QUOTE] + rest);
        Regroup([QUOTE], b, [QUOTE], rest);
      } else {
        assert Segments(s)[1..] == [];
        assert s == [QUOTE] + s[1..];
      }
    }
  }

  lemma {:induction false} ScannedBalanced(s: Text)
    requires ScanBody(s).Some?
    ensures Balanced(ScanBody(s).value.0)
    decreases |s|
  {
    if s[0] == QUOTE {
    } else if s[0] == BACKSLASH {
      ScannedBalanced(s[2..]);
      BalancedAfterPair(s[1], ScanBody(s[2..]).value.0);
      assert s[..2] == [BACKSLASH, s[1]];
    } else {
      ScannedBalanced(s[1..]);
      BalancedAfterPlain(s[..1], ScanBody(s[1..]).value.0);
    }
  }

  lemma ScanAfterPair(c: char, rest: Text)
    ensures ScanBody([BACKSLASH, c] + rest).None? == ScanBody(rest).None?
  {
    assert ([BACKSLASH, c] + rest)[2..] == rest;
  }

  lemma {:induction false} ScanAfterPlain(p: Text, rest: Text)
    requires forall i :: 0 <= i < |p| ==> p[i] != QUOTE && p[i] != BACKSLASH
    ensures ScanBody(p + rest).None? == ScanBody(rest).None?
  {
    if p == "" {
      assert p + rest == rest;
    } else {
      ScanAfterPlain(p[1..], rest);
      assert (p + rest)[1..] == p[1..] + rest;
    }
  }

  lemma ScanAfterEscape(c: char, rest: Text)
    requires c != QUOTE && c != BACKSLASH && c < 128 as char
    ensures ScanBody(EscapeChar(c) + rest).None? == ScanBody(rest).None?
  {
    hide ScanBody;
    var p := EscapeChar(c);
    if p[0] == BACKSLASH {
      ScanAfterPlain(p[2..], rest);
      ScanAfterPair(p[1], p[2..] + rest);
      assert p + rest == [BACKSLASH, p[1]] + (p[2..] + rest);
    } else {
      ScanAfterPlain(p, rest);
    }
  }

  /** The end of a text inside a string that is never closed. */
  lemma {:induction false} EscapeUnclosed(u: Text)
    requires Ascii(u) && ScanBody(u).None?
    ensures EscapeFrom(u, true) == EscapeBody(u) && ScanBody(EscapeBody(u)).None?
    decreases |u|
  {
    hide EscapeChar;
    if u == "" {
    } else if u[0] == BACKSLASH && |u| > 1 {
      if IsValidEscape(u[1]) {
        EscapeUnclosed(u[2..]);
        ScanAfterPair(u[1], EscapeBody(u[2..]));
        assert u[..2] == [BACKSLASH, u[1]];
      } else {
        assert u[1..][1..] == u[2..];
        EscapeUnclosed(u[1..]);
        ScanAfterPair(BACKSLASH, EscapeBody(u[1..]));
      }
    } else if u[0] == BACKSLASH {
      DanglingStays(u);
    } else {
      EscapeUnclosed(u[1..]);
      ScanAfterEscape(u[0], EscapeBody(u[1..]));
    }
  }

  lemma DanglingStays(u: Text)
    requires u == [BACKSLASH]
    ensures EscapeFrom(u, true) == EscapeBody(u) && ScanBody(EscapeBody(u)).None?
  {
    assert EscapeStep(u, true) == Step(u, 1, true, false);
    assert EscapeFrom("", true) == "";
  }

  /**
   * Escaping keeps every string where it is and everything outside strings as it is, and escapes
   * the inside of each string.
   */
  lemma {:induction false} EscapeKeepsBoundaries(s: Text)
    requires Ascii(s)
    ensures Segments(EscapeStringControls(s)) == EscapeSegments(Segments(s))
    decreases |s|
  {
    var out := EscapeFrom(s, false);
    if s != "" {
      if s[0] != QUOTE {
        EscapeKeepsBoundaries(s[1..]);
        assert out == [s[0]] + EscapeFrom(s[1..], false);
      } else {
        assert out == [QUOTE] + EscapeFrom(s[1..], true);
        var u := s[1..];
        hide EscapeFrom, EscapeStep, EscapeBody;
        if ScanBody(u).Some? {
          var b, rest := ScanBody(u).value.0, ScanBody(u).value.1;
          hide ScanBody;
          ScannedBalanced(u);
          AsciiParts(b + [QUOTE], rest);
          AsciiParts(b, [QUOTE]);
          EscapeLiteral(b, rest);
          EscapedBalanced(b);
          ScanBalanced(EscapeBody(b), EscapeFrom(rest, false));
          EscapeKeepsBoundaries(rest);
        } else {
          EscapeUnclosed(u);
          hide ScanBody;
        }
      }
    }
  }

  predicate NoControl(b: Text) {
    forall i :: 0 <= i < |b| ==> b[i] >= ' '
  }

  lemma NoControlParts(a: Text, b: Text)
    ensures NoControl("")
    ensures |a| == 2 && a[0] >= ' ' && a[1] >= ' ' ==> NoControl(a)
    ensures NoControl(a) && NoControl(b) ==> NoControl(a + b)
  {}

  lemma EscapeCharNoControl(c: char)
    ensures NoControl(EscapeChar(c))
  {}

  lemma {:induction false} EscapeLeavesNoControl(b: Text)
    ensures NoControl(EscapeBody(b))
    decreases |b|
  {
    hide EscapeChar, NoControl;
    if b == "" {
      NoControlParts("", "");
    } else if b[0] == BACKSLASH && |b| > 1 {
      var p, rest := if IsValidEscape(b[1]) then b[..2] else "\\\\", if IsValidEscape(b[1]) then b[2..] else b[1..];
      EscapeLeavesNoControl(rest);
      NoControlParts(p, EscapeBody(rest));
    } else {
      EscapeLeavesNoControl(b[1..]);
      EscapeCharNoControl(b[0]);
      NoControlParts(EscapeChar(b[0]), EscapeBody(b[1..]));
    }
  }

  lemma EscapePairStays(c: char, rest: Text)
    requires IsValidEscape(c)
    ensures EscapeBody([BACKSLASH, c] + rest) == [BACKSLASH, c] + EscapeBody(rest)
  {
    assert ([BACKSLASH, c] + rest)[2..] == rest;
  }

  lemma {:induction false} EscapePlainStays(p: Text, rest: Text)
    requires forall i :: 0 <= i < |p| ==> p[i] != BACKSLASH && ' ' <= p[i] < 128 as char
    ensures EscapeBody(p + rest) == p + EscapeBody(rest)
  {
    hide EscapeBody;
    if p == "" {
      assert p + rest == rest;
    } else {
      EscapePlainStays(p[1..], rest);
      assert p + rest == [p[0]] + (p[1..] + rest);
      EscapeOnePlain(p[0], p[1..] + rest);
      assert p == [p[0]] + p[1..];
    }
  }

  lemma EscapeOnePlain(c: char, rest: Text)
    requires c != BACKSLASH && ' ' <= c < 128 as char
    ensures EscapeBody([c] + rest) == [c] + EscapeBody(rest)
  {
    assert ([c] + rest)[1..] == rest;
  }

  lemma EscapeCharStays(c: char, rest: Text)
    requires c != BACKSLASH && c < 128 as char
    ensures EscapeBody(EscapeChar(c) + rest) == EscapeChar(c) + EscapeBody(rest)
  {
    hide EscapeBody;
    var p := EscapeChar(c);
    if p[0] == BACKSLASH {
      EscapePlainStays(p[2..], rest);
      EscapePairStays(p[1], p[2..] + rest);
      assert p + rest == [BACKSLASH, p[1]] + (p[2..] + rest);
    } else {
      EscapePlainStays(p, rest);
    }
  }

  lemma {:induction false} EscapeBodyIdempotent(b: Text)
    requires Ascii(b)
    ensures EscapeBody(EscapeBody(b)) == EscapeBody(b)
    decreases |b|
  {
    hide EscapeChar;
    if b == "" {
    } else if b[0] == BACKSLASH && |b| > 1 {
      if IsValidEscape(b[1]) {
        EscapeBodyIdempotent(b[2..]);
        EscapePairStays(b[1], EscapeBody(b[2..]));
        assert b[..2] == [BACKSLASH, b[1]];
      } else {
        EscapeBodyIdempotent(b[1..]);
        EscapePairStays(BACKSLASH, EscapeBody(b[1..]));
      }
    } else if b[0] == BACKSLASH {
      EscapeBackslash();
    } else {
      EscapeBodyIdempotent(b[1..]);
      EscapeCharStays(b[0], EscapeBody(b[1..]));
    }
  }

  lemma EscapeBackslash()
    ensures EscapeChar(BACKSLASH) == [BACKSLASH]
  {}

  predicate SegmentsAscii(gs: seq<Segment>) {
    forall g :: g in gs && !g.Outside? ==> Ascii(g.body)
  }

  lemma {:induction false} SegmentsAreAscii(s: Text)
    requires Ascii(s)
    ensures SegmentsAscii(Segments(s))
    decreases |s|
  {
    if s != "" {
      if s[0] != QUOTE {
        SegmentsAreAscii(s[1..]);
      } else if ScanBody(s[1..]).Some? {
        var b, rest := ScanBody(s[1..]).value.0, ScanBody(s[1..]).value.1;
        hide ScanBody;
        AsciiParts(b + [QUOTE], rest);
        AsciiParts(b, [QUOTE]);
        SegmentsAreAscii(rest);
      }
    }
  }

  lemma {:induction false} EscapeSegmentsIdempotent(gs: seq<Segment>)
    requires SegmentsAscii(gs)
    ensures EscapeSegments(EscapeSegments(gs)) == EscapeSegments(gs)
  {
    if gs != [] {
      if !gs[0].Outside? { EscapeBodyIdempotent(gs[0].body); }
      EscapeSegmentsIdempotent(gs[1..]);
    }
  }

  lemma {:induction false} EscapedAscii(s: Text, inString: bool)
    requires Ascii(s)
    ensures Ascii(EscapeFrom(s, inString))
    decreases |s|
  {
    if s != "" {
      var st := EscapeStep(s, inString);
      EscapedAscii(s[st.taken..], st.inString);
      hide EscapeFrom;
    }
  }

  /** A second pass changes nothing. */
  lemma EscapeIdempotent(s: Text)
    requires Ascii(s)
    ensures EscapeStringControls(EscapeStringControls(s)) == EscapeStringControls(s)
  {
    hide EscapeSegments, Segments, SegmentsText, EscapeFrom;
    var e := EscapeStringControls(s);
    EscapedAscii(s, false);
    EscapeKeepsBoundaries(s);
    EscapeKeepsBoundaries(e);
    SegmentsAreAscii(s);
    EscapeSegmentsIdempotent(Segments(s));
    SegmentsTextIs(e);
    SegmentsTextIs(EscapeStringControls(e));
  }

  lemma {:induction false} EscapeSegmentsAt(gs: seq<Segment>, i: nat)
    requires i < |gs|
    ensures |EscapeSegments(gs)| == |gs| && EscapeSegments(gs)[i] == EscapeSegment(gs[i])
  {
    if i > 0 { EscapeSegmentsAt(gs[1..], i - 1); } else if |gs| > 1 { EscapeSegmentsAt(gs[1..], 0); }
  }

  lemma {:induction false} ClosedBalanced(s: Text, i: nat)
    requires i < |Segments(s)| && Segments(s)[i].Closed?
    ensures Balanced(Segments(s)[i].body)
    decreases |s|
  {
    if s[0] != QUOTE {
      ClosedBalanced(s[1..], i - 1);
    } else if ScanBody(s[1..]).Some? {
      ScannedBalanced(s[1..]);
      if i > 0 { ClosedBalanced(ScanBody(s[1..]).value.1, i - 1); }
    }
  }

  /** String by string: strictly decoding the output gives what leniently decoding the input gives. */
  lemma EscapeKeepsStrings(s: Text, i: nat)
    requires Ascii(s) && i < |Segments(s)| && Segments(s)[i].Closed?
    ensures |Segments(EscapeStringControls(s))| == |Segments(s)|
    ensures var g := Segments(EscapeStringControls(s))[i];
            g.Closed? && NoControl(g.body) && DecodeBody(g.body) == LenientDecode(Segments(s)[i].body)
  {
    hide Segments, EscapeSegments, EscapeBody, DecodeBody, LenientDecode;
    EscapeKeepsBoundaries(s);
    EscapeSegmentsAt(Segments(s), i);
    ClosedBalanced(s, i);
    SegmentsAreAscii(s);
    EscapePreservesMeaning(Segments(s)[i].body);
    EscapeLeavesNoControl(Segments(s)[i].body);
  }

  // ---- Strict texts are left alone ----

  lemma HexPlain(t: Text)
    requires Hex4(t).Some?
    ensures |t| >= 4 && forall i :: 0 <= i < 4 ==> t[..4][i] != BACKSLASH && ' ' <= t[..4][i] < 128 as char
  {}

  lemma HexStays(t: Text)
    requires Hex4(t).Some? && |t| >= 4
    ensures EscapeBody(t) == t[..4] + EscapeBody(t[4..])
  {
    hide Hex4, EscapeBody;
    HexPlain(t);
    assert t == t[..4] + t[4..];
    EscapePlainStays(t[..4], t[4..]);
  }

  lemma UnicodeStays(t: Text)
    requires DecodeUnicode(t).Some?
    ensures var n := DecodeUnicode(t).value.1; EscapeBody(t) == t[..n] + EscapeBody(t[n..])
  {
    Hex4Length(t);
    DecodeUnicodeIs(t);
    HexStays(t);
    if DecodeUnicode(t).value.1 == 10 {
      var u := t[4..];
      UnicodeEscapeStays(u);
      Hex4Length(u[2..]);
      HexStays(u[2..]);
      hide EscapeBody, Hex4, DecodeUnicode, LowSurrogateAt;
      assert u[2..][4..] == t[10..];
      assert t[..4] + (u[..2] + (u[2..][..4] + EscapeBody(t[10..]))) == t[..10] + EscapeBody(t[10..]);
    }
  }

  /** A body that decodes strictly holds nothing to escape. */
  lemma {:induction false} DecodableStays(b: Text)
    requires DecodeBody(b).Some? && Ascii(b)
    ensures EscapeBody(b) == b
    decreases |b|
  {
    hide DecodeUnicode, EscapeBody;
    if b == "" {
      assert EscapeBody("") == "" by { EscapeBodyHead(""); }
    } else if b[0] != BACKSLASH {
      DecodableStays(b[1..]);
      assert b == [b[0]] + b[1..];
      EscapeOnePlain(b[0], b[1..]);
    } else if b[1] == 'u' {
      DecodableUnicodeStays(b);
    } else {
      DecodableStays(b[2..]);
      assert b == [BACKSLASH, b[1]] + b[2..];
      EscapePairStays(b[1], b[2..]);
    }
  }

  lemma {:induction false} DecodableUnicodeStays(b: Text)
    requires DecodeBody(b).Some? && Ascii(b) && |b| > 1 && b[0] == BACKSLASH && b[1] == 'u'
    ensures EscapeBody(b) == b
    decreases |b|, 0
  {
    DecodeBodyUnicode(b);
    hide DecodeUnicode, EscapeBody, DecodeBody;
    var n := DecodeUnicode(b[2..]).value.1;
    DropDrop(b, 2, n);
    DecodableStays(b[2 + n..]);
    UnicodeStays(b[2..]);
    UnicodeEscapeStays(b);
    assert b[2..] == b[2..][..n] + b[2 + n..];
    assert b == b[..2] + b[2..];
  }

  predicate Decodable(ts: seq<Lexeme>) {
    forall i :: 0 <= i < |ts| && ts[i].Lit? ==> DecodeBody(ts[i].body).Some?
  }

  lemma {:induction false} ShapedDecodable(ts: seq<Lexeme>, open: bool)
    requires WellShaped(ts, open)
    ensures Decodable(ts)
    decreases |ts|
  {
    hide DecodeBody, IsScalarWord;
    if ts != [] {
      if ts[0].Lit? && |ts| > 1 && ts[1] == Punct(':') {
        ShapedDecodable(ts[2..], false);
        assert ts == ts[..2] + ts[2..];
      } else {
        ShapedDecodable(ts[1..], ts[0].Punct? && (ts[0].c == '{' || ts[0].c == ','));
        assert ts == ts[..1] + ts[1..];
      }
    }
  }

  lemma {:induction false} EscapeFixesLexed(s: Text)
    requires Ascii(s) && Lex(s).Some? && Decodable(Lex(s).value)
    ensures EscapeFrom(s, false) == s
    decreases |s|
  {
    hide EscapeFrom, ScanBody, WordRun, EscapeBody, DecodeBody;
    if s == "" {
      EscapeNothing();
    } else if s[0] == QUOTE {
      var b, rest := ScanBody(s[1..]).value.0, ScanBody(s[1..]).value.1;
      ScannedBalanced(s[1..]);
      assert s == [QUOTE] + b + [QUOTE] + rest;
      AsciiParts([QUOTE] + b + [QUOTE], rest);
      AsciiParts([QUOTE] + b, [QUOTE]);
      AsciiParts([QUOTE], b);
      DecodableTail(Lit(b), Lex(rest).value);
      DecodableStays(b);
      EscapeWholeLiteral(b, rest);
      EscapeFixesLexed(rest);
    } else {
      var p := if IsJsonSpace(s[0]) || IsPunct(s[0]) then s[..1] else WordRun(s);
      assert p != "" && QUOTE !in p by { if IsWordChar(s[0]) { WordRunPlain(s); } }
      var rest := s[|p|..];
      assert s == p + rest;
      AsciiParts(p, rest);
      if !IsJsonSpace(s[0]) { DecodableTail(if IsPunct(s[0]) then Punct(s[0]) else Word(p), Lex(rest).value); }
      EscapeOutside(p, rest);
      EscapeFixesLexed(rest);
    }
  }

  lemma EscapeNothing()
    ensures EscapeFrom("", false) == ""
  {}

  lemma WordRunPlain(s: Text)
    requires s != "" && IsWordChar(s[0])
    ensures WordRun(s) != "" && QUOTE !in WordRun(s)
  {}

  lemma DecodableTail(x: Lexeme, ts: seq<Lexeme>)
    requires Decodable([x] + ts)
    ensures Decodable(ts) && (x.Lit? ==> DecodeBody(x.body).Some?)
  {
    hide DecodeBody;
    assert ([x] + ts)[0] == x;
    assert forall i :: 0 <= i < |ts| ==> ts[i] == ([x] + ts)[i + 1];
  }

  /** Escaping leaves every strict ASCII text as it is. */
  lemma EscapeFixesStrict(s: Text)
    requires FromStr(s).Some? && Ascii(s)
    ensures EscapeStringControls(s) == s
  {
    AcceptedShape(Lex(s).value);
    ShapedDecodable(Lex(s).value, false);
    EscapeFixesLexed(s);
  }
}
