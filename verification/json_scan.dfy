// The byte scanners of the lenient JSON recovery: each loop and the function
// it computes on the bytes still to be read.
module JsonScan {
  import opened Texts
  import opened Json

  /** `out.push(b as char)`: a byte from 0x80 on becomes the two bytes of the code point it numbers. */
  function PushByte(c: char): Text {
    if c < 128 as char then [c]
    else [(0xC0 + c as int / 64 % 4) as char, (0x80 + c as int % 64) as char]
  }

  predicate IsIdentStart(c: char) { IsAlpha(c) || c == '_' }

  predicate IsIdentChar(c: char) { IsAlpha(c) || IsDigit(c) || c == '_' }

  /** `is_ascii_whitespace` */
  predicate IsAsciiSpace(c: char) { c == ' ' || c == '\t' || c == '\n' || c == '\r' || c == 12 as char }

  function IdentRun(s: Text): (r: Text)
    ensures r <= s && (|r| < |s| ==> !IsIdentChar(s[|r|]))
    ensures forall i :: 0 <= i < |r| ==> IsIdentChar(r[i])
  {
    if s == "" || !IsIdentChar(s[0]) then "" else [s[0]] + IdentRun(s[1..])
  }

  function SpaceRun(s: Text): (r: Text)
    ensures r <= s && (|r| < |s| ==> !IsAsciiSpace(s[|r|]))
    ensures forall i :: 0 <= i < |r| ==> IsAsciiSpace(r[i])
  {
    if s == "" || !IsAsciiSpace(s[0]) then "" else [s[0]] + SpaceRun(s[1..])
  }

  // ---- Bare keys ----

  /** What one round of a scanner writes, how much it reads, and the state it leaves. */
  datatype Step = Step(text: Text, taken: nat, inString: bool, open: bool)

  /** One round at the start of `s`; `open`: only white space since the last `{` or `,`. */
  function QuoteStep(s: Text, inString: bool, open: bool): (st: Step)
    requires s != ""
    ensures 0 < st.taken <= |s|
  {
    if inString then
      if s[0] == BACKSLASH && |s| > 1 then Step(PushByte(s[0]) + PushByte(s[1]), 2, true, open)
      else Step(PushByte(s[0]), 1, s[0] != QUOTE, open)
    else if s[0] == QUOTE then Step([QUOTE], 1, true, false)
    else if s[0] == '{' || s[0] == ',' then Step(PushByte(s[0]), 1, false, true)
    else if IsAsciiSpace(s[0]) then Step(PushByte(s[0]), 1, false, open)
    else if open && IsIdentStart(s[0]) then
      var ident := IdentRun(s);
      var ws := SpaceRun(s[|ident|..]);
      var j := |ident| + |ws|;
      if j < |s| && s[j] == ':' then Step([QUOTE] + ident + [QUOTE], |ident|, false, false)
      else if j < |s| && s[j] == '=' then Step([QUOTE] + ident + [QUOTE] + ws + [':'], j + 1, false, false)
      else Step(ident, |ident|, false, false)
    else Step(PushByte(s[0]), 1, false, false)
  }

  /** What quoting bare keys makes of the rest of a text. */
  function QuoteFrom(s: Text, inString: bool, open: bool): Text
    decreases |s|
  {
    if s == "" then ""
    else
      var st := QuoteStep(s, inString, open);
      st.text + QuoteFrom(s[st.taken..], st.inString, st.open)
  }

  function QuoteBareKeys(raw: Text): Text {
    QuoteFrom(raw, false, false)
  }

  lemma DropDrop(s: Text, i: nat, n: nat)
    requires i + n <= |s|
    ensures s[i..][n..] == s[i + n..]
  {}

  lemma {:induction false} IdentRunIs(w: Text, rest: Text)
    requires forall i :: 0 <= i < |w| ==> IsIdentChar(w[i])
    requires rest == "" || !IsIdentChar(rest[0])
    ensures IdentRun(w + rest) == w
  {
    if w == "" {
      assert w + rest == rest;
    } else {
      IdentRunIs(w[1..], rest);
      assert (w + rest)[1..] == w[1..] + rest;
    }
  }

  lemma {:induction false} SpaceRunIs(w: Text, rest: Text)
    requires forall i :: 0 <= i < |w| ==> IsAsciiSpace(w[i])
    requires rest == "" || !IsAsciiSpace(rest[0])
    ensures SpaceRun(w + rest) == w
  {
    if w == "" {
      assert w + rest == rest;
    } else {
      SpaceRunIs(w[1..], rest);
      assert (w + rest)[1..] == w[1..] + rest;
    }
  }

  /** End of the identifier that begins at `start`. */
  method SkipIdent(s: Text, start: nat) returns (i: nat)
    requires start <= |s|
    ensures start <= i <= |s| && s[start..i] == IdentRun(s[start..])
  {
    i := start;
    while i < |s| && IsIdentChar(s[i])
      invariant start <= i <= |s| && forall k :: start <= k < i ==> IsIdentChar(s[k])
    {
      i := i + 1;
    }
    assert s[start..] == s[start..i] + s[i..];
    IdentRunIs(s[start..i], s[i..]);
  }

  /** Index of the first byte from `start` on that is not white space. */
  method SkipSpace(s: Text, start: nat) returns (j: nat)
    requires start <= |s|
    ensures start <= j <= |s| && s[start..j] == SpaceRun(s[start..])
  {
    j := start;
    while j < |s| && IsAsciiSpace(s[j])
      invariant start <= j <= |s| && forall k :: start <= k < j ==> IsAsciiSpace(s[k])
    {
      j := j + 1;
    }
    assert s[start..] == s[start..j] + s[j..];
    SpaceRunIs(s[start..j], s[j..]);
  }

  /** The round at a bare identifier. */
  method QuoteIdent(raw: Text, start: nat, out: Text) returns (out': Text, i: nat)
    requires start < |raw| && IsIdentStart(raw[start])
    ensures var st := QuoteStep(raw[start..], false, true); i == start + st.taken && out' == out + st.text
    ensures var st := QuoteStep(raw[start..], false, true); !st.inString && !st.open
  {
    hide IdentRun, SpaceRun;
    i := SkipIdent(raw, start);
    var j := SkipSpace(raw, i);
    var ident := raw[start..i];
    DropDrop(raw, start, i - start);
    assert j < |raw| ==> raw[start..][j - start] == raw[j];
    if j < |raw| && (raw[j] == ':' || raw[j] == '=') {
      out' := out + [QUOTE] + ident + [QUOTE];
      if raw[j] == '=' {
        out' := out' + raw[i..j] + [':'];
        i := j + 1;
      }
    } else {
      out' := out + ident;
    }
  }

  /** One round of the loop. */
  method QuoteRound(raw: Text, i: nat, out: Text, inString: bool, open: bool)
    returns (out': Text, i': nat, inString': bool, open': bool)
    requires i < |raw|
    ensures var st := QuoteStep(raw[i..], inString, open);
            out' == out + st.text && i' == i + st.taken && inString' == st.inString && open' == st.open
  {
    hide IdentRun, SpaceRun, PushByte;
    var b := raw[i];
    inString', open', i' := inString, open, i + 1;
    if inString {
      if b == BACKSLASH && i + 1 < |raw| {
        out' := out + (PushByte(b) + PushByte(raw[i + 1]));
        i' := i + 2;
      } else {
        out' := out + PushByte(b);
        inString' := b != QUOTE;
      }
    } else if b == QUOTE {
      inString', open' := true, false;
      out' := out + [QUOTE];
    } else if b == '{' || b == ',' {
      out' := out + PushByte(b);
      open' := true;
    } else if IsAsciiSpace(b) {
      out' := out + PushByte(b);
    } else if open && IsIdentStart(b) {
      out', i' := QuoteIdent(raw, i, out);
      open' := false;
    } else {
      out' := out + PushByte(b);
      open' := false;
    }
  }

  /** The loop over the bytes. */
  method QuoteBareKeysLoop(raw: Text) returns (out: Text)
    ensures out == QuoteBareKeys(raw)
  {
    hide QuoteStep;
    out := "";
    var i: nat := 0;
    var inString, open := false, false;
    while i < |raw|
      invariant i <= |raw|
      invariant out + QuoteFrom(raw[i..], inString, open) == QuoteBareKeys(raw)
    {
      ghost var before, from := out, i;
      ghost var st := QuoteStep(raw[i..], inString, open);
      out, i, inString, open := QuoteRound(raw, i, out, inString, open);
      DropDrop(raw, from, st.taken);
      ConcatAssociative(before, st.text, QuoteFrom(raw[i..], inString, open));
    }
    assert raw[|raw|..] == "";
  }

  // ---- Control characters and invalid escapes in strings ----

  predicate IsValidEscape(c: char) {
    c == QUOTE || c == BACKSLASH || c == '/' || c == 'b' || c == 'f' || c == 'n' || c == 'r' || c == 't' || c == 'u'
  }

  /** How a character that is not a quote is written inside a string. */
  function EscapeChar(c: char): Text {
    if c == '\n' then "\\n"
    else if c == '\r' then "\\r"
    else if c == '\t' then "\\t"
    else if c < ' ' then ControlEscape(c)
    else PushByte(c)
  }

  function EscapeStep(s: Text, inString: bool): (st: Step)
    requires s != ""
    ensures 0 < st.taken <= |s|
  {
    if inString then
      if s[0] == BACKSLASH && |s| > 1 then
        if IsValidEscape(s[1]) then Step(PushByte(s[0]) + PushByte(s[1]), 2, true, false)
        else Step("\\\\", 1, true, false)
      else if s[0] == QUOTE then Step([QUOTE], 1, false, false)
      else Step(EscapeChar(s[0]), 1, true, false)
    else if s[0] == QUOTE then Step([QUOTE], 1, true, false)
    else Step(PushByte(s[0]), 1, false, false)
  }

  /** What escaping makes of the rest of a text. */
  function EscapeFrom(s: Text, inString: bool): Text
    decreases |s|
  {
    if s == "" then ""
    else
      var st := EscapeStep(s, inString);
      st.text + EscapeFrom(s[st.taken..], st.inString)
  }

  function EscapeStringControls(raw: Text): Text {
    EscapeFrom(raw, false)
  }

  method EscapeStringControlsLoop(raw: Text) returns (out: Text)
    ensures out == EscapeStringControls(raw)
  {
    out := "";
    var i: nat := 0;
    var inString := false;
    while i < |raw|
      invariant i <= |raw|
      invariant out + EscapeFrom(raw[i..], inString) == EscapeStringControls(raw)
    {
      ghost var before, from := out, i;
      ghost var st := EscapeStep(raw[i..], inString);
      var b := raw[i];
      if inString && b == BACKSLASH && i + 1 < |raw| {
        if IsValidEscape(raw[i + 1]) {
          out := out + (PushByte(b) + PushByte(raw[i + 1]));
          i := i + 2;
        } else {
          out := out + "\\\\";
          i := i + 1;
        }
      } else {
        if b == QUOTE {
          out := out + [QUOTE];
          inString := !inString;
        } else if inString {
          out := out + EscapeChar(b);
        } else {
          out := out + PushByte(b);
        }
        i := i + 1;
      }
      assert out == before + st.text && i == from + st.taken && inString == st.inString;
      DropDrop(raw, from, st.taken);
      ConcatAssociative(before, st.text, EscapeFrom(raw[i..], inString));
    }
    assert raw[|raw|..] == "";
  }

  // ---- Top-level commas ----

  /** Whether a comma comes outside strings and at bracket depth 0, read from depth `depth`. */
  predicate CommaFrom(s: Text, depth: int, inString: bool)
    decreases |s|
  {
    s != "" &&
    if inString then
      if s[0] == BACKSLASH && |s| > 1 then CommaFrom(s[2..], depth, true)
      else CommaFrom(s[1..], depth, s[0] != QUOTE)
    else if s[0] == QUOTE then CommaFrom(s[1..], depth, true)
    else if s[0] == '[' || s[0] == '{' then CommaFrom(s[1..], depth + 1, false)
    else if s[0] == ']' || s[0] == '}' then CommaFrom(s[1..], depth - 1, false)
    else (s[0] == ',' && depth == 0) || CommaFrom(s[1..], depth, false)
  }

  method HasTopLevelComma(s: Text) returns (found: bool)
    ensures found == CommaFrom(s, 0, false)
  {
    var i: nat, depth, inString := 0, 0, false;
    while i < |s|
      invariant i <= |s| && CommaFrom(s[i..], depth, inString) == CommaFrom(s, 0, false)
    {
      var b, t := s[i], s[i..];
      assert s[i + 1..] == t[1..];
      if inString {
        if b == BACKSLASH && i + 1 < |s| {
          assert s[i + 2..] == t[2..];
          i := i + 2;
          continue;
        }
        inString := b != QUOTE;
      } else if b == QUOTE {
        inString := true;
      } else if b == '[' || b == '{' {
        depth := depth + 1;
      } else if b == ']' || b == '}' {
        depth := depth - 1;
      } else if b == ',' && depth == 0 {
        return true;
      }
      i := i + 1;
    }
    return false;
  }
}
