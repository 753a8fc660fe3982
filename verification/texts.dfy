// Option, and text search. A text is written as the sequence of its UTF-8
// bytes, each byte as the character of the same value.
module Texts {

  type Text = string

  datatype Option<+T> = None | Some(value: T)

  datatype Result<+T, +E> = Ok(value: T) | Err(error: E)

  function Concat(chunks: seq<Text>): Text {
    if chunks == [] then "" else chunks[0] + Concat(chunks[1..])
  }

  lemma ConcatAssociative(a: Text, b: Text, c: Text)
    ensures a + (b + c) == a + b + c
  {}

  ghost predicate OccursAt(s: Text, m: Text, k: nat) {
    k <= |s| && m <= s[k..]
  }

  ghost predicate Contains(s: Text, m: Text) {
    exists k: nat :: OccursAt(s, m, k)
  }

  lemma OccursShift(s: Text, m: Text, k: nat)
    requires s != "" && k > 0
    ensures OccursAt(s, m, k) <==> OccursAt(s[1..], m, k - 1)
  {
    if k <= |s| {
      assert s[1..][k - 1..] == s[k..];
    }
  }

  /** Position of the first occurrence of `m` in `s`, as `str::find`. */
  function Find(s: Text, m: Text): (r: Option<nat>)
    ensures r.Some? ==> OccursAt(s, m, r.value) && forall k: nat :: k < r.value ==> !OccursAt(s, m, k)
    ensures r.None? ==> !Contains(s, m)
    decreases |s|
  {
    if m <= s then Some(0)
    else if s == "" then None
    else
      var r := Find(s[1..], m);
      assert forall k: nat :: k > 0 ==> (OccursAt(s, m, k) <==> OccursAt(s[1..], m, k - 1)) by {
        forall k: nat | k > 0 { OccursShift(s, m, k); }
      }
      if r.Some? then Some(r.value + 1) else None
  }

  /** The first character of `m` appears nowhere else in `m`. All markers of the wire formats are so. */
  predicate HeadUnique(m: Text) {
    |m| > 0 && forall i :: 0 < i < |m| ==> m[i] != m[0]
  }

  /** Text before a marker that is free of the marker cannot make it match early. */
  lemma FindAfter(p: Text, m: Text, rest: Text)
    requires HeadUnique(m) && !Contains(p, m)
    ensures Find(p + m + rest, m) == Some(|p|)
  {
    var s := p + m + rest;
    assert s[|p|..] == m + rest;
    assert OccursAt(s, m, |p|);
    forall k: nat | k < |p|
      ensures !OccursAt(s, m, k)
    {
      if k + |m| <= |p| {
        assert s[k..][..|m|] == p[k..][..|m|];
        assert !OccursAt(p, m, k);
      } else {
        var j := |p| - k;
        assert s[k..][j] == s[|p|] == m[0] != m[j];
      }
    }
  }

  /** Splits at the first `m`: the text before it and the text after it. */
  function Cut(s: Text, m: Text): (r: Option<(Text, Text)>)
    ensures r.Some? ==> |s| == |r.value.0| + |m| + |r.value.1|
  {
    match Find(s, m)
    case None => None
    case Some(k) => assert OccursAt(s, m, k) && |s[k..]| >= |m|; Some((s[..k], s[k + |m|..]))
  }

  lemma CutIs(s: Text, m: Text)
    requires m != "" && Cut(s, m).Some?
    ensures s == Cut(s, m).value.0 + m + Cut(s, m).value.1 && !Contains(Cut(s, m).value.0, m)
  {
    var k := Find(s, m).value;
    assert OccursAt(s, m, k);
    forall j: nat ensures !OccursAt(s[..k], m, j) {
      assert j <= k ==> s[j..] == s[..k][j..] + s[k..];
      assert OccursAt(s[..k], m, j) ==> j < k && OccursAt(s, m, j);
    }
  }

  lemma CutAfter(p: Text, m: Text, rest: Text)
    requires HeadUnique(m) && !Contains(p, m)
    ensures Cut(p + m + rest, m) == Some((p, rest))
  {
    var s := p + m + rest;
    FindAfter(p, m, rest);
    hide Find, Contains;
    assert s[..|p|] == p && s[|p| + |m|..] == rest;
  }

  lemma LacksChar(p: Text, c: char)
    requires c !in p
    ensures !Contains(p, [c]) && Find(p, [c]).None?
  {
    hide Find;
    forall k: nat ensures !OccursAt(p, [c], k) {
      if k < |p| { assert p[k] != c && p[k..][0] == p[k]; }
    }
  }

  /** The first occurrence of a character that the text before it lacks. */
  lemma FindChar(p: Text, c: char, rest: Text)
    requires c !in p
    ensures Find(p + [c] + rest, [c]) == Some(|p|)
  {
    hide Find;
    LacksChar(p, c);
    FindAfter(p, [c], rest);
  }

  predicate Ascii(s: Text) {
    forall i :: 0 <= i < |s| ==> s[i] < 128 as char
  }

  /** ASCII part of Unicode White_Space, as `char::is_whitespace`. */
  predicate IsSpace(c: char) {
    c == ' ' || 9 as char <= c <= 13 as char
  }

  function TrimStart(s: Text): (r: Text)
    ensures |r| <= |s|
  {
    if s != "" && IsSpace(s[0]) then TrimStart(s[1..]) else s
  }

  lemma {:induction false} TrimStartIs(s: Text)
    ensures var r := TrimStart(s); r == s[|s| - |r|..] && (r == "" || !IsSpace(r[0]))
  {
    if s != "" && IsSpace(s[0]) { TrimStartIs(s[1..]); }
  }

  function TrimEnd(s: Text): (r: Text)
    ensures r <= s
    ensures r == "" || !IsSpace(r[|r| - 1])
  {
    if s != "" && IsSpace(s[|s| - 1]) then TrimEnd(s[..|s| - 1]) else s
  }

  /** `str::trim` on ASCII. */
  function Trim(s: Text): (r: Text)
    ensures r == "" || (!IsSpace(r[0]) && !IsSpace(r[|r| - 1]))
  {
    TrimStartIs(s);
    TrimEnd(TrimStart(s))
  }

  lemma TrimFixes(s: Text)
    requires s == "" || (!IsSpace(s[0]) && !IsSpace(s[|s| - 1]))
    ensures Trim(s) == s
  {}

  /** A text with a character that is no white space at both ends, or no character at all. */
  predicate Trimmed(w: Text) {
    w == "" || (!IsSpace(w[0]) && !IsSpace(w[|w| - 1]))
  }

  lemma {:induction false} TrimStartSkips(ws: Text, w: Text)
    requires forall i :: 0 <= i < |ws| ==> IsSpace(ws[i])
    requires w == "" || !IsSpace(w[0])
    ensures TrimStart(ws + w) == w
  {
    if ws == "" {
      assert ws + w == w;
    } else {
      TrimStartSkips(ws[1..], w);
      assert (ws + w)[1..] == ws[1..] + w;
    }
  }

  lemma {:induction false} TrimEndSkips(w: Text, ws: Text)
    requires forall i :: 0 <= i < |ws| ==> IsSpace(ws[i])
    requires w == "" || !IsSpace(w[|w| - 1])
    ensures TrimEnd(w + ws) == w
    decreases |ws|
  {
    if ws == "" {
      assert w + ws == w;
    } else {
      var n := |ws| - 1;
      TrimEndSkips(w, ws[..n]);
      assert (w + ws)[..|w + ws| - 1] == w + ws[..n];
    }
  }

  /** Trimming takes off the white space around a trimmed text. */
  lemma TrimAround(before: Text, w: Text, after: Text)
    requires Trimmed(w) && (forall i :: 0 <= i < |before| ==> IsSpace(before[i])) && forall i :: 0 <= i < |after| ==>
             IsSpace(after[i])
    requires w != "" || after == ""
    ensures Trim(before + w + after) == w
  {
    assert before + w + after == before + (w + after);
    TrimStartSkips(before, w + after);
    TrimEndSkips(w, after);
  }

  lemma {:induction false} TrimEndKeeps(s: Text, i: nat)
    requires i < |s| && !IsSpace(s[i])
    ensures |TrimEnd(s)| > i
    decreases |s|
  {
    if IsSpace(s[|s| - 1]) { TrimEndKeeps(s[..|s| - 1], i); }
  }

  const TWO_TO_THE_32: nat := 0x1_0000_0000

  /** A u32 as four bytes, lowest first. */
  function Le32(n: nat): (s: Text)
    requires n < TWO_TO_THE_32
    ensures |s| == 4
  {
    [(n % 256) as char, (n / 256 % 256) as char, (n / 65536 % 256) as char, (n / 16777216) as char]
  }

  function FromLe32(s: Text): int
    requires |s| == 4
  {
    s[0] as int + s[1] as int * 256 + s[2] as int * 65536 + s[3] as int * 16777216
  }

  lemma Le32RoundTrip(n: nat)
    requires n < TWO_TO_THE_32
    ensures FromLe32(Le32(n)) == n
  {
    assert n == n % 256 + 256 * (n / 256);
    assert n / 256 == n / 256 % 256 + 256 * (n / 65536);
    assert n / 65536 == n / 65536 % 256 + 256 * (n / 16777216);
  }

  function Decimal(n: nat): Text {
    var digit := [('0' as int + n % 10) as char];
    if n < 10 then digit else Decimal(n / 10) + digit
  }

  /** The number that decimal digits denote. */
  function Value(s: Text): int {
    if s == "" then 0 else Value(s[..|s| - 1]) * 10 + (s[|s| - 1] as int - '0' as int)
  }

  lemma {:induction false} DecimalValue(n: nat)
    ensures Value(Decimal(n)) == n
  {
    var d := Decimal(n);
    if n < 10 {
      assert d[..0] == "";
      assert Value("") == 0;
    } else {
      DecimalValue(n / 10);
      assert d[..|d| - 1] == Decimal(n / 10);
    }
  }
}
