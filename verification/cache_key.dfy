// The prefix-cache key of the LiteRT-LM slot: the byte serialization that is
// hashed, and the decoder that shows it loses nothing.
module CacheKey {
  import opened Texts
  import opened Proto

  /** An f32 as its bit pattern. */
  type F32 = x: nat | x < 0x1_0000_0000 witness 0

  datatype Sampler = Sampler(topP: F32, temperature: F32)

  /** What a key stands for: a system prompt, a sampler and a list of turns. */
  datatype Prefix = Prefix(system: Option<Text>, sampler: Sampler, turns: seq<Turn>)

  const SYS: Text := "sys\0"
  const SAMPLER: Text := "\0sampler\0"
  const TURNS: Text := "\0turns\0"

  function SystemText(system: Option<Text>): Text {
    if system.Some? then system.value else ""
  }

  /** `u32::try_from(len).unwrap_or(u32::MAX)` */
  function ClampLen(n: nat): (r: nat)
    ensures r < TWO_TO_THE_32
  {
    if n < TWO_TO_THE_32 then n else TWO_TO_THE_32 - 1
  }

  function RoleByte(r: Role): char {
    match r
    case System => 0 as char
    case User => 1 as char
    case Assistant => 2 as char
    case Tool => 3 as char
  }

  function EncodeText(s: Text): Text {
    Le32(ClampLen(|s|)) + s
  }

  function EncodeTurn(t: Turn): (s: Text)
    ensures s != ""
  {
    [RoleByte(t.role)] + EncodeText(t.content) + if t.toolCallId.Some? then EncodeText(t.toolCallId.value) else ""
  }

  function EncodeTurns(ts: seq<Turn>): Text {
    if ts == [] then "" else EncodeTurn(ts[0]) + EncodeTurns(ts[1..])
  }

  function Header(s: Sampler): (r: Text)
    ensures |r| == 24
  {
    SAMPLER + Le32(s.topP) + Le32(s.temperature) + TURNS
  }

  function CanonicalBytes(p: Prefix): Text {
    SYS + SystemText(p.system) + Header(p.sampler) + EncodeTurns(p.turns)
  }

  lemma {:induction false} EncodeTurnsConcat(a: seq<Turn>, b: seq<Turn>)
    ensures EncodeTurns(a + b) == EncodeTurns(a) + EncodeTurns(b)
  {
    hide EncodeTurn;
    if a == [] {
      assert a + b == b;
    } else {
      EncodeTurnsConcat(a[1..], b);
      assert (a + b)[0] == a[0] && (a + b)[1..] == a[1..] + b;
      ConcatAssociative(EncodeTurn(a[0]), EncodeTurns(a[1..]), EncodeTurns(b));
    }
  }

  lemma AppendTurn(buf: Text, t: Turn)
    ensures EncodeTurns([t]) == EncodeTurn(t)
    ensures var b := buf + [RoleByte(t.role)] + Le32(ClampLen(|t.content|)) + t.content;
            && (t.toolCallId.None? ==> b == buf + EncodeTurn(t))
            && (t.toolCallId.Some? ==>
                  b + Le32(ClampLen(|t.toolCallId.value|)) + t.toolCallId.value == buf + EncodeTurn(t))
  {
    hide Le32;
  }

  /** The buffer-filling loop of the serialization. */
  method FillCanonicalBytes(system: Option<Text>, sampler: Sampler, turns: seq<Turn>) returns (buf: Text)
    ensures buf == CanonicalBytes(Prefix(system, sampler, turns))
  {
    hide Le32, EncodeTurn;
    buf := SYS;
    if system.Some? {
      buf := buf + system.value;
    }
    buf := buf + SAMPLER;
    buf := buf + Le32(sampler.topP);
    buf := buf + Le32(sampler.temperature);
    buf := buf + TURNS;
    ghost var header := buf;
    for i := 0 to |turns|
      invariant buf == header + EncodeTurns(turns[..i])
    {
      var t := turns[i];
      ghost var before := buf;
      buf := buf + [RoleByte(t.role)];
      buf := buf + Le32(ClampLen(|t.content|));
      buf := buf + t.content;
      if t.toolCallId.Some? {
        buf := buf + Le32(ClampLen(|t.toolCallId.value|));
        buf := buf + t.toolCallId.value;
      }
      AppendTurn(before, t);
      EncodeTurnsConcat(turns[..i], [t]);
      assert turns[..i + 1] == turns[..i] + [t];
    }
    assert turns[..|turns|] == turns;
  }

  /** The bytes of the first n turns begin the bytes of all of them. */
  lemma KeyBytesArePrefix(p: Prefix, n: nat)
    requires n <= |p.turns|
    ensures CanonicalBytes(p.(turns := p.turns[..n])) <= CanonicalBytes(p)
  {
    EncodeTurnsConcat(p.turns[..n], p.turns[n..]);
    assert p.turns == p.turns[..n] + p.turns[n..];
  }

  // ---- Layout ----

  /** Four bytes, lowest first. */
  predicate FourBytes(s: Text, n: nat) {
    |s| == 4 && s[0] as int + 256 * s[1] as int + 65536 * s[2] as int + 16777216 * s[3] as int == n
    && forall i :: 0 <= i < 4 ==> s[i] as int < 256
  }

  predicate SizedText(s: Text, t: Text) {
    |s| == 4 + |t| && s[4..] == t && FourBytes(s[..4], if |t| < 0x1_0000_0000 then |t| else 0xFFFF_FFFF)
  }

  /** The bytes of a turn: its role by number, its content and its id, each after its size, up to 2^32 - 1. */
  lemma TurnLayout(t: Turn)
    ensures var e, n := EncodeTurn(t), 5 + |t.content|;
            && |e| >= n && SizedText(e[1..n], t.content)
            && e[0] as int == (match t.role case System => 0 case User => 1 case Assistant => 2 case Tool => 3)
            && if t.toolCallId.Some? then SizedText(e[n..], t.toolCallId.value) else |e| == n
  {
    TextLayout(t.content);
    if t.toolCallId.Some? { TextLayout(t.toolCallId.value); }
    hide SizedText, EncodeText;
    var e, n := EncodeTurn(t), 5 + |t.content|;
    assert |EncodeText(t.content)| == 4 + |t.content| by { TextSize(t.content); }
    assert e[1..n] == EncodeText(t.content);
    if t.toolCallId.Some? { assert e[n..] == EncodeText(t.toolCallId.value); }
  }

  lemma TextSize(t: Text)
    ensures |EncodeText(t)| == 4 + |t|
  {}

  lemma TextLayout(t: Text)
    ensures SizedText(EncodeText(t), t)
  {
    Le32Layout(ClampLen(|t|));
    hide Le32, FourBytes;
    assert EncodeText(t)[..4] == Le32(ClampLen(|t|)) && EncodeText(t)[4..] == t;
  }

  lemma Le32Layout(n: nat)
    requires n < TWO_TO_THE_32
    ensures FourBytes(Le32(n), n)
  {
    Le32RoundTrip(n);
  }

  /** The key bytes: the prompt, both sampler settings and the turns, each behind its marker. */
  lemma KeyLayout(p: Prefix) returns (topP: Text, temperature: Text)
    ensures FourBytes(topP, p.sampler.topP) && FourBytes(temperature, p.sampler.temperature)
    ensures var prompt := match p.system case None => "" case Some(s) => s;
            CanonicalBytes(p)
            == "sys\0" + prompt + "\0sampler\0" + topP + temperature + "\0turns\0" + EncodeTurns(p.turns)
  {
    topP, temperature := Le32(p.sampler.topP), Le32(p.sampler.temperature);
    Le32Layout(p.sampler.topP);
    Le32Layout(p.sampler.temperature);
    hide Le32, FourBytes, EncodeTurns;
    LayoutRegroup(SYS + SystemText(p.system), topP, temperature, EncodeTurns(p.turns));
  }

  lemma LayoutRegroup(a: Text, b: Text, c: Text, d: Text)
    ensures a + (SAMPLER + b + c + TURNS) + d == a + SAMPLER + b + c + TURNS + d
  {
    ConcatAssociative(a, SAMPLER + b + c, TURNS);
    ConcatAssociative(a, SAMPLER + b, c);
    ConcatAssociative(a, SAMPLER, b);
  }

  // ---- Decoding ----

  predicate WellFormedTurn(t: Turn) {
    && (t.toolCallId.Some? <==> t.role.Tool?)
    && |t.content| < TWO_TO_THE_32
    && (t.toolCallId.Some? ==> |t.toolCallId.value| < TWO_TO_THE_32)
  }

  predicate WellFormed(p: Prefix) {
    && (0 as char) !in SystemText(p.system)
    && forall t :: t in p.turns ==> WellFormedTurn(t)
  }

  function DecodeText(s: Text): Option<(Text, Text)> {
    if |s| < 4 then None
    else
      var n := FromLe32(s[..4]);
      if |s| < 4 + n then None else Some((s[4..4 + n], s[4 + n..]))
  }

  function DecodeTurn(s: Text): (r: Option<(Turn, Text)>)
    ensures r.Some? ==> |r.value.1| < |s|
  {
    if s == "" || s[0] > 3 as char then None
    else
      var role := if s[0] == 0 as char then System
                  else if s[0] == 1 as char then User
                  else if s[0] == 2 as char then Assistant else Tool;
      match DecodeText(s[1..])
      case None => None
      case Some((content, rest)) =>
        if role.Tool? then
          match DecodeText(rest)
          case None => None
          case Some((id, rest')) => Some((Turn(role, content, Some(id)), rest'))
        else
          Some((Turn(role, content, None), rest))
  }

  function DecodeTurns(s: Text): Option<seq<Turn>>
    decreases |s|
  {
    if s == "" then Some([])
    else
      match DecodeTurn(s)
      case None => None
      case Some((t, rest)) =>
        match DecodeTurns(rest)
        case None => None
        case Some(ts) => Some([t] + ts)
  }

  lemma DecodeTextEncoded(s: Text, rest: Text)
    requires |s| < TWO_TO_THE_32
    ensures DecodeText(EncodeText(s) + rest) == Some((s, rest))
  {
    hide Le32, FromLe32;
    var e := EncodeText(s) + rest;
    Le32RoundTrip(|s|);
    assert e[..4] == Le32(|s|);
    assert e[4..4 + |s|] == s;
    assert e[4 + |s|..] == rest;
  }

  lemma DecodeTurnEncoded(t: Turn, rest: Text)
    requires WellFormedTurn(t)
    ensures DecodeTurn(EncodeTurn(t) + rest) == Some((t, rest))
  {
    hide EncodeText, DecodeText;
    var e := EncodeTurn(t) + rest;
    var tail := if t.toolCallId.Some? then EncodeText(t.toolCallId.value) else "";
    assert e[1..] == EncodeText(t.content) + (tail + rest);
    DecodeTextEncoded(t.content, tail + rest);
    if t.toolCallId.Some? {
      DecodeTextEncoded(t.toolCallId.value, rest);
    } else {
      assert tail + rest == rest;
    }
  }

  lemma {:induction false} DecodeTurnsEncoded(ts: seq<Turn>)
    requires forall t :: t in ts ==> WellFormedTurn(t)
    ensures DecodeTurns(EncodeTurns(ts)) == Some(ts)
  {
    hide EncodeTurn, DecodeTurn;
    assert ts != [] ==> ts == [ts[0]] + ts[1..];
    if ts != [] {
      DecodeTurnEncoded(ts[0], EncodeTurns(ts[1..]));
      DecodeTurnsEncoded(ts[1..]);
    }
  }

  /** Everything before the first NUL: a NUL-free system prompt ends there. */
  lemma NulFreePrefixUnique(a: Text, x: Text, b: Text, y: Text)
    requires (0 as char) !in a && (0 as char) !in b
    requires a + [0 as char] + x == b + [0 as char] + y
    ensures a == b && x == y
  {
    var l, r := a + [0 as char] + x, b + [0 as char] + y;
    assert l[|a|] == 0 as char && r[|b|] == 0 as char;
    assert forall i :: 0 <= i < |a| ==> l[i] == a[i] != 0 as char;
    assert forall i :: 0 <= i < |b| ==> r[i] == b[i] != 0 as char;
    assert a == l[..|a|] == b;
    assert x == l[|a| + 1..] == y;
  }

  /** What follows the NUL that ends the system prompt. */
  function AfterSystem(s: Sampler, turns: seq<Turn>): Text {
    "sampler\0" + Le32(s.topP) + Le32(s.temperature) + TURNS + EncodeTurns(turns)
  }

  lemma CanonicalShape(p: Prefix)
    ensures CanonicalBytes(p) == SYS + (SystemText(p.system) + [0 as char] + AfterSystem(p.sampler, p.turns))
  {
    hide Le32, EncodeTurns;
    assert SAMPLER == [0 as char] + "sampler\0";
  }

  lemma AfterSystemInjective(s: Sampler, ts: seq<Turn>, s': Sampler, ts': seq<Turn>)
    requires forall t :: t in ts ==> WellFormedTurn(t)
    requires forall t :: t in ts' ==> WellFormedTurn(t)
    requires AfterSystem(s, ts) == AfterSystem(s', ts')
    ensures s == s' && ts == ts'
  {
    hide Le32, FromLe32, EncodeTurns, DecodeTurns;
    var x, y := AfterSystem(s, ts), AfterSystem(s', ts');
    assert Le32(s.topP) == x[8..12] && Le32(s'.topP) == y[8..12];
    assert Le32(s.temperature) == x[12..16] && Le32(s'.temperature) == y[12..16];
    assert EncodeTurns(ts) == x[23..] && EncodeTurns(ts') == y[23..];
    Le32RoundTrip(s.topP);
    Le32RoundTrip(s'.topP);
    Le32RoundTrip(s.temperature);
    Le32RoundTrip(s'.temperature);
    DecodeTurnsEncoded(ts);
    DecodeTurnsEncoded(ts');
  }

  /** Equal key bytes mean the same prefix, up to None and "" as system prompt. */
  lemma KeyBytesInjective(p: Prefix, q: Prefix)
    requires WellFormed(p) && WellFormed(q)
    requires CanonicalBytes(p) == CanonicalBytes(q)
    ensures SystemText(p.system) == SystemText(q.system)
    ensures p.sampler == q.sampler && p.turns == q.turns
  {
    hide CanonicalBytes, AfterSystem;
    var a, b := SystemText(p.system), SystemText(q.system);
    var x, y := AfterSystem(p.sampler, p.turns), AfterSystem(q.sampler, q.turns);
    CanonicalShape(p);
    CanonicalShape(q);
    assert CanonicalBytes(p)[4..] == a + [0 as char] + x;
    assert CanonicalBytes(q)[4..] == b + [0 as char] + y;
    NulFreePrefixUnique(a, x, b, y);
    AfterSystemInjective(p.sampler, p.turns, q.sampler, q.turns);
  }

  // ---- Different prefixes under one key ----

  /** The bytes before the content of a User turn. */
  function Lead(content: Text): Text {
    [RoleByte(User)] + Le32(ClampLen(|content|))
  }

  /**
   * The system prompt has no length prefix. A prompt that goes on with a header and the lead of a
   * User turn reads as a shorter prompt and a first turn that holds the rest, whatever turns follow.
   */
  lemma NulInSystemPromptCollides(x: Text, s: Sampler, a: seq<Turn>, b: seq<Turn>)
    ensures var content := Header(s) + EncodeTurns(a);
            && CanonicalBytes(Prefix(Some(x), s, [UserTurn(content)] + b))
               == CanonicalBytes(Prefix(Some(x + Header(s) + Lead(content)), s, a + b))
            && (0 as char) in x + Header(s) + Lead(content)
  {
    hide Le32, EncodeTurns, EncodeTurn, Header, Lead;
    var content := Header(s) + EncodeTurns(a);
    HeaderHasNul(x, s, Lead(content));
    LeadStarts(content);
    OneTurn(UserTurn(content));
    EncodeTurnsConcat([UserTurn(content)], b);
    EncodeTurnsConcat(a, b);
    HeaderRegroup(x, Header(s), Lead(content), EncodeTurns(a), EncodeTurns(b));
  }

  lemma HeaderHasNul(x: Text, s: Sampler, lead: Text)
    ensures (0 as char) in x + Header(s) + lead
  {
    assert (x + Header(s) + lead)[|x|] == Header(s)[0] == 0 as char;
  }

  lemma LeadStarts(content: Text)
    ensures EncodeTurn(UserTurn(content)) == Lead(content) + content
  {
    hide Le32;
  }

  lemma OneTurn(t: Turn)
    ensures EncodeTurns([t]) == EncodeTurn(t)
  {
    assert [t][1..] == [];
  }

  lemma HeaderRegroup(x: Text, h: Text, lead: Text, a: Text, b: Text)
    ensures SYS + x + h + (lead + (h + a) + b) == SYS + (x + h + lead) + h + (a + b)
  {}

  /** Two turns that encode like one. */
  predicate Merges(t: Turn, t1: Turn, t2: Turn) {
    EncodeTurn(t) == EncodeTurn(t1) + EncodeTurn(t2)
  }

  /** Such turns share a key wherever they stand. */
  lemma MergedTurnsCollide(p: Prefix, t: Turn, t1: Turn, t2: Turn, a: seq<Turn>, b: seq<Turn>)
    requires Merges(t, t1, t2)
    ensures CanonicalBytes(p.(turns := a + [t] + b)) == CanonicalBytes(p.(turns := a + [t1, t2] + b))
  {
    hide EncodeTurns, EncodeTurn, Header;
    OneTurn(t);
    OneTurn(t1);
    OneTurn(t2);
    assert [t1, t2] == [t1] + [t2];
    EncodeTurnsConcat([t1], [t2]);
    EncodeTurnsConcat(a, [t]);
    EncodeTurnsConcat(a, [t1, t2]);
    EncodeTurnsConcat(a + [t], b);
    EncodeTurnsConcat(a + [t1, t2], b);
  }

  /** A tool_call_id that does not belong there reads as a further turn, an empty User turn. */
  lemma StrayToolCallIdCollides(t: Turn)
    requires t.toolCallId.None?
    ensures Merges(t.(toolCallId := Some([0 as char])), t, UserTurn(""))
  {
    var z := 0 as char;
    assert Le32(0) == [z, z, z, z] && Le32(1) == [1 as char, z, z, z];
    assert EncodeTurn(UserTurn("")) == [1 as char] + (Le32(0) + "");
    assert EncodeText([z]) == Le32(1) + [z];
    hide Le32;
  }

  /** From 2^32 - 1 bytes on lengths are all written alike, so that a content can hold the next turn. */
  lemma LongContentCollides(t: Turn, next: Turn)
    requires t.toolCallId.None? && |t.content| >= TWO_TO_THE_32 - 1
    ensures Merges(t.(content := t.content + EncodeTurn(next)), t, next)
  {
    hide Le32;
  }
}
