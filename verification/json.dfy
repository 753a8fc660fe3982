// JSON as RFC 8259 defines it: lexer, grammar and printer. It stands in for
// the library parser that the tool-call code calls.
module Json {
  import opened Texts

  datatype List<+T> = Nil | Cons(head: T, tail: List<T>)

  /** A number, true, false or null is kept as its text. Object members are kept in key order. */
  datatype Json = Scalar(word: Text) | Str(text: Text) | Arr(elems: List<Json>) | Obj(members: List<Member>)

  datatype Member = Member(key: Text, value: Json)

  // ---- Characters ----

  const QUOTE: char := '\"'
  const BACKSLASH: char := '\\'

  predicate IsJsonSpace(c: char) { c == ' ' || c == '\t' || c == '\n' || c == '\r' }

  predicate IsPunct(c: char) { c == '{' || c == '}' || c == '[' || c == ']' || c == ':' || c == ',' }

  predicate IsDigit(c: char) { '0' <= c <= '9' }

  predicate IsAlpha(c: char) { 'a' <= c <= 'z' || 'A' <= c <= 'Z' }

  predicate IsWordChar(c: char) { IsAlpha(c) || IsDigit(c) || c == '_' || c == '+' || c == '-' || c == '.' }

  // ---- Lexemes (section 2 of RFC 8259) ----

  datatype Lexeme = Punct(c: char) | Lit(body: Text) | Word(text: Text)

  /** The characters of `s` up to the first that is not a word character. */
  function WordRun(s: Text): (w: Text)
    ensures w <= s && (|w| < |s| ==> !IsWordChar(s[|w|]))
    ensures forall i :: 0 <= i < |w| ==> IsWordChar(w[i])
  {
    if s == "" || !IsWordChar(s[0]) then "" else [s[0]] + WordRun(s[1..])
  }

  /** Splits off a string body at the first quote that no backslash escapes. */
  function ScanBody(s: Text): (r: Option<(Text, Text)>)
    ensures r.Some? ==> s == r.value.0 + [QUOTE] + r.value.1
  {
    if s == "" then None
    else if s[0] == QUOTE then Some(("", s[1..]))
    else if s[0] == BACKSLASH then
      if |s| < 2 then None
      else
        match ScanBody(s[2..])
        case None => None
        case Some((b, rest)) => Some((s[..2] + b, rest))
    else
      match ScanBody(s[1..])
      case None => None
      case Some((b, rest)) => Some((s[..1] + b, rest))
  }

  function Lex(s: Text): Option<seq<Lexeme>>
    decreases |s|
  {
    if s == "" then Some([])
    else if IsJsonSpace(s[0]) then Lex(s[1..])
    else if IsPunct(s[0]) then Prepend(Punct(s[0]), Lex(s[1..]))
    else if s[0] == QUOTE then
      match ScanBody(s[1..])
      case None => None
      case Some((b, rest)) => Prepend(Lit(b), Lex(rest))
    else if IsWordChar(s[0]) then
      var w := WordRun(s);
      Prepend(Word(w), Lex(s[|w|..]))
    else None
  }

  function Prepend(x: Lexeme, r: Option<seq<Lexeme>>): Option<seq<Lexeme>> {
    if r.Some? then Some([x] + r.value) else None
  }

  // ---- Numbers (section 6) and strings (section 7) ----

  function DigitRun(s: Text): (d: Text)
    ensures d <= s
  {
    if s == "" || !IsDigit(s[0]) then "" else [s[0]] + DigitRun(s[1..])
  }

  predicate IsExponent(s: Text) {
    s == "" ||
    ((s[0] == 'e' || s[0] == 'E') &&
     var d := if |s| > 1 && (s[1] == '+' || s[1] == '-') then s[2..] else s[1..];
     d != "" && DigitRun(d) == d)
  }

  predicate IsFractionAndExponent(s: Text) {
    if s != "" && s[0] == '.' then
      var d := DigitRun(s[1..]);
      d != "" && IsExponent(s[1 + |d|..])
    else IsExponent(s)
  }

  predicate IsNumber(s: Text) {
    var t := if s != "" && s[0] == '-' then s[1..] else s;
    var d := DigitRun(t);
    d != "" && (d[0] == '0' ==> |d| == 1) && IsFractionAndExponent(t[|d|..])
  }

  predicate IsScalarWord(w: Text) {
    w == "true" || w == "false" || w == "null" || IsNumber(w)
  }

  function HexValue(c: char): int {
    if IsDigit(c) then c as int - '0' as int
    else if 'a' <= c <= 'f' then c as int - 'a' as int + 10
    else if 'A' <= c <= 'F' then c as int - 'A' as int + 10
    else -1
  }

  /** Value of the four hex digits that begin s. */
  function Hex4(s: Text): (r: Option<nat>)
  {
    if |s| < 4 || HexValue(s[0]) < 0 || HexValue(s[1]) < 0 || HexValue(s[2]) < 0 || HexValue(s[3]) < 0 then None
    else Some(((HexValue(s[0]) * 16 + HexValue(s[1])) * 16 + HexValue(s[2])) * 16 + HexValue(s[3]))
  }

  function HexDigit(n: nat): char
    requires n < 16
  {
    if n < 10 then ('0' as int + n) as char else ('a' as int + n - 10) as char
  }

  /** The six-character escape of a control character. */
  function ControlEscape(c: char): Text
    requires c < ' '
  {
    "\\u00" + [HexDigit(c as int / 16), HexDigit(c as int % 16)]
  }

  /** UTF-8 bytes of a code point. */
  function Utf8(c: nat): Text
    requires c < 0x11_0000
  {
    if c < 0x80 then [c as char]
    else if c < 0x800 then [(0xC0 + c / 64) as char, (0x80 + c % 64) as char]
    else if c < 0x1_0000 then [(0xE0 + c / 4096) as char, (0x80 + c / 64 % 64) as char, (0x80 + c % 64) as char]
    else [(0xF0 + c / 262144) as char, (0x80 + c / 4096 % 64) as char, (0x80 + c / 64 % 64) as char,
        (0x80 + c % 64) as char]
  }

  /** What follows `\u`: the text it denotes and how many characters it takes; a lone surrogate is an error. */
  function DecodeUnicode(s: Text): (r: Option<(Text, nat)>)
    ensures r.Some? ==> 4 <= r.value.1 <= |s|
  {
    match Hex4(s)
    case None => None
    case Some(h) =>
      if 0xD800 <= h < 0xDC00 then
        if |s| >= 6 && s[4] == BACKSLASH && s[5] == 'u' && Hex4(s[6..]).Some?
            && 0xDC00 <= Hex4(s[6..]).value < 0xE000 then
          Some((Utf8(0x1_0000 + (h - 0xD800) * 1024 + (Hex4(s[6..]).value - 0xDC00)), 10))
        else None
      else if 0xDC00 <= h < 0xE000 then None
      else if h < 0x1_0000 then Some((Utf8(h), 4))
      else None
  }

  /** The character a two-character escape denotes. */
  function Escaped(c: char): Option<char> {
    if c == QUOTE || c == BACKSLASH || c == '/' then Some(c)
    else if c == 'b' then Some(8 as char)
    else if c == 'f' then Some(12 as char)
    else if c == 'n' then Some('\n')
    else if c == 'r' then Some('\r')
    else if c == 't' then Some('\t')
    else None
  }

  function Append(a: Text, r: Option<Text>): Option<Text> {
    if r.Some? then Some(a + r.value) else None
  }

  /** What a string body denotes, if it is one. */
  function DecodeBody(b: Text): Option<Text>
    decreases |b|
  {
    if b == "" then Some("")
    else if b[0] == BACKSLASH then
      if |b| < 2 then None
      else if b[1] == 'u' then
        match DecodeUnicode(b[2..])
        case None => None
        case Some((t, n)) => Append(t, DecodeBody(b[2 + n..]))
      else if Escaped(b[1]).Some? then Append([Escaped(b[1]).value], DecodeBody(b[2..]))
      else None
    else if b[0] == QUOTE || b[0] < ' ' then None
    else Append([b[0]], DecodeBody(b[1..]))
  }

  // ---- Objects as sorted maps ----

  predicate KeyLess(a: Text, b: Text) {
    if b == "" then false
    else if a == "" then true
    else a[0] < b[0] || (a[0] == b[0] && KeyLess(a[1..], b[1..]))
  }

  lemma {:induction false} KeyLessIrreflexive(a: Text)
    ensures !KeyLess(a, a)
  {
    if a != "" { KeyLessIrreflexive(a[1..]); }
  }

  lemma {:induction false} KeyLessTransitive(a: Text, b: Text, c: Text)
    requires KeyLess(a, b) && KeyLess(b, c)
    ensures KeyLess(a, c)
  {
    if a != "" && a[0] == b[0] == c[0] { KeyLessTransitive(a[1..], b[1..], c[1..]); }
  }

  /** Adds a member unless the key is there already. */
  function AddNew(ms: List<Member>, m: Member): List<Member> {
    match ms
    case Nil => Cons(m, Nil)
    case Cons(h, t) =>
      if h.key == m.key then ms
      else if KeyLess(m.key, h.key) then Cons(m, ms)
      else Cons(h, AddNew(t, m))
  }

  /** The map that a member list denotes: of equal keys the last wins. */
  function MapOf(ms: List<Member>): List<Member> {
    match ms
    case Nil => Nil
    case Cons(h, t) => AddNew(MapOf(t), h)
  }

  function Put(ms: List<Member>, m: Member): List<Member> {
    match ms
    case Nil => Cons(m, Nil)
    case Cons(h, t) =>
      if h.key == m.key then Cons(m, t)
      else if KeyLess(m.key, h.key) then Cons(m, ms)
      else Cons(h, Put(t, m))
  }

  function Remove(ms: List<Member>, key: Text): List<Member> {
    match ms
    case Nil => Nil
    case Cons(h, t) => if h.key == key then t else Cons(h, Remove(t, key))
  }

  function Lookup(ms: List<Member>, key: Text): Option<Json> {
    match ms
    case Nil => None
    case Cons(h, t) => if h.key == key then Some(h.value) else Lookup(t, key)
  }

  lemma {:induction false} RemoveUndoesPut(ms: List<Member>, m: Member)
    requires Lookup(ms, m.key) == None
    ensures Remove(Put(ms, m), m.key) == ms
  {
    match ms
    case Nil =>
    case Cons(h, t) => RemoveUndoesPut(t, m);
  }

  /** A key that was put is found with its new value; other keys are found as before. */
  lemma {:induction false} LookupPut(ms: List<Member>, m: Member, key: Text)
    ensures Lookup(Put(ms, m), key) == if key == m.key then Some(m.value) else Lookup(ms, key)
  {
    match ms
    case Nil =>
    case Cons(h, t) => LookupPut(t, m, key);
  }

  // ---- Grammar (sections 3 to 5) ----

  function ParseValue(ts: seq<Lexeme>): (r: Option<(Json, seq<Lexeme>)>)
    ensures r.Some? ==> |r.value.1| < |ts| && r.value.1 == ts[|ts| - |r.value.1|..]
    decreases |ts|, 0
  {
    if ts == [] then None
    else
      match ts[0]
      case Word(w) => if IsScalarWord(w) then Some((Scalar(w), ts[1..])) else None
      case Lit(b) => if DecodeBody(b).Some? then Some((Str(DecodeBody(b).value), ts[1..])) else None
      case Punct(c) =>
        if c == '[' then
          if |ts| > 1 && ts[1] == Punct(']') then Some((Arr(Nil), ts[2..]))
          else
            match ParseElems(ts[1..])
            case None => None
            case Some((es, rest)) => Some((Arr(es), rest))
        else if c == '{' then
          if |ts| > 1 && ts[1] == Punct('}') then Some((Obj(Nil), ts[2..]))
          else
            match ParseMembers(ts[1..])
            case None => None
            case Some((ms, rest)) => Some((Obj(MapOf(ms)), rest))
        else None
  }

  /** Values separated by commas, up to the closing bracket. */
  function ParseElems(ts: seq<Lexeme>): (r: Option<(List<Json>, seq<Lexeme>)>)
    ensures r.Some? ==> |r.value.1| < |ts| && r.value.1 == ts[|ts| - |r.value.1|..]
    decreases |ts|, 1
  {
    match ParseValue(ts)
    case None => None
    case Some((v, rest)) =>
      if rest != [] && rest[0] == Punct(']') then Some((Cons(v, Nil), rest[1..]))
      else if rest != [] && rest[0] == Punct(',') then
        match ParseElems(rest[1..])
        case None => None
        case Some((vs, rest')) => Some((Cons(v, vs), rest'))
      else None
  }

  /** Members separated by commas, up to the closing brace. */
  function ParseMembers(ts: seq<Lexeme>): (r: Option<(List<Member>, seq<Lexeme>)>)
    ensures r.Some? ==> |r.value.1| < |ts| && r.value.1 == ts[|ts| - |r.value.1|..]
    decreases |ts|, 1
  {
    if |ts| < 2 || !ts[0].Lit? || DecodeBody(ts[0].body).None? || ts[1] != Punct(':') then None
    else
      match ParseValue(ts[2..])
      case None => None
      case Some((v, rest)) =>
        var m := Member(DecodeBody(ts[0].body).value, v);
        if rest != [] && rest[0] == Punct('}') then Some((Cons(m, Nil), rest[1..]))
        else if rest != [] && rest[0] == Punct(',') then
          match ParseMembers(rest[1..])
          case None => None
          case Some((ms, rest')) => Some((Cons(m, ms), rest'))
        else None
  }

  /** The value of a sequence of lexemes that is exactly one JSON value. */
  function ParseAll(ts: seq<Lexeme>): Option<Json> {
    match ParseValue(ts)
    case Some((v, rest)) => if rest == [] then Some(v) else None
    case None => None
  }

  /** `serde_json::from_str` */
  function FromStr(s: Text): Option<Json> {
    match Lex(s)
    case None => None
    case Some(ts) => ParseAll(ts)
  }
}
