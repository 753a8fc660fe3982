// Bodies of tool calls in the native format: `call:NAME{ARGS}`.
module ToolFormat {
  import opened Texts
  import opened Json
  import opened JsonLenient

  /** The quote token as it leaks into text. */
  const LEAK: Text := "<|\"|>"

  const CALL: Text := "call:"

  const OPEN_MARKER: Text := "<|tool_call>"

  const CLOSE_MARKER: Text := "<tool_call|>"

  /** `str::replace`: every occurrence, from left to right. */
  function Replace(s: Text, m: Text, r: Text): Text
    requires m != ""
    decreases |s|
  {
    if s == "" then ""
    else if m <= s then r + Replace(s[|m|..], m, r)
    else [s[0]] + Replace(s[1..], m, r)
  }

  function StripPrefix(s: Text, p: Text): Text {
    if p <= s then s[|p|..] else s
  }

  predicate IsNameChar(c: char) { IsAlpha(c) || IsDigit(c) || c == '_' }

  /** `Call`: the name, and the arguments with the name among them; `Crash`: the parser panics. */
  datatype ParsedBody = Call(name: Text, args: List<Member>) | NoCall | Crash

  function AsObject(v: Json): List<Member> {
    if v.Obj? then v.members else Nil
  }

  /** Strict parsing first, lenient parsing when that fails. */
  function ParseArgs(raw: Text): Recovery {
    if FromStr(raw).Some? then Parsed(FromStr(raw).value) else LenientParseObject(raw)
  }

  function WithTool(name: Text, args: List<Member>): ParsedBody {
    if name == "" then NoCall else Call(name, Put(args, Member("tool", Str(name))))
  }

  function ParseStripped(stripped: Text): ParsedBody {
    if stripped == "" then NoCall
    else
      match Find(stripped, "{")
      case Some(brace) =>
        assert OccursAt(stripped, "{", brace);
        (match ParseArgs(stripped[brace..])
         case Parsed(v) => WithTool(Trim(stripped[..brace]), AsObject(v))
         case Refused => NoCall
         case Panics => Crash)
      case None => if forall i :: 0 <= i < |stripped| ==> IsNameChar(stripped[i]) then WithTool(stripped, Nil)
          else NoCall
  }

  /** `Gemma4ToolFormat::parse_body` */
  function ParseBody(body: Text): ParsedBody {
    ParseStripped(Trim(StripPrefix(Trim(Replace(body, LEAK, [QUOTE])), CALL)))
  }
}
