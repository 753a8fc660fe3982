// Rendering turns into the Gemma 4 chat template, and reading them back.
module TurnRender {
  import opened Texts
  import opened Proto

  /** What the template writes for a role. Tool turns are written as user turns. */
  function RoleName(r: Role): Text {
    match r
    case System => "system\n"
    case User => "user\n"
    case Assistant => "model\n"
    case Tool => "user\n"
  }

  const TURN: Text := "<|turn>"

  const END: Text := "<turn|>\n"

  /** `format_assistant_start` */
  const PRIMING: Text := "<|turn>model\n"

  /** `format_system`, `format_user`, `format_assistant` */
  function FormatTurn(r: Role, content: Text): Text {
    TURN + RoleName(r) + (content + END)
  }

  function Formatted(ts: seq<Turn>): Text {
    if ts == [] then "" else FormatTurn(ts[0].role, ts[0].content) + Formatted(ts[1..])
  }

  /** The turns with the system prompt in front, unless it is empty or they already open with one. */
  function WithSystem(ts: seq<Turn>, system: Option<Text>): seq<Turn> {
    if system.Some? && system.value != "" && !(ts != [] && ts[0].role == System) then
        [Turn(System, system.value, None)] + ts
    else ts
  }

  function Rendered(ts: seq<Turn>, system: Option<Text>): Text {
    Formatted(WithSystem(ts, system)) + PRIMING
  }

  /** `render_turns` */
  method RenderTurns(ts: seq<Turn>, system: Option<Text>) returns (out: Text)
    ensures out == Rendered(ts, system)
    ensures EndFree(ts) && (system.Some? ==> !Contains(system.value, END)) ==> Shows(out, ts, system)
  {
    hide FormatTurn, Formatted, Contains, Read, AllShown, EndFree, Shows;
    if EndFree(ts) && (system.Some? ==> !Contains(system.value, END)) { RenderingShows(ts, system); }
    out := "";
    FormattedHead(Turn(System, if system.Some? then system.value else "", None), ts);
    var alreadyHasSystem := ts != [] && ts[0].role == System;
    if system.Some? {
      if !alreadyHasSystem && system.value != "" {
        out := FormatTurn(System, system.value);
      }
    }
    ghost var head := out;
    assert Formatted(WithSystem(ts, system)) == head + Formatted(ts);
    hide WithSystem, PRIMING;
    for i := 0 to |ts|
      invariant out + Formatted(ts[i..]) == head + Formatted(ts)
    {
      ghost var before := out;
      match ts[i].role {
        case System => out := out + FormatTurn(System, ts[i].content);
        case User => out := out + FormatTurn(User, ts[i].content);
        case Assistant => out := out + FormatTurn(Assistant, ts[i].content);
        case Tool =>
          out := out + FormatTurn(User, ts[i].content);
          ToolAsUser(ts[i].content);
      }
      OneMoreTurn(before, ts, i);
    }
    assert ts[|ts|..] == [];
    out := out + PRIMING;
  }

  lemma OneMoreTurn(before: Text, ts: seq<Turn>, i: nat)
    requires i < |ts|
    ensures before + Formatted(ts[i..]) == before + FormatTurn(ts[i].role, ts[i].content) + Formatted(ts[i + 1..])
  {
    hide FormatTurn, Formatted;
    assert ts[i..] == [ts[i]] + ts[i + 1..];
    FormattedHead(ts[i], ts[i + 1..]);
    ConcatAssociative(before, FormatTurn(ts[i].role, ts[i].content), Formatted(ts[i + 1..]));
  }

  lemma FormattedHead(t: Turn, ts: seq<Turn>)
    ensures Formatted([t] + ts) == FormatTurn(t.role, t.content) + Formatted(ts) && Formatted([]) == ""
  {
    assert ([t] + ts)[1..] == ts;
  }

  lemma ToolAsUser(content: Text)
    ensures FormatTurn(Tool, content) == FormatTurn(User, content)
  {}

  /** Turns that a non-empty prompt was put in front of are never given another. */
  lemma SystemPromptOnce(ts: seq<Turn>, first: Text, second: Option<Text>)
    requires first != ""
    ensures var once := WithSystem(ts, Some(first));
            once != [] && once[0].role == System && WithSystem(once, second) == once
    ensures ts != [] && ts[0].role == System ==> WithSystem(ts, second) == ts
    ensures WithSystem(ts, None) == WithSystem(ts, Some("")) == ts
  {}

  // ---- Reading back ----

  /** A turn as the template can show it. */
  function Shown(t: Turn): Turn {
    Turn(if t.role == Tool then User else t.role, t.content, None)
  }

  function AllShown(ts: seq<Turn>): seq<Turn> {
    if ts == [] then [] else [Shown(ts[0])] + AllShown(ts[1..])
  }

  function ReadRole(s: Text): Option<(Role, Text)> {
    if TURN + "system\n" <= s then Some((System, s[|TURN| + 7..]))
    else if TURN + "user\n" <= s then Some((User, s[|TURN| + 5..]))
    else if TURN + "model\n" <= s then Some((Assistant, s[|TURN| + 6..]))
    else None
  }

  /** The turns that a rendering shows. */
  function Read(s: Text): Option<seq<Turn>>
    decreases |s|
  {
    if s == PRIMING then Some([])
    else
      match ReadRole(s)
      case None => None
      case Some((role, t)) =>
        match Cut(t, END)
        case None => None
        case Some((content, rest)) =>
          match Read(rest)
          case None => None
          case Some(ts) => Some([Turn(role, content, None)] + ts)
  }

  ghost predicate EndFree(ts: seq<Turn>) {
    forall i :: 0 <= i < |ts| ==> !Contains(ts[i].content, END)
  }

  lemma ReadRoleBack(r: Role, t: Text)
    ensures ReadRole(TURN + RoleName(r) + t) == Some((if r == Tool then User else r, t))
    ensures |TURN + RoleName(r) + t| > |t| + 10
  {
    var n := RoleName(r);
    var s := TURN + n + t;
    assert s[..|TURN| + |n|] == TURN + n && s[|TURN| + |n|..] == t;
    assert s[|TURN|] == n[0];
  }

  lemma EndHead()
    ensures HeadUnique(END) && |END| == 8 && |PRIMING| == 13
  {}

  lemma ReadOne(r: Role, content: Text, rest: Text)
    requires !Contains(content, END) && Read(rest).Some?
    ensures Read(FormatTurn(r, content) + rest) == Some([Shown(Turn(r, content, None))] + Read(rest).value)
  {
    hide Contains, Find, ReadRole, RoleName, HeadUnique;
    EndHead();
    var t := content + END + rest;
    ReadRoleBack(r, t);
    CutAfter(content, END, rest);
    assert FormatTurn(r, content) + rest == TURN + RoleName(r) + t;
    hide Cut;
  }

  /** From turns whose contents hold no end marker the template shows exactly those turns. */
  lemma {:induction false} ReadFormatted(ts: seq<Turn>)
    requires EndFree(ts)
    ensures Read(Formatted(ts) + PRIMING) == Some(AllShown(ts))
  {
    hide Read, FormatTurn, Formatted, Contains;
    if ts == [] {
      FormattedHead(UserTurn(""), []);
      assert Formatted(ts) + PRIMING == PRIMING;
      ReadPriming();
    } else {
      var t, more := ts[0], ts[1..];
      ReadFormatted(more);
      assert !Contains(t.content, END) && ts == [t] + more;
      ReadOne(t.role, t.content, Formatted(more) + PRIMING);
      FormattedHead(t, more);
      Associate(FormatTurn(t.role, t.content), Formatted(more));
    }
  }

  lemma Associate(a: Text, b: Text)
    ensures a + b + PRIMING == a + (b + PRIMING)
  {}

  lemma ReadPriming()
    ensures Read(PRIMING) == Some([])
  {}

  /** The turns in their places, Tool as User. */
  lemma {:induction false} ShownAt(ts: seq<Turn>)
    ensures |AllShown(ts)| == |ts|
    ensures forall i :: 0 <= i < |ts| ==>
              && AllShown(ts)[i].content == ts[i].content && AllShown(ts)[i].toolCallId == None
              && AllShown(ts)[i].role == if ts[i].role == Tool then User else ts[i].role
  {
    if ts != [] { ShownAt(ts[1..]); }
  }

  /** Read back, a text shows a non-empty prompt first unless the turns open with one, and then the turns. */
  predicate Shows(out: Text, ts: seq<Turn>, system: Option<Text>) {
    match system
    case None => Read(out) == Some(AllShown(ts))
    case Some(prompt) =>
      if prompt == "" || (ts != [] && ts[0].role == System) then Read(out) == Some(AllShown(ts))
      else Read(out) == Some([Turn(System, prompt, None)] + AllShown(ts))
  }

  lemma RenderingShows(ts: seq<Turn>, system: Option<Text>)
    requires EndFree(ts) && (system.Some? ==> !Contains(system.value, END))
    ensures Shows(Rendered(ts, system), ts, system)
  {
    hide Contains, Read, Formatted;
    var all := WithSystem(ts, system);
    assert EndFree(all);
    ReadFormatted(all);
    if all != ts { assert all[1..] == ts; }
  }

  /** A prompt is shown in front of the turns. */
  predicate Prompted(ts: seq<Turn>, system: Option<Text>) {
    system.Some? && system.value != "" && (ts != [] ==> ts[0].role != System)
  }

  /**
   * Unique decodability. When no content holds the end marker, two inputs render alike only if they show
   * the same turns and, if both put a prompt in front, have the same prompt; an input that does not then
   * opens with the other's prompt as its own first turn.
   */
  lemma RendersApart(ts: seq<Turn>, system: Option<Text>, ts': seq<Turn>, system': Option<Text>)
    requires EndFree(ts) && (system.Some? ==> !Contains(system.value, END))
    requires EndFree(ts') && (system'.Some? ==> !Contains(system'.value, END))
    requires Rendered(ts, system) == Rendered(ts', system')
    ensures Prompted(ts, system) && Prompted(ts', system') ==> system == system' && AllShown(ts) == AllShown(ts')
    ensures !Prompted(ts, system) && !Prompted(ts', system') ==> AllShown(ts) == AllShown(ts')
    ensures Prompted(ts, system) && !Prompted(ts', system') ==>
              && ts' != [] && ts'[0].role == System && ts'[0].content == system.value
              && AllShown(ts) == AllShown(ts'[1..])
  {
    hide Contains, Read, EndFree, Rendered, AllShown;
    RenderingShows(ts, system);
    RenderingShows(ts', system');
    if Prompted(ts, system) {
      var t := Turn(System, system.value, None);
      assert ([t] + AllShown(ts))[0] == t && ([t] + AllShown(ts))[1..] == AllShown(ts);
      if Prompted(ts', system') {
        var t' := Turn(System, system'.value, None);
        assert ([t'] + AllShown(ts'))[0] == t' && ([t'] + AllShown(ts'))[1..] == AllShown(ts');
      } else {
        ShownFirst(ts', t, AllShown(ts));
      }
    }
  }

  lemma ShownFirst(ts: seq<Turn>, t: Turn, more: seq<Turn>)
    requires AllShown(ts) == [t] + more
    ensures ts != [] && Shown(ts[0]) == t && AllShown(ts[1..]) == more
  {
    hide Shown;
    assert ([t] + more)[0] == t && ([t] + more)[1..] == more;
    if ts != [] { assert AllShown(ts)[0] == Shown(ts[0]) && AllShown(ts)[1..] == AllShown(ts[1..]); }
  }

  /** The text of one turn, a tool's result as a user turn. */
  lemma TurnText(content: Text)
    ensures FormatTurn(System, content) == "<|turn>system\n" + content + "<turn|>\n"
    ensures FormatTurn(User, content) == FormatTurn(Tool, content) == "<|turn>user\n" + content + "<turn|>\n"
    ensures FormatTurn(Assistant, content) == "<|turn>model\n" + content + "<turn|>\n"
  {}

  /** The text of a prompt, a question, its answer and a tool's result. */
  lemma TemplateText(prompt: Text, user: Text, answer: Text, result: Text, id: Option<Text>)
    requires prompt != ""
    ensures Rendered([UserTurn(user), AssistantTurn(answer), Turn(Tool, result, id)], Some(prompt))
         == ("<|turn>system\n" + prompt + "<turn|>\n") + ("<|turn>user\n" + user + "<turn|>\n")
            + ("<|turn>model\n" + answer + "<turn|>\n") + ("<|turn>user\n" + result + "<turn|>\n") + "<|turn>model\n"
  {
    var s, u, a, t := Turn(System, prompt, None), UserTurn(user), AssistantTurn(answer), Turn(Tool, result, id);
    TurnText(prompt);
    TurnText(user);
    TurnText(answer);
    TurnText(result);
    hide FormatTurn, Formatted;
    assert [s] + [u, a, t] == [s] + ([u] + ([a] + ([t] + [])));
    FormattedHead(s, [u] + ([a] + ([t] + [])));
    FormattedHead(u, [a] + ([t] + []));
    FormattedHead(a, [t] + []);
    FormattedHead(t, []);
    FourLines(FormatTurn(System, prompt), FormatTurn(User, user), FormatTurn(Assistant, answer),
              FormatTurn(Tool, result));
  }

  lemma FourLines(a: Text, b: Text, c: Text, d: Text)
    ensures a + (b + (c + (d + ""))) + PRIMING == a + b + c + d + PRIMING
  {
    assert d + "" == d;
    ConcatAssociative(b, c, d);
    ConcatAssociative(a, b + c, d);
    ConcatAssociative(a, b, c);
  }

  /** With the end marker in a content it fails: one user turn renders like two. */
  lemma EndMarkerConfuses(a: Text, b: Text)
    ensures Formatted([UserTurn(a + END + (TURN + RoleName(User)) + b)]) == Formatted([UserTurn(a), UserTurn(b)])
  {
    var one, two := [UserTurn(a + END + (TURN + RoleName(User)) + b)], [UserTurn(a), UserTurn(b)];
    assert one[1..] == [] && two[1..] == [UserTurn(b)] && two[1..][1..] == [];
    hide RoleName, TURN, END;
    var p := TURN + RoleName(User);
    assert p + (a + END + p + b + END) == p + (a + END) + (p + (b + END));
  }
}
