// Tool calls in the text of a reply: the marker scanner, and prose and calls
// recovered from a text that was put together from them.
module ToolText {
  import opened Texts
  import Proto
  import opened Json
  import opened JsonText
  import opened ToolFormat
  import opened Drifted
  import opened EveryDrift

  /** Positional ids: `tc-0`, `tc-1`, … */
  function CallId(n: nat): Text {
    "tc-" + Decimal(n)
  }

  /** The bodies between markers, from left to right. */
  function Bodies(s: Text): seq<Text>
    decreases |s|
  {
    match Cut(s, OPEN_MARKER)
    case None => []
    case Some((_, t)) =>
      match Cut(t, CLOSE_MARKER)
      case None => []
      case Some((body, rest)) => [body] + Bodies(rest)
  }

  /** The calls that bodies hold, numbered from `n`; `None` when parsing one of them panics. */
  function CallsFrom(bodies: seq<Text>, n: nat): Option<seq<Proto.ToolCall>> {
    if bodies == [] then Some([])
    else
      match ParseBody(bodies[0])
      case Crash => None
      case NoCall => CallsFrom(bodies[1..], n)
      case Call(name, args) =>
        match CallsFrom(bodies[1..], n + 1)
        case None => None
        case Some(calls) => Some([Proto.ToolCall(CallId(n), name, Print(Obj(Remove(args, "tool"))))] + calls)
  }

  function ExtractToolCalls(text: Text): Option<seq<Proto.ToolCall>> {
    CallsFrom(Bodies(text), 0)
  }

  /** Puts calls found so far before those still to come. */
  function Onto(calls: seq<Proto.ToolCall>, more: Option<seq<Proto.ToolCall>>): Option<seq<Proto.ToolCall>> {
    if more.Some? then Some(calls + more.value) else None
  }

  /** `extract_tool_calls`: `None` stands for a panic. */
  method Extract(text: Text) returns (r: Option<seq<Proto.ToolCall>>)
    ensures r == ExtractToolCalls(text)
  {
    hide Find, ParseBody, Print, Remove, CallId, Cut;
    var calls: seq<Proto.ToolCall> := [];
    var rest := text;
    if ExtractToolCalls(text).Some? { assert [] + ExtractToolCalls(text).value == ExtractToolCalls(text).value; }
    while true
      invariant Onto(calls, CallsFrom(Bodies(rest), |calls|)) == ExtractToolCalls(text)
      decreases |rest|
    {
      var start := Cut(rest, OPEN_MARKER);
      if start.None? { break; }
      var end := Cut(start.value.1, CLOSE_MARKER);
      if end.None? { break; }
      var (body, after) := end.value;
      ghost var bodies := Bodies(rest);
      assert bodies[0] == body && bodies[1..] == Bodies(after);
      rest := after;
      match ParseBody(body) {
        case Crash => return None;
        case NoCall =>
        case Call(name, args) =>
          var call := Proto.ToolCall(CallId(|calls|), name, Print(Obj(Remove(args, "tool"))));
          ghost var more := CallsFrom(Bodies(after), |calls| + 1);
          if more.Some? { assert calls + ([call] + more.value) == calls + [call] + more.value; }
          calls := calls + [call];
      }
    }
    assert calls + [] == calls;
    return Some(calls);
  }

  // ---- What the scan consumes ----

  /** Prose and bodies in turn, each body between its markers. */
  function Weave(prose: seq<Text>, bodies: seq<Text>): Text
    requires |prose| == |bodies| + 1
  {
    if bodies == [] then prose[0]
    else prose[0] + OPEN_MARKER + (bodies[0] + CLOSE_MARKER + Weave(prose[1..], bodies[1..]))
  }

  /** A text after its last complete pair of markers. */
  predicate NoPair(s: Text) {
    Cut(s, OPEN_MARKER).None? || Cut(Cut(s, OPEN_MARKER).value.1, CLOSE_MARKER).None?
  }

  ghost predicate AllFree(ts: seq<Text>, m: Text) {
    forall i :: 0 <= i < |ts| ==> !Contains(ts[i], m)
  }

  /**
   * On any text: the bodies lie one after another, disjoint and in order, the prose between them holds
   * no open marker, no body holds a close marker, and no complete pair is left over.
   */
  lemma {:induction false} ScanCovers(s: Text) returns (prose: seq<Text>)
    ensures |prose| == |Bodies(s)| + 1 && s == Weave(prose, Bodies(s))
    ensures AllFree(prose[..|prose| - 1], OPEN_MARKER) && AllFree(Bodies(s), CLOSE_MARKER) && NoPair(prose[|prose| - 1])
    decreases |s|
  {
    hide Find, Cut, Contains;
    var bodies := Bodies(s);
    if NoPair(s) {
      prose := [s];
    } else {
      CutIs(s, OPEN_MARKER);
      var (p, t) := Cut(s, OPEN_MARKER).value;
      CutIs(t, CLOSE_MARKER);
      var (b, rest) := Cut(t, CLOSE_MARKER).value;
      var more := ScanCovers(rest);
      prose := [p] + more;
      assert bodies[1..] == Bodies(rest) && prose[1..] == more;
      FreeCons(p, more[..|more| - 1], OPEN_MARKER);
      FreeCons(b, Bodies(rest), CLOSE_MARKER);
      assert prose[..|prose| - 1] == [p] + more[..|more| - 1];
    }
  }

  lemma FreeCons(t: Text, ts: seq<Text>, m: Text)
    requires !Contains(t, m) && AllFree(ts, m)
    ensures AllFree([t] + ts, m)
  {
    hide Contains;
  }

  /** Every text woven from prose free of the open marker and bodies free of the close marker scans back. */
  lemma {:induction false} BodiesOfWeave(prose: seq<Text>, bodies: seq<Text>)
    requires |prose| == |bodies| + 1 && AllFree(prose, OPEN_MARKER) && AllFree(bodies, CLOSE_MARKER)
    ensures Bodies(Weave(prose, bodies)) == bodies
  {
    hide Find, Contains, Weave, AllFree, Cut, Bodies;
    var s := Weave(prose, bodies);
    WeaveHead(prose, bodies);
    FreeTail(prose, OPEN_MARKER);
    if bodies == [] {
      FreeHasNoCut(s, OPEN_MARKER);
      NoBodies(s);
    } else {
      var rest := Weave(prose[1..], bodies[1..]);
      FreeTail(bodies, CLOSE_MARKER);
      BodiesOfWeave(prose[1..], bodies[1..]);
      CutAfter(prose[0], OPEN_MARKER, bodies[0] + CLOSE_MARKER + rest);
      CutAfter(bodies[0], CLOSE_MARKER, rest);
      BodiesStep(s, prose[0], bodies[0] + CLOSE_MARKER + rest, bodies[0], rest);
      assert bodies == [bodies[0]] + bodies[1..];
    }
  }

  lemma WeaveHead(prose: seq<Text>, bodies: seq<Text>)
    requires |prose| == |bodies| + 1
    ensures Weave(prose, bodies) ==
            if bodies == [] then prose[0]
            else prose[0] + OPEN_MARKER + (bodies[0] + CLOSE_MARKER + Weave(prose[1..], bodies[1..]))
  {}

  lemma NoBodies(s: Text)
    requires Cut(s, OPEN_MARKER).None?
    ensures Bodies(s) == []
  {}

  lemma BodiesStep(s: Text, p: Text, t: Text, b: Text, rest: Text)
    requires Cut(s, OPEN_MARKER) == Some((p, t)) && Cut(t, CLOSE_MARKER) == Some((b, rest))
    ensures Bodies(s) == [b] + Bodies(rest)
  {
    hide Cut;
  }

  lemma FreeTail(ts: seq<Text>, m: Text)
    requires AllFree(ts, m) && ts != []
    ensures AllFree(ts[1..], m) && !Contains(ts[0], m)
  {
    hide Contains;
  }

  lemma FreeHasNoCut(s: Text, m: Text)
    requires !Contains(s, m)
    ensures Cut(s, m).None?
  {}

  // ---- Which bodies become calls ----

  /** The k-th call is that of the body at `at[k]`, under the id `tc-k`, and every body that parses to a call is one. */
  ghost predicate CallsAt(bodies: seq<Text>, calls: seq<Proto.ToolCall>, at: seq<nat>, n: nat) {
    && |at| == |calls|
    && (forall k, l :: 0 <= k < l < |at| ==> at[k] < at[l])
    && (forall k :: 0 <= k < |at| ==> at[k] < |bodies| && IsCallOf(bodies[at[k]], calls[k], n + k))
    && (forall i :: 0 <= i < |bodies| && ParseBody(bodies[i]).Call? ==> i in at)
  }

  predicate IsCallOf(body: Text, call: Proto.ToolCall, id: nat) {
    && ParseBody(body).Call? && call.id == "tc-" + Decimal(id) && call.name == ParseBody(body).name
    && call.argumentsJson == Print(Obj(Remove(ParseBody(body).args, "tool")))
  }

  /** Exactly the bodies that parse to a call become calls, in order; the others leave no trace. */
  lemma {:induction false} BodiesBecomeCalls(bodies: seq<Text>, n: nat) returns (at: seq<nat>)
    requires CallsFrom(bodies, n).Some?
    ensures CallsAt(bodies, CallsFrom(bodies, n).value, at, n)
  {
    hide ParseBody, Print, Remove, Decimal;
    if bodies == [] {
      at := [];
    } else {
      var m := if ParseBody(bodies[0]).Call? then n + 1 else n;
      var rest := BodiesBecomeCalls(bodies[1..], m);
      at := Shift(rest);
      if ParseBody(bodies[0]).Call? {
        OneMoreCall(bodies, CallsFrom(bodies, n).value, rest, n);
        at := [0] + at;
      } else {
        NoMoreCall(bodies, CallsFrom(bodies, n).value, rest, n);
      }
    }
  }

  function Shift(at: seq<nat>): (r: seq<nat>)
    ensures |r| == |at| && forall k :: 0 <= k < |at| ==> r[k] == at[k] + 1
  {
    if at == [] then [] else [at[0] + 1] + Shift(at[1..])
  }

  lemma ShiftHas(at: seq<nat>, i: nat)
    requires i in at
    ensures i + 1 in Shift(at)
  {
    var k :| 0 <= k < |at| && at[k] == i;
    assert Shift(at)[k] == i + 1;
  }

  lemma NoMoreCall(bodies: seq<Text>, calls: seq<Proto.ToolCall>, at: seq<nat>, n: nat)
    requires bodies != [] && !ParseBody(bodies[0]).Call? && CallsAt(bodies[1..], calls, at, n)
    ensures CallsAt(bodies, calls, Shift(at), n)
  {
    hide IsCallOf, ParseBody, Shift;
    forall k | 0 <= k < |at| ensures IsCallOf(bodies[Shift(at)[k]], calls[k], n + k) {
      assert bodies[Shift(at)[k]] == bodies[1..][at[k]];
    }
    forall i | 0 <= i < |bodies| && ParseBody(bodies[i]).Call? ensures i in Shift(at) {
      assert bodies[1..][i - 1] == bodies[i];
      ShiftHas(at, i - 1);
    }
  }

  lemma OneMoreCall(bodies: seq<Text>, calls: seq<Proto.ToolCall>, at: seq<nat>, n: nat)
    requires bodies != [] && calls != [] && IsCallOf(bodies[0], calls[0], n)
    requires CallsAt(bodies[1..], calls[1..], at, n + 1)
    ensures CallsAt(bodies, calls, [0] + Shift(at), n)
  {
    hide IsCallOf, ParseBody, Shift;
    var all := [0] + Shift(at);
    forall k | 0 <= k < |all| ensures all[k] < |bodies| && IsCallOf(bodies[all[k]], calls[k], n + k) {
      if k > 0 {
        assert all[k] == Shift(at)[k - 1] && calls[k] == calls[1..][k - 1];
        assert bodies[all[k]] == bodies[1..][at[k - 1]];
      }
    }
    forall i | 0 <= i < |bodies| && ParseBody(bodies[i]).Call? ensures i in all {
      if i > 0 {
        assert bodies[1..][i - 1] == bodies[i];
        ShiftHas(at, i - 1);
      }
    }
  }

  // ---- Ids ----

  /** Ids count up from zero, whatever the text. */
  lemma {:induction false} IdsContiguous(bodies: seq<Text>, n: nat, i: nat)
    requires CallsFrom(bodies, n).Some? && i < |CallsFrom(bodies, n).value|
    ensures CallsFrom(bodies, n).value[i].id == CallId(n + i)
  {
    hide ParseBody, Print, Remove, CallId;
    match ParseBody(bodies[0])
    case NoCall => IdsContiguous(bodies[1..], n, i);
    case Call(name, args) => if i > 0 { IdsContiguous(bodies[1..], n + 1, i - 1); }
  }

  lemma IdsDistinct(m: nat, n: nat)
    requires CallId(m) == CallId(n)
    ensures m == n
  {
    DecimalValue(m);
    DecimalValue(n);
    assert CallId(m)[3..] == Decimal(m) && CallId(n)[3..] == Decimal(n);
  }

  // ---- Round trips ----

  /** A call to make: its name and its arguments. */
  datatype Invocation = Invocation(name: Text, args: List<Member>)

  /** The wire form of the calls, numbered from `n`: an argument named `tool` is lost. */
  function Numbered(reqs: seq<Invocation>, n: nat): seq<Proto.ToolCall> {
    if reqs == [] then []
    else
      [Proto.ToolCall(CallId(n), reqs[0].name, Print(Obj(Remove(reqs[0].args, "tool"))))] + Numbered(reqs[1..], n + 1)
  }

  /** Arguments come through whole if and only if none is named `tool`. */
  lemma ArgumentsSurvive(args: List<Member>)
    requires Canonical(Obj(args))
    ensures Print(Obj(Remove(args, "tool"))) == Print(Obj(args)) <==> Lookup(args, "tool") == None
  {
    RemoveIsCanonical(args, "tool");
    RemovedIsAbsent(args, "tool");
    ParsePrint(Obj(args));
    ParsePrint(Obj(Remove(args, "tool")));
    hide Print, FromStr, Lex, LexemesOf, Canonical;
    if Lookup(args, "tool") == None { RemoveAbsent(args, "tool"); }
  }

  /** The body parses to the call, with the name among the arguments. */
  ghost predicate Says(body: Text, q: Invocation) {
    Sorted(q.args) && ParseBody(body) == Call(q.name, Put(q.args, Member("tool", Str(q.name))))
  }

  lemma {:induction false} CallsSaid(bodies: seq<Text>, reqs: seq<Invocation>, n: nat)
    requires |bodies| == |reqs| && forall i :: 0 <= i < |reqs| ==> Says(bodies[i], reqs[i])
    ensures CallsFrom(bodies, n) == Some(Numbered(reqs, n))
  {
    if bodies != [] {
      assert Says(bodies[0], reqs[0]);
      RemovePut(reqs[0].args, Member("tool", Str(reqs[0].name)));
      hide ParseBody, Print, Remove, CallId, Says;
      CallsSaid(bodies[1..], reqs[1..], n + 1);
    }
  }

  /** The body as a program prints it. */
  function PrintedBody(q: Invocation): Text {
    CALL + (q.name + Print(Obj(q.args)))
  }

  predicate Printable(q: Invocation) {
    IsName(q.name) && Canonical(Obj(q.args))
  }

  lemma ArgumentsSorted(args: List<Member>)
    requires Canonical(Obj(args))
    ensures Sorted(args)
  {}

  lemma PrintStartsWithBrace(args: List<Member>)
    ensures var t := Print(Obj(args)); t != "" && t[0] == '{'
  {
    var xs := LexemesOf(Obj(args));
    assert xs[0] == Punct('{');
    hide LexemesOf;
  }

  lemma PrintedSays(q: Invocation)
    requires Printable(q)
    ensures Says(PrintedBody(q), q)
  {
    var v := Obj(q.args);
    var ts := Unspaced(LexemesOf(v));
    ParsePrint(v);
    LexemesOfOk(v);
    UnspacedLexemes(LexemesOf(v));
    PrintStartsWithBrace(q.args);
    hide LexemesOf, Unspaced, TokenText, FromStr, Canonical, ParseBody, LexemeOk, AllSpace, IsName;
    StrictBodyParses(q.name, ts, q.args);
  }

  /**
   * Round trip. From prose without the open marker and calls whose printed bodies lack the close
   * marker exactly those calls come back, in order, numbered from zero.
   */
  lemma {:induction false} ExtractUndoesPrint(prose: seq<Text>, reqs: seq<Invocation>, bodies: seq<Text>)
    requires |bodies| == |reqs| && |prose| == |reqs| + 1
    requires forall i :: 0 <= i < |reqs| ==> Printable(reqs[i]) && bodies[i] == PrintedBody(reqs[i])
    requires AllFree(prose, OPEN_MARKER) && AllFree(bodies, CLOSE_MARKER)
    ensures ExtractToolCalls(Weave(prose, bodies)) == Some(Numbered(reqs, 0))
  {
    hide Bodies, CallsFrom, Weave, AllFree, Printable, PrintedBody, Says;
    BodiesOfWeave(prose, bodies);
    forall i | 0 <= i < |reqs| ensures Says(bodies[i], reqs[i]) {
      PrintedSays(reqs[i]);
    }
    CallsSaid(bodies, reqs, 0);
  }

  /** The body as a model may drift it. */
  ghost predicate DriftedBody(body: Text, q: Invocation, ds: seq<Drift>) {
    && Printable(q) && AllDriftOk(ds) && AllWritten(ds) != "" && AllWritten(ds)[0] == '{'
    && Drifts(ds, LexemesOf(Obj(q.args))) && body == CALL + (q.name + AllWritten(ds))
  }

  /** The same calls come back from bodies that drifted, each in its own way. */
  lemma {:induction false} ExtractUndoesDrift(prose: seq<Text>, reqs: seq<Invocation>, bodies: seq<Text>,
                                              drifts: seq<seq<Drift>>)
    requires |bodies| == |reqs| == |drifts| && |prose| == |reqs| + 1
    requires forall i :: 0 <= i < |reqs| ==> DriftedBody(bodies[i], reqs[i], drifts[i])
    requires AllFree(prose, OPEN_MARKER) && AllFree(bodies, CLOSE_MARKER)
    ensures ExtractToolCalls(Weave(prose, bodies)) == Some(Numbered(reqs, 0))
  {
    hide Bodies, CallsFrom, Weave, AllFree, ParseBody, AllDriftOk, AllWritten, Drifts, LexemesOf, Canonical, IsName;
    BodiesOfWeave(prose, bodies);
    forall i | 0 <= i < |reqs| ensures Says(bodies[i], reqs[i]) {
      assert DriftedBody(bodies[i], reqs[i], drifts[i]);
      DriftRecovery(reqs[i].name, drifts[i], reqs[i].args);
      ArgumentsSorted(reqs[i].args);
    }
    CallsSaid(bodies, reqs, 0);
  }

  // ---- Tool results before a text ----

  const RESPONSE_OPEN: Text := "<|tool_response>"

  const RESPONSE_CLOSE: Text := "<tool_response|>"

  const RESPONSE_END: Text := RESPONSE_CLOSE + "\n"

  /** `format_response` */
  function FormatResponse(output: Text): Text {
    RESPONSE_OPEN + output + RESPONSE_CLOSE
  }

  function Prepended(outputs: seq<Text>, user: Text): Text {
    if outputs == [] then user else FormatResponse(outputs[0]) + "\n" + Prepended(outputs[1..], user)
  }

  /** The text of one result before a text. */
  lemma PrependedText(output: Text, user: Text)
    ensures Prepended([output], user) == "<|tool_response>" + output + "<tool_response|>\n" + user
  {
    assert [output][1..] == [] && Prepended([], user) == user;
  }

  method PrependToolResults(user: Text, outputs: seq<Text>) returns (out: Text)
    ensures out == Prepended(outputs, user)
  {
    hide FormatResponse;
    if outputs == [] {
      return user;
    }
    out := "";
    for i := 0 to |outputs|
      invariant out + Prepended(outputs[i..], user) == Prepended(outputs, user)
    {
      ghost var before := out;
      out := out + FormatResponse(outputs[i]);
      out := out + "\n";
      assert outputs[i..][1..] == outputs[i + 1..];
      assert before + (FormatResponse(outputs[i]) + "\n" + Prepended(outputs[i + 1..], user))
          == out + Prepended(outputs[i + 1..], user);
    }
    out := out + user;
  }

  /** Reads `n` tool results off the front of a text. */
  function ReadResults(s: Text, n: nat): Option<(seq<Text>, Text)> {
    if n == 0 then Some(([], s))
    else if !(RESPONSE_OPEN <= s) then None
    else
      match Cut(s[|RESPONSE_OPEN|..], RESPONSE_END)
      case None => None
      case Some((output, rest)) =>
        match ReadResults(rest, n - 1)
        case None => None
        case Some((outputs, user)) => Some(([output] + outputs, user))
  }

  /** The results and the text can be told apart again when no result holds the closing marker. */
  lemma {:induction false} ResultsReadBack(outputs: seq<Text>, user: Text)
    requires AllFree(outputs, RESPONSE_END)
    ensures ReadResults(Prepended(outputs, user), |outputs|) == Some((outputs, user))
  {
    hide Find, Contains, Cut, ReadResults, Prepended, AllFree, HeadUnique;
    if outputs == [] {
      ReadNone(user);
    } else {
      var rest := Prepended(outputs[1..], user);
      FreeTail(outputs, RESPONSE_END);
      ResultsReadBack(outputs[1..], user);
      PrependedHead(outputs, user);
      ResponseEndHead();
      CutAfter(outputs[0], RESPONSE_END, rest);
      ReadOne(outputs[0], rest, |outputs|);
      assert outputs == [outputs[0]] + outputs[1..];
    }
  }

  lemma ResponseEndHead()
    ensures HeadUnique(RESPONSE_END)
  {}

  lemma ReadNone(user: Text)
    ensures ReadResults(Prepended([], user), 0) == Some(([], user))
  {}

  lemma PrependedHead(outputs: seq<Text>, user: Text)
    requires outputs != []
    ensures Prepended(outputs, user)
         == RESPONSE_OPEN + (outputs[0] + RESPONSE_END + Prepended(outputs[1..], user))
  {
    assert FormatResponse(outputs[0]) + "\n" == RESPONSE_OPEN + (outputs[0] + RESPONSE_END);
    ConcatAssociative(RESPONSE_OPEN, outputs[0] + RESPONSE_END, Prepended(outputs[1..], user));
    hide FormatResponse;
  }

  lemma ReadOne(output: Text, rest: Text, n: nat)
    requires n > 0 && Cut(output + RESPONSE_END + rest, RESPONSE_END) == Some((output, rest))
    requires ReadResults(rest, n - 1).Some?
    ensures ReadResults(RESPONSE_OPEN + (output + RESPONSE_END + rest), n)
         == Some(([output] + ReadResults(rest, n - 1).value.0, ReadResults(rest, n - 1).value.1))
  {
    hide Cut;
    var t := output + RESPONSE_END + rest;
    assert (RESPONSE_OPEN + t)[|RESPONSE_OPEN|..] == t;
  }
}
