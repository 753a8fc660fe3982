// The stub slot: an echo cut into chunks, and what reaches a client that
// streams from it.
module StubSlot {
  import opened Texts
  import opened Proto
  import opened Wire
  import opened WireHistory

  /** The characters of a UTF-8 text: a byte from 0x80 to 0xBF continues the character before it. */
  function Chars(t: Text): seq<Text>
    decreases |t|
  {
    if t == "" then []
    else
      var rest := Chars(t[1..]);
      if rest != [] && rest[0] != "" && 0x80 as char <= rest[0][0] < 0xC0 as char then [[t[0]] + rest[0]] + rest[1..]
      else [[t[0]]] + rest
  }

  lemma {:induction false} ConcatChars(t: Text)
    ensures Concat(Chars(t)) == t
  {
    if t != "" {
      ConcatChars(t[1..]);
    }
  }

  lemma {:induction false} ConcatSplit(a: seq<Text>, b: seq<Text>)
    ensures Concat(a + b) == Concat(a) + Concat(b)
  {
    hide Concat;
    if a == [] {
      assert a + b == b;
      ConcatNothing();
    } else {
      ConcatSplit(a[1..], b);
      assert (a + b)[1..] == a[1..] + b;
      ConcatHead(a);
      ConcatHead(a + b);
    }
  }

  lemma ConcatHead(cs: seq<Text>)
    requires cs != []
    ensures Concat(cs) == cs[0] + Concat(cs[1..])
  {
  }

  predicate Continues(b: char) { 0x80 as char <= b < 0xC0 as char }

  /** A text cut into its characters: each goes on with continuation bytes only, and begins with another. */
  predicate CutIntoChars(t: Text, cs: seq<Text>) {
    && Concat(cs) == t
    && (forall i :: 0 <= i < |cs| ==> cs[i] != "" && forall k :: 0 < k < |cs[i]| ==> Continues(cs[i][k]))
    && (forall i :: 0 < i < |cs| ==> !Continues(cs[i][0]))
  }

  lemma {:induction false} CharsAreChars(t: Text)
    ensures CutIntoChars(t, Chars(t))
  {
    ConcatChars(t);
    hide Concat;
    if t != "" {
      CharsAreChars(t[1..]);
      var rest := Chars(t[1..]);
      if rest != [] {
        var c := [t[0]] + rest[0];
        assert forall k :: 1 < k < |c| ==> c[k] == rest[0][k - 1];
      }
    }
  }

  // ---- The chunk splitter ----

  /** Chunks of `size` characters; the last one, which may be shorter, carries the finish reason. */
  function Chunks(cs: seq<Text>, size: nat): seq<SlotEvent>
    requires size > 0
  {
    if cs == [] then []
    else if |cs| <= size then [Chunk(Concat(cs), Some("stop"), Some("text"))]
    else [Chunk(Concat(cs[..size]), None, Some("text"))] + Chunks(cs[size..], size)
  }

  /** The sink: the events pushed into it. */
  class Sink {
    var events: seq<SlotEvent>

    constructor ()
      ensures events == []
    {
      events := [];
    }

    method OnEvent(e: SlotEvent)
      modifies this
      ensures events == old(events) + [e]
    {
      events := events + [e];
    }
  }

  lemma {:induction false} AtLeastOnce(d: nat, size: nat)
    requires d >= 1
    ensures d * size >= size
  {
    if d > 1 {
      AtLeastOnce(d - 1, size);
      assert d * size == (d - 1) * size + size;
    }
  }

  lemma NoMultipleBetween(d: int, size: nat)
    requires d * size < size && -(d * size) < size
    ensures d == 0
  {
    Distribute(0, d, size);
    if d > 0 { AtLeastOnce(d, size); }
    if d < 0 { AtLeastOnce(0 - d, size); }
  }

  lemma Distribute(q: int, p: int, size: nat)
    ensures (q - p) * size == q * size - p * size
  {}

  lemma ModUnique(k: int, q: int, r: int, size: nat)
    requires 0 <= r < size && k == q * size + r
    ensures k % size == r
  {
    var p, m := k / size, k % size;
    assert k == p * size + m;
    Distribute(q, p, size);
    var d := q - p;
    assert d * size == m - r;
    NoMultipleBetween(d, size);
  }

  /** The next multiple of `size` after `start`. */
  lemma NextMultiple(start: nat, k: nat, size: nat)
    requires size > 0 && start % size == 0 && start < k <= start + size
    ensures k % size == 0 <==> k == start + size
  {
    var q := start / size;
    assert start == q * size;
    if k == start + size {
      assert (q + 1) * size == q * size + size;
      ModUnique(k, q + 1, 0, size);
    } else {
      ModUnique(k, q, k - start, size);
    }
  }

  /** The characters from `start` on begin with the chunk that ends before `k`. */
  lemma ChunkStep(cs: seq<Text>, start: nat, k: nat, size: nat)
    requires size > 0 && start < k <= |cs| && k <= start + size && (k == start + size || k == |cs|)
    ensures Chunks(cs[start..], size)
         == [Chunk(Concat(cs[start..k]), if k == |cs| then Some("stop") else None, Some("text"))]
             + Chunks(cs[k..], size)
  {
    var t := cs[start..];
    if k == |cs| {
      assert t == cs[start..k] && cs[k..] == [];
    } else {
      assert t[..size] == cs[start..k] && t[size..] == cs[k..];
    }
  }

  /** The loop over the characters. */
  method EmitChunks(cs: seq<Text>, size: nat, sink: Sink)
    requires size > 0
    modifies sink
    ensures sink.events == old(sink.events) + Chunks(cs, size)
  {
    hide Chunks, Concat;
    ghost var before := sink.events;
    var buf := "";
    ghost var start := 0;
    var n := |cs|;
    assert cs[0..] == cs && Concat(cs[0..0]) == "" by { ConcatNothing(); }
    for i := 0 to n
      invariant start <= i < start + size && (i < n ==> start % size == 0) && (i == n ==> start == n)
      invariant buf == Concat(cs[start..i])
      invariant sink.events + Chunks(cs[start..], size) == before + Chunks(cs, size)
    {
      buf := buf + cs[i];
      ConcatOne(cs[start..i], cs[i]);
      assert cs[start..i] + [cs[i]] == cs[start..i + 1];
      NextMultiple(start, i + 1, size);
      if (i + 1) % size == 0 || i + 1 == n {
        ChunkStep(cs, start, i + 1, size);
        ghost var pushed := sink.events;
        ghost var chunk := Chunk(buf, if i + 1 == n then Some("stop") else None, Some("text"));
        sink.OnEvent(Chunk(buf, if i + 1 == n then Some("stop") else None, Some("text")));
        assert pushed + ([chunk] + Chunks(cs[i + 1..], size)) == sink.events + Chunks(cs[i + 1..], size);
        buf := "";
        start := i + 1;
        assert cs[start..i + 1] == [] && Concat([]) == "" by { ConcatNothing(); }
      }
    }
    assert cs[start..] == [] && Chunks([], size) == [] by { NoChunks(size); }
  }

  lemma ConcatNothing()
    ensures Concat([]) == ""
  {}

  lemma NoChunks(size: nat)
    requires size > 0
    ensures Chunks([], size) == []
  {}

  lemma ConcatOne(cs: seq<Text>, c: Text)
    ensures Concat(cs + [c]) == Concat(cs) + c
  {
    ConcatSplit(cs, [c]);
    assert [c][1..] == [] && c + "" == c;
  }

  // ---- The slot ----

  /** Content of the last user turn. */
  function LastUser(ts: seq<Turn>): Option<Text> {
    if ts == [] then None
    else if ts[|ts| - 1].role == User then Some(ts[|ts| - 1].content)
    else LastUser(ts[..|ts| - 1])
  }

  function Prompt(input: InferenceInput): Text {
    match input
    case TextInput(t) => t
    case TurnsInput(ts) => if LastUser(ts).Some? then LastUser(ts).value else "[stub: empty turns]"
    case PcmInput => "[stub: pcm]"
    case MelInput => "[stub: mel]"
  }

  /** `synth_echo_response` */
  function SynthEcho(req: InferenceRequest): InferenceResponse {
    var echo := "echo: " + Prompt(req.input);
    var calls := if req.tools == [] then [] else [ToolCall("tc-0", req.tools[0], "{}")];
    InferenceResponse(echo, req.session, Some("<raw>" + echo + "</raw>"), calls)
  }

  function ChunkSize(n: nat): (size: nat)
    ensures size > 0
  {
    if n / 3 > 1 then n / 3 else 1
  }

  /** Everything the stub pushes into the sink for a request. */
  function StubEvents(req: InferenceRequest): seq<SlotEvent> {
    var cs := Chars(SynthEcho(req).text);
    [Progress("queued", None, None), Progress("gen_start", None, None)]
    + Chunks(cs, ChunkSize(|cs|))
    + [Progress("gen_done", None, Some(Decimal(|cs|) + " chars"))]
  }

  /** `StubSlot::run_stream` */
  method RunStream(req: InferenceRequest, sink: Sink) returns (o: Outcome)
    modifies sink
    ensures sink.events == old(sink.events) + StubEvents(req) && o == Replied(SynthEcho(req))
  {
    hide SynthEcho, Chunks, Chars, Decimal;
    ghost var before := sink.events;
    sink.OnEvent(Progress("queued", None, None));
    sink.OnEvent(Progress("gen_start", None, None));
    var resp := SynthEcho(req);
    EchoNotEmpty(req);
    var cs := Chars(resp.text);
    var n := if |cs| > 1 then |cs| else 1;
    var size := if n / 3 > 1 then n / 3 else 1;
    EmitChunks(cs, size, sink);
    sink.OnEvent(Progress("gen_done", None, Some(Decimal(n) + " chars")));
    return Replied(resp);
  }

  lemma EchoNotEmpty(req: InferenceRequest)
    ensures |Chars(SynthEcho(req).text)| >= 6
  {
    var t := SynthEcho(req).text;
    var p := Prompt(req.input);
    assert t == "echo: " + p;
    AsciiCharsFirst("echo: ", p);
  }

  /** ASCII characters before a text are characters of their own, except perhaps the last. */
  lemma {:induction false} AsciiCharsFirst(a: Text, t: Text)
    requires Ascii(a)
    ensures |Chars(a + t)| >= |a|
    ensures a != "" ==> Chars(a + t) != [] && Chars(a + t)[0] != "" && Chars(a + t)[0][0] == a[0]
  {
    if a != "" {
      AsciiCharsFirst(a[1..], t);
      assert (a + t)[1..] == a[1..] + t;
      if |a| > 1 { assert a[1..][0] == a[1]; }
    }
  }

  // ---- What the stub answers ----

  predicate LastUserAt(ts: seq<Turn>, i: int) {
    0 <= i < |ts| && ts[i].role == User && forall k :: i < k < |ts| ==> ts[k].role != User
  }

  /** What is echoed: the text, or the User turn after which no other comes, or a marker. */
  ghost predicate Echoed(input: InferenceInput, p: Text) {
    match input
    case TextInput(t) => p == t
    case TurnsInput(ts) =>
      || (exists i :: LastUserAt(ts, i) && p == ts[i].content)
      || ((forall i :: 0 <= i < |ts| ==> ts[i].role != User) && p == "[stub: empty turns]")
    case PcmInput => p == "[stub: pcm]"
    case MelInput => p == "[stub: mel]"
  }

  ghost predicate EchoFor(req: InferenceRequest, resp: InferenceResponse) {
    && (exists p :: Echoed(req.input, p) && resp.text == "echo: " + p
                    && resp.rawText == Some("<raw>echo: " + p + "</raw>"))
    && resp.sessionId == req.session
    && resp.toolCalls == if req.tools == [] then [] else [ToolCall("tc-0", req.tools[0], "{}")]
  }

  lemma {:induction false} LastUserIs(ts: seq<Turn>)
    ensures LastUser(ts).Some? ==> exists i :: LastUserAt(ts, i) && LastUser(ts).value == ts[i].content
    ensures LastUser(ts).None? ==> forall i :: 0 <= i < |ts| ==> ts[i].role != User
  {
    if ts != [] {
      var n := |ts| - 1;
      if ts[n].role == User {
        assert LastUserAt(ts, n);
      } else {
        LastUserIs(ts[..n]);
        if LastUser(ts).Some? {
          var i :| LastUserAt(ts[..n], i) && LastUser(ts).value == ts[..n][i].content;
          assert LastUserAt(ts, i);
        } else {
          assert forall i :: 0 <= i < n ==> ts[..n][i].role != User && ts[..n][i] == ts[i];
        }
      }
    }
  }

  lemma SynthEchoIs(req: InferenceRequest)
    ensures EchoFor(req, SynthEcho(req))
  {
    if req.input.TurnsInput? { LastUserIs(req.input.turns); }
    var p := Prompt(req.input);
    hide LastUser;
    assert Echoed(req.input, p);
    assert "<raw>" + ("echo: " + p) + "</raw>" == "<raw>echo: " + p + "</raw>";
  }

  function Min(a: nat, b: nat): nat { if a < b then a else b }

  /** The k-th of the pieces of `size` characters that a text is cut into. */
  function Piece(cs: seq<Text>, size: nat, k: nat): Text
    requires k * size <= |cs|
  {
    Concat(cs[k * size..Min(k * size + size, |cs|)])
  }

  lemma {:induction false} ChunksAre(cs: seq<Text>, size: nat, k: nat)
    requires size > 0 && k < |Chunks(cs, size)|
    ensures 0 <= k * size < |cs|
    ensures k == |Chunks(cs, size)| - 1 <==> k * size + size >= |cs|
    ensures Chunks(cs, size)[k]
         == Chunk(Piece(cs, size, k), if k == |Chunks(cs, size)| - 1 then Some("stop") else None, Some("text"))
    decreases |cs|
  {
    hide Concat;
    if k == 0 {
      assert 0 * size == 0;
      assert |cs| <= size ==> cs[0..|cs|] == cs;
      assert |cs| > size ==> Chunks(cs[size..], size) != [] by { if |cs| > size { MoreChunks(cs, size); } }
    } else {
      MoreChunks(cs, size);
      ChunksAre(cs[size..], size, k - 1);
      assert (k - 1) * size == k * size - size;
      var i := (k - 1) * size;
      assert cs[size..][i..Min(i + size, |cs| - size)] == cs[k * size..Min(k * size + size, |cs|)];
    }
  }

  lemma MoreChunks(cs: seq<Text>, size: nat)
    requires size > 0 && (|cs| > size || |Chunks(cs, size)| > 1)
    ensures |cs| > size && Chunks(cs, size)[1..] == Chunks(cs[size..], size) && Chunks(cs[size..], size) != []
  {
    hide Concat;
  }

  /**
   * The events for a text of `n` characters: two announcements, its pieces of a third of them, at least
   * one character each, of which the last says that it is the last, and a count.
   */
  ghost predicate EventsFor(text: Text, es: seq<SlotEvent>, cs: seq<Text>) {
    && CutIntoChars(text, cs) && |es| > 3
    && es[0] == Progress("queued", None, None) && es[1] == Progress("gen_start", None, None)
    && es[|es| - 1] == Progress("gen_done", None, Some(Decimal(|cs|) + " chars"))
    && var size := if |cs| < 6 then 1 else |cs| / 3;
       && (|es| - 4) * size < |cs| <= (|es| - 3) * size
       && forall k :: 0 <= k < |es| - 3 ==> 0 <= k * size <= |cs| && es[k + 2] == PieceEvent(cs, size, k, |es| - 4)
  }

  function PieceEvent(cs: seq<Text>, size: nat, k: nat, last: nat): SlotEvent
    requires k * size <= |cs|
  {
    Chunk(Piece(cs, size, k), if k == last then Some("stop") else None, Some("text"))
  }

  lemma StubEventsAre(req: InferenceRequest)
    ensures EventsFor(SynthEcho(req).text, StubEvents(req), Chars(SynthEcho(req).text))
  {
    var cs := Chars(SynthEcho(req).text);
    EchoNotEmpty(req);
    CharsAreChars(SynthEcho(req).text);
    hide SynthEcho, Chars, Decimal, CutIntoChars, Chunks, EventsFor;
    assert ChunkSize(|cs|) == if |cs| < 6 then 1 else |cs| / 3;
    EventsAre(SynthEcho(req).text, cs, ChunkSize(|cs|), Decimal(|cs|) + " chars");
  }

  lemma EventsAre(text: Text, cs: seq<Text>, size: nat, count: Text)
    requires CutIntoChars(text, cs) && cs != [] && size > 0 && size == if |cs| < 6 then 1 else |cs| / 3
    requires count == Decimal(|cs|) + " chars"
    ensures EventsFor(text, [Progress("queued", None, None), Progress("gen_start", None, None)] + Chunks(cs, size)
                            + [Progress("gen_done", None, Some(count))], cs)
  {
    hide Decimal, CutIntoChars, Piece, Concat, Chunks;
    var ch := Chunks(cs, size);
    var es := [Progress("queued", None, None), Progress("gen_start", None, None)] + ch
              + [Progress("gen_done", None, Some(count))];
    ChunksNotEmpty(cs, size);
    ChunkCount(cs, size);
    forall k | 0 <= k < |es| - 3 ensures 0 <= k * size <= |cs| && es[k + 2] == PieceEvent(cs, size, k, |es| - 4) {
      ChunkIsPiece(cs, size, k);
      assert es[k + 2] == ch[k];
      hide PieceEvent;
    }
  }

  lemma ChunkIsPiece(cs: seq<Text>, size: nat, k: nat)
    requires size > 0 && k < |Chunks(cs, size)|
    ensures 0 <= k * size <= |cs| && Chunks(cs, size)[k] == PieceEvent(cs, size, k, |Chunks(cs, size)| - 1)
  {
    hide Piece, Chunks;
    ChunksAre(cs, size, k);
  }

  lemma ChunkCount(cs: seq<Text>, size: nat)
    requires cs != [] && size > 0
    ensures var n := |Chunks(cs, size)|; n > 0 && (n - 1) * size < |cs| <= n * size
  {
    hide Chunks;
    var n := |Chunks(cs, size)|;
    ChunksNotEmpty(cs, size);
    ChunksAre(cs, size, n - 1);
    assert (n - 1) * size + size == n * size;
  }

  lemma ChunksNotEmpty(cs: seq<Text>, size: nat)
    requires size > 0 && cs != []
    ensures Chunks(cs, size) != []
  {
    hide Concat;
  }

  // ---- What the stub's events say ----

  function Deltas(es: seq<SlotEvent>): Text {
    if es == [] then "" else (if es[0].Chunk? then es[0].deltaText else "") + Deltas(es[1..])
  }

  function ChunksOf(es: seq<SlotEvent>): seq<SlotEvent> {
    if es == [] then [] else (if es[0].Chunk? then [es[0]] else []) + ChunksOf(es[1..])
  }

  lemma {:induction false} ChunksSpell(cs: seq<Text>, size: nat)
    requires size > 0
    ensures Deltas(Chunks(cs, size)) == Concat(cs) && ChunksOf(Chunks(cs, size)) == Chunks(cs, size)
  {
    hide Concat;
    if cs == [] {
      ConcatNothing();
    } else if |cs| <= size {
      assert Chunks(cs, size)[1..] == [];
      assert Deltas([]) == "" && Concat(cs) + "" == Concat(cs);
    } else {
      ChunksSpell(cs[size..], size);
      assert Chunks(cs, size)[1..] == Chunks(cs[size..], size);
      ConcatSplit(cs[..size], cs[size..]);
      assert cs[..size] + cs[size..] == cs;
    }
  }

  lemma {:induction false} ChunksFinishOnce(cs: seq<Text>, size: nat, k: nat)
    requires size > 0 && cs != [] && |cs| <= k * size
    ensures 0 < |Chunks(cs, size)| <= k
    ensures forall i :: 0 <= i < |Chunks(cs, size)| ==>
              Chunks(cs, size)[i].Chunk? && (Chunks(cs, size)[i].finishReason.Some? <==> i == |Chunks(cs, size)| - 1)
    decreases |cs|
  {
    hide Concat;
    assert 0 * size == 0;
    if |cs| > size {
      assert (k - 1) * size == k * size - size;
      ChunksFinishOnce(cs[size..], size, k - 1);
    }
  }

  /** The chunks spell the text, there are at most four, and exactly the last carries a finish reason. */
  lemma StubStreams(req: InferenceRequest)
    ensures Deltas(StubEvents(req)) == SynthEcho(req).text
    ensures |StubEvents(req)| <= 7
    ensures var ch := ChunksOf(StubEvents(req));
            && 0 < |ch| <= 4 && |StubEvents(req)| == |ch| + 3
            && forall i :: 0 <= i < |ch| ==> ch[i].Chunk? && (ch[i].finishReason.Some? <==> i == |ch| - 1)
  {
    var cs := Chars(SynthEcho(req).text);
    EchoNotEmpty(req);
    var size := ChunkSize(|cs|);
    ConcatChars(SynthEcho(req).text);
    hide SynthEcho, Chars, Decimal;
    assert |cs| <= 4 * size;
    ChunksSpell(cs, size);
    ChunksFinishOnce(cs, size, 4);
    hide Chunks, Concat;
    StubParts(Chunks(cs, size), Progress("queued", None, None), Progress("gen_start", None, None),
              Progress("gen_done", None, Some(Decimal(|cs|) + " chars")));
  }

  lemma StubParts(ch: seq<SlotEvent>, p: SlotEvent, q: SlotEvent, r: SlotEvent)
    requires p.Progress? && q.Progress? && r.Progress? && ChunksOf(ch) == ch
    ensures Deltas([p, q] + ch + [r]) == Deltas(ch) && ChunksOf([p, q] + ch + [r]) == ch
  {
    var es := [p, q] + ch + [r];
    assert es[1..] == [q] + ch + [r] && es[1..][1..] == ch + [r];
    AfterChunks(ch, r);
  }

  lemma {:induction false} AfterChunks(ch: seq<SlotEvent>, r: SlotEvent)
    requires r.Progress?
    ensures Deltas(ch + [r]) == Deltas(ch) && ChunksOf(ch + [r]) == ChunksOf(ch)
  {
    if ch == [] {
      assert (ch + [r])[1..] == [];
    } else {
      AfterChunks(ch[1..], r);
      assert (ch + [r])[1..] == ch[1..] + [r];
    }
  }

  // ---- End to end ----

  /** A step of a connection whose slot is the stub. */
  predicate StubStep(s: State, a: Action)
    requires Enabled(s, a)
  {
    match a
    case Emit(e) => Pushed(s.log) + [e] <= StubEvents(s.task.req)
    case Finish(o) => o == Replied(SynthEcho(s.task.req)) && (s.sinkTx ==> Pushed(s.log) == StubEvents(s.task.req))
    case _ => true
  }

  predicate StubRuns(c: Config, s: State, steps: seq<Action>)
    decreases |steps|
  {
    steps == [] || (Enabled(s, steps[0]) && StubStep(s, steps[0]) && StubRuns(c, Apply(c, s, steps[0]), steps[1..]))
  }

  predicate ByStub(r: Served) {
    && r.outcome == Replied(SynthEcho(r.req))
    && (r.req.stream || r.req.progress ==> Pushed(r.log) == StubEvents(r.req))
  }

  predicate StubInv(s: State) {
    && (forall i :: 0 <= i < |s.served| ==> ByStub(s.served[i]))
    && (s.task.Finished? ==> ByStub(Served(s.task.req, s.log, s.wrote, s.task.outcome)))
  }

  lemma StubStepKeeps(c: Config, s: State, a: Action)
    requires Inv(c, s) && Enabled(s, a) && StubStep(s, a) && StubInv(s)
    ensures StubInv(Apply(c, s, a))
  {
    hide StubInv, StubStep, Apply, Paired, Kept, LogOk, EventsOf, AllEvents, AllCancels;
    if a.SendReply? {
      assert s.client.Busy? && Serving(s, s.client.call);
      StubReplyKeeps(c, s);
    } else {
      assert a.Finish? ==> s.client.Busy? && Serving(s, s.client.call);
      assert a.TakeMessage? ==> s.task.NoTask?;
      hide Inv, Enabled;
      StubOtherKeeps(c, s, a);
    }
  }

  lemma StubOtherKeeps(c: Config, s: State, a: Action)
    requires Enabled(s, a) && StubStep(s, a) && StubInv(s) && !a.SendReply?
    requires a.Finish? ==> (s.task.req.stream || s.task.req.progress ==> s.sinkTx)
    requires a.TakeMessage? ==> s.task.NoTask?
    ensures StubInv(Apply(c, s, a))
  {
    hide StubInv, ByStub, SynthEcho, StubEvents, Pushed;
    if a.Finish? {
      StubFinishKeeps(c, s, a.outcome);
    } else if a.Emit? || a.TakeMessage? {
      hide StubStep;
      StubTaskUnfinished(s, Apply(c, s, a));
    } else {
      hide StubStep;
      StubIgnores(s, Apply(c, s, a));
    }
  }

  lemma StubFinishKeeps(c: Config, s: State, o: Outcome)
    requires s.task.Working? && StubStep(s, Finish(o)) && StubInv(s)
    requires s.task.req.stream || s.task.req.progress ==> s.sinkTx
    ensures StubInv(Apply(c, s, Finish(o)))
  {
    hide SynthEcho, StubEvents, Pushed;
  }

  lemma StubTaskUnfinished(s: State, s': State)
    requires StubInv(s) && s.served == s'.served && !s'.task.Finished?
    ensures StubInv(s')
  {
    hide ByStub;
  }

  lemma StubIgnores(s: State, s': State)
    requires StubInv(s) && s.served == s'.served && s.task == s'.task && s.log == s'.log
    ensures StubInv(s')
  {
    hide ByStub;
    if s.task.Finished? {
      assert ByStub(Served(s.task.req, s.log, s.wrote, s.task.outcome));
      LogDecides(Served(s.task.req, s.log, s.wrote, s.task.outcome), s'.wrote);
    }
  }

  lemma LogDecides(r: Served, wrote: seq<SlotEvent>)
    requires ByStub(r)
    ensures ByStub(r.(wrote := wrote))
  {}

  lemma StubReplyKeeps(c: Config, s: State)
    requires StubInv(s) && Enabled(s, SendReply) && s.task.Finished?
             && (s.handler.Tail? ==> s.handler.outcome == s.task.outcome)
    ensures StubInv(Apply(c, s, SendReply))
  {
    hide ByStub;
    var r := Served(s.task.req, s.log, s.wrote, s.task.outcome);
    assert Apply(c, s, SendReply).served == s.served + [r];
  }

  lemma {:induction false} StubRunKeeps(c: Config, s: State, steps: seq<Action>)
    requires Inv(c, s) && StubInv(s) && StubRuns(c, s, steps)
    ensures Runs(c, s, steps) && StubInv(After(c, s, steps)) && Inv(c, After(c, s, steps))
    decreases |steps|
  {
    hide Inv, StubInv, Apply, Enabled;
    if steps != [] {
      StubStepKeeps(c, s, steps[0]);
      StepKeeps(c, s, steps[0]);
      StubRunKeeps(c, Apply(c, s, steps[0]), steps[1..]);
    }
  }

  /**
   * End to end, told from the steps of the run. In every run with the stub the i-th call that got a reply
   * got the echo of its own request, with its own session and tools; if it streamed, its callback was
   * given all events for that echo, none dropped, at most four of them chunks, whose texts put together
   * are the text of the reply.
   */
  lemma StreamedReplies(c: Config, steps: seq<Action>, i: nat)
    requires StubRuns(c, Start(c), steps) && Runs(c, Start(c), steps)
    requires i < |After(c, Start(c), steps).returned| && After(c, Start(c), steps).returned[i].Reply?
    ensures var back, h := After(c, Start(c), steps).returned[i], Told(Nothing, steps);
            && i < |h.calls| && back.outcome.Replied? && EchoFor(h.calls[i].req, back.outcome.response)
            && (h.calls[i].streaming ==>
                  && (exists cs :: EventsFor(back.outcome.response.text, back.delivered, cs))
                  && Deltas(back.delivered) == back.outcome.response.text
                  && 0 < |ChunksOf(back.delivered)| <= 4)
            && (!h.calls[i].streaming ==> back.delivered == [])
  {
    hide Apply, Enabled, Runs, StubRuns, Told, After, Got, ByStub, RunsFor;
    var s, h := After(c, Start(c), steps), Told(Nothing, steps);
    StubRunKeeps(c, Start(c), steps);
    ReturnedIsServed(c, steps);
    RepliesArePaired(c, steps, i);
    SlotRunsRequests(c, steps);
    ReachableMatches(c, steps);
    PushedIs(s, h, i);
    hide Inv, Matches;
    assert ByStub(s.served[i]);
    ReplyIsEcho(h.calls[i], s.served[i], s.returned[i]);
  }

  /** What a call got when the stub served it. */
  lemma ReplyIsEcho(call: Made, r: Served, back: Returned)
    requires ByStub(r) && RunsFor(call, r.req) && Got(call, r.outcome, Pushed(r.log), back)
    ensures back.outcome.Replied? && EchoFor(call.req, back.outcome.response)
    ensures call.streaming ==>
              && (exists cs :: EventsFor(back.outcome.response.text, back.delivered, cs))
              && Deltas(back.delivered) == back.outcome.response.text
              && 0 < |ChunksOf(back.delivered)| <= 4
    ensures !call.streaming ==> back.delivered == []
  {
    StubStreams(r.req);
    StubEventsAre(r.req);
    SynthEchoIs(r.req);
    hide EventsFor, SynthEcho, StubEvents, Echoed, Pushed, Deltas, ChunksOf;
  }

  lemma PushedIs(s: State, h: History, i: nat)
    requires Matches(s, h) && i < |s.served|
    ensures i < |h.pushes| && h.pushes[i] == Pushed(s.served[i].log) && h.outcomes[i] == s.served[i].outcome
  {
    hide Pushed, SentFor;
    assert ServedFor(h.outcomes[i], h.pushes[i], s.served[i]);
  }
}
