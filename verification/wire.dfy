// One connection as a state machine: a client behind its lock, two pipes of
// frames, the server's connection handler, the slot task it spawns, and the
// bounded channel between the two. Any interleaving of their steps is a run.
module Wire {
  import opened Texts
  import opened Proto

  /** Capacity of the event channel. */
  const CAPACITY: nat := 64

  datatype Config = Config(clientVersion: nat, serverVersion: nat)

  // ---- State ----

  /** `seen`: the event frames this call has read. */
  datatype Call = Infer(streaming: bool, seen: seq<SlotEvent>) | Bye

  datatype Refusal = VersionDiffers | ServerSaid(message: Text) | Unexpected | HungUp

  /** `Free`: connected, nobody holds the lock; `Busy`: a call holds it. */
  datatype Client = Connecting | Refused(why: Refusal) | Free | Busy(call: Call)

  datatype Task = NoTask | Working(req: InferenceRequest) | Finished(req: InferenceRequest, outcome: Outcome)

  /**
   * Where the handler is: `Awaiting` a non-streaming run, `Draining` the channel, `Polling` its slot task
   * after it saw the channel empty, in the `Tail` drain after it took the outcome.
   */
  datatype Handler = AwaitHello | Idle | Awaiting | Draining | Polling | Tail(outcome: Outcome) | Closed

  /** One push into the sink: whether the channel took it, and how many events were queued then. */
  datatype Emission = Emission(event: SlotEvent, kept: bool, queued: nat)

  /** A request served: all pushes, the event frames written, and the outcome. */
  datatype Served = Served(req: InferenceRequest, log: seq<Emission>, wrote: seq<SlotEvent>, outcome: Outcome)

  /** What a call of `inference` or `inference_stream` returned, and what its callback was given. */
  datatype Returned = Reply(outcome: Outcome, delivered: seq<SlotEvent>) | Disconnected

  datatype Sent = Sent(req: InferenceRequest, streaming: bool)

  /** `handlerTx`, `sinkTx`: the two senders of the channel. The last line is history. */
  datatype State = State(
    client: Client, c2s: seq<ClientMessage>, s2c: seq<ServerMessage>,
    handler: Handler, task: Task, queue: seq<SlotEvent>, handlerTx: bool, sinkTx: bool,
    sent: seq<Sent>, log: seq<Emission>, wrote: seq<SlotEvent>, served: seq<Served>, returned: seq<Returned>)

  function Start(c: Config): State {
    State(Connecting, [ClientHello(c.clientVersion)], [], AwaitHello, NoTask, [], false, false, [], [], [], [], [])
  }

  // ---- Steps ----

  datatype Action =
    | AnswerHello                                          // handler: handshake
    | ReadHello                                            // client: handshake
    | Begin(req: InferenceRequest, streaming: bool)        // client: inference, inference_stream
    | SendCancel                                           // client: cancel
    | SendShutdown                                         // client: shutdown
    | ReadFrame                                            // client: one frame inside a call
    | ReadEof                                              // client: end of file inside a call
    | TakeMessage                                          // handler: one message of the request loop
    | Emit(event: SlotEvent)                               // slot: push into the sink
    | Finish(outcome: Outcome)                             // slot: return
    | DrainOne                                             // handler: try_recv gives an event
    | SeeEmpty                                             // handler: try_recv says empty
    | SeeClosed                                            // handler: try_recv says closed
    | PollTask                                             // handler: is_finished
    | TailOne                                              // handler: tail drain
    | SendReply                                            // handler: terminal frame

  predicate Enabled(s: State, a: Action) {
    match a
    case AnswerHello => s.handler.AwaitHello? && s.c2s != []
    case ReadHello => s.client.Connecting? && (s.s2c != [] || s.handler.Closed?)
    case Begin(_, _) => s.client.Free?
    case SendCancel => s.client.Free?
    case SendShutdown => s.client.Free?
    case ReadFrame => s.client.Busy? && s.s2c != []
    case ReadEof => s.client.Busy? && s.s2c == [] && s.handler.Closed?
    case TakeMessage => s.handler.Idle? && s.c2s != []
    case Emit(_) => s.task.Working? && s.sinkTx
    case Finish(_) => s.task.Working?
    case DrainOne => s.handler.Draining? && s.queue != []
    case SeeEmpty => s.handler.Draining? && s.queue == [] && (s.handlerTx || s.sinkTx)
    case SeeClosed => s.handler.Draining? && s.queue == [] && !s.handlerTx && !s.sinkTx
    case PollTask => s.handler.Polling?
    case TailOne => s.handler.Tail? && s.queue != []
    case SendReply => (s.handler.Tail? && s.queue == []) || (s.handler.Awaiting? && s.task.Finished?)
  }

  function Mismatch(c: Config): ServerMessage {
    InferenceError("protocol mismatch: client=" + Decimal(c.clientVersion) + " server=" + Decimal(c.serverVersion))
  }

  function ApplyAnswerHello(c: Config, s: State): State
    requires s.c2s != []
  {
    var rest := s.c2s[1..];
    match s.c2s[0]
    case ClientHello(v) =>
      if v != c.serverVersion then s.(c2s := rest, s2c := s.s2c + [Mismatch(c.(clientVersion := v))], handler := Closed)
      else s.(c2s := rest, s2c := s.s2c + [ServerHello(c.serverVersion)], handler := Idle)
    case _ => s.(c2s := rest, handler := Closed)
  }

  function ApplyReadHello(c: Config, s: State): State {
    if s.s2c == [] then s.(client := Refused(HungUp))
    else
      var rest := s.s2c[1..];
      match s.s2c[0]
      case ServerHello(v) =>
        if v != c.clientVersion then s.(s2c := rest, client := Refused(VersionDiffers))
            else s.(s2c := rest, client := Free)
      case InferenceError(m) => s.(s2c := rest, client := Refused(ServerSaid(m)))
      case _ => s.(s2c := rest, client := Refused(Unexpected))
  }

  /** `inference_stream` sets both flags; `inference` sends the request as it is. */
  function Outgoing(req: InferenceRequest, streaming: bool): InferenceRequest {
    if streaming then req.(stream := true, progress := true) else req
  }

  function ApplyBegin(s: State, req: InferenceRequest, streaming: bool): State {
    var out := Outgoing(req, streaming);
    s.(client := Busy(Infer(streaming, [])), c2s := s.c2s + [Inference(out)], sent := s.sent + [Sent(out, streaming)])
  }

  function Delivered(call: Call): seq<SlotEvent>
    requires call.Infer?
  {
    if call.streaming then call.seen else []
  }

  /** One frame read under the lock. */
  function ApplyReadFrame(s: State): State
    requires s.client.Busy? && s.s2c != []
  {
    var s' := s.(s2c := s.s2c[1..]);
    match s.client.call
    case Infer(streaming, seen) =>
      (match s.s2c[0]
       case InferenceComplete(r) => s'.(client := Free,
           returned := s.returned + [Reply(Replied(r), Delivered(s.client.call))])
       case InferenceError(m) => s'.(client := Free,
           returned := s.returned + [Reply(SlotError(m), Delivered(s.client.call))])
       case Event(e) => s'.(client := Busy(Infer(streaming, seen + [e])))
       case _ => s')
    case Bye => if s.s2c[0].Goodbye? then s'.(client := Free) else s'
  }

  function ApplyReadEof(s: State): State
    requires s.client.Busy?
  {
    if s.client.call.Infer? then s.(client := Free, returned := s.returned + [Disconnected]) else s.(client := Free)
  }

  function ApplyTakeMessage(s: State): State
    requires s.c2s != []
  {
    var s' := s.(c2s := s.c2s[1..]);
    match s.c2s[0]
    case ClientHello(_) => s'.(handler := Closed)
    case Inference(req) =>
      if req.stream || req.progress then
        s'.(handler := Draining, task := Working(req), queue := [], handlerTx := true, sinkTx := true, log := [],
            wrote := [])
      else s'.(handler := Awaiting, task := Working(req), queue := [], log := [], wrote := [])
    case Cancel => s'
    case Shutdown => s'.(s2c := s.s2c + [Goodbye], handler := Closed)
  }

  /** `try_send`: the event is dropped when the channel is full. */
  function ApplyEmit(s: State, e: SlotEvent): State {
    if |s.queue| < CAPACITY then s.(queue := s.queue + [e], log := s.log + [Emission(e, true, |s.queue|)])
    else s.(log := s.log + [Emission(e, false, |s.queue|)])
  }

  function ApplyWriteEvent(s: State): State
    requires s.queue != []
  {
    s.(queue := s.queue[1..], s2c := s.s2c + [Event(s.queue[0])], wrote := s.wrote + [s.queue[0]])
  }

  function TerminalFrame(o: Outcome): ServerMessage {
    match o
    case Replied(r) => InferenceComplete(r)
    case SlotError(m) => InferenceError(m)
  }

  function ApplyReply(s: State, o: Outcome): State
    requires s.task.Finished?
  {
    s.(s2c := s.s2c + [TerminalFrame(o)], handler := Idle, task := NoTask, handlerTx := false,
       served := s.served + [Served(s.task.req, s.log, s.wrote, o)])
  }

  function Apply(c: Config, s: State, a: Action): State
    requires Enabled(s, a)
  {
    match a
    case AnswerHello => ApplyAnswerHello(c, s)
    case ReadHello => ApplyReadHello(c, s)
    case Begin(req, streaming) => ApplyBegin(s, req, streaming)
    case SendCancel => s.(c2s := s.c2s + [Cancel])
    case SendShutdown => s.(client := Busy(Bye), c2s := s.c2s + [Shutdown])
    case ReadFrame => ApplyReadFrame(s)
    case ReadEof => ApplyReadEof(s)
    case TakeMessage => ApplyTakeMessage(s)
    case Emit(e) => ApplyEmit(s, e)
    case Finish(o) => s.(task := Finished(s.task.req, o), sinkTx := false)
    case DrainOne => ApplyWriteEvent(s)
    case SeeEmpty => s.(handler := Polling)
    case SeeClosed => s.(handler := Closed)
    case PollTask => if s.task.Finished? then s.(handler := Tail(s.task.outcome)) else s.(handler := Draining)
    case TailOne => ApplyWriteEvent(s)
    case SendReply =>
      if s.handler.Tail? then (if s.task.Finished? then ApplyReply(s, s.handler.outcome) else s)
      else ApplyReply(s, s.task.outcome)
  }

  /** A run: actions that are enabled one after another. */
  predicate Runs(c: Config, s: State, steps: seq<Action>)
    decreases |steps|
  {
    steps == [] || (Enabled(s, steps[0]) && Runs(c, Apply(c, s, steps[0]), steps[1..]))
  }

  function After(c: Config, s: State, steps: seq<Action>): State
    requires Runs(c, s, steps)
    decreases |steps|
  {
    if steps == [] then s else After(c, Apply(c, s, steps[0]), steps[1..])
  }

  // ---- Invariant ----

  function Kept(log: seq<Emission>): seq<SlotEvent> {
    if log == [] then []
    else Kept(log[..|log| - 1]) + if log[|log| - 1].kept then [log[|log| - 1].event] else []
  }

  /** An event is dropped exactly when the channel is full. */
  predicate LogOk(log: seq<Emission>) {
    forall i :: 0 <= i < |log| ==>
      log[i].queued <= CAPACITY && log[i].queued <= i && (log[i].kept <==> log[i].queued < CAPACITY)
  }

  function EventsOf(ms: seq<ServerMessage>): seq<SlotEvent> {
    if ms == [] then []
    else if ms[0].Event? then [ms[0].event] + EventsOf(ms[1..])
    else EventsOf(ms[1..])
  }

  predicate AllEvents(ms: seq<ServerMessage>) {
    forall i :: 0 <= i < |ms| ==> ms[i].Event?
  }

  predicate AllCancels(ms: seq<ClientMessage>) {
    forall i :: 0 <= i < |ms| ==> ms[i].Cancel?
  }

  /** A request served is the one sent in the same place; its frames are the kept events, in order. */
  predicate ServedOk(sent: Sent, r: Served) {
    r.req == sent.req && r.wrote == Kept(r.log) && LogOk(r.log) && (!(r.req.stream || r.req.progress) ==> r.log == [])
  }

  /** A call that got a reply got the outcome of its own request, and its callback got that request's frames. */
  predicate ReplyOk(sent: Sent, r: Served, back: Returned) {
    back.Reply? ==> back.outcome == r.outcome && back.delivered == if sent.streaming then r.wrote else []
  }

  predicate Paired(s: State) {
    && |s.served| <= |s.sent| && |s.returned| <= |s.sent|
    && (forall i :: 0 <= i < |s.served| ==> ServedOk(s.sent[i], s.served[i]))
    && (forall i :: 0 <= i < |s.returned| && i < |s.served| ==> ReplyOk(s.sent[i], s.served[i], s.returned[i]))
    && (forall i :: |s.served| <= i < |s.returned| ==> s.returned[i].Disconnected?)
    && (forall i :: 0 <= i < |s.sent| && s.sent[i].streaming ==> s.sent[i].req.stream && s.sent[i].req.progress)
  }

  /** No call is under way at the server. */
  predicate Resting(s: State) {
    s.task.NoTask? && !s.handlerTx && !s.sinkTx
  }

  predicate Shaking(c: Config, s: State) {
    && Resting(s) && s.sent == [] && s.served == [] && s.returned == []
    && match s.handler
       case AwaitHello => s.c2s == [ClientHello(c.clientVersion)] && s.s2c == []
       case Idle => c.clientVersion == c.serverVersion && s.c2s == [] && s.s2c == [ServerHello(c.serverVersion)]
       case Closed => c.clientVersion != c.serverVersion && s.s2c == [Mismatch(c)]
       case _ => false
  }

  /** The lock is free on a healthy connection. */
  predicate Quiet(s: State) {
    s.handler.Idle? && Resting(s) && s.s2c == [] && AllCancels(s.c2s) && |s.served| == |s.returned| == |s.sent|
  }

  /** A request is on its way to the handler. */
  predicate Asked(s: State, call: Call) {
    && s.handler.Idle? && Resting(s) && s.s2c == [] && s.sent != [] && |s.served| == |s.returned| == |s.sent| - 1
    && call.Infer? && call.streaming == s.sent[|s.sent| - 1].streaming && call.seen == []
    && s.c2s != [] && AllCancels(s.c2s[..|s.c2s| - 1]) && s.c2s[|s.c2s| - 1] == Inference(s.sent[|s.sent| - 1].req)
  }

  /** A request is being served. */
  predicate Serving(s: State, call: Call) {
    && !s.task.NoTask? && s.c2s == [] && s.sent != [] && |s.served| == |s.returned| == |s.sent| - 1
    && call.Infer? && call.streaming == s.sent[|s.sent| - 1].streaming && s.task.req == s.sent[|s.sent| - 1].req
    && AllEvents(s.s2c) && call.seen + EventsOf(s.s2c) == s.wrote
    && LogOk(s.log) && Kept(s.log) == s.wrote + s.queue && |s.queue| <= CAPACITY
    && var streams := s.task.req.stream || s.task.req.progress;
       match s.handler
       case Awaiting => !streams && !s.sinkTx && !s.handlerTx && s.log == []
       case Draining => streams && s.handlerTx && (s.sinkTx <==> s.task.Working?)
       case Polling => streams && s.handlerTx && (s.sinkTx <==> s.task.Working?)
       case Tail(o) => streams && s.handlerTx && !s.sinkTx && s.task.Finished? && s.task.outcome == o
       case _ => false
  }

  /** The terminal frame is on its way to the client. */
  predicate Answered(s: State, call: Call) {
    && s.handler.Idle? && Resting(s) && s.c2s == [] && s.sent != [] && |s.served| == |s.sent|
        && |s.returned| == |s.sent| - 1
    && call.Infer? && call.streaming == s.sent[|s.sent| - 1].streaming
    && s.s2c != [] && AllEvents(s.s2c[..|s.s2c| - 1])
    && var r := s.served[|s.served| - 1];
       s.s2c[|s.s2c| - 1] == TerminalFrame(r.outcome) && call.seen + EventsOf(s.s2c[..|s.s2c| - 1]) == r.wrote
  }

  /** A polite hang-up is under way. */
  predicate Leaving(s: State) {
    && Resting(s) && |s.served| == |s.returned| == |s.sent|
    && if s.handler.Closed? then s.s2c == [Goodbye]
       else
         && s.handler.Idle? && s.s2c == [] && s.c2s != []
         && AllCancels(s.c2s[..|s.c2s| - 1]) && s.c2s[|s.c2s| - 1] == Shutdown
  }

  /** The server has hung up. Requests sent from now on are lost. */
  predicate Over(s: State) {
    && s.handler.Closed? && Resting(s) && s.s2c == []
    && |s.returned| == |s.sent| - (if s.client.Busy? && s.client.call.Infer? then 1 else 0)
    && |s.served| <= |s.returned|
  }

  predicate Inv(c: Config, s: State) {
    && Paired(s)
    && match s.client
       case Connecting => Shaking(c, s)
       case Refused(why) =>
         && why == ServerSaid(Mismatch(c).message) && c.clientVersion != c.serverVersion
         && s.handler.Closed? && Resting(s) && s.s2c == [] && s.sent == []
       case Free => c.clientVersion == c.serverVersion && (Quiet(s) || Over(s))
       case Busy(call) =>
         && c.clientVersion == c.serverVersion
         && (Asked(s, call) || Serving(s, call) || Answered(s, call) || (call.Bye? && Leaving(s)) || Over(s))
  }

  // ---- Every step keeps the invariant ----

  lemma {:induction false} EventsConcat(a: seq<ServerMessage>, b: seq<ServerMessage>)
    ensures EventsOf(a + b) == EventsOf(a) + EventsOf(b)
  {
    if a == [] {
      assert a + b == b;
    } else {
      EventsConcat(a[1..], b);
      assert (a + b)[1..] == a[1..] + b;
    }
  }

  lemma EventsOne(e: SlotEvent)
    ensures EventsOf([Event(e)]) == [e]
  {
    assert [Event(e)][1..] == [];
  }

  lemma KeptOne(log: seq<Emission>, e: Emission)
    ensures Kept(log + [e]) == Kept(log) + if e.kept then [e.event] else []
  {
    assert (log + [e])[..|log|] == log;
  }

  lemma KeepsHandshake(c: Config, s: State, a: Action)
    requires Inv(c, s) && Enabled(s, a) && (a.AnswerHello? || a.ReadHello?)
    ensures Inv(c, Apply(c, s, a))
  {
  }

  lemma KeepsBegin(c: Config, s: State, a: Action)
    requires Inv(c, s) && Enabled(s, a) && (a.Begin? || a.SendCancel? || a.SendShutdown?)
    ensures Inv(c, Apply(c, s, a))
  {
  }

  lemma CancelsTail(q: seq<ClientMessage>)
    requires |q| > 1 && AllCancels(q[..|q| - 1])
    ensures q[0].Cancel? && AllCancels(q[1..][..|q| - 2]) && q[1..][|q| - 2] == q[|q| - 1]
  {
    assert q[..|q| - 1][0] == q[0];
    assert q[1..][..|q| - 2] == q[..|q| - 1][1..];
  }

  lemma KeepsTakeAsked(s: State, call: Call)
    requires Asked(s, call) && Enabled(s, TakeMessage)
    ensures Asked(ApplyTakeMessage(s), call) || Serving(ApplyTakeMessage(s), call)
  {
    if |s.c2s| > 1 {
      CancelsTail(s.c2s);
    } else {
      assert EventsOf([]) == [] && Kept([]) == [] && LogOk([]) && AllEvents([]);
    }
    hide AllCancels, AllEvents, EventsOf, Kept, LogOk;
  }

  lemma KeepsTakeLeaving(s: State)
    requires Leaving(s) && Enabled(s, TakeMessage)
    ensures Leaving(ApplyTakeMessage(s))
  {
    if |s.c2s| > 1 { CancelsTail(s.c2s); }
    hide AllCancels;
  }

  lemma KeepsTakeQuiet(s: State)
    requires Quiet(s) && Enabled(s, TakeMessage)
    ensures Quiet(ApplyTakeMessage(s))
  {}

  lemma KeepsTake(c: Config, s: State)
    requires Inv(c, s) && Enabled(s, TakeMessage)
    ensures Inv(c, Apply(c, s, TakeMessage))
  {
    hide AllCancels, AllEvents, EventsOf, Kept, LogOk, ServedOk, ReplyOk;
    PairedIgnores(s, ApplyTakeMessage(s));
    if s.client.Free? {
      KeepsTakeQuiet(s);
    } else if s.client.Busy? && Asked(s, s.client.call) {
      KeepsTakeAsked(s, s.client.call);
    } else if s.client.Busy? && s.client.call.Bye? && Leaving(s) {
      KeepsTakeLeaving(s);
    }
    hide Paired;
  }

  /** While the slot task is there, a request is being served. */
  lemma TaskIsServed(c: Config, s: State)
    requires Inv(c, s) && !s.task.NoTask?
    ensures c.clientVersion == c.serverVersion && Paired(s) && s.client.Busy? && Serving(s, s.client.call)
  {
    hide Paired, AllEvents, Kept, LogOk, EventsOf;
  }

  lemma ServedKeeps(c: Config, s: State, s': State)
    requires c.clientVersion == c.serverVersion && Paired(s) && s.client.Busy? && Serving(s', s.client.call)
    requires s' == s.(s2c := s'.s2c, handler := s'.handler, task := s'.task, queue := s'.queue,
                      handlerTx := s'.handlerTx, sinkTx := s'.sinkTx, log := s'.log, wrote := s'.wrote)
    ensures Inv(c, s')
  {
    hide Serving, AllEvents, Kept, LogOk, EventsOf;
    PairedIgnores(s, s');
    hide Paired;
  }

  lemma EmitServes(s: State, call: Call, event: SlotEvent)
    requires Serving(s, call) && Enabled(s, Emit(event))
    ensures Serving(ApplyEmit(s, event), call)
  {
    hide AllEvents, Kept, LogOk, EventsOf;
    var e := Emission(event, |s.queue| < CAPACITY, |s.queue|);
    KeptOne(s.log, e);
    KeptNoLonger(s.log);
    LogGrows(s.log, e);
    if |s.queue| < CAPACITY {
      assert s.wrote + s.queue + [event] == s.wrote + (s.queue + [event]);
    } else {
      assert Kept(s.log) + [] == Kept(s.log);
    }
  }

  lemma KeepsSlot(c: Config, s: State, a: Action)
    requires Inv(c, s) && Enabled(s, a) && (a.Emit? || a.Finish?)
    ensures Inv(c, Apply(c, s, a))
  {
    hide Inv, Paired, AllEvents, Kept, LogOk, EventsOf;
    TaskIsServed(c, s);
    if a.Emit? { EmitServes(s, s.client.call, a.event); }
    ServedKeeps(c, s, Apply(c, s, a));
  }

  lemma {:induction false} KeptNoLonger(log: seq<Emission>)
    ensures |Kept(log)| <= |log|
  {
    if log != [] { KeptNoLonger(log[..|log| - 1]); }
  }

  lemma LogGrows(log: seq<Emission>, e: Emission)
    requires LogOk(log) && e.queued <= CAPACITY && e.queued <= |log| && (e.kept <==> e.queued < CAPACITY)
    ensures LogOk(log + [e])
  {}

  lemma KeepsWrite(c: Config, s: State, a: Action)
    requires Inv(c, s) && Enabled(s, a) && (a.DrainOne? || a.TailOne?)
    ensures Inv(c, Apply(c, s, a))
  {
    hide Inv, Serving, Paired, AllEvents, Kept, LogOk, EventsOf;
    WriterServes(c, s, a);
    WriteServes(s, s.client.call);
    ServedKeeps(c, s, Apply(c, s, a));
  }

  lemma WriterServes(c: Config, s: State, a: Action)
    requires Inv(c, s) && Enabled(s, a) && (a.DrainOne? || a.TailOne?)
    ensures c.clientVersion == c.serverVersion && Paired(s) && s.client.Busy? && Serving(s, s.client.call)
  {
    hide Paired, AllEvents, Kept, LogOk, EventsOf;
  }

  lemma WriteServes(s: State, call: Call)
    requires Serving(s, call) && s.queue != []
    ensures Serving(ApplyWriteEvent(s), call)
  {
    var e := s.queue[0];
    EventsConcat(s.s2c, [Event(e)]);
    EventsOne(e);
    assert s.wrote + s.queue == s.wrote + [e] + s.queue[1..];
    assert call.seen + (EventsOf(s.s2c) + [e]) == call.seen + EventsOf(s.s2c) + [e];
    assert AllEvents(s.s2c + [Event(e)]);
    hide AllEvents, Kept, LogOk, EventsOf;
  }

  lemma KeepsPoll(c: Config, s: State, a: Action)
    requires Inv(c, s) && Enabled(s, a) && (a.SeeEmpty? || a.SeeClosed? || a.PollTask?)
    ensures Inv(c, Apply(c, s, a))
  {
    hide AllEvents, Kept, LogOk, EventsOf;
    assert Paired(Apply(c, s, a));
    hide Paired;
  }

  lemma ReplyIsPaired(s: State, r: Served)
    requires Paired(s) && |s.served| == |s.returned| == |s.sent| - 1 && ServedOk(s.sent[|s.sent| - 1], r)
    ensures Paired(s.(served := s.served + [r]))
  {
    hide ServedOk, ReplyOk;
  }

  lemma KeepsReply(c: Config, s: State)
    requires Inv(c, s) && Enabled(s, SendReply)
    ensures Inv(c, Apply(c, s, SendReply))
  {
    assert s.client.Busy? && Serving(s, s.client.call);
    var o := s.task.outcome;
    var s' := Apply(c, s, SendReply);
    ReplyKeepsAnswered(c, s, o);
    hide AllEvents, Kept, LogOk, EventsOf;
    var r := Served(s.task.req, s.log, s.wrote, o);
    ReplyIsPaired(s, r);
    hide Paired;
    assert s' == ApplyReply(s, o);
    PairedIgnores(s.(served := s.served + [r]), s');
    hide Answered, Serving, Asked, Leaving, Over;
  }

  /** Pairing is about the histories only. */
  lemma PairedIgnores(s: State, s': State)
    requires Paired(s) && s.sent == s'.sent && s.served == s'.served && s.returned == s'.returned
    ensures Paired(s')
  {
    hide ServedOk, ReplyOk;
  }

  lemma AppendedFrame(ms: seq<ServerMessage>, f: ServerMessage)
    ensures var q := ms + [f]; q != [] && q[..|q| - 1] == ms && q[|q| - 1] == f
  {}

  lemma ReplyKeepsAnswered(c: Config, s: State, o: Outcome)
    requires s.client.Busy? && Serving(s, s.client.call) && Enabled(s, SendReply) && o == s.task.outcome
    ensures Answered(ApplyReply(s, o), s.client.call)
    ensures ServedOk(s.sent[|s.sent| - 1], Served(s.task.req, s.log, s.wrote, o))
  {
    if s.handler.Awaiting? { NothingKept(s.wrote, s.queue); }
    hide AllEvents, Kept, LogOk, EventsOf;
    assert s.queue == [];
    assert s.wrote + [] == s.wrote;
    assert ServedOk(s.sent[|s.sent| - 1], Served(s.task.req, s.log, s.wrote, o));
    hide ServedOk, TerminalFrame;
    AppendedFrame(s.s2c, TerminalFrame(o));
  }

  lemma NothingKept(a: seq<SlotEvent>, b: seq<SlotEvent>)
    requires Kept([]) == a + b
    ensures a == [] && b == []
  {}

  lemma KeepsReadServing(c: Config, s: State)
    requires Inv(c, s) && Enabled(s, ReadFrame) && Serving(s, s.client.call)
    ensures Inv(c, Apply(c, s, ReadFrame))
  {
    hide Paired, AllEvents, Kept, LogOk, EventsOf;
    EventsHead(s.client.call.seen, s.s2c);
    PairedIgnores(s, Apply(c, s, ReadFrame));
  }

  /** The first of some event frames goes to the events seen. */
  lemma EventsHead(seen: seq<SlotEvent>, ms: seq<ServerMessage>)
    requires AllEvents(ms) && ms != []
    ensures ms[0].Event? && AllEvents(ms[1..]) && seen + EventsOf(ms) == seen + [ms[0].event] + EventsOf(ms[1..])
  {}

  lemma KeepsReadAnswered(c: Config, s: State)
    requires Inv(c, s) && Enabled(s, ReadFrame) && Answered(s, s.client.call)
    ensures Inv(c, Apply(c, s, ReadFrame))
  {
    var call := s.client.call;
    var n := |s.s2c| - 1;
    var head, rest := s.s2c[..n], s.s2c[1..];
    if n == 0 {
      assert EventsOf(head) == [];
      assert call.seen + [] == call.seen;
      hide AllEvents, Kept, LogOk, EventsOf;
      var s' := Apply(c, s, ReadFrame);
      assert Paired(s');
      hide Paired;
    } else {
      hide Paired, AllEvents, Kept, LogOk, EventsOf;
      assert head[0] == s.s2c[0] && head[1..] == rest[..n - 1];
      EventsHead(call.seen, head);
      PairedIgnores(s, Apply(c, s, ReadFrame));
    }
  }

  lemma KeepsRead(c: Config, s: State, a: Action)
    requires Inv(c, s) && Enabled(s, a) && (a.ReadFrame? || a.ReadEof?)
    ensures Inv(c, Apply(c, s, a))
  {
    if a.ReadFrame? && Serving(s, s.client.call) {
      KeepsReadServing(c, s);
    } else if a.ReadFrame? && Answered(s, s.client.call) {
      KeepsReadAnswered(c, s);
    } else {
      hide AllEvents, Kept, LogOk, EventsOf, AllCancels;
      assert Paired(Apply(c, s, a));
      hide Paired;
    }
  }

  lemma StepKeeps(c: Config, s: State, a: Action)
    requires Inv(c, s) && Enabled(s, a)
    ensures Inv(c, Apply(c, s, a))
  {
    hide Inv, Enabled, Apply;
    match a
    case AnswerHello => KeepsHandshake(c, s, a);
    case ReadHello => KeepsHandshake(c, s, a);
    case Begin(_, _) => KeepsBegin(c, s, a);
    case SendCancel => KeepsBegin(c, s, a);
    case SendShutdown => KeepsBegin(c, s, a);
    case ReadFrame => KeepsRead(c, s, a);
    case ReadEof => KeepsRead(c, s, a);
    case TakeMessage => KeepsTake(c, s);
    case Emit(_) => KeepsSlot(c, s, a);
    case Finish(_) => KeepsSlot(c, s, a);
    case DrainOne => KeepsWrite(c, s, a);
    case SeeEmpty => KeepsPoll(c, s, a);
    case SeeClosed => KeepsPoll(c, s, a);
    case PollTask => KeepsPoll(c, s, a);
    case TailOne => KeepsWrite(c, s, a);
    case SendReply => KeepsReply(c, s);
  }

  lemma {:induction false} RunKeeps(c: Config, s: State, steps: seq<Action>)
    requires Inv(c, s) && Runs(c, s, steps)
    ensures Inv(c, After(c, s, steps))
    decreases |steps|
  {
    hide Inv, Enabled, Apply;
    if steps != [] {
      StepKeeps(c, s, steps[0]);
      RunKeeps(c, Apply(c, s, steps[0]), steps[1..]);
    }
  }

  // ---- What every run guarantees ----

  /** In the histories: the i-th call that got a reply got the outcome and the frames of the i-th request served. */
  lemma ReturnedIsServed(c: Config, steps: seq<Action>)
    requires Runs(c, Start(c), steps)
    ensures var s := After(c, Start(c), steps);
            && |s.returned| <= |s.sent| && |s.served| <= |s.sent|
            && forall i :: 0 <= i < |s.returned| && s.returned[i].Reply? ==>
                 && i < |s.served| && s.served[i].req == s.sent[i].req
                 && s.returned[i].outcome == s.served[i].outcome
                 && s.returned[i].delivered == if s.sent[i].streaming then s.served[i].wrote else []
  {
    hide Apply, Enabled;
    RunKeeps(c, Start(c), steps);
    hide Inv, Kept, LogOk;
    PairedAll(After(c, Start(c), steps));
  }

  /** A streaming call asks for events. */
  lemma StreamingFlags(c: Config, steps: seq<Action>, i: nat)
    requires Runs(c, Start(c), steps) && i < |After(c, Start(c), steps).sent|
             && After(c, Start(c), steps).sent[i].streaming
    ensures var r := After(c, Start(c), steps).sent[i].req; r.stream && r.progress
  {
    hide Apply, Enabled;
    RunKeeps(c, Start(c), steps);
  }

  lemma PairedAll(s: State)
    requires Paired(s)
    ensures forall i :: 0 <= i < |s.returned| && s.returned[i].Reply? ==>
              && i < |s.served| && s.served[i].req == s.sent[i].req
              && s.returned[i].outcome == s.served[i].outcome
              && s.returned[i].delivered == if s.sent[i].streaming then s.served[i].wrote else []
  {
    hide Kept, LogOk;
    forall i | 0 <= i < |s.returned| && s.returned[i].Reply?
      ensures && i < |s.served| && s.served[i].req == s.sent[i].req
              && s.returned[i].outcome == s.served[i].outcome
              && s.returned[i].delivered == if s.sent[i].streaming then s.served[i].wrote else []
    {
      if i < |s.served| { assert ServedOk(s.sent[i], s.served[i]) && ReplyOk(s.sent[i], s.served[i], s.returned[i]); }
    }
  }

  lemma ReachableInv(c: Config, steps: seq<Action>) returns (s: State)
    requires Runs(c, Start(c), steps)
    ensures s == After(c, Start(c), steps) && Inv(c, s)
  {
    hide Apply, Enabled;
    RunKeeps(c, Start(c), steps);
    s := After(c, Start(c), steps);
  }

  /**
   * The pipe to the client is empty whenever the lock is free, and every message waiting is a cancel
   * unless the server has hung up.
   */
  lemma FreeLockMeansEmptyPipe(c: Config, steps: seq<Action>)
    requires Runs(c, Start(c), steps) && After(c, Start(c), steps).client.Free?
    ensures var s := After(c, Start(c), steps);
            s.s2c == [] && (s.handler.Idle? || s.handler.Closed?) && s.task.NoTask?
                && (s.handler.Idle? ==> AllCancels(s.c2s))
  {
    hide Apply, Enabled, Runs, After, Paired;
    var s := ReachableInv(c, steps);
  }

  /** The handshake ends in a connection when the versions agree, and in a refusal when they do not. */
  lemma ConnectsIffVersionsAgree(c: Config, steps: seq<Action>)
    requires Runs(c, Start(c), steps)
    ensures var s := After(c, Start(c), steps);
            !s.client.Connecting? ==> (s.client.Refused? <==> c.clientVersion != c.serverVersion)
    ensures var s := After(c, Start(c), steps);
            s.client.Refused? ==>
              s.client.why == ServerSaid("protocol mismatch: client=" + Decimal(c.clientVersion)
                                         + " server=" + Decimal(c.serverVersion))
    ensures After(c, Start(c), steps).client.Connecting? ==>
              exists a :: (a == AnswerHello || a == ReadHello) && Enabled(After(c, Start(c), steps), a)
  {
    hide Apply, Runs, After, Paired;
    var s := ReachableInv(c, steps);
    if s.client.Connecting? {
      assert Enabled(s, AnswerHello) || Enabled(s, ReadHello);
    }
  }

  /** The branch for a channel that closes early is never taken: the handler's own sender is alive. */
  lemma ChannelNeverClosesEarly(c: Config, steps: seq<Action>)
    requires Runs(c, Start(c), steps)
    ensures !Enabled(After(c, Start(c), steps), SeeClosed)
  {
    hide Apply, Runs, After, Paired, Kept, LogOk, AllEvents, EventsOf;
    var s := ReachableInv(c, steps);
  }

  function Drops(log: seq<Emission>): nat {
    if log == [] then 0 else Drops(log[..|log| - 1]) + if log[|log| - 1].kept then 0 else 1
  }

  /** `a` is `b` with some elements left out. */
  predicate Subsequence(a: seq<SlotEvent>, b: seq<SlotEvent>) {
    if a == [] then true
    else if b == [] then false
    else if a[|a| - 1] == b[|b| - 1] && Subsequence(a[..|a| - 1], b[..|b| - 1]) then true
    else Subsequence(a, b[..|b| - 1])
  }

  function Pushed(log: seq<Emission>): seq<SlotEvent> {
    if log == [] then [] else Pushed(log[..|log| - 1]) + [log[|log| - 1].event]
  }

  lemma {:induction false} KeptIsSubsequence(log: seq<Emission>)
    ensures Subsequence(Kept(log), Pushed(log)) && |Kept(log)| + Drops(log) == |Pushed(log)| == |log|
  {
    if log != [] {
      var init := log[..|log| - 1];
      KeptIsSubsequence(init);
      SubsequenceExtends(Kept(init), Pushed(init), log[|log| - 1].event);
      hide Subsequence;
      assert Kept(init) + [] == Kept(init);
    }
  }

  lemma SubsequenceExtends(a: seq<SlotEvent>, b: seq<SlotEvent>, e: SlotEvent)
    requires Subsequence(a, b)
    ensures Subsequence(a, b + [e]) && Subsequence(a + [e], b + [e])
  {
    assert (b + [e])[..|b|] == b && (a + [e])[..|a|] == a;
  }

  /** Without full channel no drop: a request that pushes at most 64 events loses none. */
  lemma {:induction false} FewEventsAllKept(log: seq<Emission>)
    requires LogOk(log) && |log| <= CAPACITY
    ensures Kept(log) == Pushed(log)
  {
    if log != [] { FewEventsAllKept(log[..|log| - 1]); }
  }

  /**
   * Streaming order and conservation, for every request served in any run: the event frames written
   * are the pushed events without the dropped ones, in order; frames and drops add up to pushes; an
   * event is dropped exactly when 64 events are queued; and a request that does not stream has none.
   */
  lemma FramesAreConserved(c: Config, steps: seq<Action>, i: nat)
    requires Runs(c, Start(c), steps) && i < |After(c, Start(c), steps).served|
    ensures var r := After(c, Start(c), steps).served[i];
            && Subsequence(r.wrote, Pushed(r.log)) && |r.wrote| + Drops(r.log) == |r.log|
            && (forall j :: 0 <= j < |r.log| ==> (!r.log[j].kept <==> r.log[j].queued == 64))
            && (|r.log| <= 64 ==> r.wrote == Pushed(r.log))
            && (!(r.req.stream || r.req.progress) ==> r.wrote == [])
  {
    hide Apply, Runs, After;
    var s := ReachableInv(c, steps);
    hide Inv;
    ServedIsConserved(s, i);
  }

  lemma ServedIsConserved(s: State, i: nat)
    requires Paired(s) && i < |s.served|
    ensures var r := s.served[i];
            && Subsequence(r.wrote, Pushed(r.log)) && |r.wrote| + Drops(r.log) == |r.log|
            && (forall j :: 0 <= j < |r.log| ==> (!r.log[j].kept <==> r.log[j].queued == CAPACITY))
            && (|r.log| <= CAPACITY ==> r.wrote == Pushed(r.log))
            && (!(r.req.stream || r.req.progress) ==> r.wrote == [])
  {
    var r := s.served[i];
    assert ServedOk(s.sent[i], r);
    KeptIsSubsequence(r.log);
    if |r.log| <= CAPACITY { FewEventsAllKept(r.log); }
  }

  /** While a request is being served, frames written and events queued are the events kept so far. */
  lemma NothingLostInBetween(c: Config, steps: seq<Action>)
    requires Runs(c, Start(c), steps)
    ensures var s := After(c, Start(c), steps);
            !s.task.NoTask? ==> Kept(s.log) == s.wrote + s.queue && |s.queue| <= 64
  {
    hide Apply, Runs, After, Paired, Kept, LogOk, AllEvents, EventsOf;
    var s := ReachableInv(c, steps);
  }

  /** While the slot works on a request it can push events exactly when the request asked for some. */
  lemma SinkIffAsked(c: Config, steps: seq<Action>)
    requires Runs(c, Start(c), steps)
    ensures var s := After(c, Start(c), steps);
            s.task.Working? ==> forall e :: Enabled(s, Emit(e)) <==> s.task.req.stream || s.task.req.progress
  {
    hide Apply, Runs, After, Inv, Paired, Kept, LogOk, AllEvents, EventsOf;
    var s := ReachableInv(c, steps);
    if s.task.Working? { TaskIsServed(c, s); }
  }

  /**
   * A cancel waits: in every run, while the slot works on a request, no cancel can be sent and none is
   * on its way to the server, because the call in flight holds the lock.
   */
  lemma CancelsWait(c: Config, steps: seq<Action>)
    requires Runs(c, Start(c), steps)
    ensures var s := After(c, Start(c), steps);
            !s.task.NoTask? ==> !Enabled(s, SendCancel) && s.c2s == []
  {
    hide Apply, Runs, After, Inv, Paired, Kept, LogOk, AllEvents, EventsOf;
    var s := ReachableInv(c, steps);
    if !s.task.NoTask? { TaskIsServed(c, s); }
  }

  // ---- The drain ends ----

  /** Steps the handler still has to take before it is idle, once the slot has returned. */
  function Remaining(s: State): nat {
    match s.handler
    case Awaiting => 1
    case Draining => 4 + 2 * |s.queue|
    case Polling => 3 + 2 * |s.queue|
    case Tail(_) => 2 + |s.queue|
    case _ => 0
  }

  predicate IsHandlerStep(a: Action) {
    a.DrainOne? || a.SeeEmpty? || a.PollTask? || a.TailOne? || a.SendReply?
  }

  /** The slot has returned and the reply has not been written. */
  predicate Returning(c: Config, s: State) {
    Inv(c, s) && s.task.Finished?
  }

  lemma ReturningServes(c: Config, s: State)
    requires Returning(c, s)
    ensures s.client.Busy? && Serving(s, s.client.call) && Remaining(s) > 0
  {
    hide Paired, Kept, LogOk, AllEvents, EventsOf;
  }

  /** Until the reply, a handler step brings it closer and no other step moves it or the outcome. */
  lemma StepBrings(c: Config, s: State, a: Action)
    requires Returning(c, s) && Enabled(s, a)
    ensures IsHandlerStep(a) ==> Remaining(Apply(c, s, a)) < Remaining(s)
    ensures !IsHandlerStep(a) ==> Remaining(Apply(c, s, a)) == Remaining(s)
    ensures a != SendReply ==> Apply(c, s, a).task == s.task
  {
    ReturningServes(c, s);
    hide Inv, Paired, Kept, LogOk, AllEvents, EventsOf;
  }

  /**
   * Once the slot has returned, the handler always has a step to take, every step it takes brings it
   * closer to the reply, and no other step sets it back. Before that, the slot itself can always return.
   */
  lemma DrainEnds(c: Config, steps: seq<Action>)
    requires Runs(c, Start(c), steps) && !After(c, Start(c), steps).task.NoTask?
    ensures var s := After(c, Start(c), steps);
            && (s.task.Finished? ==> exists a :: IsHandlerStep(a) && Enabled(s, a))
            && (s.task.Finished? ==> forall a :: Enabled(s, a) ==>
                  if IsHandlerStep(a) then Remaining(Apply(c, s, a)) < Remaining(s)
                  else Remaining(Apply(c, s, a)) == Remaining(s) && Apply(c, s, a).task == s.task)
            && (s.task.Working? ==> forall o :: Enabled(s, Finish(o)))
  {
    hide Runs, After, Paired, Kept, LogOk, AllEvents, EventsOf;
    var s := ReachableInv(c, steps);
    if s.task.Finished? {
      ReturningServes(c, s);
      HandlerCanStep(s);
      hide Inv, Apply, Enabled, Remaining, Serving;
      forall a | Enabled(s, a)
        ensures if IsHandlerStep(a) then Remaining(Apply(c, s, a)) < Remaining(s)
                else Remaining(Apply(c, s, a)) == Remaining(s) && Apply(c, s, a).task == s.task
      {
        StepBrings(c, s, a);
      }
    }
  }

  lemma HandlerCanStep(s: State)
    requires s.client.Busy? && Serving(s, s.client.call) && s.task.Finished?
    ensures exists a :: IsHandlerStep(a) && Enabled(s, a)
  {
    var a := if s.handler.Awaiting? then SendReply
             else if s.handler.Polling? then PollTask
             else if s.handler.Draining? then (if s.queue == [] then SeeEmpty else DrainOne)
             else if s.queue == [] then SendReply else TailOne;
    assert IsHandlerStep(a) && Enabled(s, a);
  }

  function HandlerSteps(steps: seq<Action>): nat {
    if steps == [] then 0 else (if IsHandlerStep(steps[0]) then 1 else 0) + HandlerSteps(steps[1..])
  }

  /**
   * Over any run after the slot has returned and before the reply, whatever the client does meanwhile:
   * the outcome stays, and the handler takes fewer steps than `Remaining` says at the start.
   */
  lemma {:induction false} DrainBound(c: Config, s: State, steps: seq<Action>)
    requires Returning(c, s) && Runs(c, s, steps) && SendReply !in steps
    ensures Returning(c, After(c, s, steps)) && After(c, s, steps).task == s.task
    ensures HandlerSteps(steps) + Remaining(After(c, s, steps)) <= Remaining(s) && Remaining(After(c, s, steps)) > 0
    decreases |steps|
  {
    hide Inv, Enabled, Apply, Remaining, Serving;
    if steps == [] {
      ReturningServes(c, s);
    } else {
      StepKeeps(c, s, steps[0]);
      StepBrings(c, s, steps[0]);
      DrainBound(c, Apply(c, s, steps[0]), steps[1..]);
    }
  }

  // ---- The client's read loop ----

  /** What a call makes of the frames it reads: the reply, and the frames left over. */
  function ReplyFrom(frames: seq<ServerMessage>, streaming: bool, seen: seq<SlotEvent>): (Returned, seq<ServerMessage>)
    decreases |frames|
  {
    if frames == [] then (Disconnected, [])
    else
      match frames[0]
      case InferenceComplete(r) => (Reply(Replied(r), Delivered(Infer(streaming, seen))), frames[1..])
      case InferenceError(m) => (Reply(SlotError(m), Delivered(Infer(streaming, seen))), frames[1..])
      case Event(e) => ReplyFrom(frames[1..], streaming, seen + [e])
      case _ => ReplyFrom(frames[1..], streaming, seen)
  }

  /** The reading half of the connection: the frames up to end of file. */
  class Inbox {
    var frames: seq<ServerMessage>

    constructor (fs: seq<ServerMessage>)
      ensures frames == fs
    {
      frames := fs;
    }

    method Read() returns (m: Option<ServerMessage>)
      modifies this
      ensures old(frames) == [] ==> m == None && frames == []
      ensures old(frames) != [] ==> m == Some(old(frames)[0]) && frames == old(frames)[1..]
    {
      if frames == [] {
        return None;
      }
      m := Some(frames[0]);
      frames := frames[1..];
    }
  }

  /** The loop of `inference` and `inference_stream` after the request is written. */
  method AwaitReply(inbox: Inbox, streaming: bool) returns (r: Returned)
    modifies inbox
    ensures (r, inbox.frames) == ReplyFrom(old(inbox.frames), streaming, [])
  {
    ghost var all := inbox.frames;
    var delivered: seq<SlotEvent> := [];
    ghost var seen: seq<SlotEvent> := [];
    while true
      invariant ReplyFrom(inbox.frames, streaming, seen) == ReplyFrom(all, streaming, [])
      invariant delivered == Delivered(Infer(streaming, seen))
      decreases |inbox.frames|
    {
      var m := inbox.Read();
      match m {
        case None => return Disconnected;
        case Some(InferenceComplete(resp)) => return Reply(Replied(resp), delivered);
        case Some(InferenceError(message)) => return Reply(SlotError(message), delivered);
        case Some(Event(e)) =>
          seen := seen + [e];
          if streaming { delivered := delivered + [e]; }
        case Some(_) =>
      }
    }
  }

  function Repeat(a: Action, n: nat): seq<Action> {
    if n == 0 then [] else [a] + Repeat(a, n - 1)
  }

  /** The loop is what the client's steps do: reading on until the reply gives what the loop returns. */
  lemma {:induction false} LoopIsReadSteps(c: Config, s: State) returns (n: nat)
    requires s.client.Busy? && s.client.call.Infer?
    requires ReplyFrom(s.s2c, s.client.call.streaming, s.client.call.seen).0.Reply?
    ensures Runs(c, s, Repeat(ReadFrame, n))
    ensures var (r, rest) := ReplyFrom(s.s2c, s.client.call.streaming, s.client.call.seen);
            After(c, s, Repeat(ReadFrame, n)) == s.(client := Free, s2c := rest, returned := s.returned + [r])
    decreases |s.s2c|
  {
    var s' := Apply(c, s, ReadFrame);
    OneRead(c, s);
    hide Apply, Enabled, ReplyFrom;
    if s'.client.Free? {
      n := 1;
      RepeatOnce(c, s, 0);
    } else {
      n := LoopIsReadSteps(c, s');
      RepeatOnce(c, s, n);
      n := n + 1;
    }
  }

  /** One frame read by the client is one turn of the loop. */
  lemma OneRead(c: Config, s: State)
    requires s.client.Busy? && s.client.call.Infer? && s.s2c != []
    ensures var s' := Apply(c, s, ReadFrame);
            var (r, rest) := ReplyFrom(s.s2c, s.client.call.streaming, s.client.call.seen);
            && (s.s2c[0].InferenceComplete? || s.s2c[0].InferenceError? ==>
                  s' == s.(client := Free, s2c := rest, returned := s.returned + [r]))
            && (!(s.s2c[0].InferenceComplete? || s.s2c[0].InferenceError?) ==>
                  && s'.client.Busy? && s'.client.call.Infer? && s' == s.(client := s'.client, s2c := s.s2c[1..])
                  && ReplyFrom(s'.s2c, s'.client.call.streaming, s'.client.call.seen) == (r, rest))
  {}

  lemma RepeatOnce(c: Config, s: State, n: nat)
    requires Enabled(s, ReadFrame) && Runs(c, Apply(c, s, ReadFrame), Repeat(ReadFrame, n))
    ensures Runs(c, s, Repeat(ReadFrame, n + 1))
    ensures After(c, s, Repeat(ReadFrame, n + 1)) == After(c, Apply(c, s, ReadFrame), Repeat(ReadFrame, n))
  {
    assert Repeat(ReadFrame, n + 1)[1..] == Repeat(ReadFrame, n);
    hide Apply;
  }
}
