// What calls get, told from the steps of a run alone: which request was made,
// what the slot pushed for it, and what the slot returned.
module WireHistory {
  import opened Texts
  import opened Proto
  import opened Wire

  /** A call as it was made. */
  datatype Made = Made(req: InferenceRequest, streaming: bool)

  /**
   * What the steps say: the calls made, in order; for every return of the slot its outcome and what it
   * pushed before; and what it has pushed since.
   */
  datatype History =
    History(calls: seq<Made>, outcomes: seq<Outcome>, pushes: seq<seq<SlotEvent>>, current: seq<SlotEvent>)

  const Nothing: History := History([], [], [], [])

  function Record(h: History, a: Action): History {
    match a
    case Begin(req, streaming) => h.(calls := h.calls + [Made(req, streaming)])
    case Emit(e) => h.(current := h.current + [e])
    case Finish(o) => h.(outcomes := h.outcomes + [o], pushes := h.pushes + [h.current], current := [])
    case _ => h
  }

  function Told(h: History, steps: seq<Action>): History
    decreases |steps|
  {
    if steps == [] then h else Told(Record(h, steps[0]), steps[1..])
  }

  /** The request the slot ran: the caller's, but that a streaming call asks for all events. */
  predicate RunsFor(call: Made, req: InferenceRequest) {
    && req.input == call.req.input && req.session == call.req.session && req.tools == call.req.tools
    && if call.streaming then req.stream && req.progress
       else req.stream == call.req.stream && req.progress == call.req.progress
  }

  /** The histories that the state keeps are what the steps say. */
  ghost predicate Matches(s: State, h: History) {
    && |h.calls| == |s.sent|
    && (forall i :: 0 <= i < |s.sent| ==> SentFor(h.calls[i], s.sent[i]))
    && |h.outcomes| == |h.pushes| == |s.served| + (if s.task.Finished? then 1 else 0)
    && (forall i :: 0 <= i < |s.served| ==> ServedFor(h.outcomes[i], h.pushes[i], s.served[i]))
    && match s.task
       case NoTask => h.current == []
       case Working(_) => h.current == Pushed(s.log)
       case Finished(_, o) =>
         h.current == [] && h.outcomes[|s.served|] == o && h.pushes[|s.served|] == Pushed(s.log)
  }

  predicate SentFor(call: Made, sent: Sent) {
    sent.streaming == call.streaming && RunsFor(call, sent.req)
  }

  predicate ServedFor(o: Outcome, pushed: seq<SlotEvent>, r: Served) {
    r.outcome == o && Pushed(r.log) == pushed
  }

  lemma PushedOne(log: seq<Emission>, e: Emission)
    ensures Pushed(log + [e]) == Pushed(log) + [e.event] && Pushed([]) == []
  {
    assert (log + [e])[..|log|] == log;
  }

  lemma StepMatches(c: Config, s: State, a: Action, h: History)
    requires Inv(c, s) && Enabled(s, a) && Matches(s, h)
    ensures Matches(Apply(c, s, a), Record(h, a))
  {
    hide Inv, Matches, Pushed, RunsFor;
    hide ApplyBegin, ApplyEmit, ApplyTakeMessage, ApplyReply;
    match a
    case Begin(req, streaming) => BeginMatches(s, req, streaming, h);
    case Emit(e) => EmitMatches(s, e, h);
    case Finish(o) => FinishMatches(c, s, o, h);
    case TakeMessage => TakenWhenFree(c, s); TakeMatches(s, h);
    case SendReply => ReplyMatches(c, s, h);
    case _ => OthersStay(c, s, a); OtherMatches(s, Apply(c, s, a), h);
  }

  /** All other steps leave the calls, the served requests, the slot's task and its pushes as they are. */
  lemma OthersStay(c: Config, s: State, a: Action)
    requires Enabled(s, a) && !a.Begin? && !a.Emit? && !a.Finish? && !a.TakeMessage? && !a.SendReply?
    ensures var s' := Apply(c, s, a); s'.sent == s.sent && s'.served == s.served && s'.task == s.task && s'.log == s.log
  {
    hide ApplyBegin, ApplyEmit, ApplyTakeMessage, ApplyReply;
  }

  lemma BeginMatches(s: State, req: InferenceRequest, streaming: bool, h: History)
    requires Matches(s, h)
    ensures Matches(ApplyBegin(s, req, streaming), Record(h, Begin(req, streaming)))
  {
    assert SentFor(Made(req, streaming), Sent(Outgoing(req, streaming), streaming));
    hide Pushed, SentFor, ServedFor, Outgoing;
  }

  lemma EmitMatches(s: State, e: SlotEvent, h: History)
    requires Matches(s, h) && s.task.Working?
    ensures Matches(ApplyEmit(s, e), Record(h, Emit(e)))
  {
    hide Pushed, SentFor, ServedFor;
    PushedOne(s.log, Emission(e, |s.queue| < CAPACITY, |s.queue|));
  }

  lemma FinishMatches(c: Config, s: State, o: Outcome, h: History)
    requires Matches(s, h) && s.task.Working?
    ensures Matches(Apply(c, s, Finish(o)), Record(h, Finish(o)))
  {
    hide Pushed, SentFor, ServedFor;
  }

  lemma TakeMatches(s: State, h: History)
    requires Matches(s, h) && s.task.NoTask? && s.c2s != []
    ensures Matches(ApplyTakeMessage(s), h)
  {
    hide Pushed, SentFor, ServedFor;
    PushedOne([], Emission(Progress("", None, None), true, 0));
  }

  lemma OtherMatches(s: State, s': State, h: History)
    requires Matches(s, h) && s'.sent == s.sent && s'.served == s.served && s'.task == s.task && s'.log == s.log
    ensures Matches(s', h)
  {
    hide Pushed, SentFor, ServedFor;
  }

  lemma TakenWhenFree(c: Config, s: State)
    requires Inv(c, s) && s.handler.Idle?
    ensures s.task.NoTask?
  {
    hide Paired, Kept, LogOk, EventsOf, AllEvents, AllCancels;
  }

  lemma ReplyMatches(c: Config, s: State, h: History)
    requires Inv(c, s) && Enabled(s, SendReply) && Matches(s, h)
    ensures Matches(Apply(c, s, SendReply), h)
  {
    hide Inv, Pushed, SentFor, Matches;
    ReplyingIsFinished(c, s);
    var o := s.task.outcome;
    assert ServedFor(o, Pushed(s.log), Served(s.task.req, s.log, s.wrote, o));
    ReplyAdds(s, o, h);
  }

  lemma ReplyingIsFinished(c: Config, s: State)
    requires Inv(c, s) && Enabled(s, SendReply)
    ensures s.task.Finished? && (s.handler.Tail? ==> s.handler.outcome == s.task.outcome)
  {
    hide Paired, Kept, LogOk, EventsOf, AllEvents, AllCancels;
  }

  lemma ReplyAdds(s: State, o: Outcome, h: History)
    requires s.task.Finished? && s.task.outcome == o && Matches(s, h)
    requires ServedFor(o, Pushed(s.log), Served(s.task.req, s.log, s.wrote, o))
    ensures Matches(ApplyReply(s, o), h)
  {
    hide Pushed, SentFor, ServedFor;
  }

  lemma {:induction false} RunMatches(c: Config, s: State, steps: seq<Action>, h: History)
    requires Inv(c, s) && Runs(c, s, steps) && Matches(s, h)
    ensures Matches(After(c, s, steps), Told(h, steps)) && Inv(c, After(c, s, steps))
    decreases |steps|
  {
    hide Inv, Apply, Enabled, Matches, Record;
    if steps != [] {
      StepKeeps(c, s, steps[0]);
      StepMatches(c, s, steps[0], h);
      RunMatches(c, Apply(c, s, steps[0]), steps[1..], Record(h, steps[0]));
    }
  }

  lemma ReachableMatches(c: Config, steps: seq<Action>)
    requires Runs(c, Start(c), steps)
    ensures Matches(After(c, Start(c), steps), Told(Nothing, steps))
  {
    hide Apply, Enabled, Runs, After, Told;
    RunMatches(c, Start(c), steps, Nothing);
  }

  /** What the i-th call got, when it got a reply. */
  ghost predicate Got(call: Made, o: Outcome, pushed: seq<SlotEvent>, back: Returned) {
    && back.Reply? && back.outcome == o
    && (!call.streaming ==> back.delivered == [])
    && (call.streaming ==> Subsequence(back.delivered, pushed))
    && (call.streaming && |pushed| <= 64 ==> back.delivered == pushed)
  }

  /**
   * Request and response pair up, told from the steps of the run. Whatever interleaves: the i-th call that
   * got a reply got what the slot returned the i-th time; its callback got events that the slot pushed
   * before that return and after the one before, in order, and all of them if they were at most 64.
   */
  lemma RepliesArePaired(c: Config, steps: seq<Action>, i: nat)
    requires Runs(c, Start(c), steps)
    requires i < |After(c, Start(c), steps).returned| && After(c, Start(c), steps).returned[i].Reply?
    ensures var s, h := After(c, Start(c), steps), Told(Nothing, steps);
            && i < |h.calls| && i < |h.outcomes| && i < |h.pushes|
            && Got(h.calls[i], h.outcomes[i], h.pushes[i], s.returned[i])
  {
    hide Apply, Enabled, Runs, After, Told;
    var s, h := After(c, Start(c), steps), Told(Nothing, steps);
    ReachableMatches(c, steps);
    ReturnedIsServed(c, steps);
    FramesAreConserved(c, steps, i);
    assert SentFor(h.calls[i], s.sent[i]) && ServedFor(h.outcomes[i], h.pushes[i], s.served[i]);
    KeptIsSubsequence(s.served[i].log);
    hide Pushed, Subsequence, Kept, RunsFor;
  }

  /** The i-th request that the slot has run, or runs, is that of the i-th call. */
  lemma SlotRunsRequests(c: Config, steps: seq<Action>)
    requires Runs(c, Start(c), steps)
    ensures var s, h := After(c, Start(c), steps), Told(Nothing, steps);
            && |s.served| <= |h.calls|
            && (forall i :: 0 <= i < |s.served| ==> RunsFor(h.calls[i], s.served[i].req))
            && (!s.task.NoTask? ==> |s.served| < |h.calls| && RunsFor(h.calls[|s.served|], s.task.req))
  {
    hide Apply, Enabled, Runs, After, Told;
    var s, h := After(c, Start(c), steps), Told(Nothing, steps);
    ReachableMatches(c, steps);
    var s' := ReachableInv(c, steps);
    assert forall i :: 0 <= i < |s.sent| ==> SentFor(h.calls[i], s.sent[i]);
    hide RunsFor;
    if !s.task.NoTask? { TaskIsServed(c, s); }
    InvPaired(c, s);
    hide Inv;
    forall i | 0 <= i < |s.served| ensures RunsFor(h.calls[i], s.served[i].req) {
      assert ServedOk(s.sent[i], s.served[i]) && SentFor(h.calls[i], s.sent[i]);
    }
  }

  lemma InvPaired(c: Config, s: State)
    requires Inv(c, s)
    ensures Paired(s)
  {
    hide Paired;
  }
}
