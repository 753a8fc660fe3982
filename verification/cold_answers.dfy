// What an answer is: the engine's reply to the conversation that the request
// itself describes, field by field and turn by turn.
module ColdAnswers {
  import opened Texts
  import opened Proto
  import opened CacheKey
  import opened PrefixCache

  // ---- The conversation that a request asks for ----

  /** The messages are the contents of the User and Tool turns: the k-th is that of the turn at `at[k]`. */
  ghost predicate PickedAt(turns: seq<Turn>, sent: seq<Text>, at: seq<nat>) {
    && |at| == |sent|
    && (forall k :: 0 <= k < |at| ==> at[k] < |turns| && sent[k] == turns[at[k]].content)
    && (forall k, l :: 0 <= k < l < |at| ==> at[k] < at[l])
    && (forall k :: 0 <= k < |at| ==> turns[at[k]].role == User || turns[at[k]].role == Tool)
    && (forall i :: 0 <= i < |turns| && (turns[i].role == User || turns[i].role == Tool) ==> i in at)
  }

  ghost predicate Picked(turns: seq<Turn>, sent: seq<Text>) {
    exists at :: PickedAt(turns, sent, at)
  }

  lemma {:induction false} SendableIsPicked(turns: seq<Turn>) returns (at: seq<nat>)
    ensures PickedAt(turns, SendableContents(turns), at)
  {
    if turns == [] {
      at := [];
    } else {
      hide SendableContents, PickedAt;
      var n := |turns| - 1;
      at := SendableIsPicked(turns[..n]);
      assert turns == turns[..n] + [turns[n]];
      SendableConcat(turns[..n], [turns[n]]);
      OneSendable(turns[n]);
      PickedGrows(turns, SendableContents(turns[..n]), at);
      if turns[n].role == User || turns[n].role == Tool { at := at + [n]; }
      assert SendableContents(turns[..n]) + [] == SendableContents(turns[..n]);
    }
  }

  lemma OneSendable(t: Turn)
    ensures SendableContents([t]) == if t.role == User || t.role == Tool then [t.content] else []
  {
    assert [t][1..] == [];
  }

  lemma PickedGrows(turns: seq<Turn>, sent: seq<Text>, at: seq<nat>)
    requires turns != [] && PickedAt(turns[..|turns| - 1], sent, at)
    ensures var n := |turns| - 1;
            if turns[n].role == User || turns[n].role == Tool then PickedAt(turns, sent + [turns[n].content], at + [n])
            else PickedAt(turns, sent, at)
  {
    var n := |turns| - 1;
    assert forall i :: 0 <= i < n ==> turns[i] == turns[..n][i];
    assert forall i :: i in at ==> i in at + [n];
    assert n in at + [n];
  }

  /** What was picked, without the last turn. */
  lemma PickedFront(turns: seq<Turn>, sent: seq<Text>, at: seq<nat>) returns (m: nat)
    requires turns != [] && PickedAt(turns, sent, at)
    ensures var n := |turns| - 1;
            && m <= |at| && PickedAt(turns[..n], sent[..m], at[..m])
            && if turns[n].role == User || turns[n].role == Tool
               then m == |at| - 1 && at[m] == n && sent[m] == turns[n].content
               else m == |at|
  {
    var n := |turns| - 1;
    if turns[n].role == User || turns[n].role == Tool {
      m := |at| - 1;
      HighestIsLast(at, n);
      forall i | 0 <= i < n && (turns[i].role == User || turns[i].role == Tool) ensures i in at[..m] {
        InFront(at, i);
      }
    } else {
      m := |at|;
      assert at[..m] == at && sent[..m] == sent;
      assert forall k :: 0 <= k < |at| ==> at[k] != n;
    }
  }

  lemma HighestIsLast(at: seq<nat>, n: nat)
    requires n in at && (forall k :: 0 <= k < |at| ==> at[k] <= n) && forall k, l :: 0 <= k < l < |at| ==> at[k] < at[l]
    ensures at[|at| - 1] == n
  {
    var k :| 0 <= k < |at| && at[k] == n;
  }

  lemma InFront(at: seq<nat>, i: nat)
    requires i in at && at[|at| - 1] != i
    ensures i in at[..|at| - 1]
  {
    var l :| 0 <= l < |at| && at[l] == i;
    assert at[..|at| - 1][l] == i;
  }

  /** There is only one way to pick them. */
  lemma {:induction false} PickedOnce(turns: seq<Turn>, sent: seq<Text>, at: seq<nat>, sent': seq<Text>, at': seq<nat>)
    requires PickedAt(turns, sent, at) && PickedAt(turns, sent', at')
    ensures sent == sent'
    decreases |turns|
  {
    if turns == [] {
      PickedLengths(turns, sent, at);
      PickedLengths(turns, sent', at');
    } else {
      var m := PickedFront(turns, sent, at);
      var m' := PickedFront(turns, sent', at');
      hide PickedAt;
      PickedOnce(turns[..|turns| - 1], sent[..m], at[..m], sent'[..m'], at'[..m']);
      PickedLengths(turns, sent, at);
      PickedLengths(turns, sent', at');
      assert m < |at| ==> sent == sent[..m] + [sent[m]];
      assert m' < |at'| ==> sent' == sent'[..m'] + [sent'[m']];
      assert m == |at| ==> sent[..m] == sent;
      assert m' == |at'| ==> sent'[..m'] == sent';
    }
  }

  lemma PickedLengths(turns: seq<Turn>, sent: seq<Text>, at: seq<nat>)
    requires PickedAt(turns, sent, at)
    ensures |at| == |sent| && (turns == [] ==> sent == [])
  {
    if at != [] { assert at[0] < |turns|; }
  }

  /** The conversation is created and fed as the request says. */
  ghost predicate Asked(w: Setup, r: Request, conv: Conv) {
    && conv.system == (match r.systemPrompt case Some(p) => Some(p) case None => w.defaultSystem)
    // 0.95 and 0.8 as f32 bits unless the request gives others
    && conv.sampler.topP == (match r.topP case Some(x) => x case None => 0x3F73_3333)
    && conv.sampler.temperature == (match r.temperature case Some(x) => x case None => 0x3F4C_CCCD)
    && match r.input
       case TextInput(s) => conv.sent == [s]
       case TurnsInput(ts) => conv.sent != [] && Picked(ts, conv.sent)
       case _ => false
  }

  /** The answer is what the engine streams on that conversation. */
  ghost predicate RepliesTo(w: Setup, r: Request, answer: Answer) {
    exists conv :: Asked(w, r, conv) && answer.streamed == w.chunks(conv) && answer.text == Concat(w.chunks(conv))
  }

  /** Why a request is refused before the engine is asked. */
  ghost predicate Refuses(r: Request, e: Error) {
    match e
    case AudioUnsupported => r.input.PcmInput? || r.input.MelInput?
    case EmptyInput => r.input == TurnsInput([])
    case NothingToSend =>
      r.input.TurnsInput? && r.input.turns != []
      && forall i :: 0 <= i < |r.input.turns| ==> r.input.turns[i].role == System || r.input.turns[i].role == Assistant
    case EngineFailed => false
  }

  /** A cold slot replies to every request that sends something and refuses all others, each for its reason. */
  lemma ColdAnswerIs(w: Setup, r: Request)
    ensures match ColdAnswer(w, r)
            case Ok(answer) => RepliesTo(w, r, answer) && forall e :: !Refuses(r, e)
            case Err(e) => Refuses(r, e)
  {
    hide Concat, PickedAt;
    var conv := Replayed(PrefixOf(w, r));
    match r.input
    case TextInput(s) =>
      OneSendable(UserTurn(s));
      assert Asked(w, r, conv);
    case TurnsInput(ts) =>
      var at := SendableIsPicked(ts);
      NothingPicked(ts, at);
      if ts != [] && conv.sent != [] {
        assert Asked(w, r, conv);
      }
    case _ =>
  }

  lemma NothingPicked(ts: seq<Turn>, at: seq<nat>)
    requires PickedAt(ts, SendableContents(ts), at)
    ensures SendableContents(ts) == [] <==>
              forall i :: 0 <= i < |ts| ==> ts[i].role == System || ts[i].role == Assistant
  {
    hide SendableContents;
    if at != [] { assert ts[at[0]].role == User || ts[at[0]].role == Tool; }
    if at == [] {
      forall i | 0 <= i < |ts| ensures ts[i].role == System || ts[i].role == Assistant {
        assert i !in at;
      }
    }
  }

  /** In every run that transparency covers an answer is the engine's reply to what its own request describes. */
  lemma AnswersAreReplies(w: Setup, u: iset<Text>, empty: Option<Text>, actions: seq<Action>, j: nat)
    requires w.cacheSize > 0 && CollisionFree(w, u) && AllAdmissible(w, u, empty, actions)
    requires Run(w, Init, actions).Some?
    ensures var s := Run(w, Init, actions).value;
            j in s.jobs && s.jobs[j].phase.Done? ==>
              match s.jobs[j].phase.result
              case Ok(answer) => RepliesTo(w, s.jobs[j].req, answer)
              case Err(e) => e == EngineFailed || Refuses(s.jobs[j].req, e)
  {
    hide Run, AllAdmissible, CollisionFree, ColdAnswer, RepliesTo, Refuses;
    CacheIsTransparent(w, u, empty, actions, j);
    var s := Run(w, Init, actions).value;
    if j in s.jobs { ColdAnswerIs(w, s.jobs[j].req); }
  }

  // ---- Which requests transparency covers ----

  /** A User or Tool turn with only System turns after it. */
  predicate OpenAt(turns: seq<Turn>, i: nat) {
    && i < |turns| && (turns[i].role == User || turns[i].role == Tool)
    && forall k :: i < k < |turns| ==> turns[k].role == System
  }

  /** A turn list ends open exactly when there is one. */
  lemma {:induction false} EndsOpenIff(turns: seq<Turn>)
    ensures EndsOpen(turns) <==> exists i :: OpenAt(turns, i)
  {
    if turns != [] {
      var n := |turns| - 1;
      if turns[n].role == System {
        var front := turns[..n];
        EndsOpenIff(front);
        if i :| OpenAt(front, i) { assert OpenAt(turns, i); }
        if i :| OpenAt(turns, i) { assert OpenAt(front, i); }
      } else if turns[n].role != Assistant {
        assert OpenAt(turns, n);
      }
    }
  }

  /** Turns as the wire types build them. */
  predicate PlainTurn(t: Turn) {
    (if t.role == Tool then t.toolCallId.Some? else t.toolCallId.None?)
    && |t.content| < 0x1_0000_0000 && (t.toolCallId.Some? ==> |t.toolCallId.value| < 0x1_0000_0000)
  }

  ghost const AnyText: iset<Text> := iset t: Text | true

  /** When no two key texts collide these are the requests that transparency covers, in terms of their fields. */
  lemma AdmissibleIff(w: Setup, empty: Option<Text>, r: Request)
    ensures Admissible(w, AnyText, empty, r) <==>
            var system := if r.systemPrompt.Some? then r.systemPrompt else w.defaultSystem;
            var turns := match r.input
                         case TextInput(s) => [Turn(User, s, None)]
                         case TurnsInput(ts) => ts
                         case _ => [];
            && (system.Some? ==> (0 as char) !in system.value)
            && (system == None || system == Some("") ==> system == empty)
            && (forall i :: 0 <= i < |turns| ==> PlainTurn(turns[i]))
            && (EndsOpen(turns)
                || forall i :: 0 <= i < |turns| ==> turns[i].role == System || turns[i].role == Assistant)
            && (ColdAnswer(w, r).Ok? ==> |ColdAnswer(w, r).value.text| < 0x1_0000_0000)
  {
    hide ColdAnswer, EndsOpen, SendableContents, CanonicalBytes;
    var turns := PrefixOf(w, r).turns;
    var at := SendableIsPicked(turns);
    NothingPicked(turns, at);
    assert forall i :: 0 <= i < |turns| ==> turns[i] in turns;
    assert forall t :: WellFormedTurn(t) <==> PlainTurn(t);
  }
}
