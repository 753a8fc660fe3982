// Concrete runs of the prefix cache: where transparency stops, and what a
// warm continuation resends.
module PrefixCacheRuns {
  import opened Texts
  import opened Proto
  import opened CacheKey
  import opened PrefixCache

  lemma {:induction false} RunConcat(w: Setup, s: State, a: seq<Action>, b: seq<Action>)
    requires Run(w, s, a).Some?
    ensures Run(w, s, a + b) == Run(w, Run(w, s, a).value, b)
    decreases |a|
  {
    hide Enabled, Apply;
    if a == [] {
      assert a + b == b;
    } else {
      RunConcat(w, Apply(w, s, a[0]), a[1..], b);
      assert (a + b)[0] == a[0] && (a + b)[1..] == a[1..] + b;
    }
  }

  lemma Then(w: Setup, s: State, a: seq<Action>, s1: State, x: Action)
    requires Run(w, s, a) == Some(s1) && Enabled(w, s1, x)
    ensures Run(w, s, a + [x]) == Some(Apply(w, s1, x))
  {
    hide Enabled, Apply;
    RunConcat(w, s, a, [x]);
    assert Run(w, s1, [x]) == Run(w, Apply(w, s1, x), []);
  }

  lemma {:induction false} LeastRecentExists(cache: map<nat, Entry>) returns (k: nat)
    requires cache != map[]
    ensures LeastRecent(cache, k)
    decreases |cache|
  {
    var i :| i in cache;
    var rest := cache - {i};
    assert rest.Keys == cache.Keys - {i};
    assert |rest.Keys| < |cache.Keys|;
    assert forall x :: x in cache ==> x == i || x in rest;
    if rest == map[] {
      k := i;
    } else {
      k := LeastRecentExists(rest);
      if cache[i].lastUsed < cache[k].lastUsed { k := i; }
    }
  }

  /** All messages of a send loop can be sent one after the other. */
  lemma {:induction false} SendAll(w: Setup, s: State, j: nat) returns (actions: seq<Action>, s': State)
    requires j in s.jobs && s.jobs[j].phase.Sending? && s.jobs[j].phase.todo != []
    ensures Run(w, s, actions) == Some(s')
    ensures var conv := s.jobs[j].phase.conv;
            var conv' := conv.(sent := conv.sent + s.jobs[j].phase.todo);
            s' == SetPhase(s, j, Sending(conv', [], w.chunks(conv')))
    decreases |s.jobs[j].phase.todo|
  {
    hide VictimOk, KeyOf;
    var Sending(conv, todo, _) := s.jobs[j].phase;
    var s1 := AfterSend(w, s, j);
    assert Apply(w, s, Send(j)) == s1;
    Then(w, s, [], s, Send(j));
    assert [] + [Send(j)] == [Send(j)];
    if |todo| == 1 {
      assert todo == [todo[0]];
      actions, s' := [Send(j)], s1;
    } else {
      var rest;
      rest, s' := SendAll(w, s1, j);
      actions := [Send(j)] + rest;
      RunConcat(w, s, [Send(j)], rest);
      assert conv.sent + [todo[0]] + todo[1..] == conv.sent + todo;
      assert s'.jobs == s.jobs[j := s'.jobs[j]];
    }
  }

  ghost predicate Extends(conv: Conv, todo: seq<Text>, conv': Conv) {
    conv' == conv.(sent := conv.sent + todo)
  }

  /** A looked-up request with something to send can send it all undisturbed. */
  lemma SendToEnd(w: Setup, s: State, j: nat, conv': Conv) returns (actions: seq<Action>, s': State)
    requires j in s.jobs && s.jobs[j].phase.Ready? && s.jobs[j].phase.n <= |Turns(s.jobs[j].req)|
    requires var todo := SendableContents(Turns(s.jobs[j].req)[s.jobs[j].phase.n..]);
             todo != [] && Extends(s.jobs[j].phase.conv, todo, conv')
    ensures Run(w, s, actions) == Some(s')
    ensures s' == SetPhase(s.(token := None), j, Sent(conv', w.chunks(conv')))
  {
    hide SendableContents, Turns, VictimOk, KeyOf;
    var s1 := Apply(w, s, Arm(j));
    var sends, s2 := SendAll(w, s1, j);
    s' := Apply(w, s2, Disarm(j));
    Then(w, s, [], s, Arm(j));
    assert [] + [Arm(j)] == [Arm(j)];
    RunConcat(w, s, [Arm(j)], sends);
    actions := [Arm(j)] + sends;
    Then(w, s, actions, s2, Disarm(j));
    actions := actions + [Disarm(j)];
  }

  /** What a job that has sent everything leaves behind. */
  lemma Store(w: Setup, s: State, j: nat) returns (actions: seq<Action>, s': State)
    requires j in s.jobs && s.jobs[j].phase.Sent?
    ensures Run(w, s, actions) == Some(s')
    ensures s'.now == s.now && s'.jobs.Keys == s.jobs.Keys
    ensures var Sent(conv, streamed) := s.jobs[j].phase;
            var full := FullPrefix(w, s.jobs[j].req, streamed);
            var k := KeyOf(w, full);
            var id := s.jobs[j].req.session;
            && s'.jobs[j] == Job(s.jobs[j].req, Done(Ok(Answer(Concat(streamed), streamed))))
            && k in s'.cache && s'.cache[k] == Entry(conv, |full.turns|, s.now)
            && (s.cache == map[] ==> s'.cache == map[k := Entry(conv, |full.turns|, s.now)])
            && s'.sessions == if id.Some? then s.sessions[id.value := k] else s.sessions
  {
    hide FullPrefix, KeyOf, Concat;
    var k := KeyOf(w, FullPrefix(w, s.jobs[j].req, s.jobs[j].phase.streamed));
    var victim: Option<nat> := None;
    if |s.cache| >= w.cacheSize && k !in s.cache && s.cache != map[] {
      var v := LeastRecentExists(s.cache);
      victim := Some(v);
    }
    var s1 := Apply(w, s, Recache(j, victim));
    s' := Apply(w, s1, SavePin(j));
    Then(w, s, [], s, Recache(j, victim));
    assert [] + [Recache(j, victim)] == [Recache(j, victim)];
    Then(w, s, [Recache(j, victim)], s1, SavePin(j));
    actions := [Recache(j, victim)] + [SavePin(j)];
  }

  /** A request submitted on a state with an empty pool reaches its end with the cold answer. */
  lemma ColdRun(w: Setup, r: Request) returns (actions: seq<Action>, s: State)
    requires ColdAnswer(w, r).Ok?
    ensures Run(w, Init, actions) == Some(s)
    ensures s.now == 0 && s.jobs.Keys == {0} && s.jobs[0] == Job(r, Done(ColdAnswer(w, r)))
    ensures var p := PrefixOf(w, r);
            var full := WithReply(p, ColdAnswer(w, r).value.text);
            var k := KeyOf(w, full);
            && s.cache == map[k := Entry(Replayed(p), |full.turns|, 0)]
            && s.sessions == if r.session.Some? then map[r.session.value := k] else map[]
  {
    var p := PrefixOf(w, r);
    var s1, s4;
    actions, s1 := ColdLookup(w, r);
    var sends, stores;
    assert p.turns[0..] == p.turns;
    sends, s4 := SendToEnd(w, s1, 0, Replayed(p));
    RunConcat(w, Init, actions, sends);
    hide KeyOf, SendableContents, Concat, Run;
    stores, s := Store(w, s4, 0);
    RunConcat(w, Init, actions + sends, stores);
    actions := actions + sends + stores;
  }

  lemma ColdLookup(w: Setup, r: Request) returns (actions: seq<Action>, s: State)
    requires InputToTurns(r.input).Ok?
    ensures Run(w, Init, actions) == Some(s)
    ensures var p := PrefixOf(w, r);
            s == Init.(jobs := map[0 := Job(r, Ready(Conv(p.system, p.sampler, []), 0))])
  {
    actions, s := LookupMisses(w, Init, 0, r);
    assert Run(w, Init, []) == Some(Init);
  }

  lemma {:induction false} EmptyPoolMisses(w: Setup, s: State, p: Prefix, n: nat)
    requires s.cache == map[] && n <= |p.turns|
    ensures Scan(w, s, p, n) == None
  {
    if n > 0 { EmptyPoolMisses(w, s, p, n - 1); }
  }

  /** On an empty pool every request gets a conversation of its own. */
  lemma LookupMisses(w: Setup, s: State, j: nat, r: Request) returns (actions: seq<Action>, s': State)
    requires InputToTurns(r.input).Ok? && j !in s.jobs && s.cache == map[]
    ensures Run(w, s, actions) == Some(s')
    ensures var p := PrefixOf(w, r);
            s' == s.(jobs := s.jobs[j := Job(r, Ready(Conv(p.system, p.sampler, []), 0))])
  {
    hide KeyOf, VictimOk, Choose;
    var s1 := Apply(w, s, Submit(j, r));
    var s2 := Apply(w, s1, ReadPin(j));
    EmptyPoolMisses(w, s2, PrefixOf(w, r), |Turns(r)|);
    assert Choose(w, s2, PrefixOf(w, r), s2.jobs[j].phase.pin) == None
           by { ChooseNothing(w, s2, PrefixOf(w, r), s2.jobs[j].phase.pin); }
    var s3 := Apply(w, s2, Lookup(j));
    s' := Apply(w, s3, Create(j));
    Then(w, s, [], s, Submit(j, r));
    actions := [] + [Submit(j, r)];
    Then(w, s, actions, s1, ReadPin(j));
    actions := actions + [ReadPin(j)];
    Then(w, s, actions, s2, Lookup(j));
    actions := actions + [Lookup(j)];
    Then(w, s, actions, s3, Create(j));
    actions := actions + [Create(j)];
  }

  lemma ChooseNothing(w: Setup, s: State, p: Prefix, pin: Option<nat>)
    requires s.cache == map[] && Scan(w, s, p, |p.turns|) == None
    ensures Choose(w, s, p, pin) == None
  {}

  // ---- A signal that is lost ----

  /**
   * With two send loops that overlap a signal can be lost: for every engine and any two requests with
   * something to send there is a run after which one of them is streaming and `cancel_in_flight`
   * finds nothing to cancel.
   */
  lemma SignalIsLost(w: Setup, r0: Request, r1: Request) returns (actions: seq<Action>)
    requires SendableContents(Turns(r0)) != [] && SendableContents(Turns(r1)) != []
    ensures Run(w, Init, actions).Some?
    ensures var s := Run(w, Init, actions).value;
            1 in s.jobs && s.jobs[1].req == r1 && s.jobs[1].phase.Sending? && !CancelDelivers(s)
  {
    hide SendableContents, KeyOf, VictimOk;
    assert InputToTurns(r0.input).Ok? && InputToTurns(r1.input).Ok? by { EmptySendsNothing(); }
    var s0, s1, s3, more;
    actions, s0 := LookupMisses(w, Init, 0, r0);
    more, s1 := LookupMisses(w, s0, 1, r1);
    RunConcat(w, Init, actions, more);
    actions := actions + more;
    assert Turns(r0)[0..] == Turns(r0) && Turns(r1)[0..] == Turns(r1);
    var s2 := Apply(w, s1, Arm(1));
    Then(w, Init, actions, s1, Arm(1));
    actions := actions + [Arm(1)];
    more, s3 := SendToEnd(w, s2, 0, Replayed(PrefixOf(w, r0)));
    RunConcat(w, Init, actions, more);
    actions := actions + more;
  }

  /** A turn list that does not end open has an Assistant turn with nothing to send after it. */
  lemma {:induction false} LastAssistant(turns: seq<Turn>) returns (i: nat)
    requires turns != [] && !EndsOpen(turns) && SendableContents(turns) != []
    ensures i < |turns| && turns[i].role.Assistant?
    ensures SendableContents(turns[..i]) == SendableContents(turns)
    ensures forall n: nat :: i < n <= |turns| ==> SendableContents(turns[n..]) == []
    decreases |turns|
  {
    var m := |turns| - 1;
    assert turns == turns[..m] + [turns[m]];
    SendableConcat(turns[..m], [turns[m]]);
    assert SendableContents([turns[m]]) == [];
    i := m;
    if turns[m].role.System? {
      i := LastAssistant(turns[..m]);
      assert turns[..m][..i] == turns[..i];
      forall n: nat | i < n <= m ensures SendableContents(turns[n..]) == [] {
        SendableConcat(turns[n..m], [turns[m]]);
        assert turns[n..] == turns[n..m] + [turns[m]];
        assert turns[..m][n..] == turns[n..m];
      }
    }
    assert turns[|turns|..] == [];
  }

  /**
   * The condition on the turn list is needed: for every request with an Assistant turn after its last
   * User or Tool turn there are an engine and a run in which the cache makes it fail, though a cold
   * slot would answer.
   */
  lemma ClosedRequestBreaks(w: Setup, r: Request) returns (w': Setup, actions: seq<Action>)
    requires w.ttl > 0 && WellFormed(PrefixOf(w, r))
    requires Turns(r) != [] && SendableContents(Turns(r)) != [] && !EndsOpen(Turns(r))
    ensures w' == w.(chunks := w'.chunks)
    ensures ColdAnswer(w', r).Ok?
    ensures Run(w', Init, actions).Some?
    ensures var s := Run(w', Init, actions).value; 1 in s.jobs && s.jobs[1] == Job(r, Done(Err(NothingToSend)))
  {
    hide Concat, KeyOf, SendableContents, EndsOpen, WellFormed;
    var p := PrefixOf(w, r);
    var i := LastAssistant(p.turns);
    var c := p.turns[i].content;
    w' := w.(chunks := conv => [c]);
    ConcatSingle(c);
    var r0 := r.(input := TurnsInput(p.turns[..i]));
    assert p.turns[..i] != [] by { EmptySendsNothing(); }
    var s0;
    actions, s0 := ColdRun(w', r0);
    TurnIsReply(p, i);
    var more := FailsAfter(w', s0, r, i);
    RunConcat(w', Init, actions, more);
    actions := actions + more;
  }

  /** An Assistant turn of a well-formed prefix is the reply that extends the turns before it. */
  lemma TurnIsReply(p: Prefix, i: nat)
    requires WellFormed(p) && i < |p.turns| && p.turns[i].role.Assistant?
    ensures WithReply(p.(turns := p.turns[..i]), p.turns[i].content) == Take(p, i + 1)
  {
    assert p.turns[i] in p.turns;
    assert p.turns[..i + 1] == p.turns[..i] + [p.turns[i]];
  }

  lemma FailsAfter(w: Setup, s: State, r: Request, i: nat) returns (actions: seq<Action>)
    requires w.ttl > 0 && InputToTurns(r.input).Ok? && i < |Turns(r)| && 1 !in s.jobs
    requires forall n: nat :: i < n <= |Turns(r)| ==> SendableContents(Turns(r)[n..]) == []
    requires var k := KeyOf(w, Take(PrefixOf(w, r), i + 1));
             && k in s.cache && s.cache[k].turnCount == i + 1 && s.cache[k].lastUsed == s.now
             && (r.session.Some? ==> r.session.value in s.sessions && s.sessions[r.session.value] == k)
    ensures Run(w, s, actions).Some?
    ensures var s' := Run(w, s, actions).value; 1 in s'.jobs && s'.jobs[1] == Job(r, Done(Err(NothingToSend)))
  {
    hide KeyOf, VictimOk, SendableContents;
    var s3;
    actions, s3 := LookupRun(w, s, 1, r);
    var pin := if r.session.Some? && r.session.value in s.sessions then Some(s.sessions[r.session.value]) else None;
    assert Fresh(w, s, KeyOf(w, Take(PrefixOf(w, r), i + 1)));
    ScanFindsLongest(w, s, PrefixOf(w, r), |Turns(r)|, i + 1);
    var chosen := Choose(w, s, PrefixOf(w, r), pin);
    assert chosen.Some? && chosen.value.1 > i;
    Then(w, s, actions, s3, Arm(1));
    actions := actions + [Arm(1)];
  }

  function PinOf(s: State, r: Request): Option<nat> {
    if r.session.Some? && r.session.value in s.sessions then Some(s.sessions[r.session.value]) else None
  }

  /** Submitting, reading the pin and looking up, with nothing in between. */
  lemma LookupRun(w: Setup, s: State, j: nat, r: Request) returns (actions: seq<Action>, s': State)
    requires InputToTurns(r.input).Ok? && j !in s.jobs
    ensures Run(w, s, actions) == Some(s')
    ensures actions == [Submit(j, r), ReadPin(j), Lookup(j)]
    ensures j in s'.jobs && s'.jobs[j].req == r
    ensures match Choose(w, s, PrefixOf(w, r), PinOf(s, r))
            case Some((k, n)) => s'.jobs[j].phase == if n > 0 then Ready(s.cache[k].conv, n) else Missed
            case None => s'.jobs[j].phase == Missed
  {
    hide KeyOf, VictimOk, Choose;
    var s1 := Apply(w, s, Submit(j, r));
    var s2 := Apply(w, s1, ReadPin(j));
    s' := Apply(w, s2, Lookup(j));
    ChooseIgnoresJobs(w, s, s2, PrefixOf(w, r), PinOf(s, r));
    Then(w, s, [], s, Submit(j, r));
    actions := [] + [Submit(j, r)];
    Then(w, s, actions, s1, ReadPin(j));
    actions := actions + [ReadPin(j)];
    Then(w, s, actions, s2, Lookup(j));
    actions := actions + [Lookup(j)];
  }

  lemma {:induction false} ScanIgnoresJobs(w: Setup, s: State, s': State, p: Prefix, n: nat)
    requires s.cache == s'.cache && s.now == s'.now && n <= |p.turns|
    ensures Scan(w, s, p, n) == Scan(w, s', p, n)
  {
    if n > 0 { ScanIgnoresJobs(w, s, s', p, n - 1); }
  }

  lemma ChooseIgnoresJobs(w: Setup, s: State, s': State, p: Prefix, pin: Option<nat>)
    requires s.cache == s'.cache && s.now == s'.now
    ensures Choose(w, s, p, pin) == Choose(w, s', p, pin)
  {
    ScanIgnoresJobs(w, s, s', p, |p.turns|);
  }

  /** A session pin that verifies decides the lookup, whatever else the pool holds. */
  lemma PinnedLookup(w: Setup, s: State, j: nat, r: Request, k: nat, n: nat) returns (actions: seq<Action>, s': State)
    requires InputToTurns(r.input).Ok? && j !in s.jobs && 0 < n <= |Turns(r)|
    requires PinOf(s, r) == Some(k) && Fresh(w, s, k) && s.cache[k].turnCount == n
    requires KeyOf(w, Take(PrefixOf(w, r), n)) == k
    ensures Run(w, s, actions) == Some(s')
    ensures actions == [Submit(j, r), ReadPin(j), Lookup(j)]
    ensures j in s'.jobs && s'.jobs[j] == Job(r, Ready(s.cache[k].conv, n))
  {
    actions, s' := LookupRun(w, s, j, r);
    assert TryPin(w, s, PrefixOf(w, r), PinOf(s, r)) == Some((k, n));
  }

  /** Storing a conversation and saving its pin, then letting time pass. */
  lemma StoreAndWait(w: Setup, s: State, j: nat, victim: Option<nat>, d: nat) returns (actions: seq<Action>, s': State)
    requires Enabled(w, s, Recache(j, victim)) && s.jobs[j].req.session.Some?
    ensures Run(w, s, actions) == Some(s')
    ensures actions == [Recache(j, victim), SavePin(j), Tick(d)]
    ensures var full := FullPrefix(w, s.jobs[j].req, s.jobs[j].phase.streamed);
            var k := KeyOf(w, full);
            var id := s.jobs[j].req.session.value;
            && id in s'.sessions && s'.sessions[id] == k
            && k in s'.cache && s'.cache[k] == Entry(s.jobs[j].phase.conv, |full.turns|, s.now) && s'.now == s.now + d
    ensures s'.jobs.Keys == s.jobs.Keys
  {
    hide KeyOf, FullPrefix, VictimOk, Concat;
    assert VictimOk(w, s.cache, KeyOf(w, FullPrefix(w, s.jobs[j].req, s.jobs[j].phase.streamed)), victim);
    var s1 := Apply(w, s, Recache(j, victim));
    var s2 := Apply(w, s1, SavePin(j));
    s' := Apply(w, s2, Tick(d));
    Then(w, s, [], s, Recache(j, victim));
    actions := [] + [Recache(j, victim)];
    Then(w, s, actions, s1, SavePin(j));
    actions := actions + [SavePin(j)];
    Then(w, s, actions, s2, Tick(d));
    actions := actions + [Tick(d)];
  }

  /**
   * Warm continuation: when a job stores its conversation and the next request of the same session,
   * within the TTL, extends that conversation, the lookup finds exactly it and only the messages
   * after it are sent, whatever else the pool holds.
   */
  lemma WarmContinuation(w: Setup, u: iset<Text>, empty: Option<Text>, s: State, j: nat, victim: Option<nat>,
                         d: nat, j': nat, r': Request, more: seq<Turn>) returns (actions: seq<Action>)
    requires JobsOk(w, u, empty, s.jobs) && Enabled(w, s, Recache(j, victim))
    requires d < w.ttl && j' !in s.jobs
    requires s.jobs[j].req.session.Some? && r'.session == s.jobs[j].req.session
    requires var full := FullPrefix(w, s.jobs[j].req, s.jobs[j].phase.streamed);
             PrefixOf(w, r') == full.(turns := full.turns + more)
    ensures actions == [Recache(j, victim), SavePin(j), Tick(d)] + [Submit(j', r'), ReadPin(j'), Lookup(j')]
    ensures Run(w, s, actions).Some?
    ensures var s' := Run(w, s, actions).value;
            var full := FullPrefix(w, s.jobs[j].req, s.jobs[j].phase.streamed);
            && j' in s'.jobs && s'.jobs[j'] == Job(r', Ready(Replayed(full), |full.turns|))
            && Turns(r')[|full.turns|..] == more
  {
    hide KeyOf, VictimOk, SendableContents, Concat, Apply, TryPin, Choose, Admissible;
    var full := FullPrefix(w, s.jobs[j].req, s.jobs[j].phase.streamed);
    StoredConvIsReplay(w, u, empty, s.jobs[j]);
    var s1, s2, looks;
    actions, s1 := StoreAndWait(w, s, j, victim, d);
    assert Take(PrefixOf(w, r'), |full.turns|) == full;
    looks, s2 := PinnedLookup(w, s1, j', r', KeyOf(w, full), |full.turns|);
    RunConcat(w, s, actions, looks);
    actions := actions + looks;
  }

  lemma StoredConvIsReplay(w: Setup, u: iset<Text>, empty: Option<Text>, job: Job)
    requires JobOk(w, u, empty, job) && job.phase.Sent?
    ensures job.phase.conv == Replayed(FullPrefix(w, job.req, job.phase.streamed))
  {
    var p := PrefixOf(w, job.req);
    var reply := AssistantTurn(Concat(job.phase.streamed));
    SendableConcat(p.turns, [reply]);
    assert SendableContents([reply]) == [];
  }

  /** The follow-up of a cold request in the same session is answered from that request's conversation. */
  lemma FollowUp(w: Setup, r0: Request, r: Request, conv: Conv) returns (actions: seq<Action>, s: State)
    requires w.ttl > 0 && ColdAnswer(w, r0).Ok? && InputToTurns(r.input).Ok?
    requires r0.session.Some? && r.session == r0.session
    requires var full := WithReply(PrefixOf(w, r0), ColdAnswer(w, r0).value.text);
             var n := |full.turns|;
             && n <= |Turns(r)| && KeyOf(w, Take(PrefixOf(w, r), n)) == KeyOf(w, full)
             && SendableContents(Turns(r)[n..]) != []
             && Extends(Replayed(PrefixOf(w, r0)), SendableContents(Turns(r)[n..]), conv)
    ensures Run(w, Init, actions) == Some(s)
    ensures 1 in s.jobs && s.jobs[1] == Job(r, Sent(conv, w.chunks(conv)))
  {
    hide KeyOf, Concat, SendableContents, PrefixOf;
    var s0, s1, looks, sends;
    actions, s0 := ColdRun(w, r0);
    var full := WithReply(PrefixOf(w, r0), ColdAnswer(w, r0).value.text);
    looks, s1 := PinnedLookup(w, s0, 1, r, KeyOf(w, full), |full.turns|);
    RunConcat(w, Init, actions, looks);
    sends, s := SendToEnd(w, s1, 1, conv);
    RunConcat(w, Init, actions + looks, sends);
    actions := actions + looks + sends;
  }

  // ---- Missing and empty system prompts ----

  /** All requests to a slot see the same kind of empty prompt. */
  ghost predicate PromptsAgree(w: Setup, empty: Option<Text>) {
    forall r: Request :: SystemAgrees(empty, PrefixOf(w, r).system)
  }

  /** They do exactly when the slot has a default prompt. */
  lemma PromptsAgreeIff(w: Setup)
    ensures (exists empty :: PromptsAgree(w, empty)) <==> w.defaultSystem.Some?
  {
    if w.defaultSystem.Some? {
      assert PromptsAgree(w, Some(""));
    } else {
      var missing := Request(TextInput(""), None, None, None, None);
      var given := missing.(systemPrompt := Some(""));
      assert PrefixOf(w, missing).system == None && PrefixOf(w, given).system == Some("");
    }
  }

  /** An engine that answers `same` under one system prompt and `other` under any other. */
  function TellsApart(system: Option<Text>, same: Text, other: Text): Conv -> seq<Text> {
    (conv: Conv) => if conv.system == system then [same] else [other]
  }

  /**
   * `None` and `Some("")` share a key. On a slot without a default prompt, for every open request
   * whose prompt is missing or empty and that has an Assistant turn after something to send, there are
   * an engine and a run that ends with another answer than the cold one.
   */
  lemma EmptySystemPromptsMix(w: Setup, r: Request, i: nat) returns (w': Setup, actions: seq<Action>)
    requires w.ttl > 0 && w.defaultSystem.None? && SystemText(r.systemPrompt) == ""
    requires WellFormed(PrefixOf(w, r)) && EndsOpen(Turns(r))
    requires i < |Turns(r)| && Turns(r)[i].role.Assistant? && SendableContents(Turns(r)[..i]) != []
    ensures w' == w.(chunks := w'.chunks)
    ensures Run(w', Init, actions).Some?
    ensures ColdAnswer(w', r).Ok? && AnswersOtherwise(w', actions, Init, r)
  {
    var p := PrefixOf(w, r);
    var c := p.turns[i].content;
    var twin := if r.systemPrompt.None? then Some("") else None;
    w' := w.(chunks := TellsApart(twin, c, c + "x"));
    var r0 := r.(input := TurnsInput(p.turns[..i]), systemPrompt := twin);
    assert p.turns[..i] != [] by { EmptySendsNothing(); }
    ConcatSingle(c);
    ConcatSingle(c + "x");
    assert ColdAnswer(w', r0) == Ok(Answer(c, [c]));
    SendsInAll(p.turns, i);
    assert ColdAnswer(w', r) == Ok(Answer(c + "x", [c + "x"]));
    TwinsShareKey(w', r, r0, i);
    actions := DonorMixes(w', r0, r, i, i + 1, c);
  }

  lemma ConcatSingle(c: Text)
    ensures Concat([c]) == c
  {
    assert Concat([c]) == c + Concat([]) == c;
  }

  lemma SendsInAll(turns: seq<Turn>, i: nat)
    requires i <= |turns| && SendableContents(turns[..i]) != []
    ensures SendableContents(turns) != [] && turns != []
  {
    SendableSplit(turns, i);
  }

  /** The reply of the twin request is stored under the key of the request's own turns. */
  lemma TwinsShareKey(w: Setup, r: Request, r0: Request, i: nat)
    requires w.defaultSystem.None? && SystemText(r.systemPrompt) == "" == SystemText(r0.systemPrompt)
    requires WellFormed(PrefixOf(w, r)) && 0 < i < |Turns(r)| && Turns(r)[i].role.Assistant?
    requires r0 == r.(input := TurnsInput(Turns(r)[..i]), systemPrompt := r0.systemPrompt)
    ensures KeyOf(w, WithReply(PrefixOf(w, r0), Turns(r)[i].content)) == KeyOf(w, Take(PrefixOf(w, r), i + 1))
  {
    var p := PrefixOf(w, r);
    assert p.turns[i] in p.turns;
    assert p.turns[..i + 1] == p.turns[..i] + [p.turns[i]];
    hide EncodeTurns, Header;
  }

  /** Whatever a hit leaves to send, the engine's reply on top of the donor is `reply`. */
  ghost predicate RepliesOn(w: Setup, conv: Conv, r: Request, from: nat, reply: Text) {
    forall n :: from <= n <= |Turns(r)| ==>
      w.chunks(conv.(sent := conv.sent + SendableContents(Turns(r)[n..]))) == [reply]
  }

  /** On a pool that holds just a donor found under the request's key, the request ends with another answer. */
  lemma MixedUp(w: Setup, s: State, r: Request, i: nat, from: nat, c: Text) returns (actions: seq<Action>)
    requires w.ttl > 0 && InputToTurns(r.input).Ok? && i < |Turns(r)| && 1 !in s.jobs
    requires ColdAnswer(w, r) == Ok(Answer(c + "x", [c + "x"]))
    requires var k := KeyOf(w, Take(PrefixOf(w, r), i + 1));
             && s.cache.Keys == {k} && s.cache[k].lastUsed == s.now
             && 0 < from <= i + 1 && from <= s.cache[k].turnCount && RepliesOn(w, s.cache[k].conv, r, from, c)
    ensures Run(w, s, actions).Some?
    ensures AnswersOtherwise(w, actions, s, r)
  {
    hide KeyOf, VictimOk, SendableContents, ColdAnswer;
    var s1, s2, s3, more;
    actions, s1 := LookupRun(w, s, 1, r);
    var k := KeyOf(w, Take(PrefixOf(w, r), i + 1));
    assert Fresh(w, s, k);
    ScanFindsLongest(w, s, PrefixOf(w, r), |Turns(r)|, i + 1);
    var chosen := Choose(w, s, PrefixOf(w, r), PinOf(s, r));
    assert chosen.Some? && chosen.value.1 >= from && chosen.value.0 == k;
    var conv, n := s.cache[k].conv, chosen.value.1;
    assert s1.jobs[1].phase == Ready(conv, n);
    var todo := SendableContents(Turns(r)[n..]);
    if todo == [] {
      Then(w, s, actions, s1, Arm(1));
      actions := actions + [Arm(1)];
    } else {
      var conv' := conv.(sent := conv.sent + todo);
      assert w.chunks(conv') == [c];
      more, s2 := SendToEnd(w, s1, 1, conv');
      RunConcat(w, s, actions, more);
      actions := actions + more;
      more, s3 := Store(w, s2, 1);
      RunConcat(w, s, actions, more);
      actions := actions + more;
      ConcatSingle(c);
    }
  }

  /** The run ends with an answer to the request, as job 1, that is not the cold one. */
  ghost predicate AnswersOtherwise(w: Setup, actions: seq<Action>, s: State, r: Request)
    requires Run(w, s, actions).Some?
  {
    var s' := Run(w, s, actions).value;
    1 in s'.jobs && s'.jobs[1].req == r && s'.jobs[1].phase.Done? && s'.jobs[1].phase.result != ColdAnswer(w, r)
  }

  /** A donor request from an empty pool, and then the request itself. */
  lemma DonorMixes(w: Setup, r0: Request, r: Request, i: nat, from: nat, c: Text) returns (actions: seq<Action>)
    requires w.ttl > 0 && InputToTurns(r.input).Ok? && i < |Turns(r)|
    requires ColdAnswer(w, r0) == Ok(Answer(c, [c])) && ColdAnswer(w, r) == Ok(Answer(c + "x", [c + "x"]))
    requires KeyOf(w, WithReply(PrefixOf(w, r0), c)) == KeyOf(w, Take(PrefixOf(w, r), i + 1))
    requires 0 < from <= i + 1 && from <= |Turns(r0)| + 1 && RepliesOn(w, Replayed(PrefixOf(w, r0)), r, from, c)
    ensures Run(w, Init, actions).Some?
    ensures AnswersOtherwise(w, actions, Init, r)
  {
    hide KeyOf, ColdAnswer, RepliesOn, Replayed;
    var s0;
    actions, s0 := ColdRun(w, r0);
    var more := MixedUp(w, s0, r, i, from, c);
    RunConcat(w, Init, actions, more);
    actions := actions + more;
  }

  // ---- Prompts that hold a NUL ----

  /**
   * For every request whose prompt goes on, after any text `x`, with a header and the lead of a User
   * turn for the turns before some Assistant turn, there are an engine and a run that ends with
   * another answer than the cold one: a request with prompt `x` is stored under its key.
   */
  lemma NulPromptsMix(w: Setup, r: Request, i: nat, x: Text) returns (w': Setup, actions: seq<Action>)
    requires w.ttl > 0 && i < |Turns(r)| && Turns(r)[i] == AssistantTurn(Turns(r)[i].content)
    requires SendableContents(Turns(r)) != []
    requires var p := PrefixOf(w, r);
             var content := Header(p.sampler) + EncodeTurns(Turns(r)[..i]);
             r.systemPrompt == Some(x + Header(p.sampler) + Lead(content))
    ensures w' == w.(chunks := w'.chunks)
    ensures Run(w', Init, actions).Some?
    ensures ColdAnswer(w', r).Ok? && AnswersOtherwise(w', actions, Init, r)
  {
    hide EncodeTurns, Header, Lead, Concat;
    var p := PrefixOf(w, r);
    var c := p.turns[i].content;
    var content := Header(p.sampler) + EncodeTurns(p.turns[..i]);
    w' := w.(chunks := TellsApart(Some(x), c, c + "x"));
    var r0 := r.(input := TurnsInput([UserTurn(content)]), systemPrompt := Some(x));
    ConcatSingle(c);
    ConcatSingle(c + "x");
    NulInSystemPromptCollides(x, p.sampler, p.turns[..i], [p.turns[i]]);
    assert p.turns[..i + 1] == p.turns[..i] + [p.turns[i]];
    assert SendableContents(Turns(r0)) == [content];
    assert ColdAnswer(w', r0) == Ok(Answer(c, [c]));
    assert ColdAnswer(w', r) == Ok(Answer(c + "x", [c + "x"]));
    actions := DonorMixes(w', r0, r, i, 1, c);
  }

  // ---- Turns that encode like others ----

  /** An engine that answers `same` once it has been sent `n` messages and `other` otherwise. */
  function Counts(n: nat, same: Text, other: Text): Conv -> seq<Text> {
    (conv: Conv) => if |conv.sent| == n then [same] else [other]
  }

  /** The request with its turns `k - 1` and `k` replaced by `t`, up to the Assistant turn at `i`. */
  function Merged(turns: seq<Turn>, k: nat, i: nat, t: Turn): seq<Turn>
    requires 0 < k < i <= |turns|
  {
    turns[..k - 1] + [t] + turns[k + 1..i]
  }

  lemma MergedSendsLess(turns: seq<Turn>, k: nat, i: nat, t: Turn)
    requires 0 < k < i <= |turns| && IsSendable(turns[k - 1]) && IsSendable(turns[k]) && IsSendable(t)
    ensures |SendableContents(Merged(turns, k, i, t))| + 1 == |SendableContents(turns[..i])|
    ensures SendableContents(Merged(turns, k, i, t)) != []
  {
    var a, b := turns[..k - 1], turns[k + 1..i];
    assert turns[..i] == a + [turns[k - 1], turns[k]] + b;
    SendableConcat(a, [t]);
    SendableConcat(a + [t], b);
    SendableConcat(a, [turns[k - 1], turns[k]]);
    SendableConcat(a + [turns[k - 1], turns[k]], b);
    assert [turns[k - 1], turns[k]][1..] == [turns[k]] && [turns[k]][1..] == [];
    assert |SendableContents([turns[k - 1], turns[k]])| == 2 && |SendableContents([t])| == 1;
  }

  /** What is left to send grows no longer by skipping more turns. */
  lemma {:induction false} LaterSendsLess(turns: seq<Turn>, i: nat, n: nat)
    requires i <= n <= |turns|
    ensures |SendableContents(turns[n..])| + |SendableContents(turns[..i])| <= |SendableContents(turns)|
  {
    SendableSplit(turns, n);
    SendableSplit(turns[..n], i);
    assert turns[..n][..i] == turns[..i];
  }

  /**
   * For every request two of whose sendable turns, before some Assistant turn, encode like one turn,
   * there are an engine and a run that ends with another answer than the cold one.
   */
  lemma MergedTurnsMix(w: Setup, r: Request, k: nat, i: nat, t: Turn) returns (w': Setup, actions: seq<Action>)
    requires w.ttl > 0 && 0 < k < i < |Turns(r)| && Turns(r)[i] == AssistantTurn(Turns(r)[i].content)
    requires IsSendable(Turns(r)[k - 1]) && IsSendable(Turns(r)[k]) && IsSendable(t)
    requires Merges(t, Turns(r)[k - 1], Turns(r)[k])
    ensures w' == w.(chunks := w'.chunks)
    ensures Run(w', Init, actions).Some?
    ensures ColdAnswer(w', r).Ok? && AnswersOtherwise(w', actions, Init, r)
  {
    hide Merges, Concat, SendableContents, EncodeTurns, CanonicalBytes;
    var p := PrefixOf(w, r);
    var c := p.turns[i].content;
    var turns0 := Merged(p.turns, k, i, t);
    var total := |SendableContents(p.turns)|;
    w' := w.(chunks := Counts(total, c + "x", c));
    var r0 := r.(input := TurnsInput(turns0));
    MergedSendsLess(p.turns, k, i, t);
    LaterSendsLess(p.turns, i, i);
    ConcatSingle(c);
    ConcatSingle(c + "x");
    MergedShareKey(p, k, i, t);
    assert WithReply(PrefixOf(w', r0), c) == p.(turns := turns0 + [p.turns[i]]);
    assert RepliesOn(w', Replayed(PrefixOf(w', r0)), r, i, c) by {
      forall n | i <= n <= |p.turns| ensures |SendableContents(turns0)| + |SendableContents(p.turns[n..])| < total {
        LaterSendsLess(p.turns, i, n);
      }
    }
    actions := DonorMixes(w', r0, r, i, i, c);
  }

  lemma MergedShareKey(p: Prefix, k: nat, i: nat, t: Turn)
    requires 0 < k < i < |p.turns| && Merges(t, p.turns[k - 1], p.turns[k])
    ensures CanonicalBytes(p.(turns := Merged(p.turns, k, i, t) + [p.turns[i]])) == CanonicalBytes(Take(p, i + 1))
  {
    hide CanonicalBytes, Merges;
    var a, b := p.turns[..k - 1], p.turns[k + 1..i];
    MergedTurnsCollide(p, t, p.turns[k - 1], p.turns[k], a, b + [p.turns[i]]);
    assert Merged(p.turns, k, i, t) + [p.turns[i]] == a + [t] + (b + [p.turns[i]]);
    assert p.turns[..i + 1] == a + [p.turns[k - 1], p.turns[k]] + (b + [p.turns[i]]);
  }

  /** An empty User turn after a turn without tool_call_id, which a stray id can stand for. */
  lemma StrayIdsMix(w: Setup, r: Request, k: nat, i: nat) returns (w': Setup, actions: seq<Action>)
    requires w.ttl > 0 && 0 < k < i < |Turns(r)| && Turns(r)[i] == AssistantTurn(Turns(r)[i].content)
    requires IsSendable(Turns(r)[k - 1]) && Turns(r)[k - 1].toolCallId.None? && Turns(r)[k] == UserTurn("")
    ensures w' == w.(chunks := w'.chunks)
    ensures Run(w', Init, actions).Some?
    ensures ColdAnswer(w', r).Ok? && AnswersOtherwise(w', actions, Init, r)
  {
    hide Merges, SendableContents;
    var t := Turns(r)[k - 1];
    StrayToolCallIdCollides(t);
    w', actions := MergedTurnsMix(w, r, k, i, t.(toolCallId := Some([0 as char])));
  }

  /** A content of 2^32 - 1 bytes or more, which can hold the turn after it. */
  lemma LongContentsMix(w: Setup, r: Request, k: nat, i: nat) returns (w': Setup, actions: seq<Action>)
    requires w.ttl > 0 && 0 < k < i < |Turns(r)| && Turns(r)[i] == AssistantTurn(Turns(r)[i].content)
    requires IsSendable(Turns(r)[k - 1]) && IsSendable(Turns(r)[k])
    requires Turns(r)[k - 1].toolCallId.None? && |Turns(r)[k - 1].content| >= TWO_TO_THE_32 - 1
    ensures w' == w.(chunks := w'.chunks)
    ensures Run(w', Init, actions).Some?
    ensures ColdAnswer(w', r).Ok? && AnswersOtherwise(w', actions, Init, r)
  {
    hide Merges, SendableContents, EncodeTurn;
    var t := Turns(r)[k - 1];
    LongContentCollides(t, Turns(r)[k]);
    w', actions := MergedTurnsMix(w, r, k, i, t.(content := t.content + EncodeTurn(Turns(r)[k])));
  }
}
