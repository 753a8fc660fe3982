// The LiteRT-LM slot as the object it is: conversations are engine objects
// that sending advances in place, the pool holds references to donors, and a
// request works on a clone. Each call is one run of the state machine.
module LiteRtLm {
  import opened Texts
  import opened Proto
  import opened CacheKey
  import opened PrefixCache
  import opened PrefixCacheRuns
  import opened ColdAnswers

  /** One engine conversation. */
  class Conversation {
    const system: Option<Text>
    const sampler: Sampler
    var sent: seq<Text>

    ghost function View(): Conv
      reads this
    {
      Conv(system, sampler, sent)
    }

    constructor (system: Option<Text>, sampler: Sampler, sent: seq<Text>)
      ensures View() == Conv(system, sampler, sent)
    {
      this.system, this.sampler, this.sent := system, sampler, sent;
    }

    /** Deep copy of the conversation. */
    method Clone() returns (c: Conversation)
      ensures fresh(c) && c.View() == View()
    {
      c := new Conversation(system, sampler, sent);
    }

    /** Sends one message and returns the chunks of the engine's reply. */
    method SendMessageStream(w: Setup, msg: Text) returns (chunks: seq<Text>)
      modifies this
      ensures View() == old(View()).(sent := old(sent) + [msg])
      ensures chunks == w.chunks(View())
    {
      sent := sent + [msg];
      chunks := w.chunks(Conv(system, sampler, sent));
    }
  }

  datatype CachedConv = CachedConv(conv: Conversation, turnCount: nat, lastUsed: nat)

  class LiteRtLmSlot {
    const w: Setup
    var cache: map<nat, CachedConv>
    var sessions: map<Text, nat>
    var cancelToken: Option<nat>
    var clock: nat
    ghost var signalled: set<nat>
    ghost var jobs: map<nat, Job>

    ghost function Donors(): set<Conversation>
      reads this
    {
      set k | k in cache :: cache[k].conv
    }

    ghost function Pool(): map<nat, Entry>
      reads this, Donors()
    {
      map k | k in cache :: Entry(cache[k].conv.View(), cache[k].turnCount, cache[k].lastUsed)
    }

    ghost function View(): State
      reads this, Donors()
    {
      State(Pool(), sessions, cancelToken, signalled, clock, jobs)
    }

    constructor (setup: Setup)
      ensures w == setup.(cacheSize := if setup.cacheSize == 0 then 1 else setup.cacheSize)
      ensures View() == Init
    {
      w := setup.(cacheSize := if setup.cacheSize == 0 then 1 else setup.cacheSize);
      cache, sessions, cancelToken, signalled, clock, jobs := map[], map[], None, {}, 0, map[];
    }

    /** `Instant::now()`: time may have passed. */
    method Now() returns (ghost d: nat)
      modifies this`clock
      ensures Enabled(w, old(View()), Tick(d)) && View() == Apply(w, old(View()), Tick(d))
    {
      var passed: nat :| true;
      clock := clock + passed;
      d := passed;
    }

    predicate IsFresh(k: nat)
      reads this
    {
      k in cache && clock - cache[k].lastUsed < w.ttl
    }

    lemma FreshInView(k: nat)
      ensures Fresh(w, View(), k) <==> IsFresh(k)
      ensures k in cache ==> k in Pool() && Pool()[k].turnCount == cache[k].turnCount
    {}

    /** The session pin, if its entry is fresh and hashes like the request's own prefix. */
    method VerifyPin(p: Prefix, pin: Option<nat>) returns (chosen: Option<(nat, nat)>)
      ensures chosen == TryPin(w, View(), p, pin)
    {
      chosen := None;
      if pin.Some? {
        FreshInView(pin.value);
        if IsFresh(pin.value) && cache[pin.value].turnCount <= |p.turns| {
          var n := cache[pin.value].turnCount;
          var bytes := FillCanonicalBytes(p.system, p.sampler, p.turns[..n]);
          if w.hash(bytes) == pin.value {
            chosen := Some((pin.value, n));
          }
        }
      }
    }

    /** Tries all prefixes, longest first. */
    method ScanPrefixes(p: Prefix) returns (chosen: Option<(nat, nat)>)
      ensures chosen == Scan(w, View(), p, |p.turns|)
    {
      hide CanonicalBytes;
      ghost var s := View();
      chosen := None;
      var n: nat := |p.turns|;
      while true
        invariant n <= |p.turns| && View() == s
        invariant Scan(w, s, p, |p.turns|) == Scan(w, s, p, n)
        decreases n
      {
        var bytes := FillCanonicalBytes(p.system, p.sampler, p.turns[..n]);
        assert w.hash(bytes) == KeyOf(w, Take(p, n)) && View() == s;
        FreshInView(w.hash(bytes));
        if IsFresh(w.hash(bytes)) {
          return Some((w.hash(bytes), n));
        }
        if n == 0 { break; }
        n := n - 1;
      }
    }

    /** The verified pin, else the longest cached prefix. */
    method ChoosePrefix(p: Prefix, pin: Option<nat>) returns (chosen: Option<(nat, nat)>)
      ensures chosen == Choose(w, View(), p, pin)
    {
      hide TryPin, Scan, KeyOf, Fresh;
      ghost var s := View();
      chosen := VerifyPin(p, pin);
      assert View() == s;
      if chosen.None? {
        chosen := ScanPrefixes(p);
        assert View() == s;
      }
    }

    /** `min_by_key` on last_used: some least recently used key. */
    method LeastRecentlyUsed() returns (k: nat)
      requires cache != map[]
      ensures k in cache && forall i :: i in cache ==> cache[k].lastUsed <= cache[i].lastUsed
    {
      k :| k in cache;
      var rest := cache.Keys - {k};
      while rest != {}
        invariant rest <= cache.Keys && k in cache
        invariant forall i :: i in cache && i !in rest ==> cache[k].lastUsed <= cache[i].lastUsed
        decreases rest
      {
        var i :| i in rest;
        if cache[i].lastUsed < cache[k].lastUsed { k := i; }
        rest := rest - {i};
      }
    }

    /** Makes room for a new key by evicting a least recently used entry when the pool is full. */
    method EvictFor(key: nat) returns (victim: Option<nat>)
      modifies this`cache
      ensures VictimOk(w, old(Pool()), key, victim)
      ensures Pool() == Evicted(old(Pool()), victim)
    {
      hide Pool, LeastRecent;
      victim := None;
      PoolSize();
      if |cache| >= w.cacheSize && key !in cache && cache != map[] {
        var v := RemoveLeastRecent();
        victim := Some(v);
      }
    }

    method RemoveLeastRecent() returns (k: nat)
      requires cache != map[]
      modifies this`cache
      ensures LeastRecent(old(Pool()), k) && Pool() == old(Pool()) - {k}
    {
      k := LeastRecentlyUsed();
      cache := cache - {k};
    }

    /** Stores a conversation under its key, as most recently used. */
    method StoreConversation(key: nat, conv: Conversation, turnCount: nat) returns (victim: Option<nat>)
      modifies this`cache
      ensures VictimOk(w, old(Pool()), key, victim)
      ensures Pool() == Evicted(old(Pool()), victim)[key := Entry(conv.View(), turnCount, clock)]
    {
      hide VictimOk, Evicted;
      victim := EvictFor(key);
      ghost var pool := Pool();
      cache := cache[key := CachedConv(conv, turnCount, clock)];
      assert Pool() == pool[key := Entry(conv.View(), turnCount, clock)];
    }

    lemma PoolSize()
      ensures |Pool()| == |cache| && Pool().Keys == cache.Keys && (Pool() == map[] <==> cache == map[])
    {
      assert Pool().Keys == cache.Keys;
      assert |Pool()| == |Pool().Keys| && |cache| == |cache.Keys|;
    }

    /** Records that the job has moved on. */
    ghost method Advance(j: nat, ph: Phase)
      requires j in jobs
      modifies this`jobs
      ensures View() == SetPhase(old(View()), j, ph)
    {
      jobs := jobs[j := jobs[j].(phase := ph)];
    }

    /** An engine call may fail. */
    method EngineFails() returns (fails: bool)
    {
      fails :| true;
    }

    /** Signals the conversation whose handle the token holds; whether there was one. */
    method CancelInFlight() returns (delivered: bool)
      modifies this`signalled
      ensures View() == Apply(w, old(View()), Signal) && delivered == CancelDelivers(old(View()))
      ensures Safe(w, old(View())) && delivered ==>
                exists j :: j in signalled && j in jobs && jobs[j].phase.Sending?
    {
      hide VictimOk, KeyOf, Choose;
      delivered := cancelToken.Some?;
      if delivered {
        signalled := signalled + {cancelToken.value};
        assert cancelToken.value in signalled;
      }
    }

    /** Marks an entry as just used. */
    method Touch(k: nat)
      requires k in cache
      modifies this`cache
      ensures View() == old(View()).(cache := old(Pool())[k := old(Pool())[k].(lastUsed := clock)])
      ensures k in cache && cache[k].lastUsed == clock && cache[k].conv == old(cache[k].conv)
      ensures Donors() == old(Donors())
    {
      ghost var pool := Pool();
      ghost var donors := Donors();
      cache := cache[k := cache[k].(lastUsed := clock)];
      assert forall i :: i in cache ==> cache[i].conv == old(cache[i].conv);
      assert Pool() == pool[k := pool[k].(lastUsed := clock)];
    }

    /** The lookup's critical section: on a hit, marks the entry as used and clones it. */
    method LookupAndClone(p: Prefix, pin: Option<nat>, ghost j: nat)
      returns (hit: Option<(Conversation, nat)>, ok: bool)
      requires j in jobs && jobs[j].phase == Pinned(pin) && PrefixOf(w, jobs[j].req) == p
      modifies this`cache, this`jobs
      ensures ok ==> View() == Apply(w, old(View()), Lookup(j))
      ensures !ok ==> Enabled(w, old(View()), Fail(j)) && View() == Apply(w, old(View()), Fail(j))
      ensures hit.Some? ==> hit.value.1 <= |p.turns|
      ensures ok && hit.Some? ==> fresh(hit.value.0) && jobs[j].phase == Ready(hit.value.0.View(), hit.value.1)
      ensures hit.Some? ==>
                exists k :: k in old(cache) && k in cache && cache[k].lastUsed == clock
                  && clock - old(cache)[k].lastUsed < w.ttl && hit.value.0.View() == old(cache[k].conv.View())
      ensures ok && hit.None? ==> jobs[j].phase.Missed?
      ensures !ok ==> hit.None? && jobs[j].phase == Done(Err(EngineFailed))
      ensures Donors() == old(Donors()) && jobs.Keys == old(jobs.Keys) && jobs[j].req == old(jobs[j].req)
    {
      hide Choose, KeyOf, Apply, Enabled;
      ghost var s := View();
      LookupOutcome(w, s, j, p, pin);
      ChosenInTime(w, s, p, pin);
      var chosen := ChoosePrefix(p, pin);
      assert View() == s;
      if chosen.Some? && chosen.value.1 > 0 {
        var (k, n) := chosen.value;
        FreshInView(k);
        var working := CloneDonor(k, n, j);
        ok := working.Some?;
        hit := if ok then Some((working.value, n)) else None;
      } else {
        hit, ok := None, true;
        Advance(j, Missed);
      }
    }

    /** Clones the entry under k after marking it as used. */
    method CloneDonor(k: nat, n: nat, ghost j: nat) returns (working: Option<Conversation>)
      requires j in jobs && k in cache
      modifies this`cache, this`jobs
      ensures var touched := old(View()).(cache := old(Pool())[k := old(Pool())[k].(lastUsed := clock)]);
              View() == SetPhase(touched, j, if working.Some? then Ready(old(Pool())[k].conv, n)
                  else Done(Err(EngineFailed)))
      ensures working.Some? ==> fresh(working.value) && working.value.View() == old(Pool())[k].conv
      ensures k in cache && cache[k].lastUsed == clock
      ensures Donors() == old(Donors())
    {
      Touch(k);
      ghost var touched := View();
      var fails := EngineFails();
      if fails {
        working := None;
        assert View() == touched;
        Advance(j, Done(Err(EngineFailed)));
      } else {
        var c := cache[k].conv.Clone();
        working := Some(c);
        assert View() == touched;
        Advance(j, Ready(c.View(), n));
      }
    }

    /** A cache miss builds a conversation from the engine. */
    method CreateConversation(p: Prefix, ghost j: nat) returns (conv: Conversation, ok: bool)
      requires j in jobs && jobs[j].phase.Missed? && PrefixOf(w, jobs[j].req) == p
      modifies this`jobs
      ensures ok ==> View() == Apply(w, old(View()), Create(j))
      ensures !ok ==> View() == Apply(w, old(View()), Fail(j))
      ensures ok ==> fresh(conv) && jobs[j].phase == Ready(conv.View(), 0)
      ensures !ok ==> jobs[j].phase == Done(Err(EngineFailed))
      ensures jobs.Keys == old(jobs.Keys) && jobs[j].req == old(jobs[j].req)
    {
      hide KeyOf, VictimOk, Choose;
      ghost var s := View();
      conv := new Conversation(p.system, p.sampler, []);
      var fails := EngineFails();
      ok := !fails;
      assert View() == s;
      Advance(j, if fails then Done(Err(EngineFailed)) else Ready(conv.View(), 0));
    }

    /** `sendable_contents` as the filter it is. */
    method FilterSendable(turns: seq<Turn>) returns (msgs: seq<Text>)
      ensures msgs == SendableContents(turns) && Picked(turns, msgs)
    {
      msgs := [];
      for i := 0 to |turns|
        invariant msgs == SendableContents(turns[..i])
      {
        assert turns[..i + 1] == turns[..i] + [turns[i]];
        SendableConcat(turns[..i], [turns[i]]);
        if IsSendable(turns[i]) {
          msgs := msgs + [turns[i].content];
        }
      }
      assert turns[..|turns|] == turns;
      ghost var at := SendableIsPicked(turns);
    }

    /** Sends one message; a failure leaves the send loop, whose guard clears the token. */
    method SendOne(conv: Conversation, msgs: seq<Text>, i: nat, ghost j: nat, ghost before: seq<Text>)
      returns (streamed: seq<Text>, ok: bool)
      requires i < |msgs| && j in jobs && jobs[j].phase == Sending(conv.View(), msgs[i..], before)
      requires conv !in Donors()
      modifies this`jobs, conv, this`cancelToken
      ensures ok ==> View() == Apply(w, old(View()), Send(j))
      ensures ok ==> jobs[j].phase == Sending(conv.View(), msgs[i + 1..], streamed)
      ensures !ok ==> View() == Apply(w, old(View()), Fail(j)) && jobs[j].phase == Done(Err(EngineFailed))
      ensures jobs.Keys == old(jobs.Keys) && jobs[j].req == old(jobs[j].req)
    {
      hide KeyOf, VictimOk, Choose;
      ghost var s := View();
      var fails := EngineFails();
      ok := !fails;
      assert View() == s;
      streamed := [];
      if fails {
        cancelToken := None;
        assert View() == s.(token := None);
        Advance(j, Done(Err(EngineFailed)));
      } else {
        var chunks := conv.SendMessageStream(w, msgs[i]);
        streamed := if i + 1 == |msgs| then chunks else [];
        assert View() == s;
        Advance(j, Sending(conv.View(), msgs[i + 1..], streamed));
      }
    }

    /** The send loop: only the last message's chunks are kept. */
    method SendAllMessages(conv: Conversation, msgs: seq<Text>, ghost j: nat)
      returns (streamed: seq<Text>, ok: bool, ghost trace: seq<Action>)
      requires j in jobs && jobs[j].phase == Sending(conv.View(), msgs, [])
      requires conv !in Donors()
      modifies this`jobs, conv, this`cancelToken
      ensures Run(w, old(View()), trace) == Some(View()) && forall a :: a in trace ==> Inner(a)
      ensures jobs.Keys == old(jobs.Keys) && jobs[j].req == old(jobs[j].req)
      ensures ok ==> jobs[j].phase == Sending(conv.View(), [], streamed)
      ensures !ok ==> jobs[j].phase == Done(Err(EngineFailed))
    {
      hide Apply;
      ghost var s := View();
      streamed, ok, trace := [], true, [];
      for i := 0 to |msgs|
        invariant j in jobs && jobs[j].phase == Sending(conv.View(), msgs[i..], streamed)
        invariant jobs.Keys == old(jobs.Keys) && jobs[j].req == old(jobs[j].req)
        invariant Run(w, s, trace) == Some(View()) && forall a :: a in trace ==> Inner(a)
      {
        ghost var before := View();
        streamed, ok := SendOne(conv, msgs, i, j, streamed);
        ghost var step := if ok then Send(j) else Fail(j);
        Then(w, s, trace, before, step);
        trace := trace + [step];
        if !ok { return; }
      }
    }

    ghost method Refuse(req: Request, j: nat)
      requires j !in jobs
      modifies this`jobs
      ensures View() == Apply(w, old(View()), Submit(j, req)) && j in jobs && jobs[j] == SubmittedJob(req)
    {
      jobs := jobs[j := SubmittedJob(req)];
    }

    /** Takes the request in, resolves its session pin, and lets time pass. */
    method Accept(req: Request, ghost j: nat) returns (pin: Option<nat>, ghost trace: seq<Action>)
      requires j !in jobs && InputToTurns(req.input).Ok?
      modifies this`jobs, this`clock
      ensures Run(w, old(View()), trace) == Some(View()) && OnlySubmits(trace, req)
      ensures j in jobs && jobs[j] == Job(req, Pinned(pin))
    {
      hide KeyOf, VictimOk, Choose;
      ghost var s0 := View();
      jobs := jobs[j := SubmittedJob(req)];
      ghost var s1 := View();
      assert s1 == Apply(w, s0, Submit(j, req));
      pin := if req.session.Some? && req.session.value in sessions then Some(sessions[req.session.value]) else None;
      Advance(j, Pinned(pin));
      ghost var s2 := View();
      ghost var d := Now();
      Then(w, s0, [], s0, Submit(j, req));
      trace := [] + [Submit(j, req)];
      Then(w, s0, trace, s1, ReadPin(j));
      trace := trace + [ReadPin(j)];
      Then(w, s0, trace, s2, Tick(d));
      trace := trace + [Tick(d)];
    }

    /** A working conversation: a clone of the chosen donor, or a new one. */
    method Acquire(p: Prefix, pin: Option<nat>, ghost j: nat)
      returns (got: Option<(Conversation, nat)>, ghost trace: seq<Action>)
      requires j in jobs && jobs[j].phase == Pinned(pin) && PrefixOf(w, jobs[j].req) == p
      modifies this`cache, this`jobs
      ensures j in jobs && jobs[j].req == old(jobs[j].req)
      ensures Run(w, old(View()), trace) == Some(View()) && OnlySubmits(trace, jobs[j].req)
      ensures got.Some? ==>
                && fresh(got.value.0) && got.value.0 !in Donors() && got.value.1 <= |p.turns|
                && jobs[j].phase == Ready(got.value.0.View(), got.value.1)
      ensures got.None? ==> jobs[j].phase == Done(Err(EngineFailed))
    {
      hide KeyOf, Apply, AfterLookup;
      ghost var s := View();
      var ok;
      got, ok := LookupAndClone(p, pin, j);
      ghost var s1 := View();
      ghost var step := if ok then Lookup(j) else Fail(j);
      Then(w, s, [], s, step);
      trace := [] + [step];
      if ok && got.None? {
        var conv;
        conv, ok := CreateConversation(p, j);
        got := if ok then Some((conv, 0)) else None;
        step := if ok then Create(j) else Fail(j);
        Then(w, s, trace, s1, step);
        trace := trace + [step];
      }
    }

    /** The messages still to send; if there are any, the cancel token is armed for the send loop. */
    method ArmToken(conv: Conversation, n: nat, req: Request, j: nat) returns (msgs: seq<Text>)
      requires j in jobs && jobs[j] == Job(req, Ready(conv.View(), n)) && n <= |Turns(req)|
      requires conv !in Donors()
      modifies this`jobs, this`cancelToken
      ensures Enabled(w, old(View()), Arm(j)) && View() == Apply(w, old(View()), Arm(j))
      ensures jobs.Keys == old(jobs.Keys) && jobs[j].req == req
      ensures jobs[j].phase == if msgs == [] then Done(Err(NothingToSend)) else Sending(conv.View(), msgs, [])
    {
      hide SendableContents;
      ghost var s := View();
      msgs := FilterSendable(Turns(req)[n..]);
      assert View() == s;
      if msgs == [] {
        Advance(j, Done(Err(NothingToSend)));
      } else {
        cancelToken := Some(j);
        assert View() == s.(token := Some(j));
        Advance(j, Sending(conv.View(), msgs, []));
      }
    }

    /** Sends the messages after the first n turns, with the cancel token armed meanwhile. */
    method Deliver(conv: Conversation, n: nat, req: Request, j: nat)
      returns (sent: Result<seq<Text>, Error>, ghost trace: seq<Action>)
      requires j in jobs && jobs[j] == Job(req, Ready(conv.View(), n)) && n <= |Turns(req)|
      requires conv !in Donors()
      modifies this`jobs, conv, this`cancelToken
      ensures j in jobs && jobs[j].req == req
      ensures Run(w, old(View()), trace) == Some(View()) && OnlySubmits(trace, req)
      ensures sent.Ok? ==> jobs[j].phase == Sent(conv.View(), sent.value)
      ensures sent.Err? ==> jobs[j].phase == Done(Err(sent.error))
    {
      hide Apply, Enabled;
      ghost var s := View();
      var msgs := ArmToken(conv, n, req, j);
      Then(w, s, [], s, Arm(j));
      trace := [] + [Arm(j)];
      if msgs == [] {
        return Err(NothingToSend), trace;
      }
      var streamed, ok;
      ghost var sends;
      streamed, ok, sends := SendAllMessages(conv, msgs, j);
      RunConcat(w, s, trace, sends);
      trace := trace + sends;
      if !ok {
        return Err(EngineFailed), trace;
      }
      ghost var s2 := View();
      Release(j, conv, streamed);
      Then(w, s, trace, s2, Disarm(j));
      trace := trace + [Disarm(j)];
      sent := Ok(streamed);
    }

    /** The end of the guard's scope clears the token, whatever it holds. */
    method Release(ghost j: nat, conv: Conversation, streamed: seq<Text>)
      requires j in jobs && jobs[j].phase == Sending(conv.View(), [], streamed)
      modifies this`jobs, this`cancelToken
      ensures Enabled(w, old(View()), Disarm(j)) && View() == Apply(w, old(View()), Disarm(j))
      ensures jobs.Keys == old(jobs.Keys) && jobs[j] == old(jobs[j]).(phase := Sent(conv.View(), streamed))
    {
      ghost var s := View();
      cancelToken := None;
      assert View() == s.(token := None);
      Advance(j, Sent(conv.View(), streamed));
    }

    /** Clones the advanced conversation into the pool under the key of the extended prefix. */
    method RecacheConversation(conv: Conversation, p: Prefix, req: Request, streamed: seq<Text>, ghost j: nat)
      returns (key: Option<nat>, ghost step: Action)
      requires j in jobs && jobs[j] == Job(req, Sent(conv.View(), streamed)) && p == PrefixOf(w, req)
      modifies this`cache, this`jobs
      ensures Inner(step) && Enabled(w, old(View()), step) && View() == Apply(w, old(View()), step)
      ensures j in jobs && jobs[j].req == req
      ensures key.Some? ==> jobs[j].phase == Recached(key.value, streamed)
      ensures key.None? ==> jobs[j].phase == Done(Err(EngineFailed))
    {
      hide VictimOk, Choose, Concat, CanonicalBytes, Donors, PrefixOf, Evicted, AfterRecache;
      ghost var s := View();
      var full := WithReply(p, Concat(streamed));
      var bytes := FillCanonicalBytes(full.system, full.sampler, full.turns);
      var fails := EngineFails();
      assert View() == s && w.hash(bytes) == KeyOf(w, full);
      if fails {
        Advance(j, Done(Err(EngineFailed)));
        return None, Fail(j);
      }
      var victim := StoreClone(conv, full, req, streamed, w.hash(bytes), j);
      key, step := Some(w.hash(bytes)), Recache(j, victim);
    }

    /** Stores a clone of the conversation. */
    method StoreClone(conv: Conversation, full: Prefix, req: Request, streamed: seq<Text>, key: nat, ghost j: nat)
      returns (victim: Option<nat>)
      requires j in jobs && jobs[j] == Job(req, Sent(conv.View(), streamed))
      requires full == FullPrefix(w, req, streamed) && key == KeyOf(w, full)
      modifies this`cache, this`jobs
      ensures var step := Recache(j, victim); Enabled(w, old(View()), step) && View() == Apply(w, old(View()), step)
      ensures j in jobs && jobs[j] == Job(req, Recached(key, streamed))
    {
      hide VictimOk, Evicted, KeyOf, FullPrefix, Donors;
      ghost var s := View();
      var toCache := conv.Clone();
      assert View() == s;
      victim := StoreConversation(key, toCache, |full.turns|);
      Advance(j, Recached(key, streamed));
    }

    /** Remembers the session's last key. */
    method SaveSession(session: Option<Text>, key: nat, streamed: seq<Text>, ghost j: nat)
      requires j in jobs && jobs[j].req.session == session && jobs[j].phase == Recached(key, streamed)
      modifies this`sessions, this`jobs
      ensures Enabled(w, old(View()), SavePin(j)) && View() == Apply(w, old(View()), SavePin(j))
      ensures j in jobs && jobs[j] == old(jobs[j]).(phase := Done(Ok(Answer(Concat(streamed), streamed))))
    {
      if session.Some? {
        sessions := sessions[session.value := key];
      }
      Advance(j, Done(Ok(Answer(Concat(streamed), streamed))));
    }

    /** Re-caches the conversation, saves the pin and answers. */
    method KeepAndAnswer(conv: Conversation, p: Prefix, req: Request, streamed: seq<Text>, ghost j: nat)
      returns (result: Result<Answer, Error>, ghost trace: seq<Action>)
      requires j in jobs && jobs[j] == Job(req, Sent(conv.View(), streamed)) && p == PrefixOf(w, req)
      modifies this`cache, this`jobs, this`sessions, this`clock
      ensures Run(w, old(View()), trace) == Some(View()) && OnlySubmits(trace, req)
      ensures j in jobs && jobs[j] == Job(req, Done(result))
    {
      hide Apply, Enabled, Concat, PrefixOf;
      ghost var s := View();
      ghost var d := Now();
      Then(w, s, [], s, Tick(d));
      trace := [] + [Tick(d)];
      ghost var s1 := View();
      var key;
      ghost var step;
      key, step := RecacheConversation(conv, p, req, streamed, j);
      Then(w, s, trace, s1, step);
      trace := trace + [step];
      if key.None? { return Err(EngineFailed), trace; }
      ghost var s2 := View();
      SaveSession(req.session, key.value, streamed, j);
      Then(w, s, trace, s2, SavePin(j));
      trace := trace + [SavePin(j)];
      result := Ok(Answer(Concat(streamed), streamed));
    }

    /**
     * One request from start to end. Its trace is a run of the state machine, so what every
     * interleaving keeps holds here too: on a pool in order, the answer is the cold one.
     */
    method RunStream(req: Request, j: nat) returns (result: Result<Answer, Error>, ghost trace: seq<Action>)
      requires j !in jobs
      modifies this
      ensures Run(w, old(View()), trace) == Some(View()) && OnlySubmits(trace, req)
      ensures j in jobs && jobs[j] == Job(req, Done(result))
      ensures forall u, empty :: InOrder(w, u, empty, old(View()), req) ==>
                && Inv(w, u, empty, View())
                && (result == ColdAnswer(w, req) || result == Err(EngineFailed))
                && (result.Ok? ==> RepliesTo(w, req, result.value))
                && (result.Err? && result.error != EngineFailed ==> Refuses(req, result.error))
    {
      hide RepliesTo, Refuses, ColdAnswer;
      result, trace := RunSteps(req, j);
      ghost var s, s' := old(View()), View();
      forall u, empty | InOrder(w, u, empty, s, req)
        ensures Inv(w, u, empty, s') && (result == ColdAnswer(w, req) || result == Err(EngineFailed))
      {
        AnswersCold(w, u, empty, s, trace, s', req, j);
      }
      ColdAnswerIs(w, req);
    }

    method RunSteps(req: Request, j: nat) returns (result: Result<Answer, Error>, ghost trace: seq<Action>)
      requires j !in jobs
      modifies this
      ensures Run(w, old(View()), trace) == Some(View()) && OnlySubmits(trace, req)
      ensures j in jobs && jobs[j] == Job(req, Done(result))
    {
      hide Apply, Concat, Choose, KeyOf, VictimOk;
      ghost var s := View();
      if InputToTurns(req.input).Err? {
        Refuse(req, j);
        Then(w, s, [], s, Submit(j, req));
        return Err(InputToTurns(req.input).error), [] + [Submit(j, req)];
      }
      var p := PrefixOf(w, req);
      var pin, got, sent;
      ghost var more;
      pin, trace := Accept(req, j);
      got, more := Acquire(p, pin, j);
      RunConcat(w, s, trace, more);
      trace := trace + more;
      if got.None? { return Err(EngineFailed), trace; }
      sent, more := Deliver(got.value.0, got.value.1, req, j);
      RunConcat(w, s, trace, more);
      trace := trace + more;
      if sent.Err? { return Err(sent.error), trace; }
      result, more := KeepAndAnswer(got.value.0, p, req, sent.value, j);
      RunConcat(w, s, trace, more);
      trace := trace + more;
    }
  }

  /** What a lookup, or the failure of its clone, makes of the state. */
  lemma LookupOutcome(w: Setup, s: State, j: nat, p: Prefix, pin: Option<nat>)
    requires j in s.jobs && s.jobs[j].phase == Pinned(pin) && PrefixOf(w, s.jobs[j].req) == p
    ensures var chosen := Choose(w, s, p, pin);
            if chosen.Some? && chosen.value.1 > 0 then
              var (k, n) := chosen.value;
              var touched := s.(cache := s.cache[k := s.cache[k].(lastUsed := s.now)]);
              && Enabled(w, s, Lookup(j)) && Apply(w, s, Lookup(j)) == SetPhase(touched, j, Ready(s.cache[k].conv, n))
              && Enabled(w, s, Fail(j)) && Apply(w, s, Fail(j)) == SetPhase(touched, j, Done(Err(EngineFailed)))
            else Enabled(w, s, Lookup(j)) && Apply(w, s, Lookup(j)) == SetPhase(s, j, Missed)
  {
    hide Choose, KeyOf, VictimOk, PrefixOf;
  }

  /** A step inside a request that no signal has cut short. */
  predicate Inner(a: Action) { !a.Submit? && !a.SendCut? }

  predicate OnlySubmits(trace: seq<Action>, req: Request) {
    forall a :: a in trace ==> Inner(a) || (a.Submit? && a.req == req)
  }

  /** A slot in order, asked something admissible, with keys that do not collide. */
  ghost predicate InOrder(w: Setup, u: iset<Text>, empty: Option<Text>, s: State, req: Request) {
    w.cacheSize > 0 && CollisionFree(w, u) && Inv(w, u, empty, s) && Admissible(w, u, empty, req)
  }

  lemma AnswersCold(w: Setup, u: iset<Text>, empty: Option<Text>, s: State, trace: seq<Action>, s': State,
                    req: Request, j: nat)
    requires InOrder(w, u, empty, s, req)
    requires Run(w, s, trace) == Some(s') && OnlySubmits(trace, req)
    requires j in s'.jobs && s'.jobs[j].req == req && s'.jobs[j].phase.Done?
    ensures Inv(w, u, empty, s')
    ensures s'.jobs[j].phase.result == ColdAnswer(w, req) || s'.jobs[j].phase.result == Err(EngineFailed)
  {
    hide Run, Admissible, EntryOk, CollisionFree, ColdAnswer;
    RunKeeps(w, u, empty, s, trace);
    assert JobOk(w, u, empty, s'.jobs[j]);
  }
}
