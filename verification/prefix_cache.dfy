// The LiteRT-LM slot as a state machine: many requests step through lookup,
// replay, re-cache and pin update on one shared pool, in any interleaving.
module PrefixCache {
  import opened Texts
  import opened Proto
  import opened CacheKey

  /** The state of one engine conversation: how it was created and the messages sent on it. */
  datatype Conv = Conv(system: Option<Text>, sampler: Sampler, sent: seq<Text>)

  /** The engine (chunks of the reply to the last message sent), the key hash, and the slot's settings. */
  datatype Setup = Setup(
    chunks: Conv -> seq<Text>, hash: Text -> nat, cacheSize: nat, ttl: nat, defaultSystem: Option<Text>)

  datatype Request = Request(
    input: InferenceInput, session: Option<Text>,
    systemPrompt: Option<Text>, topP: Option<F32>, temperature: Option<F32>)

  datatype Error = AudioUnsupported | EmptyInput | NothingToSend | EngineFailed

  /** The reply text, and the chunks that went to the wire. */
  datatype Answer = Answer(text: Text, streamed: seq<Text>)

  datatype Entry = Entry(conv: Conv, turnCount: nat, lastUsed: nat)

  datatype Phase =
    | Submitted
    | Pinned(pin: Option<nat>)
    | Missed
    | Ready(conv: Conv, n: nat)
    | Sending(conv: Conv, todo: seq<Text>, streamed: seq<Text>)
    | Sent(conv: Conv, streamed: seq<Text>)
    | Recached(key: nat, streamed: seq<Text>)
    | Done(result: Result<Answer, Error>)

  datatype Job = Job(req: Request, phase: Phase)

  /** `token`: the job whose handle the shared cancel token holds; `signalled`: the jobs that were cancelled. */
  datatype State = State(
    cache: map<nat, Entry>, sessions: map<Text, nat>, token: Option<nat>, signalled: set<nat>, now: nat,
        jobs: map<nat, Job>)

  const Init := State(map[], map[], None, {}, 0, map[])

  // 0.95 and 0.8 as f32 bits
  const DEFAULT_TOP_P: F32 := 0x3F73_3333
  const DEFAULT_TEMPERATURE: F32 := 0x3F4C_CCCD

  function OrElse<T>(o: Option<T>, d: T): T {
    if o.Some? then o.value else d
  }

  function InputToTurns(input: InferenceInput): Result<seq<Turn>, Error> {
    match input
    case TextInput(s) => Ok([UserTurn(s)])
    case TurnsInput(t) => if t == [] then Err(EmptyInput) else Ok(t)
    case PcmInput => Err(AudioUnsupported)
    case MelInput => Err(AudioUnsupported)
  }

  function Turns(r: Request): seq<Turn> {
    match InputToTurns(r.input) case Ok(t) => t case Err(_) => []
  }

  predicate IsSendable(t: Turn) { t.role.User? || t.role.Tool? }

  /** The contents that are sent to the engine: those of User and Tool turns. */
  function SendableContents(turns: seq<Turn>): seq<Text> {
    if turns == [] then []
    else if IsSendable(turns[0]) then [turns[0].content] + SendableContents(turns[1..])
    else SendableContents(turns[1..])
  }

  /** The prefix a request asks about, with the request's overrides applied. */
  function PrefixOf(w: Setup, r: Request): Prefix {
    Prefix(if r.systemPrompt.Some? then r.systemPrompt else w.defaultSystem,
           Sampler(OrElse(r.topP, DEFAULT_TOP_P), OrElse(r.temperature, DEFAULT_TEMPERATURE)),
           Turns(r))
  }

  function Take(p: Prefix, n: nat): Prefix
    requires n <= |p.turns|
  {
    p.(turns := p.turns[..n])
  }

  /** The prefix extended by the reply: what is cached after a request. */
  function WithReply(p: Prefix, text: Text): Prefix {
    p.(turns := p.turns + [AssistantTurn(text)])
  }

  function KeyOf(w: Setup, p: Prefix): nat { w.hash(CanonicalBytes(p)) }

  /** The conversation that has been fed every sendable message of the prefix. */
  function Replayed(p: Prefix): Conv {
    Conv(p.system, p.sampler, SendableContents(p.turns))
  }

  /** What a slot that never caches anything answers, when the engine works. */
  function ColdAnswer(w: Setup, r: Request): Result<Answer, Error> {
    match InputToTurns(r.input)
    case Err(e) => Err(e)
    case Ok(_) =>
      var c := Replayed(PrefixOf(w, r));
      if c.sent == [] then Err(NothingToSend)
      else Ok(Answer(Concat(w.chunks(c)), w.chunks(c)))
  }

  // ---- Lookup ----

  predicate Fresh(w: Setup, s: State, k: nat) {
    k in s.cache && s.now - s.cache[k].lastUsed < w.ttl
  }

  /** The session pin, when it is cached, not expired and hashes like the request's own prefix. */
  function TryPin(w: Setup, s: State, p: Prefix, pin: Option<nat>): Option<(nat, nat)> {
    if pin.Some? && Fresh(w, s, pin.value) && s.cache[pin.value].turnCount <= |p.turns|
       && KeyOf(w, Take(p, s.cache[pin.value].turnCount)) == pin.value
    then Some((pin.value, s.cache[pin.value].turnCount))
    else None
  }

  /** The longest prefix of at most n turns that is cached and not expired. */
  function Scan(w: Setup, s: State, p: Prefix, n: nat): (r: Option<(nat, nat)>)
    requires n <= |p.turns|
    ensures r.Some? ==> r.value.1 <= n && r.value.0 == KeyOf(w, Take(p, r.value.1)) && Fresh(w, s, r.value.0)
  {
    var k := KeyOf(w, Take(p, n));
    if Fresh(w, s, k) then Some((k, n))
    else if n == 0 then None
    else Scan(w, s, p, n - 1)
  }

  /** The scan finds the longest prefix whose entry was used less than the TTL ago. */
  lemma {:induction false} ScanFindsLongest(w: Setup, s: State, p: Prefix, n: nat, i: nat)
    requires i <= n <= |p.turns|
    requires var k := KeyOf(w, Take(p, i)); k in s.cache && s.now - s.cache[k].lastUsed < w.ttl
    ensures Scan(w, s, p, n).Some? && i <= Scan(w, s, p, n).value.1
  {
    if i < n { ScanFindsLongest(w, s, p, n - 1, i); }
  }

  function Choose(w: Setup, s: State, p: Prefix, pin: Option<nat>): (r: Option<(nat, nat)>)
    ensures r.Some? ==> r.value.1 <= |p.turns| && r.value.0 == KeyOf(w, Take(p, r.value.1)) && Fresh(w, s, r.value.0)
  {
    var pinned := TryPin(w, s, p, pin);
    if pinned.Some? then pinned else Scan(w, s, p, |p.turns|)
  }

  /** Whatever is chosen was used less than the TTL ago; when nothing was, nothing is chosen. */
  lemma ChosenInTime(w: Setup, s: State, p: Prefix, pin: Option<nat>)
    ensures var chosen := Choose(w, s, p, pin);
            chosen.Some? ==> chosen.value.0 in s.cache && s.now - s.cache[chosen.value.0].lastUsed < w.ttl
    ensures (forall k :: k in s.cache ==> s.now - s.cache[k].lastUsed >= w.ttl) ==> Choose(w, s, p, pin) == None
  {
    var chosen := Choose(w, s, p, pin);
    hide Choose;
    assert chosen.Some? ==> Fresh(w, s, chosen.value.0);
  }

  // ---- Steps ----

  datatype Action =
    | Submit(j: nat, req: Request)
    | ReadPin(j: nat)
    | Lookup(j: nat)
    | Create(j: nat)
    | Arm(j: nat)
    | Send(j: nat)
    | Disarm(j: nat)
    | Recache(j: nat, victim: Option<nat>)
    | SavePin(j: nat)
    | Fail(j: nat)
    | Tick(d: nat)
    | Signal
    | SendCut(j: nat, conv: Conv, chunks: seq<Text>)

  function SetPhase(s: State, j: nat, ph: Phase): State
    requires j in s.jobs
  {
    s.(jobs := s.jobs[j := s.jobs[j].(phase := ph)])
  }

  predicate LeastRecent(cache: map<nat, Entry>, k: nat) {
    k in cache && forall i :: i in cache ==> cache[k].lastUsed <= cache[i].lastUsed
  }

  /** A victim is taken exactly when the pool is full and the key is new, and it is least recently used. */
  predicate VictimOk(w: Setup, cache: map<nat, Entry>, key: nat, victim: Option<nat>) {
    if |cache| >= w.cacheSize && key !in cache && cache != map[]
    then victim.Some? && LeastRecent(cache, victim.value)
    else victim.None?
  }

  function Evicted(cache: map<nat, Entry>, victim: Option<nat>): map<nat, Entry> {
    if victim.Some? then cache - {victim.value} else cache
  }

  /** The prefix under which a finished job re-caches its conversation. */
  function FullPrefix(w: Setup, r: Request, streamed: seq<Text>): Prefix {
    WithReply(PrefixOf(w, r), Concat(streamed))
  }

  predicate Enabled(w: Setup, s: State, a: Action) {
    match a
    case Submit(j, _) => j !in s.jobs
    case ReadPin(j) => j in s.jobs && s.jobs[j].phase.Submitted?
    case Lookup(j) => j in s.jobs && s.jobs[j].phase.Pinned?
    case Create(j) => j in s.jobs && s.jobs[j].phase.Missed?
    case Arm(j) => j in s.jobs && s.jobs[j].phase.Ready? && s.jobs[j].phase.n <= |Turns(s.jobs[j].req)|
    case Send(j) => j in s.jobs && s.jobs[j].phase.Sending? && s.jobs[j].phase.todo != []
    case Disarm(j) => j in s.jobs && s.jobs[j].phase.Sending? && s.jobs[j].phase.todo == []
    case Recache(j, v) =>
      && j in s.jobs && s.jobs[j].phase.Sent?
      && VictimOk(w, s.cache, KeyOf(w, FullPrefix(w, s.jobs[j].req, s.jobs[j].phase.streamed)), v)
    case SavePin(j) => j in s.jobs && s.jobs[j].phase.Recached?
    case Fail(j) =>
      // the engine calls that can fail: clone on a hit, creation, send, clone before re-caching
      && j in s.jobs
      && var ph := s.jobs[j].phase;
         (ph.Pinned? && AfterLookup(w, s, j).jobs[j].phase.Ready?) || ph.Missed? || ph.Sending? || ph.Sent?
    case Tick(_) => true
    case Signal => true
    case SendCut(j, _, _) => j in s.jobs && s.jobs[j].phase.Sending? && s.jobs[j].phase.todo != [] && j in s.signalled
  }

  /** Unsupported and empty inputs are refused before anything else happens. */
  function SubmittedJob(r: Request): Job {
    Job(r, match InputToTurns(r.input) case Ok(_) => Submitted case Err(e) => Done(Err(e)))
  }

  function AfterLookup(w: Setup, s: State, j: nat): State
    requires j in s.jobs && s.jobs[j].phase.Pinned?
  {
    match Choose(w, s, PrefixOf(w, s.jobs[j].req), s.jobs[j].phase.pin)
    case Some((k, n)) =>
      if n > 0 then
        SetPhase(s.(cache := s.cache[k := s.cache[k].(lastUsed := s.now)]), j, Ready(s.cache[k].conv, n))
      else SetPhase(s, j, Missed)
    case None => SetPhase(s, j, Missed)
  }

  function AfterArm(s: State, j: nat): State
    requires j in s.jobs && s.jobs[j].phase.Ready? && s.jobs[j].phase.n <= |Turns(s.jobs[j].req)|
  {
    var Ready(conv, n) := s.jobs[j].phase;
    var todo := SendableContents(Turns(s.jobs[j].req)[n..]);
    if todo == [] then SetPhase(s, j, Done(Err(NothingToSend)))
    else SetPhase(s.(token := Some(j)), j, Sending(conv, todo, []))
  }

  function AfterSend(w: Setup, s: State, j: nat): State
    requires j in s.jobs && s.jobs[j].phase.Sending? && s.jobs[j].phase.todo != []
  {
    var Sending(conv, todo, streamed) := s.jobs[j].phase;
    var conv' := conv.(sent := conv.sent + [todo[0]]);
    // only the last message's chunks are kept and forwarded
    SetPhase(s, j, Sending(conv', todo[1..], if |todo| == 1 then w.chunks(conv') else []))
  }

  /** `cancel_in_flight`: signals the job whose handle the token holds, if it holds one. */
  function AfterCancel(s: State): State {
    if s.token.Some? then s.(signalled := s.signalled + {s.token.value}) else s
  }

  /** Whether `cancel_in_flight` says that it delivered a signal. */
  predicate CancelDelivers(s: State) {
    s.token.Some?
  }

  /** A send that a signal cut short: the engine leaves some conversation behind and has streamed some chunks. */
  function AfterSendCut(s: State, j: nat, conv: Conv, chunks: seq<Text>): State
    requires j in s.jobs && s.jobs[j].phase.Sending? && s.jobs[j].phase.todo != []
  {
    var todo := s.jobs[j].phase.todo;
    SetPhase(s, j, Sending(conv, todo[1..], if |todo| == 1 then chunks else []))
  }

  function AfterRecache(w: Setup, s: State, j: nat, victim: Option<nat>): State
    requires j in s.jobs && s.jobs[j].phase.Sent?
  {
    var Sent(conv, streamed) := s.jobs[j].phase;
    var p := FullPrefix(w, s.jobs[j].req, streamed);
    var k := KeyOf(w, p);
    SetPhase(s.(cache := Evicted(s.cache, victim)[k := Entry(conv, |p.turns|, s.now)]), j, Recached(k, streamed))
  }

  function AfterSavePin(s: State, j: nat): State
    requires j in s.jobs && s.jobs[j].phase.Recached?
  {
    var Recached(k, streamed) := s.jobs[j].phase;
    var id := s.jobs[j].req.session;
    SetPhase(if id.Some? then s.(sessions := s.sessions[id.value := k]) else s, j,
             Done(Ok(Answer(Concat(streamed), streamed))))
  }

  function Apply(w: Setup, s: State, a: Action): State
    requires Enabled(w, s, a)
  {
    match a
    case Submit(j, r) =>
      s.(jobs := s.jobs[j := SubmittedJob(r)])
    case ReadPin(j) =>
      var id := s.jobs[j].req.session;
      SetPhase(s, j, Pinned(if id.Some? && id.value in s.sessions then Some(s.sessions[id.value]) else None))
    case Lookup(j) => AfterLookup(w, s, j)
    case Create(j) =>
      var p := PrefixOf(w, s.jobs[j].req);
      SetPhase(s, j, Ready(Conv(p.system, p.sampler, []), 0))
    case Arm(j) => AfterArm(s, j)
    case Send(j) => AfterSend(w, s, j)
    case Disarm(j) => SetPhase(s.(token := None), j, Sent(s.jobs[j].phase.conv, s.jobs[j].phase.streamed))
    case Recache(j, v) => AfterRecache(w, s, j, v)
    case SavePin(j) => AfterSavePin(s, j)
    case Fail(j) =>
      // a hit is marked as used before its clone can fail; the guard of the send loop clears the token
      var s1 := if s.jobs[j].phase.Pinned? then AfterLookup(w, s, j)
                else if s.jobs[j].phase.Sending? then s.(token := None) else s;
      SetPhase(s1, j, Done(Err(EngineFailed)))
    case Tick(d) => s.(now := s.now + d)
    case Signal => AfterCancel(s)
    case SendCut(j, conv, chunks) => AfterSendCut(s, j, conv, chunks)
  }

  function Run(w: Setup, s: State, actions: seq<Action>): Option<State>
    decreases |actions|
  {
    if actions == [] then Some(s)
    else if Enabled(w, s, actions[0]) then Run(w, Apply(w, s, actions[0]), actions[1..])
    else None
  }

  /** A hit takes the entry's conversation and marks that entry, and no other, as used now. */
  lemma HitMarksUse(w: Setup, s: State, j: nat)
    requires Enabled(w, s, Lookup(j)) && Apply(w, s, Lookup(j)).jobs[j].phase.Ready?
    ensures var s' := Apply(w, s, Lookup(j));
            exists k :: k in s.cache && s'.cache == s.cache[k := Entry(s.cache[k].conv, s.cache[k].turnCount, s.now)]
              && s.now - s.cache[k].lastUsed < w.ttl && s'.jobs[j].phase.conv == s.cache[k].conv
  {
    ChosenInTime(w, s, PrefixOf(w, s.jobs[j].req), s.jobs[j].phase.pin);
    hide Choose;
  }

  // ---- What every interleaving keeps ----

  /** The hash does not collide on the byte strings of `u`. */
  ghost predicate CollisionFree(w: Setup, u: iset<Text>) {
    forall a, b :: a in u && b in u && w.hash(a) == w.hash(b) ==> a == b
  }

  /** `None` and `Some("")` share a key, so one slot may see only one of them. */
  predicate SystemAgrees(empty: Option<Text>, system: Option<Text>) {
    SystemText(system) == "" ==> system == empty
  }

  /** No Assistant turn comes after the last User or Tool turn. */
  predicate EndsOpen(turns: seq<Turn>) {
    turns != [] &&
    var last := turns[|turns| - 1].role;
    !last.Assistant? && (last.System? ==> EndsOpen(turns[..|turns| - 1]))
  }

  /** A request whose keys stay within `u` and whose answer cannot depend on the cache. */
  ghost predicate Admissible(w: Setup, u: iset<Text>, empty: Option<Text>, r: Request) {
    var p := PrefixOf(w, r);
    && WellFormed(p)
    && SystemAgrees(empty, p.system)
    && (SendableContents(p.turns) == [] || EndsOpen(p.turns))
    && (forall n: nat :: n <= |p.turns| ==> CanonicalBytes(Take(p, n)) in u)
    && (ColdAnswer(w, r).Ok? ==>
          && CanonicalBytes(WithReply(p, ColdAnswer(w, r).value.text)) in u
          && |ColdAnswer(w, r).value.text| < TWO_TO_THE_32)
  }

  /** The entry under key k is the replay of the prefix that k hashes. */
  ghost predicate Describes(w: Setup, u: iset<Text>, empty: Option<Text>, p: Prefix, k: nat, e: Entry) {
    && WellFormed(p) && SystemAgrees(empty, p.system) && CanonicalBytes(p) in u
    && k == KeyOf(w, p)
    && e.conv == Replayed(p)
    && e.turnCount == |p.turns| >= 2
    && p.turns[|p.turns| - 1].role.Assistant?
  }

  ghost predicate EntryOk(w: Setup, u: iset<Text>, empty: Option<Text>, k: nat, e: Entry) {
    exists p :: Describes(w, u, empty, p, k, e)
  }

  ghost predicate PhaseOk(w: Setup, r: Request, ph: Phase) {
    var p := PrefixOf(w, r);
    var full := Replayed(p);
    match ph
    case Ready(conv, n) =>
      && n <= |p.turns| && conv == Replayed(Take(p, n))
      && (n > 0 ==> n >= 2 && p.turns[n - 1].role.Assistant?)
    case Sending(conv, todo, streamed) =>
      && full.sent != [] && conv.(sent := conv.sent + todo) == full
      && (todo == [] ==> streamed == w.chunks(full))
    case Sent(conv, streamed) => full.sent != [] && conv == full && streamed == w.chunks(full)
    case Recached(_, streamed) => full.sent != [] && streamed == w.chunks(full)
    case Done(result) => result == ColdAnswer(w, r) || result == Err(EngineFailed)
    case _ => true
  }

  ghost predicate JobOk(w: Setup, u: iset<Text>, empty: Option<Text>, job: Job) {
    && Admissible(w, u, empty, job.req)
    && (job.phase.Done? || Turns(job.req) != [])
    && PhaseOk(w, job.req, job.phase)
  }

  ghost predicate CacheOk(w: Setup, u: iset<Text>, empty: Option<Text>, cache: map<nat, Entry>, now: nat) {
    && (forall k :: k in cache ==> EntryOk(w, u, empty, k, cache[k]) && cache[k].lastUsed <= now)
    && |cache| <= w.cacheSize
  }

  ghost predicate JobsOk(w: Setup, u: iset<Text>, empty: Option<Text>, jobs: map<nat, Job>) {
    forall j :: j in jobs ==> JobOk(w, u, empty, jobs[j])
  }

  /** A handle in the shared cancel token belongs to a conversation that is in its send loop. */
  predicate TokenLive(s: State) {
    s.token.Some? ==> s.token.value in s.jobs && s.jobs[s.token.value].phase.Sending?
  }

  ghost predicate Inv(w: Setup, u: iset<Text>, empty: Option<Text>, s: State) {
    && CacheOk(w, u, empty, s.cache, s.now)
    && JobsOk(w, u, empty, s.jobs)
    && TokenLive(s)
  }

  lemma EmptySendsNothing()
    ensures SendableContents([]) == []
  {}

  lemma {:induction false} SendableConcat(a: seq<Turn>, b: seq<Turn>)
    ensures SendableContents(a + b) == SendableContents(a) + SendableContents(b)
  {
    if a == [] {
      assert a + b == b;
    } else {
      SendableConcat(a[1..], b);
      assert (a + b)[0] == a[0] && (a + b)[1..] == a[1..] + b;
    }
  }

  lemma SendableSplit(turns: seq<Turn>, n: nat)
    requires n <= |turns|
    ensures SendableContents(turns) == SendableContents(turns[..n]) + SendableContents(turns[n..])
  {
    SendableConcat(turns[..n], turns[n..]);
    assert turns == turns[..n] + turns[n..];
  }

  /** A suffix after an Assistant turn of an open turn list still has something to send. */
  lemma {:induction false} OpenSuffixSends(turns: seq<Turn>, n: nat)
    requires EndsOpen(turns) && 0 < n <= |turns| && turns[n - 1].role.Assistant?
    ensures SendableContents(turns[n..]) != []
  {
    var m := |turns| - 1;
    assert n <= m;
    assert turns[n..] == turns[n..m] + [turns[m]];
    SendableConcat(turns[n..m], [turns[m]]);
    if turns[m].role.System? {
      OpenSuffixSends(turns[..m], n);
      assert turns[..m][n..] == turns[n..m];
    }
  }

  /** Two described prefixes under one key are the same prefix. */
  lemma KeyIdentifies(w: Setup, u: iset<Text>, empty: Option<Text>, p: Prefix, q: Prefix)
    requires CollisionFree(w, u)
    requires WellFormed(p) && SystemAgrees(empty, p.system) && CanonicalBytes(p) in u
    requires WellFormed(q) && SystemAgrees(empty, q.system) && CanonicalBytes(q) in u
    requires KeyOf(w, p) == KeyOf(w, q)
    ensures p == q
  {
    KeyBytesInjective(p, q);
  }

  /** A hit of a lookup is a replay of the request's own turns, of at least two turns, ending in an Assistant turn. */
  lemma HitIsOwnPrefix(w: Setup, u: iset<Text>, empty: Option<Text>, s: State, r: Request, k: nat, n: nat)
    requires CollisionFree(w, u) && Admissible(w, u, empty, r)
    requires n <= |Turns(r)| && k == KeyOf(w, Take(PrefixOf(w, r), n)) && k in s.cache
    requires EntryOk(w, u, empty, k, s.cache[k])
    ensures s.cache[k].conv == Replayed(Take(PrefixOf(w, r), n))
    ensures n >= 2 && Turns(r)[n - 1].role.Assistant?
  {
    var p := Take(PrefixOf(w, r), n);
    var q :| Describes(w, u, empty, q, k, s.cache[k]);
    assert WellFormed(p);
    KeyIdentifies(w, u, empty, p, q);
  }

  lemma SetPhaseKeeps(w: Setup, u: iset<Text>, empty: Option<Text>, s: State, j: nat, ph: Phase)
    requires JobsOk(w, u, empty, s.jobs) && j in s.jobs && JobOk(w, u, empty, s.jobs[j].(phase := ph))
    ensures JobsOk(w, u, empty, SetPhase(s, j, ph).jobs)
  {
    hide JobOk;
  }

  lemma UpdateKeepsSize<K, V>(m: map<K, V>, k: K, v: V)
    requires k in m
    ensures |m[k := v]| == |m|
  {
    assert m[k := v].Keys == m.Keys;
    assert |m[k := v]| == |m[k := v].Keys| && |m| == |m.Keys|;
  }

  lemma TouchEntry(w: Setup, u: iset<Text>, empty: Option<Text>, k: nat, e: Entry, now: nat)
    requires EntryOk(w, u, empty, k, e)
    ensures EntryOk(w, u, empty, k, e.(lastUsed := now))
  {
    var q :| Describes(w, u, empty, q, k, e);
    assert Describes(w, u, empty, q, k, e.(lastUsed := now));
  }

  /** Using an entry only refreshes its time. */
  lemma TouchKeeps(w: Setup, u: iset<Text>, empty: Option<Text>, cache: map<nat, Entry>, k: nat, now: nat)
    requires CacheOk(w, u, empty, cache, now) && k in cache
    ensures CacheOk(w, u, empty, cache[k := cache[k].(lastUsed := now)], now)
  {
    hide EntryOk;
    TouchEntry(w, u, empty, k, cache[k], now);
    UpdateKeepsSize(cache, k, cache[k].(lastUsed := now));
  }

  lemma HitKeepsJob(w: Setup, u: iset<Text>, empty: Option<Text>, s: State, job: Job, k: nat, n: nat)
    requires CollisionFree(w, u) && JobOk(w, u, empty, job) && job.phase.Pinned?
    requires n <= |Turns(job.req)| && k == KeyOf(w, Take(PrefixOf(w, job.req), n)) && k in s.cache
    requires EntryOk(w, u, empty, k, s.cache[k])
    ensures JobOk(w, u, empty, job.(phase := Ready(s.cache[k].conv, n)))
  {
    hide Admissible, EntryOk, KeyOf;
    HitIsOwnPrefix(w, u, empty, s, job.req, k, n);
  }

  lemma LookupKeeps(w: Setup, u: iset<Text>, empty: Option<Text>, s: State, j: nat)
    requires CollisionFree(w, u) && Inv(w, u, empty, s) && Enabled(w, s, Lookup(j))
    ensures Inv(w, u, empty, AfterLookup(w, s, j))
  {
    hide EntryOk, JobOk, Choose, CollisionFree, KeyOf, Scan, TryPin, VictimOk;
    var job := s.jobs[j];
    MissKeepsJob(w, u, empty, job);
    match Choose(w, s, PrefixOf(w, job.req), job.phase.pin)
    case Some((k, n)) =>
      if n > 0 {
        assert EntryOk(w, u, empty, k, s.cache[k]);
        HitKeepsJob(w, u, empty, s, job, k, n);
        TouchKeeps(w, u, empty, s.cache, k, s.now);
        SetPhaseKeeps(w, u, empty, s.(cache := s.cache[k := s.cache[k].(lastUsed := s.now)]), j,
            Ready(s.cache[k].conv, n));
      } else {
        SetPhaseKeeps(w, u, empty, s, j, Missed);
      }
    case None => SetPhaseKeeps(w, u, empty, s, j, Missed);
  }

  lemma MissKeepsJob(w: Setup, u: iset<Text>, empty: Option<Text>, job: Job)
    requires JobOk(w, u, empty, job) && job.phase.Pinned?
    ensures JobOk(w, u, empty, job.(phase := Missed))
  {}

  lemma ArmKeeps(w: Setup, u: iset<Text>, empty: Option<Text>, s: State, j: nat)
    requires Inv(w, u, empty, s) && Enabled(w, s, Arm(j))
    ensures Inv(w, u, empty, Apply(w, s, Arm(j)))
  {
    hide CacheOk, JobOk, SendableContents;
    ArmKeepsJob(w, u, empty, s, j);
    SetPhaseKeeps(w, u, empty, s, j, AfterArm(s, j).jobs[j].phase);
  }

  lemma ArmKeepsJob(w: Setup, u: iset<Text>, empty: Option<Text>, s: State, j: nat)
    requires Enabled(w, s, Arm(j)) && JobOk(w, u, empty, s.jobs[j])
    ensures var s' := Apply(w, s, Arm(j)); s'.jobs[j].req == s.jobs[j].req && JobOk(w, u, empty, s'.jobs[j])
  {
    hide Admissible, ColdAnswer, SendableContents;
    ArmAnswersCold(w, u, empty, s.jobs[j]);
  }

  /** An armed job has the request's messages still to send, or the cold slot has none either. */
  lemma ArmAnswersCold(w: Setup, u: iset<Text>, empty: Option<Text>, job: Job)
    requires JobOk(w, u, empty, job) && job.phase.Ready?
    ensures var p := PrefixOf(w, job.req);
            var todo := SendableContents(p.turns[job.phase.n..]);
            && job.phase.conv.(sent := job.phase.conv.sent + todo) == Replayed(p)
            && (todo == [] ==> ColdAnswer(w, job.req) == Err(NothingToSend))
  {
    var p, n := PrefixOf(w, job.req), job.phase.n;
    SendableSplit(p.turns, n);
    if n > 0 && EndsOpen(p.turns) {
      OpenSuffixSends(p.turns, n);
    } else if n == 0 {
      assert p.turns[n..] == p.turns;
    }
  }

  lemma SendKeeps(w: Setup, u: iset<Text>, empty: Option<Text>, s: State, j: nat)
    requires Inv(w, u, empty, s) && Enabled(w, s, Send(j))
    ensures Inv(w, u, empty, Apply(w, s, Send(j)))
  {
    hide CacheOk, JobOk;
    SendKeepsJob(w, u, empty, s, j);
    SetPhaseKeeps(w, u, empty, s, j, AfterSend(w, s, j).jobs[j].phase);
  }

  lemma SendKeepsJob(w: Setup, u: iset<Text>, empty: Option<Text>, s: State, j: nat)
    requires Enabled(w, s, Send(j)) && JobOk(w, u, empty, s.jobs[j])
    ensures var s' := Apply(w, s, Send(j)); s'.jobs[j].req == s.jobs[j].req && JobOk(w, u, empty, s'.jobs[j])
  {
    hide Admissible, ColdAnswer, SendableContents;
    var Sending(conv, todo, streamed) := s.jobs[j].phase;
    assert conv.sent + [todo[0]] + todo[1..] == conv.sent + todo;
    assert todo[1..] == [] ==> conv.sent + [todo[0]] == conv.sent + todo;
  }

  /** What is inserted describes the prefix it is keyed by. */
  lemma RecachedEntryOk(w: Setup, u: iset<Text>, empty: Option<Text>, job: Job, now: nat)
    requires JobOk(w, u, empty, job) && job.phase.Sent?
    ensures var p := FullPrefix(w, job.req, job.phase.streamed);
            EntryOk(w, u, empty, KeyOf(w, p), Entry(job.phase.conv, |p.turns|, now))
  {
    var p := PrefixOf(w, job.req);
    var reply := AssistantTurn(Concat(job.phase.streamed));
    var full := FullPrefix(w, job.req, job.phase.streamed);
    SendableConcat(p.turns, [reply]);
    assert SendableContents([reply]) == [];
    assert Describes(w, u, empty, full, KeyOf(w, full), Entry(job.phase.conv, |full.turns|, now));
  }

  /**
   * Storing an entry, at a time no earlier than any use so far: the pool stays within its bound, the
   * new entry is there, every other entry but the victim survives as it was, and the victim was used
   * no later than any entry that is there now.
   */
  lemma RecacheBound(w: Setup, cache: map<nat, Entry>, k: nat, victim: Option<nat>, e: Entry)
    requires VictimOk(w, cache, k, victim) && |cache| <= w.cacheSize && w.cacheSize > 0
    requires forall i :: i in cache ==> cache[i].lastUsed <= e.lastUsed
    ensures var after := Evicted(cache, victim)[k := e];
            && |after| <= w.cacheSize
            && k in after && after[k] == e
            && (forall i :: i in cache && i != k && Some(i) != victim ==> i in after && after[i] == cache[i])
            && (forall i :: i in after ==> i == k || i in cache)
            && (victim.Some? ==> victim.value in cache && victim.value !in after)
            && (victim.Some? ==> forall i :: i in after ==> cache[victim.value].lastUsed <= after[i].lastUsed)
  {
    var rest := Evicted(cache, victim);
    if victim.Some? {
      assert rest.Keys == cache.Keys - {victim.value};
      assert |rest.Keys| == |cache.Keys| - 1;
    }
    assert rest[k := e].Keys == rest.Keys + {k};
    assert k in rest.Keys ==> rest.Keys + {k} == rest.Keys;
  }

  lemma SentKeepsJob(w: Setup, u: iset<Text>, empty: Option<Text>, job: Job, k: nat)
    requires JobOk(w, u, empty, job) && job.phase.Sent?
    ensures JobOk(w, u, empty, job.(phase := Recached(k, job.phase.streamed)))
  {}

  lemma RecacheKeeps(w: Setup, u: iset<Text>, empty: Option<Text>, s: State, j: nat, victim: Option<nat>)
    requires w.cacheSize > 0 && Inv(w, u, empty, s) && Enabled(w, s, Recache(j, victim))
    ensures Inv(w, u, empty, Apply(w, s, Recache(j, victim)))
  {
    hide CacheOk, JobOk, FullPrefix, KeyOf, VictimOk, Evicted;
    var job := s.jobs[j];
    var p := FullPrefix(w, job.req, job.phase.streamed);
    RecachedEntryOk(w, u, empty, job, s.now);
    StoreKeeps(w, u, empty, s.cache, KeyOf(w, p), victim, Entry(job.phase.conv, |p.turns|, s.now));
    SentKeepsJob(w, u, empty, job, KeyOf(w, p));
    SetPhaseKeeps(w, u, empty, s, j, Recached(KeyOf(w, p), job.phase.streamed));
  }

  lemma StoreKeeps(w: Setup, u: iset<Text>, empty: Option<Text>, cache: map<nat, Entry>, k: nat, victim: Option<nat>,
                   e: Entry)
    requires w.cacheSize > 0 && CacheOk(w, u, empty, cache, e.lastUsed)
    requires VictimOk(w, cache, k, victim) && EntryOk(w, u, empty, k, e)
    ensures CacheOk(w, u, empty, Evicted(cache, victim)[k := e], e.lastUsed)
  {
    hide EntryOk, VictimOk, Evicted;
    RecacheBound(w, cache, k, victim, e);
  }

  predicate Quiet(a: Action) {
    a.ReadPin? || a.Create? || a.Disarm? || a.SavePin?
  }

  lemma QuietKeepsJob(w: Setup, u: iset<Text>, empty: Option<Text>, s: State, a: Action)
    requires Quiet(a) && Enabled(w, s, a) && JobOk(w, u, empty, s.jobs[a.j])
    ensures JobOk(w, u, empty, Apply(w, s, a).jobs[a.j])
  {
    hide Admissible, Concat, SendableContents, VictimOk, KeyOf;
    if a.Create? {
      assert Take(PrefixOf(w, s.jobs[a.j].req), 0).turns == [];
      EmptySendsNothing();
    }
  }

  /** The steps that leave the pool and the clock alone. */
  lemma QuietStepKeeps(w: Setup, u: iset<Text>, empty: Option<Text>, s: State, a: Action)
    requires JobsOk(w, u, empty, s.jobs) && TokenLive(s) && Quiet(a) && Enabled(w, s, a)
    ensures JobsOk(w, u, empty, Apply(w, s, a).jobs) && TokenLive(Apply(w, s, a))
  {
    hide JobOk, VictimOk, KeyOf, PrefixOf;
    QuietKeepsJob(w, u, empty, s, a);
    SetPhaseKeeps(w, u, empty, s, a.j, Apply(w, s, a).jobs[a.j].phase);
  }

  lemma LookupKeepsRequest(w: Setup, s: State, j: nat)
    requires j in s.jobs && s.jobs[j].phase.Pinned?
    ensures var s' := AfterLookup(w, s, j);
            j in s'.jobs && s'.jobs[j].req == s.jobs[j].req && !s'.jobs[j].phase.Sending?
  {
    hide Choose;
  }

  lemma FailedJobOk(w: Setup, u: iset<Text>, empty: Option<Text>, job: Job)
    requires JobOk(w, u, empty, job)
    ensures JobOk(w, u, empty, job.(phase := Done(Err(EngineFailed))))
  {}

  lemma GiveUpKeeps(w: Setup, u: iset<Text>, empty: Option<Text>, s: State, j: nat)
    requires Inv(w, u, empty, s) && j in s.jobs
    ensures var s1 := if s.jobs[j].phase.Sending? then s.(token := None) else s;
            Inv(w, u, empty, SetPhase(s1, j, Done(Err(EngineFailed))))
  {
    hide EntryOk, JobOk;
    FailedJobOk(w, u, empty, s.jobs[j]);
    SetPhaseKeeps(w, u, empty, s, j, Done(Err(EngineFailed)));
  }

  lemma FailKeeps(w: Setup, u: iset<Text>, empty: Option<Text>, s: State, j: nat)
    requires CollisionFree(w, u) && Inv(w, u, empty, s) && Enabled(w, s, Fail(j))
    ensures Inv(w, u, empty, Apply(w, s, Fail(j)))
  {
    hide Inv, AfterLookup, CollisionFree;
    if s.jobs[j].phase.Pinned? {
      LookupKeeps(w, u, empty, s, j);
      LookupKeepsRequest(w, s, j);
      GiveUpKeeps(w, u, empty, AfterLookup(w, s, j), j);
    } else {
      GiveUpKeeps(w, u, empty, s, j);
    }
  }

  lemma SubmitOk(w: Setup, u: iset<Text>, empty: Option<Text>, r: Request)
    requires Admissible(w, u, empty, r)
    ensures JobOk(w, u, empty, SubmittedJob(r))
  {
    hide Admissible;
  }

  /** Requests are admissible, and no send is cut short. Signals may still arrive. */
  ghost predicate Allowed(w: Setup, u: iset<Text>, empty: Option<Text>, a: Action) {
    (a.Submit? ==> Admissible(w, u, empty, a.req)) && !a.SendCut?
  }

  /** Every step of every request keeps the invariant. */
  lemma StepKeeps(w: Setup, u: iset<Text>, empty: Option<Text>, s: State, a: Action)
    requires w.cacheSize > 0 && CollisionFree(w, u) && Inv(w, u, empty, s) && Enabled(w, s, a)
    requires Allowed(w, u, empty, a)
    ensures Inv(w, u, empty, Apply(w, s, a))
  {
    hide EntryOk, JobOk, VictimOk, KeyOf, AfterLookup, AfterArm, AfterSend, AfterRecache, CollisionFree;
    match a
    case Lookup(j) => LookupKeeps(w, u, empty, s, j);
    case Arm(j) => ArmKeeps(w, u, empty, s, j);
    case Send(j) => SendKeeps(w, u, empty, s, j);
    case Recache(j, v) => RecacheKeeps(w, u, empty, s, j, v);
    case Submit(j, r) => SubmitOk(w, u, empty, r);
    case Fail(j) => FailKeeps(w, u, empty, s, j);
    case Tick(_) =>
    case Signal =>
    case _ => QuietStepKeeps(w, u, empty, s, a);
  }

  ghost predicate AllAdmissible(w: Setup, u: iset<Text>, empty: Option<Text>, actions: seq<Action>) {
    forall a :: a in actions ==> Allowed(w, u, empty, a)
  }

  lemma {:induction false} RunKeeps(w: Setup, u: iset<Text>, empty: Option<Text>, s: State, actions: seq<Action>)
    requires w.cacheSize > 0 && CollisionFree(w, u) && Inv(w, u, empty, s)
    requires AllAdmissible(w, u, empty, actions) && Run(w, s, actions).Some?
    ensures Inv(w, u, empty, Run(w, s, actions).value)
    decreases |actions|
  {
    hide Inv, Apply, Enabled, Allowed, CollisionFree;
    if actions != [] {
      StepKeeps(w, u, empty, s, actions[0]);
      RunKeeps(w, u, empty, Apply(w, s, actions[0]), actions[1..]);
    }
  }

  lemma ReachableInv(w: Setup, u: iset<Text>, empty: Option<Text>, actions: seq<Action>)
    requires w.cacheSize > 0 && CollisionFree(w, u) && AllAdmissible(w, u, empty, actions)
    requires Run(w, Init, actions).Some?
    ensures Inv(w, u, empty, Run(w, Init, actions).value)
  {
    hide Run, Admissible, EntryOk, CollisionFree;
    assert Inv(w, u, empty, Init);
    RunKeeps(w, u, empty, Init, actions);
  }

  // ---- What holds whatever is asked ----

  /** The pool is within its bound, no entry is used in the future, and a stored handle is live. */
  predicate Safe(w: Setup, s: State) {
    |s.cache| <= w.cacheSize && (forall k :: k in s.cache ==> s.cache[k].lastUsed <= s.now) && TokenLive(s)
  }

  lemma LookupIsSafe(w: Setup, s: State, j: nat)
    requires Safe(w, s) && j in s.jobs && s.jobs[j].phase.Pinned?
    ensures Safe(w, AfterLookup(w, s, j))
  {
    hide Choose;
    match Choose(w, s, PrefixOf(w, s.jobs[j].req), s.jobs[j].phase.pin)
    case Some((k, n)) => UpdateKeepsSize(s.cache, k, s.cache[k].(lastUsed := s.now));
    case None =>
  }

  lemma RecacheIsSafe(w: Setup, s: State, j: nat, victim: Option<nat>)
    requires w.cacheSize > 0 && Safe(w, s) && Enabled(w, s, Recache(j, victim))
    ensures Safe(w, AfterRecache(w, s, j, victim))
  {
    hide KeyOf, FullPrefix, VictimOk, Evicted;
    var p := FullPrefix(w, s.jobs[j].req, s.jobs[j].phase.streamed);
    RecacheBound(w, s.cache, KeyOf(w, p), victim, Entry(s.jobs[j].phase.conv, |p.turns|, s.now));
  }

  lemma FailIsSafe(w: Setup, s: State, j: nat)
    requires Safe(w, s) && Enabled(w, s, Fail(j))
    ensures Safe(w, Apply(w, s, Fail(j)))
  {
    if s.jobs[j].phase.Pinned? {
      LookupIsSafe(w, s, j);
      LookupKeepsRequest(w, s, j);
      hide AfterLookup;
    }
  }

  lemma StepIsSafe(w: Setup, s: State, a: Action)
    requires w.cacheSize > 0 && Safe(w, s) && Enabled(w, s, a)
    ensures Safe(w, Apply(w, s, a))
  {
    hide KeyOf, FullPrefix, VictimOk, AfterLookup, AfterRecache, SendableContents;
    match a
    case Lookup(j) => LookupIsSafe(w, s, j); LookupKeepsRequest(w, s, j);
    case Recache(j, v) => RecacheIsSafe(w, s, j, v);
    case Fail(j) => FailIsSafe(w, s, j);
    case _ =>
  }

  lemma {:induction false} RunIsSafe(w: Setup, s: State, actions: seq<Action>)
    requires w.cacheSize > 0 && Safe(w, s) && Run(w, s, actions).Some?
    ensures Safe(w, Run(w, s, actions).value)
    decreases |actions|
  {
    hide Safe, Apply, Enabled;
    if actions != [] {
      StepIsSafe(w, s, actions[0]);
      RunIsSafe(w, Apply(w, s, actions[0]), actions[1..]);
    }
  }

  /**
   * Cancel-handle safety and the pool bound, in every run whatever: any requests, any hash, signals at
   * any time, sends that fail or are cut short. A handle in the token belongs to a conversation in its
   * send loop, so a signal that is delivered reaches one.
   */
  lemma HandlesAreLive(w: Setup, actions: seq<Action>)
    requires w.cacheSize > 0 && Run(w, Init, actions).Some?
    ensures var s := Run(w, Init, actions).value;
            && |s.cache| <= w.cacheSize && TokenLive(s)
            && (CancelDelivers(s) ==>
                  exists j :: j in AfterCancel(s).signalled && j in s.jobs && s.jobs[j].phase.Sending?)
  {
    hide Run;
    assert Safe(w, Init);
    RunIsSafe(w, Init, actions);
    var s := Run(w, Init, actions).value;
    if s.token.Some? { assert s.token.value in AfterCancel(s).signalled; }
  }

  /**
   * Eviction order, in every run whatever: re-caching keeps the entry just made and all others but
   * the victim, and the victim was used no later than any entry that is left.
   */
  lemma EvictsLeastRecent(w: Setup, actions: seq<Action>, j: nat, victim: Option<nat>)
    requires w.cacheSize > 0 && Run(w, Init, actions).Some?
             && Enabled(w, Run(w, Init, actions).value, Recache(j, victim))
    ensures var s := Run(w, Init, actions).value;
            var s' := Apply(w, s, Recache(j, victim));
            var p := FullPrefix(w, s.jobs[j].req, s.jobs[j].phase.streamed);
            && KeyOf(w, p) in s'.cache && s'.cache[KeyOf(w, p)] == Entry(s.jobs[j].phase.conv, |p.turns|, s.now)
            && (forall i :: i in s.cache && i != KeyOf(w, p) && Some(i) != victim ==>
                i in s'.cache && s'.cache[i] == s.cache[i])
            && (victim.Some? ==> victim.value in s.cache && victim.value !in s'.cache)
            && (victim.Some? ==> forall i :: i in s'.cache ==> s.cache[victim.value].lastUsed <= s'.cache[i].lastUsed)
  {
    hide Run, KeyOf, FullPrefix, VictimOk, Evicted;
    assert Safe(w, Init);
    RunIsSafe(w, Init, actions);
    var s := Run(w, Init, actions).value;
    var p := FullPrefix(w, s.jobs[j].req, s.jobs[j].phase.streamed);
    RecacheBound(w, s.cache, KeyOf(w, p), victim, Entry(s.jobs[j].phase.conv, |p.turns|, s.now));
  }

  // ---- When a signal is delivered ----

  predicate OneSending(s: State) {
    forall i, j :: i in s.jobs && j in s.jobs && s.jobs[i].phase.Sending? && s.jobs[j].phase.Sending? ==> i == j
  }

  /** A run in which no two send loops ever overlap. */
  predicate NeverOverlaps(w: Setup, s: State, actions: seq<Action>)
    decreases |actions|
  {
    OneSending(s) && (actions != [] && Enabled(w, s, actions[0]) ==>
        NeverOverlaps(w, Apply(w, s, actions[0]), actions[1..]))
  }

  /** The token holds the handle of every conversation that is in its send loop. */
  predicate TokenIsSender(s: State) {
    TokenLive(s) && forall j :: j in s.jobs && s.jobs[j].phase.Sending? ==> s.token == Some(j)
  }

  lemma StepKeepsSender(w: Setup, s: State, a: Action)
    requires Enabled(w, s, a) && OneSending(s) && TokenIsSender(s) && OneSending(Apply(w, s, a))
    ensures TokenIsSender(Apply(w, s, a))
  {
    hide KeyOf, FullPrefix, VictimOk, SendableContents, Choose, Evicted, Turns, AfterLookup;
    if (a.Lookup? || a.Fail?) && s.jobs[a.j].phase.Pinned? {
      LookupKeepsRequest(w, s, a.j);
      LookupKeepsOthers(w, s, a.j);
    }
  }

  lemma LookupKeepsOthers(w: Setup, s: State, j: nat)
    requires j in s.jobs && s.jobs[j].phase.Pinned?
    ensures var s' := AfterLookup(w, s, j);
            && s'.token == s.token && s'.jobs.Keys == s.jobs.Keys
            && forall i :: i in s.jobs && i != j ==> s'.jobs[i] == s.jobs[i]
  {
    hide Choose;
  }

  lemma {:induction false} RunKeepsSender(w: Setup, s: State, actions: seq<Action>)
    requires TokenIsSender(s) && NeverOverlaps(w, s, actions) && Run(w, s, actions).Some?
    ensures TokenIsSender(Run(w, s, actions).value)
    decreases |actions|
  {
    hide TokenIsSender, OneSending, Apply, Enabled;
    if actions != [] {
      StepKeepsSender(w, s, actions[0]);
      RunKeepsSender(w, Apply(w, s, actions[0]), actions[1..]);
    }
  }

  /** While send loops do not overlap, `cancel_in_flight` delivers exactly when something is streaming. */
  lemma CancelReachesTheSender(w: Setup, actions: seq<Action>)
    requires Run(w, Init, actions).Some? && NeverOverlaps(w, Init, actions)
    ensures var s := Run(w, Init, actions).value;
            CancelDelivers(s) <==> exists j :: j in s.jobs && s.jobs[j].phase.Sending?
  {
    hide Run, NeverOverlaps;
    RunKeepsSender(w, Init, actions);
  }

  // ---- Transparency ----

  /**
   * Transparency: in every interleaving of requests, pins, expiries, evictions and signals in which no
   * send is cut short, a request that finishes answers, and streams, exactly what a slot that never
   * caches anything would.
   */
  lemma CacheIsTransparent(w: Setup, u: iset<Text>, empty: Option<Text>, actions: seq<Action>, j: nat)
    requires w.cacheSize > 0 && CollisionFree(w, u) && AllAdmissible(w, u, empty, actions)
    requires Run(w, Init, actions).Some?
    ensures var s := Run(w, Init, actions).value;
            j in s.jobs && s.jobs[j].phase.Done? && s.jobs[j].phase.result != Err(EngineFailed)
            ==> s.jobs[j].phase.result == ColdAnswer(w, s.jobs[j].req)
  {
    hide Run, Admissible, EntryOk, CollisionFree, ColdAnswer;
    ReachableInv(w, u, empty, actions);
  }

  lemma HitIsReplay(w: Setup, u: iset<Text>, empty: Option<Text>, s: State, r: Request, k: nat, n: nat)
    requires CollisionFree(w, u) && Admissible(w, u, empty, r) && Inv(w, u, empty, s)
    requires n <= |Turns(r)| && k == KeyOf(w, Take(PrefixOf(w, r), n)) && Fresh(w, s, k)
    ensures n >= 2 && Turns(r)[n - 1].role.Assistant?
    ensures s.cache[k].conv == Replayed(Take(PrefixOf(w, r), n))
    ensures SendableContents(Turns(r)) != [] ==> SendableContents(Turns(r)[n..]) != []
  {
    assert EntryOk(w, u, empty, k, s.cache[k]);
    assert SendableContents(Turns(r)) == [] || EndsOpen(Turns(r));
    hide EntryOk, KeyOf, Admissible, SendableContents, EndsOpen, JobsOk, CollisionFree;
    HitIsOwnPrefix(w, u, empty, s, r, k, n);
    if SendableContents(Turns(r)) != [] {
      OpenSuffixSends(Turns(r), n);
    }
  }

  /**
   * Whatever lookup chooses, by pin or by scan, in any reachable state: it is a replay of the
   * request's own first n turns, n is never 0, and something is left to send.
   */
  lemma HitsAreReplays(w: Setup, u: iset<Text>, empty: Option<Text>, actions: seq<Action>, r: Request, pin: Option<nat>)
    requires w.cacheSize > 0 && CollisionFree(w, u) && AllAdmissible(w, u, empty, actions) && Admissible(w, u, empty, r)
    requires Run(w, Init, actions).Some?
    ensures var s := Run(w, Init, actions).value;
            match Choose(w, s, PrefixOf(w, r), pin)
            case None => true
            case Some((k, n)) =>
              && n >= 2 && Turns(r)[n - 1].role.Assistant?
              && s.cache[k].conv == Replayed(Take(PrefixOf(w, r), n))
              && (SendableContents(Turns(r)) != [] ==> SendableContents(Turns(r)[n..]) != [])
  {
    hide Inv, Run, Choose, Admissible, SendableContents, KeyOf, CollisionFree, AllAdmissible, Replayed;
    ReachableInv(w, u, empty, actions);
    var s := Run(w, Init, actions).value;
    match Choose(w, s, PrefixOf(w, r), pin)
    case None =>
    case Some((k, n)) => HitIsReplay(w, u, empty, s, r, k, n);
  }
}
