// Signals that cut a send short stay local: only a request that continues a
// cut conversation can be answered from it.
module PrefixCacheCuts {
  import opened Texts
  import opened Proto
  import opened CacheKey
  import opened PrefixCache

  /** The reply of a job once its conversation is stored. */
  function Reply(job: Job): Option<Text> {
    match job.phase
    case Recached(_, streamed) => Some(Concat(streamed))
    case Done(Ok(answer)) => Some(answer.text)
    case _ => None
  }

  /** The prefix is the first turns of `p`. */
  ghost predicate Begins(q: Prefix, p: Prefix) {
    exists n: nat :: n <= |p.turns| && q == Take(p, n)
  }

  /**
   * Replies in use: what is stored stays within `u`, and no conversation that was cut is one of the
   * prefixes of `p`.
   */
  ghost predicate ReplyOk(w: Setup, u: iset<Text>, cut: iset<nat>, p: Prefix, j: nat, job: Job) {
    Reply(job).Some? ==>
      var q := WithReply(PrefixOf(w, job.req), Reply(job).value);
      && CanonicalBytes(q) in u && |Reply(job).value| < TWO_TO_THE_32
      && (j in cut ==> !Begins(q, p))
  }

  ghost predicate RepliesOk(w: Setup, u: iset<Text>, cut: iset<nat>, p: Prefix, s: State) {
    forall j :: j in s.jobs ==> ReplyOk(w, u, cut, p, j, s.jobs[j])
  }

  /** All entries under keys of `p`'s prefixes are replays. */
  ghost predicate EntriesOk(w: Setup, u: iset<Text>, empty: Option<Text>, p: Prefix, cache: map<nat, Entry>) {
    forall n: nat :: n <= |p.turns| && KeyOf(w, Take(p, n)) in cache ==>
      EntryOk(w, u, empty, KeyOf(w, Take(p, n)), cache[KeyOf(w, Take(p, n))])
  }

  /** A job is admissible, and in order if it was not cut and asks for one of the prefixes of `p`. */
  ghost predicate LocalJobOk(w: Setup, u: iset<Text>, empty: Option<Text>, cut: iset<nat>, p: Prefix, j: nat,
                             job: Job) {
    && Admissible(w, u, empty, job.req)
    && (j !in cut && Begins(PrefixOf(w, job.req), p) ==> JobOk(w, u, empty, job))
  }

  /** The part of the slot that `p` can reach is in order. */
  ghost predicate LocalInv(w: Setup, u: iset<Text>, empty: Option<Text>, cut: iset<nat>, p: Prefix, s: State) {
    && WellFormed(p) && SystemAgrees(empty, p.system)
    && (forall n: nat :: n <= |p.turns| ==> CanonicalBytes(Take(p, n)) in u)
    && EntriesOk(w, u, empty, p, s.cache)
    && forall j :: j in s.jobs ==> LocalJobOk(w, u, empty, cut, p, j, s.jobs[j])
  }

  /** Requests are admissible; sends that are cut short are those of the jobs in `cut`. */
  ghost predicate CutsIn(w: Setup, u: iset<Text>, empty: Option<Text>, cut: iset<nat>, a: Action) {
    (a.Submit? ==> Admissible(w, u, empty, a.req)) && (a.SendCut? ==> a.j in cut)
  }

  ghost predicate AllCutsIn(w: Setup, u: iset<Text>, empty: Option<Text>, cut: iset<nat>, actions: seq<Action>) {
    forall a :: a in actions ==> CutsIn(w, u, empty, cut, a)
  }

  // ---- One step ----

  /** The job a step is about. */
  function JobOf(a: Action): Option<nat> {
    if a.Tick? || a.Signal? then None else Some(a.j)
  }

  /** A step changes at most the job it is about, and never its request or the reply it has stored. */
  lemma JobsStay(w: Setup, s: State, a: Action, j: nat)
    requires Enabled(w, s, a) && j in s.jobs
    ensures j in Apply(w, s, a).jobs && Apply(w, s, a).jobs[j].req == s.jobs[j].req
    ensures JobOf(a) != Some(j) ==> Apply(w, s, a).jobs[j] == s.jobs[j]
    ensures Reply(s.jobs[j]).Some? ==> Reply(Apply(w, s, a).jobs[j]) == Reply(s.jobs[j])
  {
    hide Choose, KeyOf, FullPrefix, VictimOk, Evicted, SendableContents, Concat, Turns, PrefixOf;
  }

  lemma NewJob(w: Setup, s: State, a: Action, j: nat)
    requires Enabled(w, s, a) && j in Apply(w, s, a).jobs && j !in s.jobs
    ensures a.Submit? && a.j == j && Apply(w, s, a).jobs[j] == SubmittedJob(a.req)
  {
    hide Choose, KeyOf, FullPrefix, VictimOk, Evicted, SendableContents, Concat, Turns, PrefixOf;
  }

  /** A job that asks for one of the prefixes finds only replays of its own turns. */
  lemma CleanLookup(w: Setup, u: iset<Text>, empty: Option<Text>, p: Prefix, s: State, j: nat)
    requires CollisionFree(w, u) && EntriesOk(w, u, empty, p, s.cache)
    requires Enabled(w, s, Lookup(j)) && JobOk(w, u, empty, s.jobs[j]) && Begins(PrefixOf(w, s.jobs[j].req), p)
    ensures JobOk(w, u, empty, AfterLookup(w, s, j).jobs[j])
  {
    hide EntryOk, JobOk, Choose, CollisionFree, KeyOf, Scan, TryPin, PrefixOf;
    var job := s.jobs[j];
    MissKeepsJob(w, u, empty, job);
    var chosen := Choose(w, s, PrefixOf(w, job.req), job.phase.pin);
    if chosen.Some? && chosen.value.1 > 0 {
      var (k, n) := chosen.value;
      BeginsTake(PrefixOf(w, job.req), p, n);
      PrefixTurns(w, job.req);
      HitKeepsJob(w, u, empty, s, job, k, n);
    }
  }

  lemma PrefixTurns(w: Setup, r: Request)
    ensures PrefixOf(w, r).turns == Turns(r)
  {}

  lemma BeginsTake(q: Prefix, p: Prefix, n: nat)
    requires Begins(q, p) && n <= |q.turns|
    ensures n <= |p.turns| && Take(q, n) == Take(p, n)
  {
    var m: nat :| m <= |p.turns| && q == Take(p, m);
    assert p.turns[..m][..n] == p.turns[..n];
  }

  lemma CleanFail(w: Setup, s: State, j: nat)
    requires Enabled(w, s, Fail(j))
    ensures Apply(w, s, Fail(j)).jobs[j] == s.jobs[j].(phase := Done(Err(EngineFailed)))
  {
    hide AfterLookup, Choose;
    if s.jobs[j].phase.Pinned? { LookupKeepsRequest(w, s, j); }
  }

  /** A step of a job that was not cut and asks for one of the prefixes keeps the job in order. */
  lemma CleanStep(w: Setup, u: iset<Text>, empty: Option<Text>, cut: iset<nat>, p: Prefix, s: State, a: Action, j: nat)
    requires CollisionFree(w, u) && EntriesOk(w, u, empty, p, s.cache) && Enabled(w, s, a)
    requires JobOf(a) == Some(j) && j in s.jobs && CutsIn(w, u, empty, cut, a) && j !in cut
    requires JobOk(w, u, empty, s.jobs[j]) && Begins(PrefixOf(w, s.jobs[j].req), p)
    ensures JobOk(w, u, empty, Apply(w, s, a).jobs[j])
  {
    hide JobOk, EntriesOk, CollisionFree, KeyOf, VictimOk, AfterLookup, PrefixOf, Begins, Admissible;
    match a
    case Lookup(_) => CleanLookup(w, u, empty, p, s, j);
    case Arm(_) => ArmKeepsJob(w, u, empty, s, j);
    case Send(_) => SendKeepsJob(w, u, empty, s, j);
    case Recache(_, v) =>
      SentKeepsJob(w, u, empty, s.jobs[j], KeyOf(w, FullPrefix(w, s.jobs[j].req, s.jobs[j].phase.streamed)));
    case Fail(_) => CleanFail(w, s, j); FailedJobOk(w, u, empty, s.jobs[j]);
    case _ => QuietKeepsJob(w, u, empty, s, a);
  }

  lemma JobsKeep(w: Setup, u: iset<Text>, empty: Option<Text>, cut: iset<nat>, p: Prefix, s: State, a: Action, j: nat)
    requires CollisionFree(w, u) && LocalInv(w, u, empty, cut, p, s) && Enabled(w, s, a)
    requires CutsIn(w, u, empty, cut, a) && j in Apply(w, s, a).jobs
    ensures LocalJobOk(w, u, empty, cut, p, j, Apply(w, s, a).jobs[j])
  {
    hide JobOk, EntriesOk, CollisionFree, KeyOf, Enabled, Apply, PrefixOf, Begins, Admissible;
    if j !in s.jobs {
      NewJob(w, s, a, j);
      SubmitOk(w, u, empty, a.req);
    } else {
      assert LocalJobOk(w, u, empty, cut, p, j, s.jobs[j]);
      JobsStay(w, s, a, j);
      if JobOf(a) == Some(j) && j !in cut && Begins(PrefixOf(w, s.jobs[j].req), p) {
        CleanStep(w, u, empty, cut, p, s, a, j);
      }
    }
  }

  // ---- The pool ----

  lemma TouchKeepsEntries(w: Setup, u: iset<Text>, empty: Option<Text>, p: Prefix, cache: map<nat, Entry>, k: nat,
                          now: nat)
    requires EntriesOk(w, u, empty, p, cache) && k in cache
    ensures EntriesOk(w, u, empty, p, cache[k := cache[k].(lastUsed := now)])
  {
    hide EntryOk, KeyOf;
    if EntryOk(w, u, empty, k, cache[k]) { TouchEntry(w, u, empty, k, cache[k], now); }
  }

  lemma LookupKeepsEntries(w: Setup, u: iset<Text>, empty: Option<Text>, p: Prefix, s: State, j: nat)
    requires EntriesOk(w, u, empty, p, s.cache) && j in s.jobs && s.jobs[j].phase.Pinned?
    ensures EntriesOk(w, u, empty, p, AfterLookup(w, s, j).cache)
  {
    hide EntriesOk, Choose;
    match Choose(w, s, PrefixOf(w, s.jobs[j].req), s.jobs[j].phase.pin)
    case Some((k, n)) => TouchKeepsEntries(w, u, empty, p, s.cache, k, s.now);
    case None =>
  }

  /** What a stored conversation is keyed by, if its key is that of one of the prefixes. */
  lemma StoredIsPrefix(w: Setup, u: iset<Text>, empty: Option<Text>, p: Prefix, r: Request, text: Text, n: nat)
    requires CollisionFree(w, u) && Admissible(w, u, empty, r) && WellFormed(p) && SystemAgrees(empty, p.system)
    requires n <= |p.turns| && CanonicalBytes(Take(p, n)) in u
    requires var q := WithReply(PrefixOf(w, r), text);
             CanonicalBytes(q) in u && |text| < TWO_TO_THE_32 && KeyOf(w, q) == KeyOf(w, Take(p, n))
    ensures Begins(WithReply(PrefixOf(w, r), text), p) && Begins(PrefixOf(w, r), p)
  {
    var q := WithReply(PrefixOf(w, r), text);
    assert WellFormed(q) && WellFormed(Take(p, n));
    hide CollisionFree, Admissible, KeyOf, CanonicalBytes, WellFormed, PrefixOf;
    KeyIdentifies(w, u, empty, q, Take(p, n));
    assert q.turns[..n - 1] == PrefixOf(w, r).turns && p.turns[..n][..n - 1] == p.turns[..n - 1];
    assert PrefixOf(w, r) == Take(p, n - 1);
  }

  /** Storing a conversation leaves the entries in order, unless it was cut and continues to a prefix of `p`. */
  lemma RecacheKeepsEntries(w: Setup, u: iset<Text>, empty: Option<Text>, cut: iset<nat>, p: Prefix,
                            s: State, j: nat, victim: Option<nat>)
    requires CollisionFree(w, u) && LocalInv(w, u, empty, cut, p, s) && Enabled(w, s, Recache(j, victim))
    requires var s' := Apply(w, s, Recache(j, victim)); j in s'.jobs && ReplyOk(w, u, cut, p, j, s'.jobs[j])
    ensures EntriesOk(w, u, empty, p, Apply(w, s, Recache(j, victim)).cache)
  {
    hide EntryOk, JobOk, CollisionFree, Admissible, KeyOf, VictimOk, Begins, Concat, SystemAgrees, WellFormed;
    var job, s' := s.jobs[j], Apply(w, s, Recache(j, victim));
    var text := Concat(job.phase.streamed);
    var q := WithReply(PrefixOf(w, job.req), text);
    assert LocalJobOk(w, u, empty, cut, p, j, job);
    forall n: nat | n <= |p.turns| && KeyOf(w, Take(p, n)) in s'.cache
      ensures EntryOk(w, u, empty, KeyOf(w, Take(p, n)), s'.cache[KeyOf(w, Take(p, n))])
    {
      if KeyOf(w, Take(p, n)) == KeyOf(w, q) {
        StoredIsPrefix(w, u, empty, p, job.req, text, n);
        RecachedEntryOk(w, u, empty, job, s.now);
      }
    }
  }

  lemma EntriesKeep(w: Setup, u: iset<Text>, empty: Option<Text>, cut: iset<nat>, p: Prefix, s: State, a: Action)
    requires CollisionFree(w, u) && LocalInv(w, u, empty, cut, p, s) && Enabled(w, s, a)
    requires RepliesOk(w, u, cut, p, Apply(w, s, a))
    ensures EntriesOk(w, u, empty, p, Apply(w, s, a).cache)
  {
    hide EntriesOk, LocalJobOk, ReplyOk, CollisionFree, KeyOf, VictimOk, AfterLookup, AfterRecache, FullPrefix,
         SendableContents;
    match a
    case Lookup(j) => LookupKeepsEntries(w, u, empty, p, s, j);
    case Fail(j) => if s.jobs[j].phase.Pinned? { LookupKeepsEntries(w, u, empty, p, s, j); }
    case Recache(j, v) =>
      JobsStay(w, s, a, j);
      RecacheKeepsEntries(w, u, empty, cut, p, s, j, v);
    case _ =>
  }

  // ---- Runs ----

  lemma LocalStep(w: Setup, u: iset<Text>, empty: Option<Text>, cut: iset<nat>, p: Prefix, s: State, a: Action)
    requires CollisionFree(w, u) && LocalInv(w, u, empty, cut, p, s) && Enabled(w, s, a)
    requires CutsIn(w, u, empty, cut, a) && RepliesOk(w, u, cut, p, Apply(w, s, a))
    ensures LocalInv(w, u, empty, cut, p, Apply(w, s, a))
  {
    EntriesKeep(w, u, empty, cut, p, s, a);
    forall j | j in Apply(w, s, a).jobs ensures LocalJobOk(w, u, empty, cut, p, j, Apply(w, s, a).jobs[j]) {
      JobsKeep(w, u, empty, cut, p, s, a, j);
    }
    hide EntriesOk, LocalJobOk, Apply, Enabled, CollisionFree, WellFormed, KeyOf;
  }

  /** What is stored stays: replies that are in use at the end were so before. */
  lemma RepliesBefore(w: Setup, u: iset<Text>, cut: iset<nat>, p: Prefix, s: State, a: Action)
    requires Enabled(w, s, a) && RepliesOk(w, u, cut, p, Apply(w, s, a))
    ensures RepliesOk(w, u, cut, p, s)
  {
    hide Apply, Enabled, Begins, Reply;
    forall j | j in s.jobs ensures ReplyOk(w, u, cut, p, j, s.jobs[j]) {
      JobsStay(w, s, a, j);
      assert ReplyOk(w, u, cut, p, j, Apply(w, s, a).jobs[j]);
    }
  }

  lemma {:induction false} RunReplies(w: Setup, u: iset<Text>, cut: iset<nat>, p: Prefix, s: State,
                                      actions: seq<Action>)
    requires Run(w, s, actions).Some? && RepliesOk(w, u, cut, p, Run(w, s, actions).value)
    ensures RepliesOk(w, u, cut, p, s)
    decreases |actions|
  {
    hide Apply, Enabled, RepliesOk;
    if actions != [] {
      RunReplies(w, u, cut, p, Apply(w, s, actions[0]), actions[1..]);
      RepliesBefore(w, u, cut, p, s, actions[0]);
    }
  }

  lemma {:induction false} LocalRun(w: Setup, u: iset<Text>, empty: Option<Text>, cut: iset<nat>, p: Prefix,
                                    s: State, actions: seq<Action>)
    requires CollisionFree(w, u) && LocalInv(w, u, empty, cut, p, s) && AllCutsIn(w, u, empty, cut, actions)
    requires Run(w, s, actions).Some? && RepliesOk(w, u, cut, p, Run(w, s, actions).value)
    ensures LocalInv(w, u, empty, cut, p, Run(w, s, actions).value)
    decreases |actions|
  {
    hide Apply, Enabled, RepliesOk, LocalInv, CutsIn, CollisionFree;
    if actions != [] {
      RunReplies(w, u, cut, p, Apply(w, s, actions[0]), actions[1..]);
      LocalStep(w, u, empty, cut, p, s, actions[0]);
      LocalRun(w, u, empty, cut, p, Apply(w, s, actions[0]), actions[1..]);
    }
  }

  lemma {:induction false} JobsAdmissible(w: Setup, u: iset<Text>, empty: Option<Text>, cut: iset<nat>, s: State,
                                          actions: seq<Action>, j: nat)
    requires forall i :: i in s.jobs ==> Admissible(w, u, empty, s.jobs[i].req)
    requires AllCutsIn(w, u, empty, cut, actions) && Run(w, s, actions).Some? && j in Run(w, s, actions).value.jobs
    ensures Admissible(w, u, empty, Run(w, s, actions).value.jobs[j].req)
    decreases |actions|
  {
    hide Apply, Enabled, Admissible;
    if actions != [] {
      var s' := Apply(w, s, actions[0]);
      assert CutsIn(w, u, empty, cut, actions[0]);
      forall i | i in s'.jobs ensures Admissible(w, u, empty, s'.jobs[i].req) {
        if i in s.jobs { JobsStay(w, s, actions[0], i); } else { NewJob(w, s, actions[0], i); }
      }
      JobsAdmissible(w, u, empty, cut, s', actions[1..], j);
    }
  }

  predicate WasCut(actions: seq<Action>, j: nat) {
    exists a :: a in actions && a.SendCut? && a.j == j
  }

  /** The jobs that had a send cut short. */
  ghost function CutJobs(actions: seq<Action>): iset<nat> {
    iset j | WasCut(actions, j)
  }

  lemma CutsAreIn(w: Setup, u: iset<Text>, empty: Option<Text>, actions: seq<Action>)
    requires forall a :: a in actions && a.Submit? ==> Admissible(w, u, empty, a.req)
    ensures AllCutsIn(w, u, empty, CutJobs(actions), actions)
  {
    hide Admissible;
    forall a | a in actions ensures CutsIn(w, u, empty, CutJobs(actions), a) {
      if a.SendCut? { assert WasCut(actions, a.j); }
    }
  }

  lemma LocalStart(w: Setup, u: iset<Text>, empty: Option<Text>, cut: iset<nat>, r: Request)
    requires Admissible(w, u, empty, r)
    ensures LocalInv(w, u, empty, cut, PrefixOf(w, r), Init)
  {
    hide WellFormed, KeyOf;
  }

  /**
   * Transparency in runs with cuts: a request that was not itself cut, and none of whose prefixes is a
   * cut request's turns and the reply it was left with, is answered as a slot that never caches
   * anything would, whatever signals have cut short elsewhere.
   */
  lemma CutsStayLocal(w: Setup, u: iset<Text>, empty: Option<Text>, actions: seq<Action>, j: nat)
    requires CollisionFree(w, u) && forall a :: a in actions && a.Submit? ==> Admissible(w, u, empty, a.req)
    requires Run(w, Init, actions).Some?
    requires var s := Run(w, Init, actions).value;
             && j in s.jobs && j !in CutJobs(actions)
             && RepliesOk(w, u, CutJobs(actions), PrefixOf(w, s.jobs[j].req), s)
    ensures var s := Run(w, Init, actions).value;
            s.jobs[j].phase.Done? && s.jobs[j].phase.result != Err(EngineFailed)
            ==> s.jobs[j].phase.result == ColdAnswer(w, s.jobs[j].req)
  {
    hide Run, Admissible, EntriesOk, RepliesOk, CollisionFree, ColdAnswer, CutJobs, PrefixOf, AllCutsIn, KeyOf;
    var cut, s := CutJobs(actions), Run(w, Init, actions).value;
    var p := PrefixOf(w, s.jobs[j].req);
    CutsAreIn(w, u, empty, actions);
    JobsAdmissible(w, u, empty, cut, Init, actions, j);
    LocalStart(w, u, empty, cut, s.jobs[j].req);
    LocalRun(w, u, empty, cut, p, Init, actions);
    assert LocalJobOk(w, u, empty, cut, p, j, s.jobs[j]);
    assert Begins(p, p) by { assert Take(p, |p.turns|) == p; }
  }
}
