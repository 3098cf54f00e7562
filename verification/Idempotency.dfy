/**
 Idempotent replays over whole runs of the pipeline: what the index holds, whose job a replay hands out,
 and from when on a key takes effect.
 */
module Idempotency {
  import opened Results
  import opened Pipeline
  import opened PipelineProperties
  import Collections
  import Scenarios

  // ----- Stored jobs and the idempotency index -----

  ghost predicate JobsInOrder(b: Books) {
    |b.jobs| == b.nextJobId && forall i | 0 <= i < |b.jobs| :: b.jobs[i].jobId == i
  }

  /** The job was stored under this index key. */
  ghost predicate StoredUnder(job: Job, key: string) {
    job.idempotencyKey.Some? && IndexKey(job.request.tenantId, job.idempotencyKey.value) == key
  }

  /** The index entry, if there is one, names a stored job with that tenant and key. */
  ghost predicate EntryNamesJob(b: Books, key: string) {
    key in b.index ==> b.index[key] < |b.jobs| && StoredUnder(b.jobs[b.index[key]], key)
  }

  lemma IndexAfter(b: Books, eff: Effect, key: string)
    requires JobsInOrder(b) && EntryNamesJob(b, key)
    ensures JobsInOrder(Apply(b, eff)) && EntryNamesJob(Apply(b, eff), key)
    ensures key in b.index ==> key in Apply(b, eff).index
  {
  }

  lemma {:induction false} IndexNamesJobs(tenants: Tenants, events: seq<Event>, key: string)
    ensures JobsInOrder(RunBooks(tenants, events)) && EntryNamesJob(RunBooks(tenants, events), key)
  {
    if events != [] {
      var before := events[..|events| - 1];
      var eff := LastEffect(tenants, events);
      IndexNamesJobs(tenants, before, key);
      IndexAfter(RunBooks(tenants, before), eff, key);
    }
  }

  lemma {:induction false} FindJobAt(jobs: seq<Job>, id: nat)
    requires forall i | 0 <= i < |jobs| :: jobs[i].jobId == i
    ensures FindJob(jobs, id) == if id < |jobs| then Some(jobs[id]) else None
  {
    if jobs != [] {
      FindJobAt(jobs[..|jobs| - 1], id);
    }
  }

  ghost predicate KnownTenants(tenants: Tenants, b: Books) {
    (forall i | 0 <= i < |b.jobs| :: b.jobs[i].request.tenantId in tenants)
    && forall id | id in b.inFlight :: b.inFlight[id].input.tenantId in tenants
  }

  lemma KnownAfter(tenants: Tenants, b: Books, e: Event, eff: Effect)
    requires KnownTenants(tenants, b) && Possible(tenants, b, e, eff)
    ensures KnownTenants(tenants, Apply(b, eff))
  {
  }

  lemma {:induction false} RunKnowsTenants(tenants: Tenants, events: seq<Event>)
    ensures KnownTenants(tenants, RunBooks(tenants, events))
  {
    if events != [] {
      var before := events[..|events| - 1];
      var eff := LastEffect(tenants, events);
      RunKnowsTenants(tenants, before);
      KnownAfter(tenants, RunBooks(tenants, before), events[|events| - 1], eff);
    }
  }

  lemma IndexKeyJoins(tenantId: string, key: string)
    ensures IndexKey(tenantId, key) == Collections.Joined(tenantId, '\0', key)
  {
  }

  // ----- What the runs hand out -----

  ghost predicate HandsJob(ending: Ending, job: Job) {
    ending == Succeeded(job) || ending == Replayed(job)
  }

  /** At the end of `events` the run that began with `input` has ended with `job`, fresh or replayed. */
  ghost predicate Handed(tenants: Tenants, events: seq<Event>, input: Input, job: Job) {
    && Began(tenants, events, input)
    && input.requestId in Run(tenants, events).finished
    && HandsJob(Run(tenants, events).finished[input.requestId], job)
  }

  /** The job was stored for `input`, or under an index key that is also the one `input` asks for. */
  ghost predicate JobFor(tenants: Tenants, b: Books, input: Input, job: Job) {
    && job in b.jobs && job.request.tenantId in tenants && input.tenantId in tenants && input.requestId in b.finished
    && (b.finished[input.requestId] == Succeeded(job) ==> job.request == input)
    && (b.finished[input.requestId] == Replayed(job) ==>
          input.idempotencyKey.Some? && StoredUnder(job, IndexKey(input.tenantId, input.idempotencyKey.value)))
  }

  ghost predicate EndsWell(tenants: Tenants, events: seq<Event>, b: Books, id: nat, input: Input, job: Job) {
    Began(tenants, events, input) && input.requestId == id && JobFor(tenants, b, input, job)
  }

  ghost predicate EndingsExplained(tenants: Tenants, events: seq<Event>, b: Books) {
    forall id, job | id in b.finished && HandsJob(b.finished[id], job) ::
      exists input: Input :: EndsWell(tenants, events, b, id, input, job)
  }

  ghost predicate FlightsBegan(tenants: Tenants, events: seq<Event>, b: Books) {
    forall id | id in b.inFlight :: Began(tenants, events, b.inFlight[id].input)
  }

  /** A run in flight after an effect was in flight before, or is the one that arrives. */
  lemma FlightsBeganAfter(tenants: Tenants, events: seq<Event>, b: Books, eff: Effect)
    requires events != [] && b == RunBooks(tenants, events[..|events| - 1]) && IdsApart(b)
    requires Possible(tenants, b, events[|events| - 1], eff) && FlightsBegan(tenants, events[..|events| - 1], b)
    ensures FlightsBegan(tenants, events, Apply(b, eff))
  {
    var e, after := events[|events| - 1], Apply(b, eff);
    forall id | id in after.inFlight ensures Began(tenants, events, after.inFlight[id].input) {
      if eff.Suspends? && eff.s.input.requestId == id && e.Arrives? && Fresh(b, id) {
        assert e == Arrives(eff.s.input);
      } else {
        assert id in b.inFlight && after.inFlight[id].input == b.inFlight[id].input;
        BeganStill(tenants, events, after.inFlight[id].input);
      }
    }
  }

  lemma {:induction false} RunFlightsBegan(tenants: Tenants, events: seq<Event>)
    ensures FlightsBegan(tenants, events, RunBooks(tenants, events))
  {
    if events != [] {
      var eff := LastEffect(tenants, events);
      RunFlightsBegan(tenants, events[..|events| - 1]);
      FlightsBeganAfter(tenants, events, RunBooks(tenants, events[..|events| - 1]), eff);
    }
  }

  /** An ending that was there before is still explained. */
  lemma StillExplained(tenants: Tenants, events: seq<Event>, b: Books, eff: Effect, id: nat, job: Job)
    requires events != [] && EndedBy(b, eff, id).None?
    requires id in b.finished && HandsJob(b.finished[id], job)
    requires EndingsExplained(tenants, events[..|events| - 1], b)
    ensures exists input: Input :: EndsWell(tenants, events, Apply(b, eff), id, input, job)
  {
    FinishedAfter(b, eff, id);
    var input: Input :| EndsWell(tenants, events[..|events| - 1], b, id, input, job);
    BeganStill(tenants, events, input);
    assert EndsWell(tenants, events, Apply(b, eff), id, input, job);
  }

  lemma StoredExplained(tenants: Tenants, events: seq<Event>, b: Books, eff: Effect)
    requires events != [] && b == RunBooks(tenants, events[..|events| - 1]) && IdsApart(b) && KnownTenants(tenants, b)
    requires Possible(tenants, b, events[|events| - 1], eff) && FlightsBegan(tenants, events[..|events| - 1], b)
    requires eff.Stores?
    ensures EndsWell(tenants, events, Apply(b, eff), eff.input.requestId, eff.input, JobOf(b, eff.input, eff.result))
  {
    BeganStill(tenants, events, eff.input);
  }

  lemma ReplayExplained(tenants: Tenants, events: seq<Event>, b: Books, eff: Effect)
    requires events != [] && b == RunBooks(tenants, events[..|events| - 1]) && KnownTenants(tenants, b)
    requires Possible(tenants, b, events[|events| - 1], eff) && eff.Replays?
    ensures EndsWell(tenants, events, Apply(b, eff), eff.id, events[|events| - 1].input, eff.job)
  {
    var input := events[|events| - 1].input;
    var key := IndexKey(input.tenantId, input.idempotencyKey.value);
    IndexNamesJobs(tenants, events[..|events| - 1], key);
    FindJobAt(b.jobs, b.index[key]);
  }

  lemma ExplainedAfter(tenants: Tenants, events: seq<Event>, b: Books, eff: Effect)
    requires events != [] && b == RunBooks(tenants, events[..|events| - 1]) && IdsApart(b) && KnownTenants(tenants, b)
    requires Possible(tenants, b, events[|events| - 1], eff) && FlightsBegan(tenants, events[..|events| - 1], b)
    requires EndingsExplained(tenants, events[..|events| - 1], b)
    ensures EndingsExplained(tenants, events, Apply(b, eff))
  {
    var after := Apply(b, eff);
    forall id, job | id in after.finished && HandsJob(after.finished[id], job)
      ensures exists input: Input :: EndsWell(tenants, events, after, id, input, job)
    {
      FinishedAfter(b, eff, id);
      if EndedBy(b, eff, id).None? {
        StillExplained(tenants, events, b, eff, id, job);
      } else if eff.Stores? {
        StoredExplained(tenants, events, b, eff);
      } else if eff.Replays? {
        ReplayExplained(tenants, events, b, eff);
      } else {
        EndsOnce(tenants, b, events[|events| - 1], eff, id);
      }
    }
  }

  lemma {:induction false} RunExplained(tenants: Tenants, events: seq<Event>)
    ensures EndingsExplained(tenants, events, RunBooks(tenants, events))
  {
    if events != [] {
      var before := events[..|events| - 1];
      var eff := LastEffect(tenants, events);
      RunExplained(tenants, before);
      RunKnowsTenants(tenants, before);
      RunFlightsBegan(tenants, before);
      ExplainedAfter(tenants, events, RunBooks(tenants, before), eff);
    }
  }

  /** Whatever job a run ends with is a stored one: its own, or one filed under the index key it asks for. */
  lemma HandedIsStored(tenants: Tenants, events: seq<Event>, input: Input, job: Job)
    requires Handed(tenants, events, input, job)
    ensures JobFor(tenants, RunBooks(tenants, events), input, job)
  {
    RunExplained(tenants, events);
    var began: Input :| EndsWell(tenants, events, RunBooks(tenants, events), input.requestId, began, job);
    BeganOnce(tenants, events, input, began);
  }

  /** No registered id, followed by the NUL that joins index keys, starts another. */
  ghost predicate IdsDoNotNest(tenants: Tenants) {
    forall a, b | a in tenants && b in tenants :: !Collections.Nested(a, '\0', b)
  }

  lemma StoredUnderOwnId(job: Job, tenantId: string, key: string)
    requires StoredUnder(job, IndexKey(tenantId, key)) && !Collections.Nested(job.request.tenantId, '\0', tenantId)
    ensures job.request.tenantId == tenantId && job.idempotencyKey == Some(key)
  {
    IndexKeyJoins(tenantId, key);
    IndexKeyJoins(job.request.tenantId, job.idempotencyKey.value);
    Collections.JoinSeparates(job.request.tenantId, job.idempotencyKey.value, tenantId, key, '\0');
  }

  /** A lookup finds a stored job of the asking tenant, under the very key it asks for, where ids do not nest. */
  lemma ReplayIsOwnJob(tenants: Tenants, events: seq<Event>, tenantId: string, key: string, job: Job)
    requires forall t | t in tenants :: !Collections.Nested(t, '\0', tenantId)
    requires LookupIdempotentJob(Run(tenants, events), tenantId, Some(key)) == Some(job)
    ensures job in Run(tenants, events).jobs && job.request.tenantId == tenantId && job.idempotencyKey == Some(key)
  {
    var b := RunBooks(tenants, events);
    IndexNamesJobs(tenants, events, IndexKey(tenantId, key));
    RunKnowsTenants(tenants, events);
    FindJobAt(b.jobs, b.index[IndexKey(tenantId, key)]);
    StoredUnderOwnId(job, tenantId, key);
  }

  /**
   Whatever job a run ends with, fresh or replayed, is a stored job of the tenant the run began for, and a
   replayed one was stored under the very key of the request: provided no registered id, followed by the NUL
   that joins the index key, starts another.
   */
  lemma HandedIsOwn(tenants: Tenants, events: seq<Event>, input: Input, job: Job)
    requires IdsDoNotNest(tenants) && Handed(tenants, events, input, job)
    ensures job in Run(tenants, events).jobs && job.request.tenantId == input.tenantId
    ensures Run(tenants, events).finished[input.requestId] == Succeeded(job) ==> job.request == input
    ensures Run(tenants, events).finished[input.requestId] == Replayed(job)
        ==> input.idempotencyKey.Some? && job.idempotencyKey == input.idempotencyKey
  {
    HandedIsStored(tenants, events, input, job);
    if Run(tenants, events).finished[input.requestId] == Replayed(job) {
      StoredUnderOwnId(job, input.tenantId, input.idempotencyKey.value);
    }
  }

  // ----- When the NUL does not keep tenants apart -----

  /** Some run of `caller` ends with a job that was stored for a request of `owner`. */
  ghost predicate CanLeak(tenants: Tenants, owner: string, caller: string) {
    exists events: seq<Event>, input: Input, job: Job :: Leaks(tenants, events, input, job, owner, caller)
  }

  ghost predicate Leaks(
      tenants: Tenants, events: seq<Event>, input: Input, job: Job, owner: string, caller: string) {
    Handed(tenants, events, input, job) && input.tenantId == caller && job.request.tenantId == owner
  }

  /**
   A run of one tenant can end with another's job exactly when both are registered and one id, followed by a
   NUL, starts the other id. (The owner is one whose requests can pass the gates.)
   */
  lemma LeaksIffNested(tenants: Tenants, owner: string, caller: string)
    requires owner in tenants && Scenarios.Open(tenants[owner]) && owner != caller
    ensures CanLeak(tenants, owner, caller) <==> caller in tenants && Collections.Nested(owner, '\0', caller)
  {
    if CanLeak(tenants, owner, caller) {
      var events: seq<Event>, input: Input, job: Job :| Leaks(tenants, events, input, job, owner, caller);
      HandedIsStored(tenants, events, input, job);
      if !Collections.Nested(owner, '\0', caller) {
        StoredUnderOwnId(job, caller, input.idempotencyKey.value);
      }
    }
    if caller in tenants && Collections.Nested(owner, '\0', caller) {
      Leak(tenants, owner, caller);
    }
  }

  /** For instance, a run of a tenant `a` ends with what a tenant `a\0b` was served. */
  lemma NulJoinsTenants(config: TenantConfig)
    requires Scenarios.Open(config)
    ensures IndexKey("a\0b", "c") == IndexKey("a", "b\0c")
    ensures CanLeak(map["a" := config, "a\0b" := config], "a\0b", "a")
  {
    assert "a\0b" + "\0" + "c" == "a" + "\0" + "b\0c";
    assert "a" + ['\0'] <= "a\0b";
    Leak(map["a" := config, "a\0b" := config], "a\0b", "a");
  }

  /** The owner's first request, and then the caller's under the key that joins to the same index key. */
  lemma Leak(tenants: Tenants, owner: string, caller: string)
    requires owner in tenants && caller in tenants && Scenarios.Open(tenants[owner])
    requires Collections.Nested(owner, '\0', caller)
    ensures CanLeak(tenants, owner, caller)
  {
    var ownersKey, callersKey := Collections.JoinMeets(owner, caller, '\0', "k");
    IndexKeyJoins(owner, ownersKey);
    IndexKeyJoins(caller, callersKey);
    Scenarios.OneJobStored(tenants, owner, ownersKey);
    var job := Job(0, Scenarios.Request(owner, 0, Some(ownersKey)), Scenarios.Priced(0.0), Some(ownersKey));
    ReplaysTo(tenants, Scenarios.OneJob(owner, ownersKey), Scenarios.Request(caller, 1, Some(callersKey)), job);
    var events := Scenarios.OneJob(owner, ownersKey) + [Arrives(Scenarios.Request(caller, 1, Some(callersKey)))];
    assert Leaks(tenants, events, Scenarios.Request(caller, 1, Some(callersKey)), job, owner, caller);
  }

  /** With one job stored, a request that asks for its index key is handed it. */
  lemma ReplaysTo(tenants: Tenants, events: seq<Event>, input: Input, job: Job)
    requires input.tenantId in tenants && input.keyVerifies && input.idempotencyKey.Some?
    requires Fresh(RunBooks(tenants, events), input.requestId) && Run(tenants, events).jobs == [job] && job.jobId == 0
    requires Run(tenants, events).index == map[IndexKey(input.tenantId, input.idempotencyKey.value) := 0]
    ensures Handed(tenants, events + [Arrives(input)], input, job)
  {
    var all := events + [Arrives(input)];
    assert all[..|all| - 1] == events;
    FindJobAt([job], 0);
  }

  lemma {:induction false} IndexPersists(tenants: Tenants, events: seq<Event>, more: seq<Event>, key: string)
    requires key in RunBooks(tenants, events).index
    ensures key in RunBooks(tenants, events + more).index
  {
    if more == [] {
      assert events + more == events;
    } else {
      var fewer := more[..|more| - 1];
      IndexPersists(tenants, events, fewer, key);
      assert events + more == (events + fewer) + [more[|more| - 1]];
      assert (events + more)[..|events + more| - 1] == events + fewer;
      IndexNamesJobs(tenants, events + fewer, key);
      var eff := LastEffect(tenants, events + more);
      IndexAfter(RunBooks(tenants, events + fewer), eff, key);
    }
  }

  /**
   Once a job is stored under an idempotency key, every later run that verifies for that tenant and
   brings that key is a replay: no provider, no charge, no audit event, no new job.
   */
  lemma ReplayForever(tenants: Tenants, events: seq<Event>, more: seq<Event>, input: Input)
    requires input.tenantId in tenants && input.keyVerifies && input.idempotencyKey.Some?
    requires IndexKey(input.tenantId, input.idempotencyKey.value) in Run(tenants, events).index
    requires Fresh(RunBooks(tenants, events + more), input.requestId)
    ensures var st := Run(tenants, events + more);
      var prior := LookupIdempotentJob(st, input.tenantId, input.idempotencyKey);
      prior.Some? && Arrive(tenants, st, input)
          == st.(finished := st.finished[input.requestId := Replayed(prior.value)])
  {
    var key := IndexKey(input.tenantId, input.idempotencyKey.value);
    var b := RunBooks(tenants, events + more);
    IndexPersists(tenants, events, more, key);
    IndexNamesJobs(tenants, events + more, key);
    FindJobAt(b.jobs, b.index[key]);
  }

  // ----- A key takes effect when its job is recorded -----

  /** Whether an arriving run is a replay: its request verifies and its key has been recorded. */
  lemma ReplayedIff(tenants: Tenants, events: seq<Event>, input: Input)
    requires input.tenantId in tenants && input.keyVerifies && input.idempotencyKey.Some?
    requires Fresh(RunBooks(tenants, events), input.requestId)
    ensures var after := Arrive(tenants, Run(tenants, events), input);
      input.requestId in after.finished && after.finished[input.requestId].Replayed?
      <==> IndexKey(input.tenantId, input.idempotencyKey.value) in Run(tenants, events).index
  {
    var key := IndexKey(input.tenantId, input.idempotencyKey.value);
    var b := RunBooks(tenants, events);
    IndexNamesJobs(tenants, events, key);
    if key in b.index {
      FindJobAt(b.jobs, b.index[key]);
    } else {
      NotReplayed(tenants, Run(tenants, events), input);
    }
  }

  lemma NotReplayed(tenants: Tenants, st: State, input: Input)
    requires LookupIdempotentJob(st, input.tenantId, input.idempotencyKey).None? && Fresh(BooksOf(st), input.requestId)
    ensures var after := Arrive(tenants, st, input);
      input.requestId in after.finished ==> !after.finished[input.requestId].Replayed?
  {
    if input.tenantId in tenants {
      GatesDoNotReplay(st, input, tenants[input.tenantId]);
    }
  }

  lemma GatesDoNotReplay(st: State, input: Input, config: TenantConfig)
    requires Fresh(BooksOf(st), input.requestId)
    ensures var after := LimitGates(st, input, config);
      input.requestId in after.finished ==> !after.finished[input.requestId].Replayed?
  {
  }

  /** While the first run under a key is in flight, a second one under it is no replay. */
  lemma KeyWaitsForItsJob(tenants: Tenants, events: seq<Event>, first: Input, second: Input)
    requires second.tenantId == first.tenantId && second.idempotencyKey == first.idempotencyKey
    requires second.tenantId in tenants && second.keyVerifies && second.idempotencyKey.Some?
    requires first.requestId !in RunBooks(tenants, events).inFlight
    requires first.requestId in Arrive(tenants, Run(tenants, events), first).inFlight
    requires Fresh(RunBooks(tenants, events + [Arrives(first)]), second.requestId)
    ensures var after := Run(tenants, events + [Arrives(first), Arrives(second)]);
      !(second.requestId in after.finished && after.finished[second.requestId].Replayed?)
  {
    var one := events + [Arrives(first)];
    var two := events + [Arrives(first), Arrives(second)];
    assert one[..|events|] == events && two[..|one|] == one;
    AdmittedIsNoReplay(tenants, events, first);
    ReplayedIff(tenants, one, second);
  }

  lemma AdmittedIsNoReplay(tenants: Tenants, events: seq<Event>, first: Input)
    requires first.tenantId in tenants && first.idempotencyKey.Some?
    requires first.requestId !in RunBooks(tenants, events).inFlight
    requires first.requestId in Arrive(tenants, Run(tenants, events), first).inFlight
    ensures IndexKey(first.tenantId, first.idempotencyKey.value) !in Arrive(tenants, Run(tenants, events), first).index
  {
    var key := IndexKey(first.tenantId, first.idempotencyKey.value);
    var b := RunBooks(tenants, events);
    IndexNamesJobs(tenants, events, key);
    if key in b.index {
      FindJobAt(b.jobs, b.index[key]);
    }
  }
}
