/**
 Properties of whole runs of the pipeline, with any number of requests in flight: the ledger and the
 stored jobs agree, every finished run left its one audit event, and the stored jobs are those of the
 runs that succeeded.
 */
module PipelineProperties {
  import opened Results
  import opened Pipeline
  import RateLimit

  // ----- What an event can do, with limiter and cache left aside -----

  /** The part of the state that is not the limiter's or the cache's. */
  datatype Books = Books(
    audit: seq<AuditEvent>,
    jobs: seq<Job>,
    index: map<string, nat>,
    nextJobId: nat,
    inFlight: map<nat, Suspended>,
    finished: map<nat, Ending>)

  function BooksOf(st: State): Books {
    Books(st.audit, st.jobs, st.index, st.nextJobId, st.inFlight, st.finished)
  }

  datatype Effect =
    | Nothing
    | Replays(id: nat, job: Job)
    | Ends(event: AuditEvent, ending: Ending)
    | Suspends(s: Suspended)
    | Stores(input: Input, result: TryOnResult, cost: real)

  function JobOf(b: Books, input: Input, result: TryOnResult): Job {
    Job(b.nextJobId, input, result, input.idempotencyKey)
  }

  function ChargeEvent(input: Input, cost: real): AuditEvent {
    AuditEvent(input.tenantId, input.shopperId, input.requestId, Allow, Some(cost))
  }

  function Apply(b: Books, eff: Effect): Books {
    match eff
    case Nothing => b
    case Replays(id, job) => b.(finished := b.finished[id := Replayed(job)])
    case Ends(event, ending) =>
      b.(audit := b.audit + [event], inFlight := b.inFlight - {event.requestId},
         finished := b.finished[event.requestId := ending])
    case Suspends(s) => b.(inFlight := b.inFlight[s.input.requestId := s])
    case Stores(input, result, cost) =>
      var job := JobOf(b, input, result);
      b.(audit := b.audit + [ChargeEvent(input, cost)],
         jobs := b.jobs + [job],
         index := if input.idempotencyKey.Some?
                  then b.index[IndexKey(input.tenantId, input.idempotencyKey.value) := job.jobId] else b.index,
         nextJobId := b.nextJobId + 1,
         inFlight := b.inFlight - {input.requestId},
         finished := b.finished[input.requestId := Succeeded(job)])
  }

  ghost predicate Fresh(b: Books, id: nat) {
    id !in b.inFlight && id !in b.finished
  }

  /** A run of a known tenant may be admitted when the estimate fits its budget. */
  ghost predicate MayAdmit(tenants: Tenants, b: Books, input: Input) {
    input.tenantId in tenants
    && Spend(b.audit, input.tenantId) + ESTIMATED_NEXT_CALL_USD <= tenants[input.tenantId].monthlyBudgetUsd
  }

  /** The job the books hold under the request's idempotency key, if it brings one. */
  function ReplayFor(b: Books, input: Input): Option<Job> {
    if input.idempotencyKey.None? || IndexKey(input.tenantId, input.idempotencyKey.value) !in b.index then None
    else FindJob(b.jobs, b.index[IndexKey(input.tenantId, input.idempotencyKey.value)])
  }

  /** When an effect can happen, and what comes with it. */
  ghost predicate Possible(tenants: Tenants, b: Books, e: Event, eff: Effect) {
    match eff
    case Nothing => true
    case Replays(id, job) =>
      Fresh(b, id) && e.Arrives? && e.input.requestId == id && e.input.tenantId in tenants
      && ReplayFor(b, e.input) == Some(job)
    case Ends(event, ending) =>
      (Fresh(b, event.requestId) && event.outcome == Deny && ending.Refused?)
      || (event.requestId in b.inFlight && b.inFlight[event.requestId].Routing? && event.outcome == Error
          && ending.ProviderFailed?)
    case Suspends(s) =>
      (Fresh(b, s.input.requestId) && e.Arrives? && e.input == s.input && MayAdmit(tenants, b, s.input)
          && (s.Computed? ==> s.hit))
      || (s.input.requestId in b.inFlight && b.inFlight[s.input.requestId] == Routing(s.input)
          && s.Computed? && e.Answers? && s.value == e.value)
    case Stores(input, result, cost) =>
      input.requestId in b.inFlight && b.inFlight[input.requestId].Computed?
          && b.inFlight[input.requestId].input == input
      && result.costUsd == cost
      && cost == if b.inFlight[input.requestId].hit then 0.0 else b.inFlight[input.requestId].value.costUsd
  }

  /** Each suspended run is filed under its own request id, and has not ended. */
  ghost predicate IdsApart(b: Books) {
    forall id | id in b.inFlight :: id !in b.finished && b.inFlight[id].input.requestId == id
  }

  /** Every event has one of these effects. */
  lemma EffectOf(tenants: Tenants, st: State, e: Event) returns (eff: Effect)
    requires IdsApart(BooksOf(st))
    ensures BooksOf(React(tenants, st, e)) == Apply(BooksOf(st), eff) && Possible(tenants, BooksOf(st), e, eff)
  {
    match e
    case Arrives(input) =>
      eff := ArrivalEffect(tenants, st, input);
    case Answers(id, value) =>
      eff := if id in st.inFlight && st.inFlight[id].Routing?
             then Suspends(Computed(st.inFlight[id].input, value, false)) else Nothing;
    case Fails(id) =>
      if id in st.inFlight && st.inFlight[id].Routing? {
        var input := st.inFlight[id].input;
        eff := Ends(AuditEvent(input.tenantId, input.shopperId, id, Error, None), ProviderFailed);
      } else {
        eff := Nothing;
      }
    case Records(id) =>
      if id in st.inFlight && st.inFlight[id].Computed? {
        var Computed(input, value, hit) := st.inFlight[id];
        eff := Stores(input, Surfaced(value, hit), if hit then 0.0 else value.costUsd);
      } else {
        eff := Nothing;
      }
  }

  function RefusalEffect(input: Input, why: Refusal): Effect {
    Ends(AuditEvent(input.tenantId, input.shopperId, input.requestId, Deny, None), Refused(why))
  }

  lemma RefusalApplied(st: State, input: Input, why: Refusal)
    requires Fresh(BooksOf(st), input.requestId)
    ensures BooksOf(Refuse(st, input, why)) == Apply(BooksOf(st), RefusalEffect(input, why))
  {
    assert st.inFlight - {input.requestId} == st.inFlight;
  }

  lemma ArrivalEffect(tenants: Tenants, st: State, input: Input) returns (eff: Effect)
    requires IdsApart(BooksOf(st))
    ensures BooksOf(Arrive(tenants, st, input)) == Apply(BooksOf(st), eff)
    ensures Possible(tenants, BooksOf(st), Arrives(input), eff)
  {
    if input.requestId in st.inFlight || input.requestId in st.finished {
      eff := Nothing;
    } else if input.tenantId !in tenants || !input.keyVerifies {
      RefusalApplied(st, input, Unauthorized);
      eff := RefusalEffect(input, Unauthorized);
    } else if LookupIdempotentJob(st, input.tenantId, input.idempotencyKey).Some? {
      eff := Replays(input.requestId, LookupIdempotentJob(st, input.tenantId, input.idempotencyKey).value);
    } else if input.globalKillSwitch || tenants[input.tenantId].killSwitch {
      RefusalApplied(st, input, KillSwitchEngaged);
      eff := RefusalEffect(input, KillSwitchEngaged);
    } else if ImageError(input).Some? {
      RefusalApplied(st, input, ImageError(input).value);
      eff := RefusalEffect(input, ImageError(input).value);
    } else {
      eff := LimitEffect(tenants, st, input);
    }
  }

  lemma LimitEffect(tenants: Tenants, st: State, input: Input) returns (eff: Effect)
    requires Fresh(BooksOf(st), input.requestId) && input.tenantId in tenants
    ensures BooksOf(LimitGates(st, input, tenants[input.tenantId])) == Apply(BooksOf(st), eff)
    ensures Possible(tenants, BooksOf(st), Arrives(input), eff)
  {
    var config := tenants[input.tenantId];
    var (buckets, d) := RateLimit.Check(st.buckets, LimiterRequest(input, config));
    var st' := st.(buckets := buckets);
    if !d.allowed {
      RefusalApplied(st', input, RateLimited(d.retryAfterMs));
      eff := RefusalEffect(input, RateLimited(d.retryAfterMs));
    } else if Spend(st.audit, input.tenantId) + ESTIMATED_NEXT_CALL_USD > config.monthlyBudgetUsd {
      RefusalApplied(st', input, BudgetExceeded);
      eff := RefusalEffect(input, BudgetExceeded);
    } else {
      eff := Suspends(Admit(st', input).inFlight[input.requestId]);
    }
  }

  /** The books after a whole run. */
  function RunBooks(tenants: Tenants, events: seq<Event>): Books {
    BooksOf(Run(tenants, events))
  }

  lemma IdsStayApart(tenants: Tenants, b: Books, e: Event, eff: Effect)
    requires IdsApart(b) && Possible(tenants, b, e, eff)
    ensures IdsApart(Apply(b, eff))
  {
  }

  lemma {:induction false} RunIdsApart(tenants: Tenants, events: seq<Event>)
    ensures IdsApart(RunBooks(tenants, events))
  {
    if events != [] {
      var before, e := events[..|events| - 1], events[|events| - 1];
      RunIdsApart(tenants, before);
      var eff := EffectOf(tenants, Run(tenants, before), e);
      IdsStayApart(tenants, RunBooks(tenants, before), e, eff);
    }
  }

  /** The last event of a run as an effect on the books before it. */
  lemma LastEffect(tenants: Tenants, events: seq<Event>) returns (eff: Effect)
    requires events != []
    ensures IdsApart(RunBooks(tenants, events[..|events| - 1]))
    ensures Possible(tenants, RunBooks(tenants, events[..|events| - 1]), events[|events| - 1], eff)
    ensures RunBooks(tenants, events) == Apply(RunBooks(tenants, events[..|events| - 1]), eff)
  {
    RunIdsApart(tenants, events[..|events| - 1]);
    eff := EffectOf(tenants, Run(tenants, events[..|events| - 1]), events[|events| - 1]);
  }

  // ----- Conservation: the ledger is the sum over the stored jobs -----

  /** What the stored jobs of a tenant cost. */
  function JobCosts(jobs: seq<Job>, tenantId: string): real {
    if jobs == [] then 0.0
    else JobCosts(jobs[..|jobs| - 1], tenantId)
         + if jobs[|jobs| - 1].request.tenantId == tenantId then jobs[|jobs| - 1].result.costUsd else 0.0
  }

  lemma SpendSnoc(events: seq<AuditEvent>, e: AuditEvent, tenantId: string)
    ensures Spend(events + [e], tenantId) == Spend(events, tenantId) + Charge(e, tenantId)
  {
    assert (events + [e])[..|events|] == events;
  }

  lemma JobCostsSnoc(jobs: seq<Job>, job: Job, tenantId: string)
    ensures JobCosts(jobs + [job], tenantId)
         == JobCosts(jobs, tenantId) + if job.request.tenantId == tenantId then job.result.costUsd else 0.0
  {
    assert (jobs + [job])[..|jobs|] == jobs;
  }

  /** How an effect changes a tenant's spend. */
  lemma SpendAfter(tenants: Tenants, b: Books, e: Event, eff: Effect, tenantId: string)
    requires Possible(tenants, b, e, eff)
    ensures Spend(Apply(b, eff).audit, tenantId)
         == Spend(b.audit, tenantId) + if eff.Stores? && eff.input.tenantId == tenantId then eff.cost else 0.0
  {
    if eff.Ends? || eff.Stores? {
      SpendSnoc(b.audit, Apply(b, eff).audit[|b.audit|], tenantId);
    }
  }

  lemma JobCostsAfter(tenants: Tenants, b: Books, e: Event, eff: Effect, tenantId: string)
    requires Possible(tenants, b, e, eff)
    ensures JobCosts(Apply(b, eff).jobs, tenantId)
         == JobCosts(b.jobs, tenantId) + if eff.Stores? && eff.input.tenantId == tenantId then eff.cost else 0.0
  {
    if eff.Stores? {
      JobCostsSnoc(b.jobs, JobOf(b, eff.input, eff.result), tenantId);
    }
  }

  /** In every reachable state a tenant's summed allow cost is the summed cost of its stored jobs. */
  lemma {:induction false} LedgerConservation(tenants: Tenants, events: seq<Event>, tenantId: string)
    ensures Spend(RunBooks(tenants, events).audit, tenantId) == JobCosts(RunBooks(tenants, events).jobs, tenantId)
  {
    if events != [] {
      var before := events[..|events| - 1];
      var eff := LastEffect(tenants, events);
      LedgerConservation(tenants, before, tenantId);
      SpendAfter(tenants, RunBooks(tenants, before), events[|events| - 1], eff, tenantId);
      JobCostsAfter(tenants, RunBooks(tenants, before), events[|events| - 1], eff, tenantId);
    }
  }

  // ----- One audit event per finished run -----

  /** The outcomes audited under a request id, in order. */
  function Audited(events: seq<AuditEvent>, id: nat): seq<AuditOutcome> {
    if events == [] then []
    else Audited(events[..|events| - 1], id)
         + if events[|events| - 1].requestId == id then [events[|events| - 1].outcome] else []
  }

  /** What a run must have left in the trail, by how it ended. */
  function OutcomesOf(ending: Ending): seq<AuditOutcome> {
    match ending
    case Replayed(_) => []
    case Refused(_) => [Deny]
    case ProviderFailed => [Error]
    case Succeeded(_) => [Allow]
  }

  function Owed(finished: map<nat, Ending>, id: nat): seq<AuditOutcome> {
    if id in finished then OutcomesOf(finished[id]) else []
  }

  /** What an effect adds to the trail under `id`. */
  function AuditedBy(eff: Effect, id: nat): seq<AuditOutcome> {
    match eff
    case Ends(event, _) => if event.requestId == id then [event.outcome] else []
    case Stores(input, _, _) => if input.requestId == id then [Allow] else []
    case _ => []
  }

  /** The ending an effect gives the run `id`, if any. */
  function EndedBy(b: Books, eff: Effect, id: nat): Option<Ending> {
    match eff
    case Replays(other, job) => if other == id then Some(Replayed(job)) else None
    case Ends(event, ending) => if event.requestId == id then Some(ending) else None
    case Stores(input, result, _) => if input.requestId == id then Some(Succeeded(JobOf(b, input, result))) else None
    case _ => None
  }

  lemma AuditedSnoc(events: seq<AuditEvent>, e: AuditEvent, id: nat)
    ensures Audited(events + [e], id) == Audited(events, id) + if e.requestId == id then [e.outcome] else []
  {
    assert (events + [e])[..|events|] == events;
  }

  lemma AuditGains(b: Books, eff: Effect, id: nat)
    ensures Audited(Apply(b, eff).audit, id) == Audited(b.audit, id) + AuditedBy(eff, id)
  {
    if eff.Ends? {
      AuditedSnoc(b.audit, eff.event, id);
    } else if eff.Stores? {
      AuditedSnoc(b.audit, ChargeEvent(eff.input, eff.cost), id);
    } else {
      assert Audited(b.audit, id) + [] == Audited(b.audit, id);
    }
  }

  lemma FinishedAfter(b: Books, eff: Effect, id: nat)
    ensures EndedBy(b, eff, id).Some?
        ==> id in Apply(b, eff).finished && Apply(b, eff).finished[id] == EndedBy(b, eff, id).value
    ensures EndedBy(b, eff, id).None?
        ==> (id in Apply(b, eff).finished <==> id in b.finished)
            && (id in b.finished ==> Apply(b, eff).finished[id] == b.finished[id])
  {
  }

  /** An effect ends only a run that has not ended, and audits just that. */
  lemma EndsOnce(tenants: Tenants, b: Books, e: Event, eff: Effect, id: nat)
    requires IdsApart(b) && Possible(tenants, b, e, eff)
    ensures EndedBy(b, eff, id).Some?
        ==> id !in b.finished && AuditedBy(eff, id) == OutcomesOf(EndedBy(b, eff, id).value)
    ensures EndedBy(b, eff, id).None? ==> AuditedBy(eff, id) == []
  {
  }

  lemma AuditAfter(tenants: Tenants, b: Books, e: Event, eff: Effect, id: nat)
    requires IdsApart(b) && Possible(tenants, b, e, eff) && Audited(b.audit, id) == Owed(b.finished, id)
    ensures Audited(Apply(b, eff).audit, id) == Owed(Apply(b, eff).finished, id)
  {
    AuditGains(b, eff, id);
    FinishedAfter(b, eff, id);
    EndsOnce(tenants, b, e, eff, id);
    JoinOwed(Audited(b.audit, id), AuditedBy(eff, id), Owed(b.finished, id), EndedBy(b, eff, id));
  }

  lemma JoinOwed(before: seq<AuditOutcome>, added: seq<AuditOutcome>, owed: seq<AuditOutcome>, ended: Option<Ending>)
    requires before == owed
    requires if ended.Some? then owed == [] && added == OutcomesOf(ended.value) else added == []
    ensures before + added == if ended.Some? then OutcomesOf(ended.value) else owed
  {
  }

  /**
   Every run leaves exactly one audit event when it ends, deny, error or allow as it ended, and none
   while it is in flight or when it is a replay.
   */
  lemma {:induction false} OneEventPerRun(tenants: Tenants, events: seq<Event>, id: nat)
    ensures Audited(Run(tenants, events).audit, id) == Owed(Run(tenants, events).finished, id)
    ensures id in Run(tenants, events).inFlight ==> id !in Run(tenants, events).finished
  {
    RunIdsApart(tenants, events);
    if events != [] {
      var before := events[..|events| - 1];
      var eff := LastEffect(tenants, events);
      OneEventPerRun(tenants, before, id);
      AuditAfter(tenants, RunBooks(tenants, before), events[|events| - 1], eff, id);
    }
  }

  // ----- The stored jobs are those of the runs that succeeded -----

  ghost predicate StoredAsEnded(b: Books, job: Job) {
    job.request.requestId in b.finished && b.finished[job.request.requestId] == Succeeded(job)
  }

  ghost predicate JobsAreEndings(b: Books) {
    (forall job | job in b.jobs :: StoredAsEnded(b, job))
    && forall id | id in b.finished && b.finished[id].Succeeded? ::
         b.finished[id].job in b.jobs && b.finished[id].job.request.requestId == id
  }

  lemma EndingsAfter(tenants: Tenants, b: Books, e: Event, eff: Effect)
    requires IdsApart(b) && Possible(tenants, b, e, eff) && JobsAreEndings(b)
    ensures JobsAreEndings(Apply(b, eff))
  {
    var after := Apply(b, eff);
    forall job | job in after.jobs ensures StoredAsEnded(after, job) {
      FinishedAfter(b, eff, job.request.requestId);
      EndsOnce(tenants, b, e, eff, job.request.requestId);
      assert job in b.jobs ==> StoredAsEnded(b, job);
    }
    forall id | id in after.finished && after.finished[id].Succeeded?
      ensures after.finished[id].job in after.jobs && after.finished[id].job.request.requestId == id
    {
      FinishedAfter(b, eff, id);
      EndsOnce(tenants, b, e, eff, id);
    }
  }

  /** The jobs stored are exactly those the successful runs ended with, each for that run's own request. */
  lemma {:induction false} JobsBelongToRuns(tenants: Tenants, events: seq<Event>)
    ensures JobsAreEndings(RunBooks(tenants, events))
  {
    if events != [] {
      var before := events[..|events| - 1];
      var eff := LastEffect(tenants, events);
      JobsBelongToRuns(tenants, before);
      EndingsAfter(tenants, RunBooks(tenants, before), events[|events| - 1], eff);
    }
  }

  // ----- The request a run began with -----

  /** `input` is the request whose arrival began its run; a later arrival under the same id is not. */
  ghost predicate Began(tenants: Tenants, events: seq<Event>, input: Input) {
    events != []
    && var before, e := events[..|events| - 1], events[|events| - 1];
       Began(tenants, before, input) || (e == Arrives(input) && Fresh(RunBooks(tenants, before), input.requestId))
  }

  lemma BeganStill(tenants: Tenants, events: seq<Event>, input: Input)
    requires events != [] && Began(tenants, events[..|events| - 1], input)
    ensures Began(tenants, events, input)
  {
  }

  lemma {:induction false} BeganByArrival(tenants: Tenants, events: seq<Event>, input: Input)
    requires Began(tenants, events, input)
    ensures Arrives(input) in events
  {
    var before := events[..|events| - 1];
    if Began(tenants, before, input) {
      BeganByArrival(tenants, before, input);
    }
  }

  /** An id that is in use stays in use. */
  lemma UsedStill(tenants: Tenants, b: Books, e: Event, eff: Effect, id: nat)
    requires IdsApart(b) && Possible(tenants, b, e, eff) && !Fresh(b, id)
    ensures !Fresh(Apply(b, eff), id)
  {
    FinishedAfter(b, eff, id);
  }

  /** An arrival with a fresh id uses the id: it is refused, replayed or admitted. */
  lemma ArrivalUses(tenants: Tenants, st: State, input: Input)
    ensures !Fresh(BooksOf(Arrive(tenants, st, input)), input.requestId)
  {
    if input.tenantId in tenants {
      GatesUse(st, input, tenants[input.tenantId]);
    }
  }

  lemma GatesUse(st: State, input: Input, config: TenantConfig)
    ensures !Fresh(BooksOf(LimitGates(st, input, config)), input.requestId)
  {
  }

  lemma {:induction false} BeganUses(tenants: Tenants, events: seq<Event>, input: Input)
    requires Began(tenants, events, input)
    ensures !Fresh(RunBooks(tenants, events), input.requestId)
  {
    var before, e := events[..|events| - 1], events[|events| - 1];
    if Began(tenants, before, input) {
      var eff := LastEffect(tenants, events);
      BeganUses(tenants, before, input);
      UsedStill(tenants, RunBooks(tenants, before), e, eff, input.requestId);
    } else {
      ArrivalUses(tenants, Run(tenants, before), input);
    }
  }

  /** A run began with one request only. */
  lemma {:induction false} BeganOnce(tenants: Tenants, events: seq<Event>, a: Input, b: Input)
    requires Began(tenants, events, a) && Began(tenants, events, b) && a.requestId == b.requestId
    ensures a == b
  {
    var before := events[..|events| - 1];
    if Began(tenants, before, a) {
      BeganUses(tenants, before, a);
      BeganOnce(tenants, before, a, b);
    } else if Began(tenants, before, b) {
      BeganUses(tenants, before, b);
    }
  }
}
