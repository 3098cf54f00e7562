/**
 apps/api/app/_lib/pipeline.ts, pipeline-execute.ts, pipeline-errors.ts and runtime.ts: the gates of
 a try-on request, the cache and provider tail, the audit ledger and the stored jobs. A run is
 suspended twice, while a provider computes and before its outcome is recorded, so any number of runs
 interleave. Costs are exact.
 */
module Pipeline {
  import opened Results
  import opened JsStrings
  import CacheStore
  import RateLimit

  // ----- Data -----

  const ESTIMATED_NEXT_CALL_USD: real := 0.05
  const CACHE_CAPACITY: nat := 1_000

  datatype AuditOutcome = Allow | Deny | Error

  datatype AuditEvent =
    AuditEvent(tenantId: string, actor: string, requestId: nat, outcome: AuditOutcome, costUsd: Option<real>)

  /** What a provider answered, as the cache keeps it. */
  datatype TryOnResult = TryOnResult(resultImageUrl: string, cached: bool, costUsd: real)

  datatype TenantConfig =
    TenantConfig(perShopperPerMinute: int, perTenantPerMinute: int, monthlyBudgetUsd: real, killSwitch: bool)

  type Tenants = map<string, TenantConfig>

  datatype ImageVerdict = Accepted | TooLarge | OtherwiseRejected

  /**
   One request with what its run sees of the world: a fresh request id, whether some stored key record
   verifies, the image verdicts, the global kill switch and the clock.
   */
  datatype Input = Input(
    requestId: nat,
    tenantId: string,
    shopperId: string,
    cacheKey: JsString,
    idempotencyKey: Option<string>,
    keyVerifies: bool,
    personImage: ImageVerdict,
    garmentImage: Option<ImageVerdict>,
    globalKillSwitch: bool,
    now: int)

  /** A stored job keeps the request it was stored for. */
  datatype Job = Job(jobId: nat, request: Input, result: TryOnResult, idempotencyKey: Option<string>)

  datatype Refusal =
    | Unauthorized
    | KillSwitchEngaged
    | PayloadTooLarge
    | InvalidInput
    | RateLimited(retryAfterMs: int)
    | BudgetExceeded

  /** An admitted run: waiting for a provider, or with its value and about to be recorded. */
  datatype Suspended = Routing(input: Input) | Computed(input: Input, value: TryOnResult, hit: bool)

  datatype Ending = Replayed(job: Job) | Refused(why: Refusal) | ProviderFailed | Succeeded(job: Job)

  datatype State = State(
    audit: seq<AuditEvent>,
    jobs: seq<Job>,
    index: map<string, nat>,
    nextJobId: nat,
    buckets: RateLimit.Buckets,
    slots: seq<CacheStore.Slot<TryOnResult>>,
    inFlight: map<nat, Suspended>,
    finished: map<nat, Ending>)

  function Initial(): State {
    State([], [], map[], 0, map[], [], map[], map[])
  }

  // ----- Ledger and jobs -----

  /** What the allow events of a tenant add up to. */
  function Spend(events: seq<AuditEvent>, tenantId: string): real {
    if events == [] then 0.0
    else Spend(events[..|events| - 1], tenantId) + Charge(events[|events| - 1], tenantId)
  }

  function Charge(e: AuditEvent, tenantId: string): real {
    if e.tenantId == tenantId && e.outcome == Allow && e.costUsd.Some? then e.costUsd.value else 0.0
  }

  method SumTenantSpendUsd(events: seq<AuditEvent>, tenantId: string) returns (total: real)
    ensures total == Spend(events, tenantId)
  {
    total := 0.0;
    for i := 0 to |events|
      invariant total == Spend(events[..i], tenantId)
    {
      var event := events[i];
      assert events[..i + 1][..i] == events[..i];
      if event.tenantId == tenantId && event.outcome == Allow && event.costUsd.Some? {
        total := total + event.costUsd.value;
      }
    }
    assert events[..|events|] == events;
  }

  /** `jobs.get(id)` */
  function FindJob(jobs: seq<Job>, id: nat): Option<Job> {
    if jobs == [] then None
    else if jobs[|jobs| - 1].jobId == id then Some(jobs[|jobs| - 1])
    else FindJob(jobs[..|jobs| - 1], id)
  }

  /** The composite key of the idempotency index, joined by a NUL. */
  function IndexKey(tenantId: string, idempotencyKey: string): string {
    tenantId + "\0" + idempotencyKey
  }

  function LookupIdempotentJob(st: State, tenantId: string, idempotencyKey: Option<string>): Option<Job> {
    if idempotencyKey.None? then None
    else
      var key := IndexKey(tenantId, idempotencyKey.value);
      if key !in st.index then None else FindJob(st.jobs, st.index[key])
  }

  // ----- The gates, up to the first suspension -----

  function RejectError(verdict: ImageVerdict): Refusal {
    if verdict.TooLarge? then PayloadTooLarge else InvalidInput
  }

  function ImageError(input: Input): Option<Refusal> {
    if !input.personImage.Accepted? then Some(RejectError(input.personImage))
    else if input.garmentImage.Some? && !input.garmentImage.value.Accepted? then
      Some(RejectError(input.garmentImage.value))
    else None
  }

  function LimiterRequest(input: Input, config: TenantConfig): RateLimit.Request {
    RateLimit.Request(input.now, input.tenantId, input.shopperId, config.perShopperPerMinute, config.perTenantPerMinute)
  }

  function Refuse(st: State, input: Input, why: Refusal): State {
    st.(audit := st.audit + [AuditEvent(input.tenantId, input.shopperId, input.requestId, Deny, None)],
        finished := st.finished[input.requestId := Refused(why)])
  }

  /** The cache lookup of an admitted run: a hit is recorded next, a miss goes to a provider. */
  function Admit(st: State, input: Input): State {
    var (slots, got) := CacheStore.Step(CACHE_CAPACITY, st.slots, CacheStore.Op.Get(input.cacheKey, 0.0));
    var next := if got.Got? && got.hit.Some? then Computed(input, got.hit.value, true) else Routing(input);
    st.(slots := slots, inFlight := st.inFlight[input.requestId := next])
  }

  /** The last two gates, which a run reaches with the limiter consulted. */
  function LimitGates(st: State, input: Input, config: TenantConfig): State {
    var (buckets, d) := RateLimit.Check(st.buckets, LimiterRequest(input, config));
    var st' := st.(buckets := buckets);
    if !d.allowed then Refuse(st', input, RateLimited(d.retryAfterMs))
    else if Spend(st'.audit, input.tenantId) + ESTIMATED_NEXT_CALL_USD > config.monthlyBudgetUsd then
      Refuse(st', input, BudgetExceeded)
    else Admit(st', input)
  }

  function Arrive(tenants: Tenants, st: State, input: Input): State {
    if input.requestId in st.inFlight || input.requestId in st.finished then st
    else if input.tenantId !in tenants then Refuse(st, input, Unauthorized)
    else if !input.keyVerifies then Refuse(st, input, Unauthorized)
    else
      var replayed := LookupIdempotentJob(st, input.tenantId, input.idempotencyKey);
      if replayed.Some? then st.(finished := st.finished[input.requestId := Replayed(replayed.value)])
      else if input.globalKillSwitch || tenants[input.tenantId].killSwitch then Refuse(st, input, KillSwitchEngaged)
      else if ImageError(input).Some? then Refuse(st, input, ImageError(input).value)
      else LimitGates(st, input, tenants[input.tenantId])
  }

  // ----- The tail -----

  /** The provider has answered: put the result in the cache. */
  function ProviderAnswers(st: State, id: nat, value: TryOnResult): State {
    if id !in st.inFlight || !st.inFlight[id].Routing? then st
    else
      var input := st.inFlight[id].input;
      var (slots, _) :=
        CacheStore.Step(CACHE_CAPACITY, st.slots, CacheStore.Op.Put(input.cacheKey, value, CacheStore.NoTtl, 0.0));
      st.(slots := slots, inFlight := st.inFlight[id := Computed(input, value, false)])
  }

  /** Every provider has failed: record the error. */
  function ProvidersFail(st: State, id: nat): State {
    if id !in st.inFlight || !st.inFlight[id].Routing? then st
    else
      var input := st.inFlight[id].input;
      st.(audit := st.audit + [AuditEvent(input.tenantId, input.shopperId, id, Error, None)],
          inFlight := st.inFlight - {id}, finished := st.finished[id := ProviderFailed])
  }

  /** The result as this caller sees it: a hit is free and marked as cached. */
  function Surfaced(value: TryOnResult, hit: bool): TryOnResult {
    if hit then value.(cached := true, costUsd := 0.0) else value
  }

  /** The value is in hand: append the allow event, store the job and index it. */
  function Record(st: State, id: nat): State {
    if id !in st.inFlight || !st.inFlight[id].Computed? then st
    else
      var Computed(input, value, hit) := st.inFlight[id];
      var job := Job(st.nextJobId, input, Surfaced(value, hit), input.idempotencyKey);
      var cost := if hit then 0.0 else value.costUsd;
      st.(audit := st.audit + [AuditEvent(input.tenantId, input.shopperId, id, Allow, Some(cost))],
          jobs := st.jobs + [job],
          index := if input.idempotencyKey.Some?
                   then st.index[IndexKey(input.tenantId, input.idempotencyKey.value) := job.jobId] else st.index,
          nextJobId := st.nextJobId + 1,
          inFlight := st.inFlight - {id},
          finished := st.finished[id := Succeeded(job)])
  }

  // ----- Runs -----

  datatype Event = Arrives(input: Input) | Answers(id: nat, value: TryOnResult) | Fails(id: nat) | Records(id: nat)

  function React(tenants: Tenants, st: State, e: Event): State {
    match e
    case Arrives(input) => Arrive(tenants, st, input)
    case Answers(id, value) => ProviderAnswers(st, id, value)
    case Fails(id) => ProvidersFail(st, id)
    case Records(id) => Record(st, id)
  }

  function Run(tenants: Tenants, events: seq<Event>): State {
    if events == [] then Initial()
    else React(tenants, Run(tenants, events[..|events| - 1]), events[|events| - 1])
  }

  // ----- The runtime, step by step -----

  class Runtime {
    var audit: seq<AuditEvent>
    var jobs: seq<Job>
    var jobsByIdempotencyKey: map<string, nat>
    var nextJobId: nat
    const rateLimiter: RateLimit.RateLimiter
    const store: CacheStore.InMemoryCacheStore<TryOnResult>
    var inFlight: map<nat, Suspended>
    var finished: map<nat, Ending>

    ghost function View(): State
      reads this, rateLimiter, store
    {
      State(audit, jobs, jobsByIdempotencyKey, nextJobId, rateLimiter.buckets, store.entries, inFlight, finished)
    }

    ghost predicate Valid()
      reads this, store
    {
      store.Valid() && store.maxEntries == CACHE_CAPACITY
    }

    constructor ()
      ensures Valid() && fresh(rateLimiter) && fresh(store) && View() == Initial()
    {
      audit, jobs, jobsByIdempotencyKey, nextJobId := [], [], map[], 0;
      rateLimiter := new RateLimit.RateLimiter();
      store := new CacheStore.InMemoryCacheStore(CACHE_CAPACITY);
      inFlight, finished := map[], map[];
    }

    method DenyRun(input: Input, why: Refusal)
      requires Valid()
      modifies this
      ensures Valid() && View() == Refuse(old(View()), input, why)
    {
      audit := audit + [AuditEvent(input.tenantId, input.shopperId, input.requestId, Deny, None)];
      finished := finished[input.requestId := Refused(why)];
    }

    /** `runTryOn` up to the first await. */
    method RunTryOn(tenants: Tenants, input: Input)
      requires Valid()
      modifies this, rateLimiter, store
      ensures Valid() && View() == Arrive(tenants, old(View()), input)
    {
      if input.requestId in inFlight || input.requestId in finished {
        return;
      }
      if input.tenantId !in tenants {
        DenyRun(input, Unauthorized);
        return;
      }
      var config := tenants[input.tenantId];
      if !input.keyVerifies {
        DenyRun(input, Unauthorized);
        return;
      }
      var replayed: Option<Job> := None;
      if input.idempotencyKey.Some? {
        var key := IndexKey(input.tenantId, input.idempotencyKey.value);
        if key in jobsByIdempotencyKey {
          replayed := FindJob(jobs, jobsByIdempotencyKey[key]);
        }
      }
      if replayed.Some? {
        finished := finished[input.requestId := Replayed(replayed.value)];
        return;
      }
      if input.globalKillSwitch || config.killSwitch {
        DenyRun(input, KillSwitchEngaged);
        return;
      }
      var imageError := ImageError(input);
      if imageError.Some? {
        DenyRun(input, imageError.value);
        return;
      }
      LimitAndAdmit(input, config);
    }

    method LimitAndAdmit(input: Input, config: TenantConfig)
      requires Valid()
      modifies this, rateLimiter, store
      ensures Valid() && View() == LimitGates(old(View()), input, config)
    {
      var d := rateLimiter.CheckRequest(LimiterRequest(input, config));
      if !d.allowed {
        DenyRun(input, RateLimited(d.retryAfterMs));
        return;
      }
      var spent := SumTenantSpendUsd(audit, input.tenantId);
      if spent + ESTIMATED_NEXT_CALL_USD > config.monthlyBudgetUsd {
        DenyRun(input, BudgetExceeded);
        return;
      }
      var hit := store.Get(input.cacheKey, 0.0);
      inFlight := inFlight[input.requestId := if hit.Some? then Computed(input, hit.value, true) else Routing(input)];
    }

    /** The compute function of `executeAndRecord` returns. */
    method RouteSucceeds(id: nat, value: TryOnResult)
      requires Valid()
      modifies this, store
      ensures Valid() && View() == ProviderAnswers(old(View()), id, value)
    {
      if id !in inFlight || !inFlight[id].Routing? {
        return;
      }
      var input := inFlight[id].input;
      var ok := store.Put(input.cacheKey, value, CacheStore.NoTtl, 0.0);
      inFlight := inFlight[id := Computed(input, value, false)];
    }

    /** The compute function of `executeAndRecord` throws. */
    method RouteFails(id: nat)
      requires Valid()
      modifies this
      ensures Valid() && View() == ProvidersFail(old(View()), id)
    {
      if id !in inFlight || !inFlight[id].Routing? {
        return;
      }
      var input := inFlight[id].input;
      audit := audit + [AuditEvent(input.tenantId, input.shopperId, id, Error, None)];
      inFlight := inFlight - {id};
      finished := finished[id := ProviderFailed];
    }

    /** The rest of `executeAndRecord`, with `storeSucceededJob`. */
    method RecordAndStore(id: nat)
      requires Valid()
      modifies this
      ensures Valid() && View() == Record(old(View()), id)
    {
      if id !in inFlight || !inFlight[id].Computed? {
        return;
      }
      var Computed(input, value, hit) := inFlight[id];
      var result := if hit then value.(cached := true, costUsd := 0.0) else value;
      var cost := if hit then 0.0 else value.costUsd;
      audit := audit + [AuditEvent(input.tenantId, input.shopperId, id, Allow, Some(cost))];
      var job := Job(nextJobId, input, result, input.idempotencyKey);
      nextJobId := nextJobId + 1;
      jobs := jobs + [job];
      if input.idempotencyKey.Some? {
        jobsByIdempotencyKey := jobsByIdempotencyKey[IndexKey(input.tenantId, input.idempotencyKey.value) := job.jobId];
      }
      inFlight := inFlight - {id};
      finished := finished[id := Succeeded(job)];
    }
  }
}
