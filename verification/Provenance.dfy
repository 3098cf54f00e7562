/**
 Where every stored result comes from, over whole runs with any number of requests in flight: the
 pipeline, the cache store and the cache keys together.
 */
module Provenance {
  import opened Results
  import opened JsStrings
  import opened Pipeline
  import CacheStore
  import CacheKey
  import CanonicalJson
  import Idempotency

  /** During `events` a provider answered the run of `source` with `value`. */
  ghost predicate Answered(tenants: Tenants, events: seq<Event>, source: Input, value: TryOnResult) {
    events != []
    && var before, e := events[..|events| - 1], events[|events| - 1];
       Answered(tenants, before, source, value)
       || (e.Answers? && e.value == value && e.id in Run(tenants, before).inFlight
           && Run(tenants, before).inFlight[e.id] == Routing(source))
  }

  /** Some run with this cache key was answered with `value`. */
  ghost predicate Sourced(tenants: Tenants, events: seq<Event>, key: JsString, value: TryOnResult) {
    exists source: Input :: Answered(tenants, events, source, value) && source.cacheKey == key
        && Arrives(source) in events
  }

  /** `value` is an answer to some run with the cache key of `input`, and to that very run unless it is a hit. */
  ghost predicate Served(tenants: Tenants, events: seq<Event>, input: Input, value: TryOnResult, hit: bool) {
    exists source: Input :: ServedFrom(tenants, events, input, value, hit, source)
  }

  ghost predicate ServedFrom(
      tenants: Tenants, events: seq<Event>, input: Input, value: TryOnResult, hit: bool, source: Input) {
    && Answered(tenants, events, source, value) && Arrives(source) in events
    && source.cacheKey == input.cacheKey && (hit || source == input)
  }

  /** The job's result is such an answer to the request the job was stored for, as that caller sees it. */
  ghost predicate JobServed(tenants: Tenants, events: seq<Event>, job: Job, value: TryOnResult, hit: bool) {
    Served(tenants, events, job.request, value, hit) && job.result == Surfaced(value, hit)
  }

  ghost predicate JobSourced(tenants: Tenants, events: seq<Event>, job: Job) {
    && Arrives(job.request) in events && job.idempotencyKey == job.request.idempotencyKey
    && exists value: TryOnResult, hit: bool :: JobServed(tenants, events, job, value, hit)
  }

  ghost predicate SlotsSourced(tenants: Tenants, events: seq<Event>, slots: seq<CacheStore.Slot<TryOnResult>>) {
    forall k: JsString :: CacheStore.Find(slots, k).Some?
        ==> Sourced(tenants, events, k, CacheStore.Find(slots, k).value.value)
  }

  ghost predicate FlightSourced(tenants: Tenants, events: seq<Event>, s: Suspended) {
    Arrives(s.input) in events && (s.Computed? ==> Served(tenants, events, s.input, s.value, s.hit))
  }

  ghost predicate FlightsSourced(tenants: Tenants, events: seq<Event>, inFlight: map<nat, Suspended>) {
    forall id | id in inFlight :: FlightSourced(tenants, events, inFlight[id])
  }

  ghost predicate JobsSourced(tenants: Tenants, events: seq<Event>, jobs: seq<Job>) {
    forall job | job in jobs :: JobSourced(tenants, events, job)
  }

  // ----- A source stays a source -----

  lemma SourcedStill(tenants: Tenants, events: seq<Event>, e: Event, key: JsString, value: TryOnResult)
    requires Sourced(tenants, events, key, value)
    ensures Sourced(tenants, events + [e], key, value)
  {
    var source: Input :| Answered(tenants, events, source, value) && source.cacheKey == key
        && Arrives(source) in events;
    AnsweredStill(tenants, events, e, source, value);
  }

  lemma ServedStill(tenants: Tenants, events: seq<Event>, e: Event, input: Input, value: TryOnResult, hit: bool)
    requires Served(tenants, events, input, value, hit)
    ensures Served(tenants, events + [e], input, value, hit)
  {
    var source: Input :| ServedFrom(tenants, events, input, value, hit, source);
    AnsweredStill(tenants, events, e, source, value);
    assert ServedFrom(tenants, events + [e], input, value, hit, source);
  }

  lemma AnsweredStill(tenants: Tenants, events: seq<Event>, e: Event, source: Input, value: TryOnResult)
    requires Answered(tenants, events, source, value)
    ensures Answered(tenants, events + [e], source, value)
  {
    assert (events + [e])[..|events|] == events;
  }

  lemma SlotsStill(tenants: Tenants, events: seq<Event>, e: Event, slots: seq<CacheStore.Slot<TryOnResult>>)
    requires SlotsSourced(tenants, events, slots)
    ensures SlotsSourced(tenants, events + [e], slots)
  {
    forall k: JsString | CacheStore.Find(slots, k).Some?
      ensures Sourced(tenants, events + [e], k, CacheStore.Find(slots, k).value.value)
    {
      SourcedStill(tenants, events, e, k, CacheStore.Find(slots, k).value.value);
    }
  }

  lemma FlightsStill(tenants: Tenants, events: seq<Event>, e: Event, inFlight: map<nat, Suspended>)
    requires FlightsSourced(tenants, events, inFlight)
    ensures FlightsSourced(tenants, events + [e], inFlight)
  {
    forall id | id in inFlight ensures FlightSourced(tenants, events + [e], inFlight[id]) {
      var s := inFlight[id];
      assert FlightSourced(tenants, events, s);
      if s.Computed? {
        ServedStill(tenants, events, e, s.input, s.value, s.hit);
      }
    }
  }

  lemma JobStill(tenants: Tenants, events: seq<Event>, e: Event, job: Job)
    requires JobSourced(tenants, events, job)
    ensures JobSourced(tenants, events + [e], job)
  {
    var value: TryOnResult, hit: bool :| JobServed(tenants, events, job, value, hit);
    ServedStill(tenants, events, e, job.request, value, hit);
    assert JobServed(tenants, events + [e], job, value, hit);
  }

  lemma JobsStill(tenants: Tenants, events: seq<Event>, e: Event, jobs: seq<Job>)
    requires JobsSourced(tenants, events, jobs)
    ensures JobsSourced(tenants, events + [e], jobs)
  {
    forall job | job in jobs ensures JobSourced(tenants, events + [e], job) {
      JobStill(tenants, events, e, job);
    }
  }

  // ----- What an arrival does to cache and runs -----

  ghost predicate SlotsShaped(slots: seq<CacheStore.Slot<TryOnResult>>) {
    CacheStore.DistinctKeys(slots) && |slots| <= CACHE_CAPACITY
  }

  function Lookup(st: State, input: Input): CacheStore.Op<TryOnResult> {
    CacheStore.Op.Get(input.cacheKey, 0.0)
  }

  /** An arrival leaves cache and runs alone, or looks its key up and suspends. */
  ghost predicate LikeArrival(st: State, input: Input, next: State) {
    next.jobs == st.jobs
    && ((next.slots == st.slots && next.inFlight == st.inFlight)
        || (next.slots == Admit(st, input).slots && next.inFlight == Admit(st, input).inFlight))
  }

  lemma GatesAdmit(st: State, input: Input, config: TenantConfig)
    ensures LikeArrival(st, input, LimitGates(st, input, config))
  {
  }

  lemma ArriveAdmits(tenants: Tenants, st: State, input: Input)
    ensures LikeArrival(st, input, Arrive(tenants, st, input))
  {
    EarlyGates(tenants, st, input);
    if input.tenantId in tenants {
      GatesAdmit(st, input, tenants[input.tenantId]);
    }
  }

  /** Whatever ends a run before the limiter leaves cache, jobs and the runs in flight alone. */
  lemma EarlyGates(tenants: Tenants, st: State, input: Input)
    ensures var next := Arrive(tenants, st, input);
      (next.jobs == st.jobs && next.slots == st.slots && next.inFlight == st.inFlight)
      || (input.tenantId in tenants && next == LimitGates(st, input, tenants[input.tenantId]))
  {
  }

  lemma LookupSourced(tenants: Tenants, events: seq<Event>, st: State, input: Input)
    requires SlotsShaped(st.slots) && SlotsSourced(tenants, events, st.slots) && Arrives(input) in events
    requires FlightsSourced(tenants, events, st.inFlight)
    ensures SlotsShaped(Admit(st, input).slots) && SlotsSourced(tenants, events, Admit(st, input).slots)
    ensures FlightsSourced(tenants, events, Admit(st, input).inFlight)
  {
    var op := Lookup(st, input);
    CacheStore.StepKeepsShape(CACHE_CAPACITY, st.slots, op);
    var slots := CacheStore.Step(CACHE_CAPACITY, st.slots, op).0;
    forall k: JsString | CacheStore.Find(slots, k).Some?
      ensures Sourced(tenants, events, k, CacheStore.Find(slots, k).value.value)
    {
      CacheStore.StepFind(CACHE_CAPACITY, st.slots, op, k);
    }
    var found := CacheStore.Find(st.slots, input.cacheKey);
    if found.Some? {
      SourceServes(tenants, events, input, found.value.value);
    }
  }

  lemma SourceServes(tenants: Tenants, events: seq<Event>, input: Input, value: TryOnResult)
    requires Sourced(tenants, events, input.cacheKey, value)
    ensures Served(tenants, events, input, value, true)
  {
    var source: Input :| Answered(tenants, events, source, value) && source.cacheKey == input.cacheKey
      && Arrives(source) in events;
    assert ServedFrom(tenants, events, input, value, true, source);
  }

  lemma PutSourced(
      tenants: Tenants, events: seq<Event>, slots: seq<CacheStore.Slot<TryOnResult>>, key: JsString,
      value: TryOnResult)
    requires SlotsShaped(slots) && SlotsSourced(tenants, events, slots) && Sourced(tenants, events, key, value)
    ensures var after := CacheStore.Step(CACHE_CAPACITY, slots, CacheStore.Op.Put(key, value, CacheStore.NoTtl, 0.0)).0;
      SlotsShaped(after) && SlotsSourced(tenants, events, after)
  {
    var op := CacheStore.Op.Put(key, value, CacheStore.NoTtl, 0.0);
    CacheStore.StepKeepsShape(CACHE_CAPACITY, slots, op);
    var after := CacheStore.Step(CACHE_CAPACITY, slots, op).0;
    forall k: JsString | CacheStore.Find(after, k).Some?
      ensures Sourced(tenants, events, k, CacheStore.Find(after, k).value.value)
    {
      CacheStore.StepFind(CACHE_CAPACITY, slots, op, k);
    }
  }

  // ----- Every reachable state -----

  ghost predicate AllSourced(tenants: Tenants, events: seq<Event>, st: State) {
    && SlotsShaped(st.slots) && SlotsSourced(tenants, events, st.slots)
    && FlightsSourced(tenants, events, st.inFlight)
    && JobsSourced(tenants, events, st.jobs)
  }

  lemma ArrivalKeeps(tenants: Tenants, events: seq<Event>, st: State, input: Input)
    requires AllSourced(tenants, events, st) && Arrives(input) in events
    ensures AllSourced(tenants, events, Arrive(tenants, st, input))
  {
    ArriveAdmits(tenants, st, input);
    LookupSourced(tenants, events, st, input);
  }

  lemma AnswerKeeps(tenants: Tenants, events: seq<Event>, st: State, id: nat, value: TryOnResult)
    requires AllSourced(tenants, events, st)
    requires id in st.inFlight && st.inFlight[id].Routing?
    requires Sourced(tenants, events, st.inFlight[id].input.cacheKey, value)
    requires Served(tenants, events, st.inFlight[id].input, value, false)
    ensures AllSourced(tenants, events, ProviderAnswers(st, id, value))
  {
    assert FlightSourced(tenants, events, st.inFlight[id]);
    PutSourced(tenants, events, st.slots, st.inFlight[id].input.cacheKey, value);
  }

  lemma RecordKeeps(tenants: Tenants, events: seq<Event>, st: State, id: nat)
    requires AllSourced(tenants, events, st)
    ensures AllSourced(tenants, events, Record(st, id))
  {
    if id in st.inFlight && st.inFlight[id].Computed? {
      var Computed(input, value, hit) := st.inFlight[id];
      assert FlightSourced(tenants, events, st.inFlight[id]);
      var job := Job(st.nextJobId, input, Surfaced(value, hit), input.idempotencyKey);
      assert JobServed(tenants, events, job, value, hit);
    }
  }

  /** The answer that an event carries is a source for the run it answers. */
  lemma AnswerSourced(tenants: Tenants, before: seq<Event>, e: Event)
    requires e.Answers? && e.id in Run(tenants, before).inFlight && Run(tenants, before).inFlight[e.id].Routing?
    requires FlightsSourced(tenants, before, Run(tenants, before).inFlight)
    ensures Sourced(tenants, before + [e], Run(tenants, before).inFlight[e.id].input.cacheKey, e.value)
    ensures Served(tenants, before + [e], Run(tenants, before).inFlight[e.id].input, e.value, false)
  {
    var s := Run(tenants, before).inFlight[e.id];
    assert FlightSourced(tenants, before, s);
    assert (before + [e])[..|before|] == before;
    assert ServedFrom(tenants, before + [e], s.input, e.value, false, s.input);
  }

  lemma AllStill(tenants: Tenants, events: seq<Event>, e: Event, st: State)
    requires AllSourced(tenants, events, st)
    ensures AllSourced(tenants, events + [e], st)
  {
    SlotsStill(tenants, events, e, st.slots);
    FlightsStill(tenants, events, e, st.inFlight);
    JobsStill(tenants, events, e, st.jobs);
  }

  lemma StepKeeps(tenants: Tenants, before: seq<Event>, e: Event)
    requires AllSourced(tenants, before, Run(tenants, before))
    ensures AllSourced(tenants, before + [e], React(tenants, Run(tenants, before), e))
  {
    var st, events := Run(tenants, before), before + [e];
    AllStill(tenants, before, e, st);
    match e
    case Arrives(input) =>
      assert events[|before|] == e;
      ArrivalKeeps(tenants, events, st, input);
    case Answers(id, value) =>
      if id in st.inFlight && st.inFlight[id].Routing? {
        AnswerSourced(tenants, before, e);
        AnswerKeeps(tenants, events, st, id, value);
      }
    case Fails(id) =>
    case Records(id) => RecordKeeps(tenants, events, st, id);
  }

  /**
   In every reachable state, whatever the cache holds, a suspended run carries or a job was stored with
   is a provider's answer to some run with the same cache key.
   */
  lemma {:induction false} EverythingIsSourced(tenants: Tenants, events: seq<Event>)
    ensures AllSourced(tenants, events, Run(tenants, events))
  {
    if events != [] {
      var before, e := events[..|events| - 1], events[|events| - 1];
      EverythingIsSourced(tenants, before);
      StepKeeps(tenants, before, e);
      assert events == before + [e];
    }
  }

  // ----- With derived keys -----

  /** Every arriving run has the cache key derived from its own request, whose tenant id `name` writes as text. */
  ghost predicate Keyed(
      sha: CacheKey.Sha, name: JsString -> string, partsOf: Input -> CacheKey.CacheKeyParts, events: seq<Event>) {
    forall e | e in events && e.Arrives? ::
      CacheKey.Key(sha, partsOf(e.input)) == Ok(e.input.cacheKey) && name(partsOf(e.input).tenantId) == e.input.tenantId
  }

  /** The result of `job` was a provider's answer to `source`, which is the job's own run unless it is a cache hit. */
  ghost predicate CameFrom(tenants: Tenants, events: seq<Event>, job: Job, source: Input) {
    exists value: TryOnResult, hit: bool ::
      ServedFrom(tenants, events, job.request, value, hit, source) && job.result == Surfaced(value, hit)
  }

  /** The run whose answer a job holds: it has the cache key of the job's request. */
  lemma JobSource(tenants: Tenants, events: seq<Event>, job: Job) returns (source: Input)
    requires job in Run(tenants, events).jobs
    ensures Arrives(job.request) in events && Arrives(source) in events
    ensures source.cacheKey == job.request.cacheKey && CameFrom(tenants, events, job, source)
  {
    EverythingIsSourced(tenants, events);
    assert JobSourced(tenants, events, job);
    var value: TryOnResult, hit: bool :| JobServed(tenants, events, job, value, hit);
    source :| ServedFrom(tenants, events, job.request, value, hit, source);
  }

  /** The job holds an answer to a run of the tenant it was stored for. */
  ghost predicate OwnResult(tenants: Tenants, events: seq<Event>, job: Job) {
    exists source: Input :: source.tenantId == job.request.tenantId && CameFrom(tenants, events, job, source)
  }

  /**
   Stored results stay with their tenant: over all interleavings, evictions and hits, each stored job holds
   a provider's answer to a run of the tenant it was stored for. Nothing is assumed of the hash.
   */
  lemma ResultsStayWithTenant(tenants: Tenants, events: seq<Event>,
      sha: CacheKey.Sha, name: JsString -> string, partsOf: Input -> CacheKey.CacheKeyParts)
    ensures Keyed(sha, name, partsOf, events) ==>
              forall job | job in Run(tenants, events).jobs :: OwnResult(tenants, events, job)
  {
    if Keyed(sha, name, partsOf, events) {
      forall job | job in Run(tenants, events).jobs ensures OwnResult(tenants, events, job) {
        var source := JobSource(tenants, events, job);
        CacheKey.TenantsNeverShareKeys(sha, partsOf(source), sha, partsOf(job.request));
      }
    }
  }

  /** The two requests reach no collision of the hash. */
  ghost predicate Apart(sha: CacheKey.Sha, partsOf: Input -> CacheKey.CacheKeyParts, a: Input, b: Input) {
    && CacheKey.ValidParams(partsOf(a).params) && CacheKey.ValidParams(partsOf(b).params)
    && (CanonicalJson.Encode(partsOf(a).params).Ok? && CanonicalJson.Encode(partsOf(b).params).Ok?
        ==> CacheKey.NoCollision(sha, partsOf(a), partsOf(b)))
  }

  /** The job holds an answer to the very request it was stored for: same tenant, image hash, product and params. */
  ghost predicate AnswersItsRequest(
      tenants: Tenants, events: seq<Event>, partsOf: Input -> CacheKey.CacheKeyParts, job: Job) {
    exists source: Input :: CameFrom(tenants, events, job, source)
      && partsOf(source).tenantId == partsOf(job.request).tenantId
      && CacheKey.SameRequest(partsOf(source), partsOf(job.request))
  }

  /**
   Where the hash does not collide, the answer a job holds was given to the request the job was stored
   for: same tenant, image hash, product and params up to member order. (The shopper may be another one.)
   */
  lemma ResultsAnswerTheRequest(tenants: Tenants, events: seq<Event>,
      sha: CacheKey.Sha, name: JsString -> string, partsOf: Input -> CacheKey.CacheKeyParts)
    requires Keyed(sha, name, partsOf, events)
    requires forall a, b | Arrives(a) in events && Arrives(b) in events :: Apart(sha, partsOf, a, b)
    ensures forall job | job in Run(tenants, events).jobs :: AnswersItsRequest(tenants, events, partsOf, job)
  {
    forall job | job in Run(tenants, events).jobs ensures AnswersItsRequest(tenants, events, partsOf, job) {
      var source := JobSource(tenants, events, job);
      assert Apart(sha, partsOf, source, job.request);
      CacheKey.KeySeparates(sha, partsOf(source), partsOf(job.request));
    }
  }

  // ----- What a caller is handed -----

  /**
   No tenant is handed another tenant's result, fresh, cached or replayed: whatever job a run ends with
   holds a provider's answer to a run of the tenant that made the request. Nothing is assumed of the hash,
   but that no registered id, followed by a NUL, starts another.
   */
  lemma HandedStaysWithTenant(tenants: Tenants, events: seq<Event>, input: Input, job: Job,
      sha: CacheKey.Sha, name: JsString -> string, partsOf: Input -> CacheKey.CacheKeyParts)
    requires Idempotency.IdsDoNotNest(tenants) && Keyed(sha, name, partsOf, events)
    requires Idempotency.Handed(tenants, events, input, job)
    ensures exists source: Input :: source.tenantId == input.tenantId && CameFrom(tenants, events, job, source)
  {
    Idempotency.HandedIsOwn(tenants, events, input, job);
    ResultsStayWithTenant(tenants, events, sha, name, partsOf);
    assert OwnResult(tenants, events, job);
  }

  /** A run that succeeded was handed an answer to the request it began with, stored for that run. */
  lemma SuccessAnswersTheRun(tenants: Tenants, events: seq<Event>, input: Input, job: Job,
      sha: CacheKey.Sha, name: JsString -> string, partsOf: Input -> CacheKey.CacheKeyParts)
    requires Keyed(sha, name, partsOf, events)
    requires forall a, b | Arrives(a) in events && Arrives(b) in events :: Apart(sha, partsOf, a, b)
    requires Idempotency.Handed(tenants, events, input, job)
    requires Run(tenants, events).finished[input.requestId] == Succeeded(job)
    ensures job.request == input && AnswersItsRequest(tenants, events, partsOf, job)
  {
    Idempotency.HandedIsStored(tenants, events, input, job);
    ResultsAnswerTheRequest(tenants, events, sha, name, partsOf);
  }
}
