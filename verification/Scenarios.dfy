/**
 Runs of the pipeline that do happen, built event by event for any tenant whose gates can be passed: the
 witnesses of what concurrency and shared index keys lead to. The i-th request comes i minutes into the
 run, so that the limiter has forgotten the ones before it, and has a cache key of its own.
 */
module Scenarios {
  import opened Results
  import opened JsStrings
  import opened Pipeline
  import RateLimit
  import CacheStore

  /** No kill switch, caps that let something through, and a budget that admits a first run. */
  predicate Open(config: TenantConfig) {
    && !config.killSwitch && config.perShopperPerMinute >= 1 && config.perTenantPerMinute >= 1
    && config.monthlyBudgetUsd >= ESTIMATED_NEXT_CALL_USD
  }

  function OwnKey(i: nat): (key: JsString)
    ensures |key| == i
  {
    if i == 0 then [] else OwnKey(i - 1) + [0x61]
  }

  function Request(tenantId: string, i: nat, idempotencyKey: Option<string>): Input {
    Input(i, tenantId, "s", OwnKey(i), idempotencyKey, true, Accepted, None, false, i * RateLimit.WINDOW_MS)
  }

  function Priced(cost: real): TryOnResult {
    TryOnResult("u", false, cost)
  }

  // ----- A state in which request `i` finds the limiter empty and the cache without its key -----

  ghost predicate AllBy(hits: seq<int>, i: nat) {
    forall t | t in hits :: t <= (i - 1) * RateLimit.WINDOW_MS
  }

  ghost predicate LimiterReady(buckets: RateLimit.Buckets, tenantId: string, i: nat) {
    && AllBy(RateLimit.Recorded(buckets, RateLimit.ShopperKey(tenantId, "s")), i)
    && AllBy(RateLimit.Recorded(buckets, RateLimit.TenantKey(tenantId)), i)
  }

  ghost predicate CacheReady(slots: seq<CacheStore.Slot<TryOnResult>>, i: nat) {
    && CacheStore.DistinctKeys(slots) && |slots| <= CACHE_CAPACITY
    && forall k: JsString :: CacheStore.Find(slots, k).Some? ==> |k| < i
  }

  ghost predicate IdsReady(st: State, i: nat) {
    forall id | id in st.inFlight || id in st.finished :: id < i
  }

  ghost predicate Ready(st: State, tenantId: string, i: nat) {
    LimiterReady(st.buckets, tenantId, i) && CacheReady(st.slots, i) && IdsReady(st, i)
  }

  lemma InitialReady(tenantId: string)
    ensures Ready(Initial(), tenantId, 0)
  {
  }

  lemma {:induction false} PruneAll(hits: seq<int>, c: int)
    requires forall t | t in hits :: t <= c
    ensures RateLimit.Prune(hits, c) == []
  {
    if hits != [] {
      assert forall t :: t in hits <==> t == hits[0] || t in hits[1..];
      PruneAll(hits[1..], c);
      assert hits[0] in hits;
      assert RateLimit.Prune(hits, c) == [] + RateLimit.Prune(hits[1..], c);
    }
  }

  /** The limiter allows the request and remembers nothing but it. */
  lemma LimiterAllows(buckets: RateLimit.Buckets, config: TenantConfig, tenantId: string, i: nat, key: Option<string>)
    requires Open(config) && LimiterReady(buckets, tenantId, i)
    ensures var (next, d) := RateLimit.Check(buckets, LimiterRequest(Request(tenantId, i, key), config));
      d.allowed && LimiterReady(next, tenantId, i + 1)
  {
    var cutoff := (i - 1) * RateLimit.WINDOW_MS;
    assert i * RateLimit.WINDOW_MS - RateLimit.WINDOW_MS == cutoff;
    PruneAll(RateLimit.Recorded(buckets, RateLimit.ShopperKey(tenantId, "s")), cutoff);
    PruneAll(RateLimit.Recorded(buckets, RateLimit.TenantKey(tenantId)), cutoff);
  }

  /** A request that the limiter allows and the budget has room for is looked up, and on a miss routed. */
  lemma GatesPassed(st: State, config: TenantConfig, input: Input)
    requires RateLimit.Check(st.buckets, LimiterRequest(input, config)).1.allowed
    requires Spend(st.audit, input.tenantId) + ESTIMATED_NEXT_CALL_USD <= config.monthlyBudgetUsd
    requires CacheStore.Find(st.slots, input.cacheKey).None?
    ensures LimitGates(st, input, config)
         == st.(buckets := RateLimit.Check(st.buckets, LimiterRequest(input, config)).0,
                inFlight := st.inFlight[input.requestId := Routing(input)])
  {
  }

  /** The request is admitted, and the next one will find its way just as free. */
  lemma Admitted(tenants: Tenants, st: State, tenantId: string, i: nat, key: Option<string>)
    requires tenantId in tenants && Open(tenants[tenantId]) && Ready(st, tenantId, i)
    requires Spend(st.audit, tenantId) + ESTIMATED_NEXT_CALL_USD <= tenants[tenantId].monthlyBudgetUsd
    requires key.Some? ==> IndexKey(tenantId, key.value) !in st.index
    ensures var next := Arrive(tenants, st, Request(tenantId, i, key));
      && next == st.(buckets := next.buckets, inFlight := st.inFlight[i := Routing(Request(tenantId, i, key))])
      && Ready(next, tenantId, i + 1)
  {
    LimiterAllows(st.buckets, tenants[tenantId], tenantId, i, key);
    assert CacheStore.Find(st.slots, OwnKey(i)).None?;
    GatesPassed(st, tenants[tenantId], Request(tenantId, i, key));
  }

  lemma PutReady(slots: seq<CacheStore.Slot<TryOnResult>>, i: nat, key: JsString, value: TryOnResult)
    requires CacheReady(slots, i) && |key| < i
    ensures var op := CacheStore.Op.Put(key, value, CacheStore.NoTtl, 0.0);
      CacheReady(CacheStore.Step(CACHE_CAPACITY, slots, op).0, i)
  {
    var op := CacheStore.Op.Put(key, value, CacheStore.NoTtl, 0.0);
    CacheStore.StepKeepsShape(CACHE_CAPACITY, slots, op);
    var next := CacheStore.Step(CACHE_CAPACITY, slots, op).0;
    forall k: JsString | CacheStore.Find(next, k).Some? ensures |k| < i {
      CacheStore.StepFind(CACHE_CAPACITY, slots, op, k);
    }
  }

  lemma AnswerReady(st: State, tenantId: string, i: nat, id: nat, key: Option<string>, value: TryOnResult)
    requires Ready(st, tenantId, i) && id in st.inFlight && st.inFlight[id] == Routing(Request(tenantId, id, key))
    ensures var next := ProviderAnswers(st, id, value);
      && next == st.(slots := next.slots,
          inFlight := st.inFlight[id := Computed(Request(tenantId, id, key), value, false)])
      && Ready(next, tenantId, i)
  {
    PutReady(st.slots, i, OwnKey(id), value);
  }

  lemma RecordReady(st: State, tenantId: string, i: nat, id: nat)
    requires Ready(st, tenantId, i) && id in st.inFlight
    ensures Ready(Record(st, id), tenantId, i)
  {
  }

  /** A routed request is answered and recorded: one allow event, one job, one run less in flight. */
  lemma Settled(st: State, tenantId: string, i: nat, id: nat, key: Option<string>, cost: real)
    requires Ready(st, tenantId, i) && id in st.inFlight && st.inFlight[id] == Routing(Request(tenantId, id, key))
    ensures var request := Request(tenantId, id, key);
      var answered := ProviderAnswers(st, id, Priced(cost));
      var next := Record(answered, id);
      && answered.inFlight == st.inFlight[id := Computed(request, Priced(cost), false)]
      && answered.audit == st.audit && Ready(next, tenantId, i)
      && next.inFlight == st.inFlight - {id}
      && next.audit == st.audit + [AuditEvent(tenantId, "s", id, Allow, Some(cost))]
      && next.jobs == st.jobs + [Job(st.nextJobId, request, Priced(cost), key)]
      && next.index == if key.Some? then st.index[IndexKey(tenantId, key.value) := st.nextJobId] else st.index
  {
    AnswerReady(st, tenantId, i, id, key, Priced(cost));
    RecordReady(ProviderAnswers(st, id, Priced(cost)), tenantId, i, id);
    assert st.inFlight[id := Computed(Request(tenantId, id, key), Priced(cost), false)] - {id} == st.inFlight - {id};
  }

  lemma RunSnoc(tenants: Tenants, events: seq<Event>, e: Event)
    ensures Run(tenants, events + [e]) == React(tenants, Run(tenants, events), e)
  {
    assert (events + [e])[..|events|] == events;
  }

  // ----- One job under one key -----

  function OneJob(tenantId: string, key: string): seq<Event> {
    [Arrives(Request(tenantId, 0, Some(key)))] + [Answers(0, Priced(0.0))] + [Records(0)]
  }

  /** After a first request under a key is through, its job is the only one, filed under that key. */
  lemma OneJobStored(tenants: Tenants, tenantId: string, key: string)
    requires tenantId in tenants && Open(tenants[tenantId])
    ensures Run(tenants, OneJob(tenantId, key)).jobs
         == [Job(0, Request(tenantId, 0, Some(key)), Priced(0.0), Some(key))]
    ensures Run(tenants, OneJob(tenantId, key)).index == map[IndexKey(tenantId, key) := 0]
    ensures IdsReady(Run(tenants, OneJob(tenantId, key)), 1)
  {
    var e := Arrives(Request(tenantId, 0, Some(key)));
    FirstAdmission(tenants, tenantId, key);
    FirstJob(Run(tenants, [e]), tenantId, key);
    RunSnoc(tenants, [e], Answers(0, Priced(0.0)));
    RunSnoc(tenants, [e] + [Answers(0, Priced(0.0))], Records(0));
  }

  lemma FirstAdmission(tenants: Tenants, tenantId: string, key: string)
    requires tenantId in tenants && Open(tenants[tenantId])
    ensures var st := Run(tenants, [Arrives(Request(tenantId, 0, Some(key)))]);
      && Ready(st, tenantId, 1) && st.inFlight == map[0 := Routing(Request(tenantId, 0, Some(key)))]
      && st.jobs == [] && st.index == map[] && st.nextJobId == 0
  {
    var e := Arrives(Request(tenantId, 0, Some(key)));
    InitialReady(tenantId);
    Admitted(tenants, Initial(), tenantId, 0, Some(key));
    RunSnoc(tenants, [], e);
    assert [] + [e] == [e];
  }

  lemma FirstJob(st: State, tenantId: string, key: string)
    requires Ready(st, tenantId, 1) && st.inFlight == map[0 := Routing(Request(tenantId, 0, Some(key)))]
    requires st.jobs == [] && st.index == map[] && st.nextJobId == 0
    ensures var next := Record(ProviderAnswers(st, 0, Priced(0.0)), 0);
      && next.jobs == [Job(0, Request(tenantId, 0, Some(key)), Priced(0.0), Some(key))]
      && next.index == map[IndexKey(tenantId, key) := 0] && IdsReady(next, 1)
  {
    Settled(st, tenantId, 1, 0, Some(key), 0.0);
  }
}
