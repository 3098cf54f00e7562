/**
 The result cache over whole runs of the pipeline: which later runs an answer saves a provider call, and
 what those are charged.
 */
module Caching {
  import opened Results
  import opened JsStrings
  import opened Pipeline
  import CacheStore
  import Scenarios

  type CacheOp = CacheStore.Op<TryOnResult>

  /** The event admits a run. */
  predicate Admits(tenants: Tenants, st: State, e: Event) {
    e.Arrives? && e.input.requestId !in st.inFlight && e.input.requestId in React(tenants, st, e).inFlight
  }

  /** The event is a provider's answer to a run that waits for one. */
  predicate Answers(st: State, e: Event) {
    e.Answers? && e.id in st.inFlight && st.inFlight[e.id].Routing?
  }

  /** An admitted run looks its key up, and an answer is put under the key of its run. */
  function OpsOf(tenants: Tenants, st: State, e: Event): (ops: seq<CacheOp>)
    ensures |ops| <= 1
  {
    if Admits(tenants, st, e) then [CacheStore.Op.Get(e.input.cacheKey, 0.0)]
    else if Answers(st, e) then [CacheStore.Op.Put(st.inFlight[e.id].input.cacheKey, e.value, CacheStore.NoTtl, 0.0)]
    else []
  }

  function CacheOps(tenants: Tenants, events: seq<Event>): seq<CacheOp> {
    if events == [] then []
    else
      var before, e := events[..|events| - 1], events[|events| - 1];
      CacheOps(tenants, before) + OpsOf(tenants, Run(tenants, before), e)
  }

  // ----- The cache of a run is the store after just these operations -----

  lemma GatesLookUp(st: State, input: Input, config: TenantConfig)
    requires input.requestId !in st.inFlight
    ensures var after := LimitGates(st, input, config);
      if input.requestId in after.inFlight then
        after.slots == Admit(st, input).slots && after.inFlight == Admit(st, input).inFlight
      else after.slots == st.slots
  {
  }

  /** An arrival leaves the cache alone, or is admitted and looks its key up. */
  lemma ArrivalLooksUp(tenants: Tenants, st: State, input: Input)
    requires input.requestId !in st.inFlight
    ensures var after := Arrive(tenants, st, input);
      if input.requestId in after.inFlight then
        after.slots == Admit(st, input).slots && after.inFlight == Admit(st, input).inFlight
      else after.slots == st.slots
  {
    if input.tenantId in tenants {
      GatesLookUp(st, input, tenants[input.tenantId]);
    }
  }

  lemma StepSlots(tenants: Tenants, st: State, e: Event)
    ensures React(tenants, st, e).slots
         == if OpsOf(tenants, st, e) == [] then st.slots
            else CacheStore.Step(1000, st.slots, OpsOf(tenants, st, e)[0]).0
  {
    if e.Arrives? && e.input.requestId !in st.inFlight {
      ArrivalLooksUp(tenants, st, e.input);
    }
  }

  /** The store after at most one operation more. */
  lemma StoreAfter(ops: seq<CacheOp>, more: seq<CacheOp>)
    requires |more| <= 1
    ensures CacheStore.Run(1000, ops + more)
         == if more == [] then CacheStore.Run(1000, ops)
            else CacheStore.Step(1000, CacheStore.Run(1000, ops), more[0]).0
  {
    if more == [] {
      assert ops + more == ops;
    } else {
      assert (ops + more)[..|ops|] == ops;
    }
  }

  lemma OpsByLast(tenants: Tenants, events: seq<Event>)
    requires events != []
    ensures var before, e := events[..|events| - 1], events[|events| - 1];
      CacheOps(tenants, events) == CacheOps(tenants, before) + OpsOf(tenants, Run(tenants, before), e)
  {
  }

  lemma RunByLast(tenants: Tenants, events: seq<Event>)
    requires events != []
    ensures Run(tenants, events)
         == React(tenants, Run(tenants, events[..|events| - 1]), events[|events| - 1])
  {
  }

  lemma {:induction false} SlotsAreTheStores(tenants: Tenants, events: seq<Event>)
    ensures Run(tenants, events).slots == CacheStore.Run(1000, CacheOps(tenants, events))
  {
    if events == [] {
      return;
    }
    var before, e := events[..|events| - 1], events[|events| - 1];
    SlotsAreTheStores(tenants, before);
    SlotsByLast(tenants, events, CacheOps(tenants, before), OpsOf(tenants, Run(tenants, before), e));
  }

  lemma SlotsByLast(tenants: Tenants, events: seq<Event>, ops: seq<CacheOp>, more: seq<CacheOp>)
    requires events != [] && ops == CacheOps(tenants, events[..|events| - 1])
    requires more == OpsOf(tenants, Run(tenants, events[..|events| - 1]), events[|events| - 1])
    requires Run(tenants, events[..|events| - 1]).slots == CacheStore.Run(1000, ops)
    ensures Run(tenants, events).slots == CacheStore.Run(1000, CacheOps(tenants, events))
  {
    RunByLast(tenants, events);
    OpsByLast(tenants, events);
    StoreAfter(ops, more);
    StepSlots(tenants, Run(tenants, events[..|events| - 1]), events[|events| - 1]);
  }

  // ----- What the cache should hold, said of the events -----

  /** The latest answer to a run with this cache key. */
  function LatestAnswer(tenants: Tenants, events: seq<Event>, key: JsString): Option<TryOnResult> {
    if events == [] then None
    else
      var before, e := events[..|events| - 1], events[|events| - 1];
      var st := Run(tenants, before);
      if Answers(st, e) && st.inFlight[e.id].input.cacheKey == key then Some(e.value)
      else LatestAnswer(tenants, before, key)
  }

  /** The cache key an event uses: that of the run it answers, or of the run it admits on a cache hit. */
  function UsedKey(tenants: Tenants, st: State, e: Event): Option<JsString> {
    if Admits(tenants, st, e) then
      if React(tenants, st, e).inFlight[e.input.requestId].Computed? then Some(e.input.cacheKey) else None
    else if Answers(st, e) then Some(st.inFlight[e.id].input.cacheKey)
    else None
  }

  /** The other keys used since this one itself was. */
  ghost function OthersUsed(tenants: Tenants, events: seq<Event>, key: JsString): set<JsString> {
    if events == [] then {}
    else
      var before, e := events[..|events| - 1], events[|events| - 1];
      var used := UsedKey(tenants, Run(tenants, before), e);
      if used == None then OthersUsed(tenants, before, key)
      else if used == Some(key) then {}
      else OthersUsed(tenants, before, key) + {used.value}
  }

  lemma UnboundedSnoc(ops: seq<CacheOp>, op: CacheOp, key: JsString)
    requires CacheStore.Unbounded(ops, key).Some? ==> CacheStore.Unbounded(ops, key).value.expiresAt.None?
    requires op.Get? || (op.Put? && op.ttl.NoTtl?)
    ensures CacheStore.Unbounded(ops + [op], key)
         == if op.Put? && op.key == key then Some(CacheStore.Entry(op.value, None)) else CacheStore.Unbounded(ops, key)
  {
    assert (ops + [op])[..|ops|] == ops;
  }

  function AsEntry(answer: Option<TryOnResult>): Option<CacheStore.Entry<TryOnResult>> {
    if answer.None? then None else Some(CacheStore.Entry(answer.value, None))
  }

  /** Only a put under the key changes its latest answer. */
  lemma LatestByOp(tenants: Tenants, events: seq<Event>, key: JsString)
    requires events != []
    ensures var before, e := events[..|events| - 1], events[|events| - 1];
      var more := OpsOf(tenants, Run(tenants, before), e);
      LatestAnswer(tenants, events, key)
      == if more != [] && more[0].Put? && more[0].key == key then Some(more[0].value)
         else LatestAnswer(tenants, before, key)
  {
  }

  lemma {:induction false} UnboundedIsLatestAnswer(tenants: Tenants, events: seq<Event>, key: JsString)
    ensures CacheStore.Unbounded(CacheOps(tenants, events), key) == AsEntry(LatestAnswer(tenants, events, key))
  {
    if events != [] {
      var before, e := events[..|events| - 1], events[|events| - 1];
      var ops, more := CacheOps(tenants, before), OpsOf(tenants, Run(tenants, before), e);
      UnboundedIsLatestAnswer(tenants, before, key);
      LatestByOp(tenants, events, key);
      if more == [] {
        assert ops + more == ops;
      } else {
        UnboundedSnoc(ops, more[0], key);
        assert more == [more[0]];
      }
    }
  }

  /** The other keys touched after at most one operation more. */
  lemma OthersAfter(ops: seq<CacheOp>, more: seq<CacheOp>, key: JsString)
    requires |more| <= 1
    ensures CacheStore.OthersSince(1000, ops + more, key)
         == if more == [] || !CacheStore.Touches(CacheStore.Run(1000, ops), more[0])
            then CacheStore.OthersSince(1000, ops, key)
            else if more[0].key == key then {}
            else CacheStore.OthersSince(1000, ops, key) + {more[0].key}
  {
    if more == [] {
      assert ops + more == ops;
    } else {
      assert (ops + more)[..|ops|] == ops;
    }
  }

  /** An event uses a key exactly when its operation touches the store. */
  lemma UsesIffTouches(tenants: Tenants, st: State, e: Event)
    ensures OpsOf(tenants, st, e) == [] ==> UsedKey(tenants, st, e) == None
    ensures OpsOf(tenants, st, e) != [] ==>
              var op := OpsOf(tenants, st, e)[0];
              UsedKey(tenants, st, e) == if CacheStore.Touches(st.slots, op) then Some(op.key) else None
  {
    if e.Arrives? && e.input.requestId !in st.inFlight {
      ArrivalLooksUp(tenants, st, e.input);
    }
  }

  /** By the key the last event uses. */
  lemma OthersByLast(tenants: Tenants, events: seq<Event>, key: JsString)
    requires events != []
    ensures var before, e := events[..|events| - 1], events[|events| - 1];
      var used := UsedKey(tenants, Run(tenants, before), e);
      OthersUsed(tenants, events, key)
      == if used == None then OthersUsed(tenants, before, key)
         else if used == Some(key) then {}
         else OthersUsed(tenants, before, key) + {used.value}
  {
  }

  lemma {:induction false} OthersAgree(tenants: Tenants, events: seq<Event>, key: JsString)
    ensures CacheStore.OthersSince(1000, CacheOps(tenants, events), key) == OthersUsed(tenants, events, key)
  {
    if events == [] {
      return;
    }
    var before, e := events[..|events| - 1], events[|events| - 1];
    OthersAgree(tenants, before, key);
    OthersAgreeByLast(tenants, events, CacheOps(tenants, before), OpsOf(tenants, Run(tenants, before), e), key);
  }

  lemma OthersAgreeByLast(tenants: Tenants, events: seq<Event>, ops: seq<CacheOp>, more: seq<CacheOp>, key: JsString)
    requires events != [] && ops == CacheOps(tenants, events[..|events| - 1])
    requires more == OpsOf(tenants, Run(tenants, events[..|events| - 1]), events[|events| - 1])
    requires CacheStore.OthersSince(1000, ops, key) == OthersUsed(tenants, events[..|events| - 1], key)
    ensures CacheStore.OthersSince(1000, CacheOps(tenants, events), key) == OthersUsed(tenants, events, key)
  {
    var before, e := events[..|events| - 1], events[|events| - 1];
    SlotsAreTheStores(tenants, before);
    UsesIffTouches(tenants, Run(tenants, before), e);
    OpsByLast(tenants, events);
    OthersByLast(tenants, events, key);
    OthersAfter(ops, more, key);
  }

  // ----- A later run with the key is a hit -----

  /** A provider's answer is the latest for its key, and nothing else has been used since. */
  lemma AnswerIsLatest(tenants: Tenants, events: seq<Event>, id: nat, value: TryOnResult)
    requires id in Run(tenants, events).inFlight && Run(tenants, events).inFlight[id].Routing?
    ensures var key := Run(tenants, events).inFlight[id].input.cacheKey;
      var after := events + [Event.Answers(id, value)];
      LatestAnswer(tenants, after, key) == Some(value) && OthersUsed(tenants, after, key) == {}
  {
    var after := events + [Event.Answers(id, value)];
    assert after[..|after| - 1] == events;
  }

  /** What the store finds for a key after a run of the pipeline. */
  lemma FoundIsLatest(tenants: Tenants, events: seq<Event>, key: JsString)
    ensures var found := CacheStore.Find(Run(tenants, events).slots, key);
      && (found.Some? ==> found == AsEntry(LatestAnswer(tenants, events, key)))
      && (found.None? && LatestAnswer(tenants, events, key).Some? ==> |OthersUsed(tenants, events, key)| >= 1000)
  {
    var ops := CacheOps(tenants, events);
    SlotsAreTheStores(tenants, events);
    UnboundedIsLatestAnswer(tenants, events, key);
    OthersAgree(tenants, events, key);
    CacheStore.RunKeeps(1000, ops, key);
    if CacheStore.Find(Run(tenants, events).slots, key).Some? {
      CacheStore.Sound(1000, ops, key);
    }
  }

  /**
   A run that is admitted is a cache hit, with the latest answer to a run with its key, if there is one and
   fewer than 1000 other keys were used since this one was; without any such answer it goes to a provider.
   */
  lemma AdmittedHits(tenants: Tenants, events: seq<Event>, input: Input)
    requires Admits(tenants, Run(tenants, events), Arrives(input))
    ensures var answer := LatestAnswer(tenants, events, input.cacheKey);
      var suspended := Run(tenants, events + [Arrives(input)]).inFlight;
      && input.requestId in suspended
      && (answer.Some? && |OthersUsed(tenants, events, input.cacheKey)| < 1000
          ==> suspended[input.requestId] == Computed(input, answer.value, true))
      && (answer.None? ==> suspended[input.requestId] == Routing(input))
  {
    Scenarios.RunSnoc(tenants, events, Arrives(input));
    ArrivalLooksUp(tenants, Run(tenants, events), input);
    FoundIsLatest(tenants, events, input.cacheKey);
  }

  // ----- And it is free -----

  /** A run that has its value keeps it until it is recorded. */
  lemma KeepsComputed(tenants: Tenants, st: State, e: Event, id: nat)
    requires id in st.inFlight && st.inFlight[id].Computed? && e != Records(id)
    ensures id in React(tenants, st, e).inFlight && React(tenants, st, e).inFlight[id] == st.inFlight[id]
  {
    if e.Arrives? && e.input.requestId !in st.inFlight {
      ArrivalKeeps(tenants, st, e.input, id);
    }
  }

  lemma ArrivalKeeps(tenants: Tenants, st: State, input: Input, id: nat)
    requires id in st.inFlight && input.requestId !in st.inFlight
    ensures id in Arrive(tenants, st, input).inFlight && Arrive(tenants, st, input).inFlight[id] == st.inFlight[id]
  {
    if input.tenantId in tenants {
      GatesKeep(st, input, tenants[input.tenantId], id);
    }
  }

  lemma GatesKeep(st: State, input: Input, config: TenantConfig, id: nat)
    requires id in st.inFlight && input.requestId !in st.inFlight
    ensures id in LimitGates(st, input, config).inFlight
    ensures LimitGates(st, input, config).inFlight[id] == st.inFlight[id]
  {
  }

  lemma {:induction false} StaysComputed(tenants: Tenants, events: seq<Event>, more: seq<Event>, id: nat)
    requires id in Run(tenants, events).inFlight && Run(tenants, events).inFlight[id].Computed?
    requires Records(id) !in more
    ensures id in Run(tenants, events + more).inFlight
    ensures Run(tenants, events + more).inFlight[id] == Run(tenants, events).inFlight[id]
  {
    if more == [] {
      assert events + more == events;
    } else {
      var fewer, last := more[..|more| - 1], more[|more| - 1];
      StaysComputed(tenants, events, fewer, id);
      assert events + more == (events + fewer) + [last];
      Scenarios.RunSnoc(tenants, events + fewer, last);
      KeepsComputed(tenants, Run(tenants, events + fewer), last, id);
    }
  }

  /** The job of a run with a value: on a hit the same image, marked as cached and free; else the value itself. */
  ghost predicate StoredFor(job: Job, input: Input, value: TryOnResult, hit: bool) {
    && job.request == input && job.idempotencyKey == input.idempotencyKey
    && job.result.resultImageUrl == value.resultImageUrl
    && (if hit then job.result.cached && job.result.costUsd == 0.0 else job.result == value)
  }

  /**
   Recording a run appends one allow event with the shopper as its actor and what it costs, and one such
   job, which a lookup under the run's idempotency key then finds.
   */
  lemma RecordWrites(st: State, id: nat)
    requires id in st.inFlight && st.inFlight[id].Computed?
    ensures var Computed(input, value, hit) := st.inFlight[id];
      var after := Record(st, id);
      var cost := if hit then 0.0 else value.costUsd;
      && after.audit == st.audit + [AuditEvent(input.tenantId, input.shopperId, id, Allow, Some(cost))]
      && |after.jobs| == |st.jobs| + 1 && after.jobs[..|st.jobs|] == st.jobs
      && StoredFor(after.jobs[|st.jobs|], input, value, hit)
      && (input.idempotencyKey.Some? ==>
            LookupIdempotentJob(after, input.tenantId, input.idempotencyKey) == Some(after.jobs[|st.jobs|]))
      && id in after.finished && after.finished[id] == Succeeded(after.jobs[|st.jobs|]) && id !in after.inFlight
  {
  }

  /** A provider failure appends one error event without cost, stores no job and leaves the cache alone. */
  lemma FailureWrites(st: State, id: nat)
    requires id in st.inFlight && st.inFlight[id].Routing?
    ensures var input := st.inFlight[id].input;
      var after := ProvidersFail(st, id);
      && after.audit == st.audit + [AuditEvent(input.tenantId, input.shopperId, id, Error, None)]
      && after.jobs == st.jobs && after.slots == st.slots
      && id in after.finished && after.finished[id] == ProviderFailed && id !in after.inFlight
  {
  }

  /**
   So the answer of a provider saves later calls: a run admitted while it is the latest for its cache key,
   and fewer than 1000 other keys were used since, ends, whenever it is recorded, with the same image, marked
   as cached, at no cost, and with an allow event of no cost.
   */
  lemma CachedRunIsFree(tenants: Tenants, events: seq<Event>, input: Input, more: seq<Event>)
    requires Admits(tenants, Run(tenants, events), Arrives(input)) && Records(input.requestId) !in more
    requires LatestAnswer(tenants, events, input.cacheKey).Some?
    requires |OthersUsed(tenants, events, input.cacheKey)| < 1000
    ensures var before := Run(tenants, events + [Arrives(input)] + more);
      var after := Run(tenants, events + [Arrives(input)] + more + [Records(input.requestId)]);
      && after.audit
         == before.audit + [AuditEvent(input.tenantId, input.shopperId, input.requestId, Allow, Some(0.0))]
      && |after.jobs| == |before.jobs| + 1
      && StoredFor(after.jobs[|before.jobs|], input, LatestAnswer(tenants, events, input.cacheKey).value, true)
  {
    var arrived := events + [Arrives(input)];
    AdmittedHits(tenants, events, input);
    StaysComputed(tenants, arrived, more, input.requestId);
    Scenarios.RunSnoc(tenants, arrived + more, Records(input.requestId));
    RecordWrites(Run(tenants, arrived + more), input.requestId);
  }
}
