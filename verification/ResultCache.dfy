/**
 packages/cache/src/result-cache.ts: the read-through cache. `getOrCompute` looks up, suspends while
 the value is computed, then stores; the event machine below lets any number of calls be suspended
 at once, and the class runs one call with nothing in between.
 */
module ResultCache {
  import opened Results
  import opened JsStrings
  import opened CacheStore
  import CacheKey
  import CanonicalJson

  /** What a call answers; `cached` tells whether the value came from the store. */
  datatype Reply<V> = Replied(key: JsString, value: V, cached: bool) | Failed(key: JsString)

  /** Events of the machine: a call arrives; the computation of a suspended call returns; it throws. */
  datatype Event = Call(id: nat, key: JsString, now: real) | Resolve(id: nat, now: real) | Reject(id: nat)

  datatype State<V> = State(
    slots: seq<Slot<V>>,
    pending: map<nat, JsString>,
    replies: seq<Reply<V>>,
    calls: nat,
    computes: nat)

  function Initial<V>(): State<V> {
    State([], map[], [], 0, 0)
  }

  /** One event, where computing the value of `key` gives `f(key)` if it does not throw. */
  function React<V>(capacity: nat, ttl: Ttl, f: JsString -> V, st: State<V>, e: Event): State<V> {
    match e
    case Call(id, key, now) =>
      if id in st.pending then st
      else
        var (slots, got) := Step(capacity, st.slots, Op.Get(key, now));
        if got.Got? && got.hit.Some? then
          st.(slots := slots, replies := st.replies + [Replied(key, got.hit.value, true)], calls := st.calls + 1)
        else
          st.(slots := slots, pending := st.pending[id := key], calls := st.calls + 1, computes := st.computes + 1)
    case Resolve(id, now) =>
      if id !in st.pending then st
      else
        var key := st.pending[id];
        var (slots, put) := Step(capacity, st.slots, Op.Put(key, f(key), ttl, now));
        st.(slots := slots, pending := st.pending - {id},
            replies := st.replies + [if put == Stored then Replied(key, f(key), false) else Failed(key)])
    case Reject(id) =>
      if id !in st.pending then st
      else st.(pending := st.pending - {id}, replies := st.replies + [Failed(st.pending[id])])
  }

  function RunEvents<V>(capacity: nat, ttl: Ttl, f: JsString -> V, events: seq<Event>): State<V> {
    if events == [] then Initial()
    else React(capacity, ttl, f, RunEvents(capacity, ttl, f, events[..|events| - 1]), events[|events| - 1])
  }

  // ----- One call with nothing in between, as the class runs it -----

  datatype CacheOutcome<V> = CacheOutcome(value: V, cached: bool)

  datatype CallError = BadKey(error: CanonicalJson.EncodeError) | ComputeThrew | BadDefaultTtl

  class ResultCache<V> {
    const store: InMemoryCacheStore<V>
    const defaultTtl: Ttl

    constructor (store: InMemoryCacheStore<V>, defaultTtl: Ttl)
      ensures this.store == store && this.defaultTtl == defaultTtl
    {
      this.store := store;
      this.defaultTtl := defaultTtl;
    }

    /** `compute` is None when the compute function throws; `now` and `later` are the clock before and after it. */
    method GetOrCompute(
        sha: CacheKey.Sha, parts: CacheKey.CacheKeyParts, compute: JsString -> Option<V>, now: real, later: real)
      returns (r: Result<CacheOutcome<V>, CallError>, computed: bool)
      requires store.Valid()
      modifies store
      ensures store.Valid()
      ensures CacheKey.Key(sha, parts).Err? ==>
                r == Err(BadKey(CacheKey.Key(sha, parts).error)) && !computed && store.entries == old(store.entries)
      ensures CacheKey.Key(sha, parts).Ok? ==>
                var key := CacheKey.Key(sha, parts).value;
                var (looked, got) := Step(store.maxEntries, old(store.entries), Op.Get(key, now));
                computed == (got == Got(None))
                && if !computed then store.entries == looked && r == Ok(CacheOutcome(got.hit.value, true))
                   else if compute(key).None? then store.entries == looked && r == Err(ComputeThrew)
                   else
                     var value := compute(key).value;
                     store.entries == Step(store.maxEntries, looked, Op.Put(key, value, defaultTtl, later)).0
                     && r == if BadTtl(defaultTtl) then Err(BadDefaultTtl) else Ok(CacheOutcome(value, false))
    {
      var derived := CacheKey.DeriveCacheKey(sha, parts);
      computed := false;
      if derived.Err? {
        return Err(BadKey(derived.error)), false;
      }
      var key := derived.value;
      var hit := store.Get(key, now);
      if hit.Some? {
        return Ok(CacheOutcome(hit.value, true)), false;
      }
      computed := true;
      var value := compute(key);
      if value.None? {
        return Err(ComputeThrew), true;
      }
      var stored := store.Put(key, value.value, defaultTtl, later);
      r := if stored then Ok(CacheOutcome(value.value, false)) else Err(BadDefaultTtl);
    }
  }

  // ----- The cache is transparent -----

  ghost predicate HoldsOnly<V>(s: seq<Slot<V>>, f: JsString -> V) {
    forall k: JsString :: Find(s, k).Some? ==> Find(s, k).value.value == f(k)
  }

  ghost predicate AnswersOnly<V>(replies: seq<Reply<V>>, f: JsString -> V) {
    forall r | r in replies && r.Replied? :: r.value == f(r.key)
  }

  lemma StepHoldsOnly<V>(capacity: nat, s: seq<Slot<V>>, op: Op<V>, f: JsString -> V)
    requires DistinctKeys(s) && HoldsOnly(s, f) && (op.Put? ==> op.value == f(op.key))
    ensures HoldsOnly(Step(capacity, s, op).0, f)
  {
    var t := Step(capacity, s, op).0;
    forall k: JsString | Find(t, k).Some? ensures Find(t, k).value.value == f(k) {
      StepFind(capacity, s, op, k);
    }
  }

  /**
   However calls interleave, and whatever is evicted, expires or throws: every answer is the value an
   uncached computation would give, and so is everything the store holds.
   */
  lemma {:induction false} Transparent<V>(capacity: nat, ttl: Ttl, f: JsString -> V, events: seq<Event>)
    ensures DistinctKeys(RunEvents(capacity, ttl, f, events).slots)
    ensures |RunEvents(capacity, ttl, f, events).slots| <= capacity
    ensures HoldsOnly(RunEvents(capacity, ttl, f, events).slots, f)
    ensures AnswersOnly(RunEvents(capacity, ttl, f, events).replies, f)
  {
    if events != [] {
      var e := events[|events| - 1];
      Transparent(capacity, ttl, f, events[..|events| - 1]);
      var st := RunEvents(capacity, ttl, f, events[..|events| - 1]);
      if e.Call? {
        StepKeepsShape(capacity, st.slots, Op.Get(e.key, e.now));
        StepHoldsOnly(capacity, st.slots, Op.Get(e.key, e.now), f);
      } else if e.Resolve? && e.id in st.pending {
        var put := Op.Put(st.pending[e.id], f(st.pending[e.id]), ttl, e.now);
        StepKeepsShape(capacity, st.slots, put);
        StepHoldsOnly(capacity, st.slots, put, f);
      }
    }
  }

  // ----- Counting computations -----

  function CachedReplies<V>(replies: seq<Reply<V>>): nat {
    if replies == [] then 0
    else CachedReplies(replies[..|replies| - 1])
         + if replies[|replies| - 1].Replied? && replies[|replies| - 1].cached then 1 else 0
  }

  lemma CachedRepliesSnoc<V>(replies: seq<Reply<V>>, r: Reply<V>)
    ensures CachedReplies(replies + [r]) == CachedReplies(replies) + if r.Replied? && r.cached then 1 else 0
  {
    assert (replies + [r])[..|replies|] == replies;
  }

  /**
   Compute runs exactly once per miss: calls split into cached answers and computations, and every
   computation is either still suspended or has been answered once, by its value or its failure.
   */
  lemma {:induction false} ComputesAreMisses<V>(capacity: nat, ttl: Ttl, f: JsString -> V, events: seq<Event>)
    ensures var st := RunEvents(capacity, ttl, f, events);
            st.calls == CachedReplies(st.replies) + st.computes
            && st.computes == |st.pending| + (|st.replies| - CachedReplies(st.replies))
  {
    if events != [] {
      var e := events[|events| - 1];
      ComputesAreMisses(capacity, ttl, f, events[..|events| - 1]);
      var st := RunEvents(capacity, ttl, f, events[..|events| - 1]);
      var st' := RunEvents(capacity, ttl, f, events);
      if |st'.replies| > |st.replies| {
        CachedRepliesSnoc(st.replies, st'.replies[|st.replies|]);
      }
      if !e.Call? && e.id in st.pending {
        PendingRemoved(st.pending, e.id);
      }
    }
  }

  lemma PendingRemoved(pending: map<nat, JsString>, id: nat)
    requires id in pending
    ensures |pending - {id}| == |pending| - 1
  {
    assert (pending - {id}).Keys == pending.Keys - {id};
    assert |pending.Keys - {id}| == |pending.Keys| - 1;
  }

  /** Without a bad default TTL, a value that was computed is in the store when its call is answered. */
  lemma ResolveStores<V>(capacity: nat, ttl: Ttl, f: JsString -> V, st: State<V>, id: nat, now: real)
    requires DistinctKeys(st.slots) && capacity >= 1 && id in st.pending && !BadTtl(ttl)
    ensures Find(React(capacity, ttl, f, st, Resolve(id, now)).slots, st.pending[id])
         == Some(Entry(f(st.pending[id]), ExpiryOf(ttl, now)))
  {
    var key := st.pending[id];
    var entry := Entry(f(key), ExpiryOf(ttl, now));
    TouchKeepsShape(st.slots, key, entry);
    EvictKeepsLast(capacity, Touch(st.slots, key, entry));
  }

  /**
   An arriving call is answered from the store exactly when the store holds a value for its key that has not
   expired, and otherwise starts a computation and waits.
   */
  lemma CallHitsIff<V>(capacity: nat, ttl: Ttl, f: JsString -> V, st: State<V>, id: nat, key: JsString, now: real)
    requires id !in st.pending
    ensures var next := React(capacity, ttl, f, st, Call(id, key, now));
      var found := Find(st.slots, key);
      if found.Some? && (found.value.expiresAt.None? || now <= found.value.expiresAt.value) then
        next.replies == st.replies + [Replied(key, found.value.value, true)]
        && next.pending == st.pending && next.computes == st.computes
      else
        next.replies == st.replies && next.pending == st.pending[id := key] && next.computes == st.computes + 1
  {
  }
}
