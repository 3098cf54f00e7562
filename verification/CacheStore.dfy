/**
 packages/cache/src/cache-store.ts: the in-memory LRU store with time-to-live expiry. The JavaScript
 Map is a sequence of slots in insertion order; every operation carries the reading of the injected
 clock that it sees.
 */
module CacheStore {
  import opened Results
  import opened JsStrings
  import Collections

  /** The optional `ttlMs` argument; `NotFinite` is NaN or an infinity. */
  datatype Ttl = NoTtl | Millis(ms: real) | NotFinite

  datatype Entry<V> = Entry(value: V, expiresAt: Option<real>)

  datatype Slot<V> = Slot(key: JsString, entry: Entry<V>)

  // ----- The insertion-ordered map -----

  ghost function Keys<V>(s: seq<Slot<V>>): set<JsString> {
    set x | x in s :: x.key
  }

  ghost predicate DistinctKeys<V>(s: seq<Slot<V>>) {
    s == [] || (s[0].key !in Keys(s[1..]) && DistinctKeys(s[1..]))
  }

  function Find<V>(s: seq<Slot<V>>, key: JsString): Option<Entry<V>> {
    if s == [] then None
    else if s[0].key == key then Some(s[0].entry)
    else Find(s[1..], key)
  }

  function Without<V>(s: seq<Slot<V>>, key: JsString): seq<Slot<V>> {
    if s == [] then []
    else if s[0].key == key then Without(s[1..], key)
    else [s[0]] + Without(s[1..], key)
  }

  lemma KeysOfCons<V>(s: seq<Slot<V>>)
    requires s != []
    ensures Keys(s) == {s[0].key} + Keys(s[1..])
  {
    assert forall x :: x in s <==> x == s[0] || x in s[1..];
  }

  lemma KeysOfAppend<V>(s: seq<Slot<V>>, x: Slot<V>)
    ensures Keys(s + [x]) == Keys(s) + {x.key}
  {
    assert forall y :: y in s + [x] <==> y in s || y == x;
  }

  lemma {:induction false} FindIffKey<V>(s: seq<Slot<V>>, key: JsString)
    ensures Find(s, key).Some? <==> key in Keys(s)
  {
    if s != [] {
      KeysOfCons(s);
      FindIffKey(s[1..], key);
    }
  }

  lemma {:induction false} WithoutKeys<V>(s: seq<Slot<V>>, key: JsString)
    ensures Keys(Without(s, key)) == Keys(s) - {key}
    ensures DistinctKeys(s) ==> DistinctKeys(Without(s, key))
    ensures key !in Keys(s) ==> Without(s, key) == s
  {
    if s != [] {
      KeysOfCons(s);
      WithoutKeys(s[1..], key);
      if s[0].key != key {
        var r := Without(s, key);
        KeysOfCons(r);
        assert r[1..] == Without(s[1..], key);
        assert s == [s[0]] + s[1..];
      }
    }
  }

  lemma {:induction false} WithoutLength<V>(s: seq<Slot<V>>, key: JsString)
    requires DistinctKeys(s)
    ensures |Without(s, key)| == if key in Keys(s) then |s| - 1 else |s|
  {
    if s != [] {
      KeysOfCons(s);
      WithoutLength(s[1..], key);
      WithoutKeys(s[1..], key);
    }
  }

  lemma {:induction false} FindWithout<V>(s: seq<Slot<V>>, key: JsString, other: JsString)
    ensures Find(Without(s, key), other) == if other == key then None else Find(s, other)
  {
    if s != [] {
      FindWithout(s[1..], key, other);
      if s[0].key != key {
        assert Without(s, key)[1..] == Without(s[1..], key);
      }
    }
  }

  lemma {:induction false} AppendDistinct<V>(s: seq<Slot<V>>, x: Slot<V>)
    requires DistinctKeys(s) && x.key !in Keys(s)
    ensures DistinctKeys(s + [x])
  {
    if s != [] {
      KeysOfCons(s);
      AppendDistinct(s[1..], x);
      assert (s + [x])[1..] == s[1..] + [x];
      KeysOfAppend(s[1..], x);
    } else {
      assert (s + [x])[1..] == [];
    }
  }

  lemma {:induction false} FindAppend<V>(s: seq<Slot<V>>, x: Slot<V>, key: JsString)
    requires x.key !in Keys(s)
    ensures Find(s + [x], key) == if key == x.key then Some(x.entry) else Find(s, key)
  {
    if s != [] {
      KeysOfCons(s);
      FindAppend(s[1..], x, key);
      assert (s + [x])[1..] == s[1..] + [x];
    } else {
      assert (s + [x])[1..] == [];
    }
  }

  lemma {:induction false} KeyCount<V>(s: seq<Slot<V>>)
    requires DistinctKeys(s)
    ensures |Keys(s)| == |s|
  {
    if s != [] {
      KeysOfCons(s);
      KeyCount(s[1..]);
    }
  }

  // ----- The store's operations -----

  datatype Op<V> =
    | Get(key: JsString, now: real)
    | Put(key: JsString, value: V, ttl: Ttl, now: real)
    | Has(key: JsString, now: real)
    | Delete(key: JsString, now: real)

  /** What an operation returns; `Rejected` is the RangeError of a bad TTL. */
  datatype Outcome<V> = Got(hit: Option<V>) | Stored | Rejected | Present(live: bool) | Removed(live: bool)

  predicate Expired<V>(entry: Entry<V>, now: real) {
    entry.expiresAt.Some? && now > entry.expiresAt.value
  }

  predicate BadTtl(ttl: Ttl) {
    ttl.NotFinite? || (ttl.Millis? && ttl.ms < 0.0)
  }

  function ExpiryOf(ttl: Ttl, now: real): Option<real>
    requires !BadTtl(ttl)
  {
    if ttl.NoTtl? then None else Some(now + ttl.ms)
  }

  /** Drop slots from the front, the least recently used first, until `capacity` are left. */
  function Evict<V>(capacity: nat, s: seq<Slot<V>>): seq<Slot<V>> {
    if |s| > capacity then Evict(capacity, s[1..]) else s
  }

  /** Move or add a slot to the most recently used end. */
  function Touch<V>(s: seq<Slot<V>>, key: JsString, entry: Entry<V>): seq<Slot<V>> {
    Without(s, key) + [Slot(key, entry)]
  }

  /** The store after one operation, and what the operation returns. */
  function Step<V>(capacity: nat, s: seq<Slot<V>>, op: Op<V>): (seq<Slot<V>>, Outcome<V>) {
    match op
    case Get(key, now) =>
      (match Find(s, key)
       case None => (s, Got(None))
       case Some(entry) =>
         if Expired(entry, now) then (Without(s, key), Got(None))
         else (Touch(s, key, entry), Got(Some(entry.value))))
    case Put(key, value, ttl, now) =>
      if BadTtl(ttl) then (s, Rejected)
      else (Evict(capacity, Touch(s, key, Entry(value, ExpiryOf(ttl, now)))), Stored)
    case Has(key, now) =>
      (match Find(s, key)
       case None => (s, Present(false))
       case Some(entry) => if Expired(entry, now) then (Without(s, key), Present(false)) else (s, Present(true)))
    case Delete(key, now) =>
      (match Find(s, key)
       case None => (s, Removed(false))
       case Some(entry) => (Without(s, key), Removed(!Expired(entry, now))))
  }

  class InMemoryCacheStore<V> {
    var entries: seq<Slot<V>>
    const maxEntries: nat

    ghost predicate Valid()
      reads this
    {
      maxEntries >= 1 && DistinctKeys(entries) && |entries| <= maxEntries
    }

    constructor (maxEntries: nat)
      requires maxEntries >= 1
      ensures Valid() && entries == [] && this.maxEntries == maxEntries
    {
      this.maxEntries := maxEntries;
      entries := [];
    }

    method Get(key: JsString, now: real) returns (r: Option<V>)
      requires Valid()
      modifies this
      ensures Valid() && (entries, Got(r)) == Step(maxEntries, old(entries), Op.Get(key, now))
    {
      StepKeepsShape(maxEntries, entries, Op.Get(key, now));
      var entry := Find(entries, key);
      if entry.None? {
        return None;
      }
      if Expired(entry.value, now) {
        entries := Without(entries, key);
        return None;
      }
      entries := Without(entries, key);
      entries := entries + [Slot(key, entry.value)];
      r := Some(entry.value.value);
    }

    method Put(key: JsString, value: V, ttl: Ttl, now: real) returns (ok: bool)
      requires Valid()
      modifies this
      ensures Valid()
      ensures (entries, if ok then Stored else Rejected) == Step(maxEntries, old(entries), Op.Put(key, value, ttl, now))
    {
      StepKeepsShape(maxEntries, entries, Op.Put(key, value, ttl, now));
      if BadTtl(ttl) {
        return false;
      }
      var expiresAt := ExpiryOf(ttl, now);
      WithoutKeys(entries, key);
      AppendDistinct(Without(entries, key), Slot(key, Entry(value, expiresAt)));
      entries := Without(entries, key);
      entries := entries + [Slot(key, Entry(value, expiresAt))];
      EvictIfNeeded();
      ok := true;
    }

    method EvictIfNeeded()
      requires DistinctKeys(entries)
      modifies this
      ensures entries == Evict(maxEntries, old(entries))
    {
      while |entries| > maxEntries
        invariant DistinctKeys(entries) && Evict(maxEntries, entries) == Evict(maxEntries, old(entries))
        decreases |entries|
      {
        var oldest := entries[0].key;
        WithoutKeys(entries[1..], oldest);
        entries := Without(entries, oldest);
      }
    }

    method Has(key: JsString, now: real) returns (live: bool)
      requires Valid()
      modifies this
      ensures Valid() && (entries, Present(live)) == Step(maxEntries, old(entries), Op.Has(key, now))
    {
      StepKeepsShape(maxEntries, entries, Op.Has(key, now));
      var entry := Find(entries, key);
      if entry.None? {
        return false;
      }
      if Expired(entry.value, now) {
        entries := Without(entries, key);
        return false;
      }
      live := true;
    }

    method Delete(key: JsString, now: real) returns (live: bool)
      requires Valid()
      modifies this
      ensures Valid() && (entries, Removed(live)) == Step(maxEntries, old(entries), Op.Delete(key, now))
    {
      StepKeepsShape(maxEntries, entries, Op.Delete(key, now));
      var entry := Find(entries, key);
      if entry.None? {
        return false;
      }
      live := !Expired(entry.value, now);
      entries := Without(entries, key);
    }
  }

  /** The constructor's check: a capacity that is not an integer of at least 1 is refused. */
  method CreateStore<V>(maxEntries: real) returns (r: Option<InMemoryCacheStore<V>>)
    ensures r.Some? <==> maxEntries >= 1.0 && maxEntries == maxEntries.Floor as real
    ensures r.Some? ==> r.value.Valid() && r.value.entries == [] && r.value.maxEntries as real == maxEntries
  {
    if maxEntries != maxEntries.Floor as real || maxEntries < 1.0 {
      return None;
    }
    var store := new InMemoryCacheStore<V>(maxEntries.Floor);
    r := Some(store);
  }

  // ----- Shape -----

  lemma TouchKeepsShape<V>(s: seq<Slot<V>>, key: JsString, entry: Entry<V>)
    requires DistinctKeys(s)
    ensures DistinctKeys(Touch(s, key, entry)) && Keys(Touch(s, key, entry)) == Keys(s) + {key}
    ensures |Touch(s, key, entry)| == if key in Keys(s) then |s| else |s| + 1
  {
    var x := Slot(key, entry);
    WithoutKeys(s, key);
    WithoutLength(s, key);
    AppendDistinct(Without(s, key), x);
    KeysOfAppend(Without(s, key), x);
  }

  lemma {:induction false} EvictKeepsShape<V>(capacity: nat, s: seq<Slot<V>>)
    requires DistinctKeys(s)
    ensures DistinctKeys(Evict(capacity, s)) && |Evict(capacity, s)| <= capacity
    ensures |Evict(capacity, s)| == if |s| > capacity then capacity else |s|
  {
    if |s| > capacity {
      EvictKeepsShape(capacity, s[1..]);
    }
  }

  /** Every operation keeps keys distinct and the size within the capacity. */
  lemma StepKeepsShape<V>(capacity: nat, s: seq<Slot<V>>, op: Op<V>)
    requires DistinctKeys(s) && |s| <= capacity
    ensures DistinctKeys(Step(capacity, s, op).0) && |Step(capacity, s, op).0| <= capacity
  {
    FindIffKey(s, op.key);
    WithoutKeys(s, op.key);
    WithoutLength(s, op.key);
    match op
    case Get(key, now) =>
      if Find(s, key).Some? {
        TouchKeepsShape(s, key, Find(s, key).value);
      }
    case Put(key, value, ttl, now) =>
      if !BadTtl(ttl) {
        var t := Touch(s, key, Entry(value, ExpiryOf(ttl, now)));
        TouchKeepsShape(s, key, Entry(value, ExpiryOf(ttl, now)));
        EvictKeepsShape(capacity, t);
      }
    case _ =>
  }

  // ----- Runs -----

  /** The store after a whole run of operations, starting empty. */
  function Run<V>(capacity: nat, ops: seq<Op<V>>): seq<Slot<V>> {
    if ops == [] then []
    else Step(capacity, Run(capacity, ops[..|ops| - 1]), ops[|ops| - 1]).0
  }

  lemma {:induction false} RunKeepsShape<V>(capacity: nat, ops: seq<Op<V>>)
    ensures DistinctKeys(Run(capacity, ops)) && |Run(capacity, ops)| <= capacity
  {
    if ops != [] {
      var before := ops[..|ops| - 1];
      RunKeepsShape(capacity, before);
      StepKeepsShape(capacity, Run(capacity, before), ops[|ops| - 1]);
    }
  }

  // ----- Inclusion between capacities -----

  /** `a` can be had from `b` by leaving slots out. */
  ghost predicate Subsequence<V>(a: seq<Slot<V>>, b: seq<Slot<V>>)
    decreases |b|
  {
    a == [] || (b != [] && ((a[0] == b[0] && Subsequence(a[1..], b[1..])) || Subsequence(a, b[1..])))
  }

  lemma {:induction false} SubsequenceKeys<V>(a: seq<Slot<V>>, b: seq<Slot<V>>)
    requires Subsequence(a, b)
    ensures Keys(a) <= Keys(b)
    decreases |b|
  {
    if a != [] {
      KeysOfCons(a);
      KeysOfCons(b);
      if a[0] == b[0] && Subsequence(a[1..], b[1..]) {
        SubsequenceKeys(a[1..], b[1..]);
      } else {
        SubsequenceKeys(a, b[1..]);
      }
    }
  }

  lemma {:induction false} SubsequenceFind<V>(a: seq<Slot<V>>, b: seq<Slot<V>>, key: JsString)
    requires Subsequence(a, b) && DistinctKeys(b) && Find(a, key).Some?
    ensures Find(b, key) == Find(a, key)
    decreases |b|
  {
    if a[0] == b[0] && Subsequence(a[1..], b[1..]) {
      if a[0].key != key {
        SubsequenceFind(a[1..], b[1..], key);
      }
    } else {
      SubsequenceKeys(a, b[1..]);
      FindIffKey(a, key);
      SubsequenceFind(a, b[1..], key);
    }
  }

  lemma {:induction false} SubsequenceWithout<V>(a: seq<Slot<V>>, b: seq<Slot<V>>, key: JsString)
    requires Subsequence(a, b)
    ensures Subsequence(Without(a, key), Without(b, key))
    decreases |b|
  {
    if a != [] {
      var ra, rb := Without(a, key), Without(b, key);
      if a[0] == b[0] && Subsequence(a[1..], b[1..]) {
        SubsequenceWithout(a[1..], b[1..], key);
        if b[0].key != key {
          assert ra[1..] == Without(a[1..], key) && rb[1..] == Without(b[1..], key);
        }
      } else {
        SubsequenceWithout(a, b[1..], key);
        if b[0].key != key {
          assert rb[1..] == Without(b[1..], key);
        }
      }
    }
  }

  lemma {:induction false} SubsequenceAppend<V>(a: seq<Slot<V>>, b: seq<Slot<V>>, x: Slot<V>)
    requires Subsequence(a, b)
    ensures Subsequence(a + [x], b + [x])
    decreases |b|
  {
    var ax, bx := a + [x], b + [x];
    if b == [] {
      assert ax[1..] == [] && bx[1..] == [];
    } else if a != [] && a[0] == b[0] && Subsequence(a[1..], b[1..]) {
      SubsequenceAppend(a[1..], b[1..], x);
      assert ax[1..] == a[1..] + [x] && bx[1..] == b[1..] + [x];
    } else {
      assert Subsequence(a, b[1..]);
      SubsequenceAppend(a, b[1..], x);
      assert bx[1..] == b[1..] + [x];
    }
  }

  lemma {:induction false} SubsequenceTail<V>(a: seq<Slot<V>>, b: seq<Slot<V>>)
    requires Subsequence(a, b) && a != []
    ensures Subsequence(a[1..], b)
    decreases |b|
  {
    if a[0] == b[0] && Subsequence(a[1..], b[1..]) {
      assert a[1..] == [] || Subsequence(a[1..], b);
    } else {
      SubsequenceTail(a, b[1..]);
    }
  }

  /** The stores of a smaller and a larger capacity after the same operations. */
  ghost predicate Included<V>(m: nat, small: seq<Slot<V>>, n: nat, large: seq<Slot<V>>) {
    && DistinctKeys(small) && DistinctKeys(large)
    && |small| <= m && |large| <= n
    && Subsequence(small, large)
    && |large| - |small| <= n - m
  }

  /** A hit in the smaller store is the same hit in the larger one. */
  ghost predicate NoBetter<V>(small: Outcome<V>, large: Outcome<V>) {
    match small
    case Got(hit) => large.Got? && (hit.Some? ==> large == small)
    case Present(live) => large.Present? && (live ==> large == small)
    case Removed(live) => large.Removed? && (live ==> large == small)
    case _ => large == small
  }

  lemma IncludedWithout<V>(m: nat, small: seq<Slot<V>>, n: nat, large: seq<Slot<V>>, key: JsString)
    requires Included(m, small, n, large)
    ensures Included(m, Without(small, key), n, Without(large, key))
  {
    SubsequenceWithout(small, large, key);
    SubsequenceKeys(small, large);
    WithoutKeys(small, key);
    WithoutKeys(large, key);
    WithoutLength(small, key);
    WithoutLength(large, key);
  }

  lemma IncludedTouch<V>(m: nat, small: seq<Slot<V>>, n: nat, large: seq<Slot<V>>, key: JsString, entry: Entry<V>)
    requires Included(m, small, n, large)
    ensures Included(m + 1, Touch(small, key, entry), n + 1, Touch(large, key, entry))
  {
    IncludedWithout(m, small, n, large, key);
    SubsequenceAppend(Without(small, key), Without(large, key), Slot(key, entry));
    TouchKeepsShape(small, key, entry);
    TouchKeepsShape(large, key, entry);
  }

  /** Both stores evict their oldest slot, or only the smaller one does. */
  lemma IncludedEvict<V>(m: nat, small: seq<Slot<V>>, n: nat, large: seq<Slot<V>>)
    requires Included(m + 1, small, n + 1, large) && m <= n
    ensures Included(m, Evict(m, small), n, Evict(n, large))
  {
    EvictKeepsShape(m, small);
    EvictKeepsShape(n, large);
    if |large| > n {
      assert |small| == m + 1 && Evict(m, small) == small[1..] && Evict(n, large) == large[1..];
      if small[0] != large[0] {
        SubsequenceTail(small, large[1..]);
      } else if !Subsequence(small[1..], large[1..]) {
        SubsequenceTail(small, large[1..]);
      }
    } else if |small| > m {
      assert Evict(m, small) == small[1..];
      SubsequenceTail(small, large);
    }
  }

  /** A key only the larger store holds can be dropped from it, or moved to its end. */
  lemma IncludedLargeOnly<V>(m: nat, small: seq<Slot<V>>, n: nat, large: seq<Slot<V>>, key: JsString, entry: Entry<V>)
    requires Included(m, small, n, large) && key !in Keys(small) && key in Keys(large)
    ensures Included(m, small, n, Without(large, key)) && Included(m, small, n, Touch(large, key, entry))
  {
    IncludedWithout(m, small, n, large, key);
    WithoutKeys(small, key);
    TouchKeepsShape(large, key, entry);
    SubsequenceExtend(small, Without(large, key), Slot(key, entry));
  }

  lemma {:induction false} SubsequenceExtend<V>(a: seq<Slot<V>>, b: seq<Slot<V>>, x: Slot<V>)
    requires Subsequence(a, b)
    ensures Subsequence(a, b + [x])
    decreases |b|
  {
    if a != [] {
      assert (b + [x])[1..] == b[1..] + [x];
      if a[0] == b[0] && Subsequence(a[1..], b[1..]) {
        SubsequenceExtend(a[1..], b[1..], x);
      } else {
        SubsequenceExtend(a, b[1..], x);
      }
    }
  }

  lemma InclusionStep<V>(m: nat, small: seq<Slot<V>>, n: nat, large: seq<Slot<V>>, op: Op<V>)
    requires Included(m, small, n, large) && m <= n
    ensures Included(m, Step(m, small, op).0, n, Step(n, large, op).0)
    ensures NoBetter(Step(m, small, op).1, Step(n, large, op).1)
  {
    FindIffKey(small, op.key);
    FindIffKey(large, op.key);
    SubsequenceKeys(small, large);
    if op.Put? {
      if !BadTtl(op.ttl) {
        var entry := Entry(op.value, ExpiryOf(op.ttl, op.now));
        IncludedTouch(m, small, n, large, op.key, entry);
        IncludedEvict(m, Touch(small, op.key, entry), n, Touch(large, op.key, entry));
      }
    } else if op.key in Keys(small) {
      SubsequenceFind(small, large, op.key);
      var entry := Find(small, op.key).value;
      IncludedWithout(m, small, n, large, op.key);
      IncludedTouch(m, small, n, large, op.key, entry);
      TouchKeepsShape(small, op.key, entry);
      TouchKeepsShape(large, op.key, entry);
    } else if op.key in Keys(large) {
      IncludedLargeOnly(m, small, n, large, op.key, Find(large, op.key).value);
    }
  }

  /**
   LRU inclusion: after any run, the smaller store is a subsequence of the larger one, entry for
   entry, and the next operation does no better in the smaller store.
   */
  lemma {:induction false} Inclusion<V>(m: nat, n: nat, ops: seq<Op<V>>, next: Op<V>)
    requires m <= n
    ensures Included(m, Run(m, ops), n, Run(n, ops))
    ensures NoBetter(Step(m, Run(m, ops), next).1, Step(n, Run(n, ops), next).1)
  {
    if ops != [] {
      Inclusion(m, n, ops[..|ops| - 1], ops[|ops| - 1]);
      InclusionStep(m, Run(m, ops[..|ops| - 1]), n, Run(n, ops[..|ops| - 1]), ops[|ops| - 1]);
    }
    InclusionStep(m, Run(m, ops), n, Run(n, ops), next);
  }

  // ----- Soundness against the store without a capacity -----

  /** The entry a store that never evicts would hold for `key` after `ops`. */
  function Unbounded<V>(ops: seq<Op<V>>, key: JsString): Option<Entry<V>> {
    if ops == [] then None
    else
      var before := Unbounded(ops[..|ops| - 1], key);
      var op := ops[|ops| - 1];
      if op.key != key then before
      else
        match op
        case Put(_, value, ttl, now) => if BadTtl(ttl) then before else Some(Entry(value, ExpiryOf(ttl, now)))
        case Delete(_, _) => None
        case _ => if before.Some? && Expired(before.value, op.now) then None else before
  }

  lemma {:induction false} FindEvict<V>(capacity: nat, s: seq<Slot<V>>, key: JsString)
    requires DistinctKeys(s) && Find(Evict(capacity, s), key).Some?
    ensures Find(Evict(capacity, s), key) == Find(s, key)
  {
    if |s| > capacity {
      FindEvict(capacity, s[1..], key);
      FindIffKey(s[1..], key);
    }
  }

  lemma FindTouch<V>(s: seq<Slot<V>>, key: JsString, entry: Entry<V>, other: JsString)
    ensures Find(Touch(s, key, entry), other) == if other == key then Some(entry) else Find(s, other)
  {
    WithoutKeys(s, key);
    FindAppend(Without(s, key), Slot(key, entry), other);
    FindWithout(s, key, other);
  }

  /** One step looks, at every key, like the same step of a map without a capacity, or has evicted it. */
  lemma StepFind<V>(capacity: nat, s: seq<Slot<V>>, op: Op<V>, key: JsString)
    requires DistinctKeys(s)
    requires Find(Step(capacity, s, op).0, key).Some?
    ensures Find(Step(capacity, s, op).0, key)
         == if op.Put? && op.key == key && !BadTtl(op.ttl) then Some(Entry(op.value, ExpiryOf(op.ttl, op.now)))
            else Find(s, key)
    ensures op.Delete? ==> op.key != key
    ensures (op.Get? || op.Has?) && op.key == key ==> !Expired(Find(s, key).value, op.now)
  {
    FindWithout(s, op.key, key);
    if op.Put? {
      if !BadTtl(op.ttl) {
        var t := Touch(s, op.key, Entry(op.value, ExpiryOf(op.ttl, op.now)));
        TouchKeepsShape(s, op.key, Entry(op.value, ExpiryOf(op.ttl, op.now)));
        FindEvict(capacity, t, key);
        FindTouch(s, op.key, Entry(op.value, ExpiryOf(op.ttl, op.now)), key);
      }
    } else if op.Get? && Find(s, op.key).Some? {
      FindTouch(s, op.key, Find(s, op.key).value, key);
    }
  }

  /** Whatever the store holds is what the store without a capacity holds. */
  lemma {:induction false} Sound<V>(capacity: nat, ops: seq<Op<V>>, key: JsString)
    requires Find(Run(capacity, ops), key).Some?
    ensures Unbounded(ops, key) == Find(Run(capacity, ops), key)
  {
    if ops != [] {
      var before, op := ops[..|ops| - 1], ops[|ops| - 1];
      RunKeepsShape(capacity, before);
      StepFind(capacity, Run(capacity, before), op, key);
      if Find(Run(capacity, before), key).Some? {
        Sound(capacity, before, key);
      }
    }
  }

  /** The last operation that set `key`, if it did not fail. */
  function LatestPut<V>(ops: seq<Op<V>>, key: JsString): Option<Entry<V>> {
    if ops == [] then None
    else
      var op := ops[|ops| - 1];
      if op.Put? && op.key == key && !BadTtl(op.ttl) then Some(Entry(op.value, ExpiryOf(op.ttl, op.now)))
      else LatestPut(ops[..|ops| - 1], key)
  }

  lemma {:induction false} UnboundedIsLatest<V>(ops: seq<Op<V>>, key: JsString)
    requires Unbounded(ops, key).Some?
    ensures LatestPut(ops, key) == Unbounded(ops, key)
  {
    var op := ops[|ops| - 1];
    if !(op.Put? && op.key == key && !BadTtl(op.ttl)) {
      UnboundedIsLatest(ops[..|ops| - 1], key);
    }
  }

  /** A value that is returned is that of the latest put of the key, and still alive. */
  lemma HitIsLatestPut<V>(capacity: nat, ops: seq<Op<V>>, key: JsString, now: real)
    requires Step(capacity, Run(capacity, ops), Op.Get(key, now)).1 != Got(None)
    ensures LatestPut(ops, key).Some? && !Expired(LatestPut(ops, key).value, now)
    ensures Step(capacity, Run(capacity, ops), Op.Get(key, now)).1 == Got(Some(LatestPut(ops, key).value.value))
  {
    Sound(capacity, ops, key);
    UnboundedIsLatest(ops, key);
  }

  // ----- Retention -----

  /** Does this operation move `op.key` to the most recently used end? */
  ghost predicate Touches<V>(s: seq<Slot<V>>, op: Op<V>) {
    (op.Put? && !BadTtl(op.ttl))
    || (op.Get? && Find(s, op.key).Some? && !Expired(Find(s, op.key).value, op.now))
  }

  /** The other keys put or hit since `key` itself was last put or hit. */
  ghost function OthersSince<V>(capacity: nat, ops: seq<Op<V>>, key: JsString): set<JsString> {
    if ops == [] then {}
    else
      var before, op := ops[..|ops| - 1], ops[|ops| - 1];
      if !Touches(Run(capacity, before), op) then OthersSince(capacity, before, key)
      else if op.key == key then {}
      else OthersSince(capacity, before, key) + {op.key}
  }

  /** Every slot after that of `key` has its key in `others`. */
  ghost predicate Behind<V>(s: seq<Slot<V>>, key: JsString, others: set<JsString>) {
    s == [] || if s[0].key == key then Keys(s[1..]) <= others else Behind(s[1..], key, others)
  }

  lemma {:induction false} BehindMonotone<V>(s: seq<Slot<V>>, key: JsString, small: set<JsString>, large: set<JsString>)
    requires Behind(s, key, small) && small <= large
    ensures Behind(s, key, large)
  {
    if s != [] && s[0].key != key {
      BehindMonotone(s[1..], key, small, large);
    }
  }

  lemma {:induction false} BehindWithout<V>(s: seq<Slot<V>>, key: JsString, others: set<JsString>, gone: JsString)
    requires Behind(s, key, others)
    ensures Behind(Without(s, gone), key, others)
  {
    if s == [] {
    } else if s[0].key == key {
      WithoutKeys(s[1..], gone);
      if gone == key {
        BehindAbsent(Without(s, gone), key, others);
      } else {
        assert Without(s, gone)[1..] == Without(s[1..], gone);
      }
    } else {
      BehindWithout(s[1..], key, others, gone);
      assert s[0].key != gone ==> Without(s, gone)[1..] == Without(s[1..], gone);
    }
  }

  lemma {:induction false} BehindAbsent<V>(s: seq<Slot<V>>, key: JsString, others: set<JsString>)
    requires key !in Keys(s)
    ensures Behind(s, key, others)
  {
    if s != [] {
      KeysOfCons(s);
      BehindAbsent(s[1..], key, others);
    }
  }

  lemma {:induction false} BehindAppend<V>(s: seq<Slot<V>>, key: JsString, others: set<JsString>, x: Slot<V>)
    requires Behind(s, key, others) && x.key in others
    ensures Behind(s + [x], key, others)
  {
    if s == [] {
      assert (s + [x])[1..] == [];
    } else {
      assert (s + [x])[1..] == s[1..] + [x];
      if s[0].key == key {
        KeysOfAppend(s[1..], x);
      } else {
        BehindAppend(s[1..], key, others, x);
      }
    }
  }

  lemma {:induction false} BehindEnd<V>(s: seq<Slot<V>>, x: Slot<V>, others: set<JsString>)
    requires x.key !in Keys(s)
    ensures Behind(s + [x], x.key, others)
  {
    if s == [] {
      assert (s + [x])[1..] == [];
    } else {
      KeysOfCons(s);
      assert (s + [x])[1..] == s[1..] + [x];
      BehindEnd(s[1..], x, others);
    }
  }

  lemma {:induction false} BehindEvict<V>(capacity: nat, s: seq<Slot<V>>, key: JsString, others: set<JsString>)
    requires DistinctKeys(s) && Behind(s, key, others)
    ensures Behind(Evict(capacity, s), key, others)
    ensures Find(s, key).Some? && Find(Evict(capacity, s), key).None? ==> |others| >= capacity
  {
    if |s| > capacity {
      KeysOfCons(s);
      FindIffKey(s[1..], key);
      if s[0].key == key {
        KeyCount(s[1..]);
        Collections.SubsetSize(Keys(s[1..]), others);
        BehindAbsent(s[1..], key, others);
      }
      BehindEvict(capacity, s[1..], key, others);
    }
  }

  lemma BehindTouch<V>(s: seq<Slot<V>>, touched: JsString, entry: Entry<V>, key: JsString, others: set<JsString>)
    requires DistinctKeys(s) && Behind(s, key, others)
    ensures Behind(Touch(s, touched, entry), key, if touched == key then {} else others + {touched})
  {
    var rest := Without(s, touched);
    WithoutKeys(s, touched);
    if touched == key {
      BehindEnd(rest, Slot(key, entry), {});
    } else {
      BehindWithout(s, key, others, touched);
      BehindMonotone(rest, key, others, others + {touched});
      BehindAppend(rest, key, others + {touched}, Slot(touched, entry));
    }
  }

  /** What holds of `key` after every run: its place in the order, and that eviction took `capacity` others. */
  ghost predicate Kept<V>(
      capacity: nat, s: seq<Slot<V>>, unbounded: Option<Entry<V>>, key: JsString, others: set<JsString>) {
    && Behind(s, key, others)
    && (unbounded.Some? && Find(s, key).None? ==> |others| >= capacity)
  }

  lemma {:induction false} RunKeeps<V>(capacity: nat, ops: seq<Op<V>>, key: JsString)
    requires capacity >= 1
    ensures Kept(capacity, Run(capacity, ops), Unbounded(ops, key), key, OthersSince(capacity, ops, key))
  {
    if ops != [] {
      var before, op := ops[..|ops| - 1], ops[|ops| - 1];
      var s, others := Run(capacity, before), OthersSince(capacity, before, key);
      RunKeeps(capacity, before, key);
      RunKeepsShape(capacity, before);
      if Touches(s, op) {
        KeptByTouch(capacity, s, op, Unbounded(before, key), key, others);
      } else {
        BehindWithout(s, key, others, op.key);
        FindWithout(s, op.key, key);
        if op.key == key && Find(s, key).Some? {
          Sound(capacity, before, key);
        }
      }
    }
  }

  lemma KeptByTouch<V>(
      capacity: nat, s: seq<Slot<V>>, op: Op<V>, before: Option<Entry<V>>, key: JsString, others: set<JsString>)
    requires capacity >= 1 && DistinctKeys(s) && Touches(s, op) && Kept(capacity, s, before, key, others)
    ensures var others' := if op.key == key then {} else others + {op.key};
            Behind(Step(capacity, s, op).0, key, others')
            && (Find(Step(capacity, s, op).0, key).None? && (op.key == key || before.Some?) ==> |others'| >= capacity)
  {
    var others' := if op.key == key then {} else others + {op.key};
    var entry := if op.Put? then Entry(op.value, ExpiryOf(op.ttl, op.now)) else Find(s, op.key).value;
    var t := Touch(s, op.key, entry);
    BehindTouch(s, op.key, entry, key, others);
    TouchKeepsShape(s, op.key, entry);
    FindTouch(s, op.key, entry, key);
    if op.Put? {
      BehindEvict(capacity, t, key, others');
    }
    if op.key != key {
      Collections.SubsetSize(others, others');
    }
  }

  /**
   Retention: a key that was put, and neither deleted nor seen expired since, is still in the store
   with the entry of its latest put, unless at least `capacity` distinct other keys were put or hit
   since it was itself last put or hit.
   */
  lemma Retention<V>(capacity: nat, ops: seq<Op<V>>, key: JsString, now: real)
    requires capacity >= 1
    requires Unbounded(ops, key).Some? && !Expired(Unbounded(ops, key).value, now)
    requires |OthersSince(capacity, ops, key)| < capacity
    ensures LatestPut(ops, key) == Unbounded(ops, key)
    ensures Step(capacity, Run(capacity, ops), Op.Get(key, now)).1 == Got(Some(LatestPut(ops, key).value.value))
  {
    RunKeeps(capacity, ops, key);
    Sound(capacity, ops, key);
    UnboundedIsLatest(ops, key);
  }

  // ----- Eviction does not look at expiry -----

  /**
   A put makes another key go exactly when the store is full, the key put is new, and the other one is
   the least recently used, whether it is dead or alive.
   */
  lemma EvictsOldest<V>(capacity: nat, s: seq<Slot<V>>, op: Op<V>, key: JsString)
    requires capacity >= 1 && DistinctKeys(s) && |s| <= capacity
    requires op.Put? && !BadTtl(op.ttl) && key in Keys(s)
    ensures key !in Keys(Step(capacity, s, op).0) <==> |s| == capacity && op.key !in Keys(s) && key == s[0].key
  {
    var entry := Entry(op.value, ExpiryOf(op.ttl, op.now));
    TouchKeepsShape(s, op.key, entry);
    if |s| == capacity && op.key !in Keys(s) {
      WithoutKeys(s, op.key);
      EvictsFirst(capacity, s, Slot(op.key, entry));
      KeysOfAppend(s[1..], Slot(op.key, entry));
      KeysOfCons(s);
    }
  }

  lemma EvictsFirst<V>(capacity: nat, s: seq<Slot<V>>, x: Slot<V>)
    requires |s| == capacity >= 1
    ensures Evict(capacity, s + [x]) == s[1..] + [x]
  {
    assert (s + [x])[1..] == s[1..] + [x];
  }

  /** So an expired entry that nobody touched can outlive a live one. */
  lemma DeadOutlivesLive<V>(live: JsString, dead: JsString, other: JsString, value: V)
    requires live != dead && live != other && dead != other
    ensures var s := Run(2, [Op.Put(live, value, NoTtl, 0.0), Op.Put(dead, value, Millis(1.0), 0.0)]);
      var t := Step(2, s, Op.Put(other, value, NoTtl, 9.0)).0;
      live !in Keys(t) && Find(t, dead) == Some(Entry(value, Some(1.0))) && Expired(Find(t, dead).value, 9.0)
  {
    var p, q := Op.Put(live, value, NoTtl, 0.0), Op.Put(dead, value, Millis(1.0), 0.0);
    var x, y, z := Slot(live, Entry(value, None)), Slot(dead, Entry(value, Some(1.0))), Slot(other, Entry(value, None));
    assert [p, q][..1] == [p] && [p][..0] == [];
    assert Run(2, [p]) == [x];
    WithoutOther(x, dead);
    assert Run(2, [p, q]) == [x] + [y] == [x, y];
    OneGoes(x, y, z);
  }

  lemma WithoutOther<V>(x: Slot<V>, key: JsString)
    requires x.key != key
    ensures Without([x], key) == [x]
  {
    assert [x][1..] == [];
  }

  lemma OneGoes<V>(x: Slot<V>, y: Slot<V>, z: Slot<V>)
    requires x.key != z.key && y.key != z.key
    ensures Evict(2, Touch([x, y], z.key, z.entry)) == [y, z]
  {
    WithoutOther(y, z.key);
    assert [x, y][1..] == [y];
    assert Without([x, y], z.key) == [x] + [y] == [x, y];
    assert [x, y] + [z] == [x, y, z] && [x, y, z][1..] == [y, z];
  }

  // ----- How long an entry lives, in plain arithmetic -----

  lemma {:induction false} EvictKeepsLast<V>(capacity: nat, s: seq<Slot<V>>)
    requires capacity >= 1 && DistinctKeys(s) && s != []
    ensures Find(Evict(capacity, s), s[|s| - 1].key) == Some(s[|s| - 1].entry)
  {
    if |s| > capacity {
      EvictKeepsLast(capacity, s[1..]);
    } else {
      FindLast(s);
    }
  }

  lemma {:induction false} FindLast<V>(s: seq<Slot<V>>)
    requires DistinctKeys(s) && s != []
    ensures Find(s, s[|s| - 1].key) == Some(s[|s| - 1].entry)
  {
    if |s| > 1 {
      assert s[|s| - 1] in s[1..];
      FindLast(s[1..]);
    }
  }

  /** A put is refused exactly for a TTL that is not finite or negative, and then nothing changes. */
  lemma PutRefusedIff<V>(capacity: nat, s: seq<Slot<V>>, key: JsString, value: V, ttl: Ttl, now: real)
    ensures Step(capacity, s, Op.Put(key, value, ttl, now)).1 == Rejected
       <==> ttl.NotFinite? || (ttl.Millis? && ttl.ms < 0.0)
    ensures Step(capacity, s, Op.Put(key, value, ttl, now)).1 == Rejected
        ==> Step(capacity, s, Op.Put(key, value, ttl, now)).0 == s
  {
  }

  /** A put is refused for no other TTL. */
  predicate GoodTtl(ttl: Ttl) {
    ttl.NoTtl? || (ttl.Millis? && ttl.ms >= 0.0)
  }

  /** The entry put at `since` may still be read at `now`: always without a TTL, else up to `since` plus the TTL. */
  predicate InTime(ttl: Ttl, since: real, now: real) {
    ttl.NoTtl? || (ttl.Millis? && now <= since + ttl.ms)
  }

  lemma PutIsFound<V>(capacity: nat, s: seq<Slot<V>>, key: JsString, value: V, ttl: Ttl, now: real)
    requires capacity >= 1 && DistinctKeys(s) && GoodTtl(ttl)
    ensures Find(Step(capacity, s, Op.Put(key, value, ttl, now)).0, key) == Some(Entry(value, ExpiryOf(ttl, now)))
  {
    var entry := Entry(value, ExpiryOf(ttl, now));
    TouchKeepsShape(s, key, entry);
    EvictKeepsLast(capacity, Touch(s, key, entry));
  }

  /** What was put is read back exactly up to and including the end of its TTL, and always without one. */
  lemma LivesForItsTtl<V>(
      capacity: nat, s: seq<Slot<V>>, key: JsString, value: V, ttl: Ttl, since: real, now: real)
    requires capacity >= 1 && DistinctKeys(s) && GoodTtl(ttl)
    ensures var after := Step(capacity, s, Op.Put(key, value, ttl, since)).0;
      Step(capacity, after, Op.Get(key, now)).1 == Got(if InTime(ttl, since, now) then Some(value) else None)
  {
    PutIsFound(capacity, s, key, value, ttl, since);
  }

  /** `has` says, and `delete` reports, exactly what `get` would find; and a deleted key is gone. */
  lemma AnswersAgree<V>(capacity: nat, s: seq<Slot<V>>, key: JsString, now: real)
    ensures var live := Step(capacity, s, Op.Get(key, now)).1 != Got(None);
      && Step(capacity, s, Op.Has(key, now)).1 == Present(live)
      && Step(capacity, s, Op.Delete(key, now)).1 == Removed(live)
      && (live ==> Step(capacity, s, Op.Has(key, now)).0 == s)
    ensures key !in Keys(Step(capacity, s, Op.Delete(key, now)).0)
  {
    FindIffKey(s, key);
    WithoutKeys(s, key);
  }

  /** An operation on `key` that neither replaces nor removes an entry that lives as said. */
  ghost predicate LeavesAlone<V>(op: Op<V>, ttl: Ttl, since: real) {
    match op
    case Get(_, now) => InTime(ttl, since, now)
    case Has(_, now) => InTime(ttl, since, now)
    case Put(_, _, other, _) => !GoodTtl(other)
    case Delete(_, _) => false
  }

  lemma {:induction false} UnboundedSince<V>(
      before: seq<Op<V>>, key: JsString, value: V, ttl: Ttl, since: real, more: seq<Op<V>>)
    requires GoodTtl(ttl) && forall op | op in more && op.key == key :: LeavesAlone(op, ttl, since)
    ensures Unbounded(before + [Op.Put(key, value, ttl, since)] + more, key) == Some(Entry(value, ExpiryOf(ttl, since)))
  {
    var ops := before + [Op.Put(key, value, ttl, since)] + more;
    if more == [] {
      assert ops[|ops| - 1] == Op.Put(key, value, ttl, since);
    } else {
      var fewer := more[..|more| - 1];
      UnboundedSince(before, key, value, ttl, since, fewer);
      assert ops[..|ops| - 1] == before + [Op.Put(key, value, ttl, since)] + fewer;
      assert ops[|ops| - 1] == more[|more| - 1] && more[|more| - 1] in more;
    }
  }

  /**
   Over runs: what was put is read back up to and including the end of its TTL and not after it, if it was
   not replaced, deleted or found dead since, and fewer than `capacity` other keys were put or hit since the
   key itself last was.
   */
  lemma LivesThroughRun<V>(capacity: nat, before: seq<Op<V>>, key: JsString, value: V, ttl: Ttl, since: real,
      more: seq<Op<V>>, now: real)
    requires capacity >= 1 && GoodTtl(ttl) && forall op | op in more && op.key == key :: LeavesAlone(op, ttl, since)
    requires |OthersSince(capacity, before + [Op.Put(key, value, ttl, since)] + more, key)| < capacity
    ensures var ops := before + [Op.Put(key, value, ttl, since)] + more;
      Step(capacity, Run(capacity, ops), Op.Get(key, now)).1
      == Got(if InTime(ttl, since, now) then Some(value) else None)
  {
    var ops := before + [Op.Put(key, value, ttl, since)] + more;
    UnboundedSince(before, key, value, ttl, since, more);
    RunKeeps(capacity, ops, key);
    Sound(capacity, ops, key);
  }
}
