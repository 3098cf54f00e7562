/**
 packages/security/src/rate-limit.ts: the two-bucket sliding-window limiter. A run is a list of
 requests, each with the clock reading it was checked at. The independent reference is a limiter
 that never prunes: it counts the whole history of allowed requests.
 */
module RateLimit {
  import Collections

  const WINDOW_MS: int := 60_000

  datatype Request =
    Request(now: int, tenantId: string, shopperId: string, perShopperPerMinute: int, perTenantPerMinute: int)

  datatype Decision = Decision(allowed: bool, retryAfterMs: int)

  /** A bucket key: `s:` and the ids joined by a colon, or `t:` and the tenant id. */
  datatype BucketKey = S(joined: string) | T(tenantId: string)

  type Buckets = map<BucketKey, seq<int>>

  function ShopperKey(tenantId: string, shopperId: string): BucketKey {
    S(tenantId + ":" + shopperId)
  }

  function TenantKey(tenantId: string): BucketKey {
    T(tenantId)
  }

  /** `store.get(key)`: the recorded timestamps of a bucket. */
  function Recorded(b: Buckets, key: BucketKey): seq<int> {
    if key in b then b[key] else []
  }

  /** The timestamps after the cutoff. */
  function Prune(timestamps: seq<int>, cutoff: int): seq<int> {
    if timestamps == [] then []
    else (if timestamps[0] > cutoff then [timestamps[0]] else []) + Prune(timestamps[1..], cutoff)
  }

  /** `Math.min(...hits)` */
  function Oldest(hits: seq<int>): int
    requires hits != []
  {
    if |hits| == 1 then hits[0]
    else
      var least := Oldest(hits[1..]);
      if hits[0] < least then hits[0] else least
  }

  /** How long until the oldest hit leaves the window; nothing to wait for in a bucket that is not full. */
  function Wait(now: int, fullHits: seq<int>): int {
    if fullHits == [] then 0 else Oldest(fullHits) + WINDOW_MS - now
  }

  function RetryAfter(now: int, fullShopperHits: seq<int>, fullTenantHits: seq<int>): int {
    var a, b := Wait(now, fullShopperHits), Wait(now, fullTenantHits);
    if a >= b && a >= 1 then a else if b >= 1 then b else 1
  }

  /** The decision on `q`, given the hits of its two buckets that are still in the window. */
  function DecideOn(q: Request, shopperHits: seq<int>, tenantHits: seq<int>): Decision {
    var shopperFull := |shopperHits| >= q.perShopperPerMinute;
    var tenantFull := |tenantHits| >= q.perTenantPerMinute;
    if q.perShopperPerMinute <= 0 || q.perTenantPerMinute <= 0 then Decision(false, WINDOW_MS)
    else if shopperFull || tenantFull then
      Decision(false, RetryAfter(q.now, if shopperFull then shopperHits else [], if tenantFull then tenantHits else []))
    else Decision(true, 0)
  }

  /** One check: the buckets it leaves and its decision. */
  function Check(b: Buckets, q: Request): (Buckets, Decision) {
    var shopperKey, tenantKey := ShopperKey(q.tenantId, q.shopperId), TenantKey(q.tenantId);
    var shopperHits := Prune(Recorded(b, shopperKey), q.now - WINDOW_MS);
    var tenantHits := Prune(Recorded(b, tenantKey), q.now - WINDOW_MS);
    var d := DecideOn(q, shopperHits, tenantHits);
    if q.perShopperPerMinute <= 0 || q.perTenantPerMinute <= 0 then (b, d)
    else if d.allowed then (b[shopperKey := shopperHits + [q.now]][tenantKey := tenantHits + [q.now]], d)
    else (b[shopperKey := shopperHits][tenantKey := tenantHits], d)
  }

  class RateLimiter {
    var buckets: Buckets

    constructor ()
      ensures buckets == map[]
    {
      buckets := map[];
    }

    method CheckRequest(q: Request) returns (d: Decision)
      modifies this
      ensures (buckets, d) == Check(old(buckets), q)
    {
      var cutoff := q.now - WINDOW_MS;
      if q.perShopperPerMinute <= 0 || q.perTenantPerMinute <= 0 {
        return Decision(false, WINDOW_MS);
      }
      var shopperKey, tenantKey := ShopperKey(q.tenantId, q.shopperId), TenantKey(q.tenantId);
      var shopperHits := Prune(Recorded(buckets, shopperKey), cutoff);
      var tenantHits := Prune(Recorded(buckets, tenantKey), cutoff);
      var shopperFull := |shopperHits| >= q.perShopperPerMinute;
      var tenantFull := |tenantHits| >= q.perTenantPerMinute;
      if shopperFull || tenantFull {
        buckets := buckets[shopperKey := shopperHits];
        buckets := buckets[tenantKey := tenantHits];
        var retryAfterMs := ComputeRetryAfterMs(
          q.now, if shopperFull then shopperHits else [], if tenantFull then tenantHits else []);
        return Decision(false, retryAfterMs);
      }
      shopperHits := shopperHits + [q.now];
      tenantHits := tenantHits + [q.now];
      buckets := buckets[shopperKey := shopperHits];
      buckets := buckets[tenantKey := tenantHits];
      d := Decision(true, 0);
    }
  }

  method ComputeRetryAfterMs(now: int, fullShopperHits: seq<int>, fullTenantHits: seq<int>) returns (r: int)
    ensures r == RetryAfter(now, fullShopperHits, fullTenantHits)
  {
    var retry := 0;
    var lists := [fullShopperHits, fullTenantHits];
    for i := 0 to |lists|
      invariant retry >= 0 && (i >= 1 ==> retry >= Wait(now, lists[0])) && (i == 2 ==> retry >= Wait(now, lists[1]))
      invariant retry == 0 || (i >= 1 && retry == Wait(now, lists[0])) || (i == 2 && retry == Wait(now, lists[1]))
    {
      var hits := lists[i];
      if hits != [] {
        var wait := Oldest(hits) + WINDOW_MS - now;
        if wait > retry {
          retry := wait;
        }
      }
    }
    r := if retry > 1 then retry else 1;
  }

  // ----- Runs and the full history -----

  function Run(qs: seq<Request>): Buckets {
    if qs == [] then map[] else Check(Run(qs[..|qs| - 1]), qs[|qs| - 1]).0
  }

  /** The decision on `q` after the run `qs`. */
  function Decide(qs: seq<Request>, q: Request): Decision {
    Check(Run(qs), q).1
  }

  predicate UsesKey(q: Request, key: BucketKey) {
    key == ShopperKey(q.tenantId, q.shopperId) || key == TenantKey(q.tenantId)
  }

  /** When the allowed requests of a run were recorded under `key`, nothing forgotten. */
  function History(qs: seq<Request>, key: BucketKey): seq<int> {
    if qs == [] then []
    else
      var before, q := qs[..|qs| - 1], qs[|qs| - 1];
      History(before, key) + if Decide(before, q).allowed && UsesKey(q, key) then [q.now] else []
  }

  /** The clock never goes back from one request to the next. */
  ghost predicate NonDecreasing(qs: seq<Request>) {
    |qs| <= 1 || (qs[|qs| - 2].now <= qs[|qs| - 1].now && NonDecreasing(qs[..|qs| - 1]))
  }

  // ----- Pruning -----

  lemma {:induction false} PruneAppend(h: seq<int>, t: int, c: int)
    ensures Prune(h + [t], c) == Prune(h, c) + if t > c then [t] else []
  {
    if h == [] {
      assert (h + [t])[1..] == [];
    } else {
      assert (h + [t])[1..] == h[1..] + [t];
      PruneAppend(h[1..], t, c);
    }
  }

  lemma {:induction false} PruneTwice(h: seq<int>, c: int, d: int)
    requires c <= d
    ensures Prune(Prune(h, c), d) == Prune(h, d)
  {
    if h != [] {
      PruneTwice(h[1..], c, d);
      var p := Prune(h[1..], c);
      assert ([h[0]] + p)[1..] == p && [] + p == p;
    }
  }

  lemma {:induction false} PruneBounds(h: seq<int>, c: int)
    ensures |Prune(h, c)| <= |h|
    ensures forall t | t in Prune(h, c) :: t > c && t in h
    ensures |Prune(h, c)| == |h| ==> Prune(h, c) == h
    ensures (exists t :: t in h && t <= c) ==> |Prune(h, c)| < |h|
  {
    if h != [] {
      PruneBounds(h[1..], c);
      assert forall t :: t in h <==> t == h[0] || t in h[1..];
    }
  }

  lemma PruneMonotone(h: seq<int>, c: int, d: int)
    requires c <= d
    ensures |Prune(h, d)| <= |Prune(h, c)|
  {
    PruneTwice(h, c, d);
    PruneBounds(Prune(h, c), d);
  }

  // ----- Pruning never loses a hit that a later check needs -----

  /** What one check makes of one bucket, given its decision. */
  function NextBucket(h: seq<int>, q: Request, key: BucketKey, allowed: bool): seq<int> {
    if q.perShopperPerMinute <= 0 || q.perTenantPerMinute <= 0 || !UsesKey(q, key) then h
    else if allowed then Prune(h, q.now - WINDOW_MS) + [q.now]
    else Prune(h, q.now - WINDOW_MS)
  }

  lemma BucketStep(b: Buckets, q: Request, key: BucketKey)
    ensures Recorded(Check(b, q).0, key) == NextBucket(Recorded(b, key), q, key, Check(b, q).1.allowed)
  {
  }

  lemma NextBucketPruned(h: seq<int>, q: Request, key: BucketKey, allowed: bool, c: int)
    requires q.now - WINDOW_MS <= c
    requires allowed ==> q.perShopperPerMinute > 0 && q.perTenantPerMinute > 0
    ensures Prune(NextBucket(h, q, key, allowed), c)
         == Prune(h, c) + if allowed && UsesKey(q, key) && q.now > c then [q.now] else []
  {
    PruneTwice(h, q.now - WINDOW_MS, c);
    PruneAppend(Prune(h, q.now - WINDOW_MS), q.now, c);
    assert Prune(h, c) + [] == Prune(h, c);
  }

  lemma HistoryPruned(qs: seq<Request>, key: BucketKey, c: int)
    requires qs != []
    ensures var before, q := qs[..|qs| - 1], qs[|qs| - 1];
      Prune(History(qs, key), c) == Prune(History(before, key), c)
        + if Decide(before, q).allowed && UsesKey(q, key) && q.now > c then [q.now] else []
  {
    var h := History(qs[..|qs| - 1], key);
    PruneAppend(h, qs[|qs| - 1].now, c);
    assert h + [] == h && Prune(h, c) + [] == Prune(h, c);
  }

  /** From the last clock reading on, a bucket and the full history show the same window. */
  lemma {:induction false} BucketIsHistory(qs: seq<Request>, key: BucketKey, c: int)
    requires NonDecreasing(qs) && (qs != [] ==> qs[|qs| - 1].now - WINDOW_MS <= c)
    ensures Prune(Recorded(Run(qs), key), c) == Prune(History(qs, key), c)
  {
    if qs != [] {
      var before, q := qs[..|qs| - 1], qs[|qs| - 1];
      BucketIsHistory(before, key, c);
      BucketStep(Run(before), q, key);
      NextBucketPruned(Recorded(Run(before), key), q, key, Decide(before, q).allowed, c);
      HistoryPruned(qs, key, c);
    }
  }

  /** The allowed requests under `key` in the minute before `now`, counted over the whole history. */
  function InLastMinute(qs: seq<Request>, key: BucketKey, now: int): seq<int> {
    Prune(History(qs, key), now - WINDOW_MS)
  }

  /** The decision on `q` by counting the full history. */
  function DecideByHistory(qs: seq<Request>, q: Request): Decision {
    DecideOn(
      q, InLastMinute(qs, ShopperKey(q.tenantId, q.shopperId), q.now), InLastMinute(qs, TenantKey(q.tenantId), q.now))
  }

  /**
   The limiter refines the one that never forgets: it allows a request exactly when both caps are
   positive and fewer than cap requests were allowed in the last minute, and its retry hint is that of
   the full history. Pruning, on allow or on deny, loses no hit that a later check needs.
   */
  lemma RefinesFullHistory(qs: seq<Request>, q: Request)
    requires NonDecreasing(qs + [q])
    ensures Decide(qs, q) == DecideByHistory(qs, q)
  {
    PrefixNonDecreasing(qs, q);
    WindowIsHistory(qs, ShopperKey(q.tenantId, q.shopperId), q.now);
    WindowIsHistory(qs, TenantKey(q.tenantId), q.now);
  }

  lemma WindowIsHistory(qs: seq<Request>, key: BucketKey, now: int)
    requires NonDecreasing(qs) && (qs != [] ==> qs[|qs| - 1].now <= now)
    ensures Prune(Recorded(Run(qs), key), now - WINDOW_MS) == InLastMinute(qs, key, now)
  {
    BucketIsHistory(qs, key, now - WINDOW_MS);
  }

  lemma PrefixNonDecreasing(qs: seq<Request>, q: Request)
    requires NonDecreasing(qs + [q])
    ensures NonDecreasing(qs) && (qs != [] ==> qs[|qs| - 1].now <= q.now)
  {
    assert (qs + [q])[..|qs|] == qs;
  }

  lemma {:induction false} AllBefore(qs: seq<Request>, now: int)
    requires NonDecreasing(qs) && (qs != [] ==> qs[|qs| - 1].now <= now)
    ensures forall i | 0 <= i < |qs| :: qs[i].now <= now
  {
    if |qs| > 1 {
      var before := qs[..|qs| - 1];
      AllBefore(before, now);
      assert forall i | 0 <= i < |before| :: before[i] == qs[i];
    }
  }

  // ----- The cap holds in every window of every run -----

  /** Whose requests are counted: a whole tenant's, or those of one of its shoppers. */
  datatype Subject = Tenant(tenantId: string) | Shopper(tenantId: string, shopperId: string)

  predicate IsOf(q: Request, who: Subject) {
    q.tenantId == who.tenantId && (who.Shopper? ==> q.shopperId == who.shopperId)
  }

  function CapOf(q: Request, who: Subject): int {
    if who.Tenant? then q.perTenantPerMinute else q.perShopperPerMinute
  }

  function KeyOf(who: Subject): BucketKey {
    if who.Tenant? then TenantKey(who.tenantId) else ShopperKey(who.tenantId, who.shopperId)
  }

  /** When the subject's own requests were allowed. */
  function AllowedTimes(qs: seq<Request>, who: Subject): seq<int> {
    if qs == [] then []
    else
      var before, q := qs[..|qs| - 1], qs[|qs| - 1];
      AllowedTimes(before, who) + if Decide(before, q).allowed && IsOf(q, who) then [q.now] else []
  }

  /** The times in the half-open window after `lo` up to and including `lo + WINDOW_MS`. */
  function InWindow(times: seq<int>, lo: int): seq<int> {
    if times == [] then []
    else (if lo < times[0] <= lo + WINDOW_MS then [times[0]] else []) + InWindow(times[1..], lo)
  }

  /** The cap carried by the subject's last request that was allowed inside the window. */
  function LastCap(qs: seq<Request>, who: Subject, lo: int): int {
    if qs == [] then 0
    else
      var before, q := qs[..|qs| - 1], qs[|qs| - 1];
      if Decide(before, q).allowed && IsOf(q, who) && lo < q.now <= lo + WINDOW_MS then CapOf(q, who)
      else LastCap(before, who, lo)
  }

  lemma {:induction false} InWindowAppend(h: seq<int>, t: int, lo: int)
    ensures InWindow(h + [t], lo) == InWindow(h, lo) + if lo < t <= lo + WINDOW_MS then [t] else []
  {
    var s := h + [t];
    if h == [] {
      assert s[1..] == [];
    } else {
      InWindowAppend(h[1..], t, lo);
      assert s[0] == h[0] && s[1..] == h[1..] + [t];
      Collections.Associative(if lo < h[0] <= lo + WINDOW_MS then [h[0]] else [], InWindow(h[1..], lo),
        if lo < t <= lo + WINDOW_MS then [t] else []);
    }
  }

  lemma {:induction false} InWindowBound(h: seq<int>, lo: int)
    ensures |InWindow(h, lo)| <= |Prune(h, lo)|
  {
    if h != [] {
      InWindowBound(h[1..], lo);
    }
  }

  /** A subject's own requests are among those recorded under its key. */
  lemma {:induction false} OwnTimesBound(qs: seq<Request>, who: Subject, c: int)
    ensures |Prune(AllowedTimes(qs, who), c)| <= |Prune(History(qs, KeyOf(who)), c)|
  {
    if qs != [] {
      var before, q := qs[..|qs| - 1], qs[|qs| - 1];
      OwnTimesBound(before, who, c);
      PruneAppend(AllowedTimes(before, who), q.now, c);
      PruneAppend(History(before, KeyOf(who)), q.now, c);
      assert AllowedTimes(before, who) + [] == AllowedTimes(before, who);
      assert History(before, KeyOf(who)) + [] == History(before, KeyOf(who));
    }
  }

  /**
   In every one-minute window of every run, a tenant's allowed requests number at most the tenant cap
   carried by the last of them, and a shopper's at most the shopper cap.
   */
  lemma {:induction false} WindowCap(qs: seq<Request>, who: Subject, lo: int)
    requires NonDecreasing(qs)
    ensures |InWindow(AllowedTimes(qs, who), lo)| <= LastCap(qs, who, lo)
  {
    if qs != [] {
      var before, q := qs[..|qs| - 1], qs[|qs| - 1];
      assert qs == before + [q];
      PrefixNonDecreasing(before, q);
      WindowCap(before, who, lo);
      var times := AllowedTimes(before, who);
      InWindowAppend(times, q.now, lo);
      assert times + [] == times;
      if Decide(before, q).allowed && IsOf(q, who) && lo < q.now <= lo + WINDOW_MS {
        RoomBeforeAllowed(before, q, who, lo);
      }
    }
  }

  /** A request that is allowed finds fewer than cap earlier ones in a window it falls into. */
  lemma RoomBeforeAllowed(qs: seq<Request>, q: Request, who: Subject, lo: int)
    requires NonDecreasing(qs + [q]) && Decide(qs, q).allowed && IsOf(q, who) && q.now <= lo + WINDOW_MS
    ensures |InWindow(AllowedTimes(qs, who), lo)| < CapOf(q, who)
  {
    InWindowBound(AllowedTimes(qs, who), lo);
    OwnTimesBound(qs, who, lo);
    PruneMonotone(History(qs, KeyOf(who)), q.now - WINDOW_MS, lo);
    UnderHistoryCap(qs, q);
  }

  lemma UnderHistoryCap(qs: seq<Request>, q: Request)
    requires NonDecreasing(qs + [q]) && Decide(qs, q).allowed
    ensures |InLastMinute(qs, ShopperKey(q.tenantId, q.shopperId), q.now)| < q.perShopperPerMinute
    ensures |InLastMinute(qs, TenantKey(q.tenantId), q.now)| < q.perTenantPerMinute
  {
    RefinesFullHistory(qs, q);
    UnderCap(
      q, InLastMinute(qs, ShopperKey(q.tenantId, q.shopperId), q.now), InLastMinute(qs, TenantKey(q.tenantId), q.now));
  }

  lemma UnderCap(q: Request, shopperHits: seq<int>, tenantHits: seq<int>)
    requires DecideOn(q, shopperHits, tenantHits).allowed
    ensures |shopperHits| < q.perShopperPerMinute && |tenantHits| < q.perTenantPerMinute
  {
  }

  // ----- The retry hint is exact -----

  /** Every request brings the positive caps that `caps` gives its two buckets, so caps never change. */
  ghost predicate FixedCaps(qs: seq<Request>, caps: BucketKey -> nat) {
    forall i | 0 <= i < |qs| :: CarriesCaps(qs[i], caps)
  }

  ghost predicate CarriesCaps(q: Request, caps: BucketKey -> nat) {
    && q.perShopperPerMinute == caps(ShopperKey(q.tenantId, q.shopperId)) > 0
    && q.perTenantPerMinute == caps(TenantKey(q.tenantId)) > 0
  }

  lemma {:induction false} BucketWithinCap(qs: seq<Request>, key: BucketKey, caps: BucketKey -> nat)
    requires FixedCaps(qs, caps)
    ensures |Recorded(Run(qs), key)| <= caps(key)
  {
    if qs != [] {
      var before, q := qs[..|qs| - 1], qs[|qs| - 1];
      assert forall i | 0 <= i < |before| :: before[i] == qs[i];
      BucketWithinCap(before, key, caps);
      BucketStep(Run(before), q, key);
      PruneBounds(Recorded(Run(before), key), q.now - WINDOW_MS);
    }
  }

  lemma {:induction false} OldestIsLeast(h: seq<int>)
    requires h != []
    ensures Oldest(h) in h && forall t | t in h :: Oldest(h) <= t
  {
    if |h| > 1 {
      OldestIsLeast(h[1..]);
      assert forall t :: t in h <==> t == h[0] || t in h[1..];
    }
  }

  lemma {:induction false} PruneKeepsAll(h: seq<int>, c: int)
    requires forall i | 0 <= i < |h| :: h[i] > c
    ensures Prune(h, c) == h
  {
    if h != [] {
      PruneKeepsAll(h[1..], c);
      assert h == [h[0]] + h[1..];
    }
  }

  /** None of the requests `more`, made after `qs`, is allowed. */
  ghost predicate NoneAllowed(qs: seq<Request>, more: seq<Request>) {
    more == []
    || (NoneAllowed(qs, more[..|more| - 1]) && !Decide(qs + more[..|more| - 1], more[|more| - 1]).allowed)
  }

  lemma {:induction false} HistoryUnchanged(qs: seq<Request>, more: seq<Request>, key: BucketKey)
    requires NoneAllowed(qs, more)
    ensures History(qs + more, key) == History(qs, key)
  {
    if more == [] {
      assert qs + more == qs;
    } else {
      var fewer, last := more[..|more| - 1], more[|more| - 1];
      HistoryUnchanged(qs, fewer, key);
      LastOf(qs, more, fewer, last);
      HistoryDenied(qs + fewer, last, key);
    }
  }

  lemma LastOf(qs: seq<Request>, more: seq<Request>, fewer: seq<Request>, last: Request)
    requires more != [] && fewer == more[..|more| - 1] && last == more[|more| - 1]
    ensures qs + more == (qs + fewer) + [last]
  {
  }

  lemma HistoryDenied(qs: seq<Request>, q: Request, key: BucketKey)
    requires !Decide(qs, q).allowed
    ensures History(qs + [q], key) == History(qs, key)
  {
    HistoryStep(qs, q, key);
  }

  /** Every hit of the last minute is a clock reading of the run. */
  lemma {:induction false} HistoryTimes(qs: seq<Request>, key: BucketKey, now: int)
    requires forall i | 0 <= i < |qs| :: qs[i].now <= now
    ensures forall t | t in History(qs, key) :: t <= now
  {
    if qs != [] {
      var before := qs[..|qs| - 1];
      assert forall i | 0 <= i < |before| :: before[i] == qs[i];
      HistoryTimes(before, key, now);
    }
  }

  /** The hint is between one millisecond and the window, and its floor of 1 never decides. */
  lemma RetryHintRange(qs: seq<Request>, q: Request)
    requires NonDecreasing(qs + [q]) && q.perShopperPerMinute > 0 && q.perTenantPerMinute > 0
    requires !Decide(qs, q).allowed
    ensures 1 <= Decide(qs, q).retryAfterMs <= WINDOW_MS
    ensures exists key :: (key == ShopperKey(q.tenantId, q.shopperId) || key == TenantKey(q.tenantId))
              && InLastMinute(qs, key, q.now) != []
              && Decide(qs, q).retryAfterMs == Oldest(InLastMinute(qs, key, q.now)) + WINDOW_MS - q.now
  {
    RefinesFullHistory(qs, q);
    WaitRange(qs, q, ShopperKey(q.tenantId, q.shopperId));
    WaitRange(qs, q, TenantKey(q.tenantId));
    WaitOfAFull(
      q, InLastMinute(qs, ShopperKey(q.tenantId, q.shopperId), q.now), InLastMinute(qs, TenantKey(q.tenantId), q.now));
  }

  lemma WaitOfAFull(q: Request, s: seq<int>, t: seq<int>)
    requires q.perShopperPerMinute > 0 && q.perTenantPerMinute > 0 && !DecideOn(q, s, t).allowed
    requires s != [] ==> 1 <= Oldest(s) + WINDOW_MS - q.now <= WINDOW_MS
    requires t != [] ==> 1 <= Oldest(t) + WINDOW_MS - q.now <= WINDOW_MS
    ensures var ms := DecideOn(q, s, t).retryAfterMs;
      && 1 <= ms <= WINDOW_MS
      && ((s != [] && ms == Oldest(s) + WINDOW_MS - q.now) || (t != [] && ms == Oldest(t) + WINDOW_MS - q.now))
  {
  }

  lemma WaitRange(qs: seq<Request>, q: Request, key: BucketKey)
    requires NonDecreasing(qs + [q])
    ensures var h := InLastMinute(qs, key, q.now); h != [] ==> 1 <= Oldest(h) + WINDOW_MS - q.now <= WINDOW_MS
  {
    MinuteBefore(qs, q, key);
    if InLastMinute(qs, key, q.now) != [] {
      OldestIsLeast(InLastMinute(qs, key, q.now));
    }
  }

  /** The decision on a denied `q` if it comes again at `later` and nothing was allowed meanwhile. */
  function AllowedAt(q: Request, s: seq<int>, t: seq<int>, later: int): bool {
    DecideOn(q.(now := later), Prune(s, later - WINDOW_MS), Prune(t, later - WINDOW_MS)).allowed
  }

  /** The moment the hint points to, given the last-minute hits of the two buckets. */
  function HintedMoment(q: Request, s: seq<int>, t: seq<int>): int {
    q.now + DecideOn(q, s, t).retryAfterMs
  }

  /** In both buckets, fewer than cap of the last-minute hits are still in the window at the hinted moment. */
  predicate RoomAtHint(q: Request, s: seq<int>, t: seq<int>) {
    && q.perShopperPerMinute > 0 && q.perTenantPerMinute > 0
    && |Prune(s, HintedMoment(q, s, t) - WINDOW_MS)| < q.perShopperPerMinute
    && |Prune(t, HintedMoment(q, s, t) - WINDOW_MS)| < q.perTenantPerMinute
  }

  ghost predicate InMinuteBefore(hits: seq<int>, now: int) {
    forall x | x in hits :: now - WINDOW_MS < x <= now
  }

  lemma StillFull(hits: seq<int>, cap: int, later: int)
    requires |hits| >= cap && cap > 0 && later < Oldest(hits) + WINDOW_MS
    ensures |Prune(hits, later - WINDOW_MS)| >= cap
  {
    OldestIsLeast(hits);
    forall i | 0 <= i < |hits| ensures hits[i] > later - WINDOW_MS {
      assert hits[i] in hits;
    }
    PruneKeepsAll(hits, later - WINDOW_MS);
  }

  /** A denial under positive caps points to the latest moment at which a full bucket's oldest hit leaves. */
  lemma HintIsAWait(q: Request, s: seq<int>, t: seq<int>)
    requires !DecideOn(q, s, t).allowed && q.perShopperPerMinute > 0 && q.perTenantPerMinute > 0
    requires InMinuteBefore(s, q.now) && InMinuteBefore(t, q.now)
    ensures |s| >= q.perShopperPerMinute ==> HintedMoment(q, s, t) >= Oldest(s) + WINDOW_MS
    ensures |t| >= q.perTenantPerMinute ==> HintedMoment(q, s, t) >= Oldest(t) + WINDOW_MS
    ensures (|s| >= q.perShopperPerMinute && HintedMoment(q, s, t) == Oldest(s) + WINDOW_MS)
         || (|t| >= q.perTenantPerMinute && HintedMoment(q, s, t) == Oldest(t) + WINDOW_MS)
  {
    if s != [] {
      OldestIsLeast(s);
    }
    if t != [] {
      OldestIsLeast(t);
    }
  }

  lemma DeniedBeforeHint(q: Request, s: seq<int>, t: seq<int>, later: int)
    requires !DecideOn(q, s, t).allowed && InMinuteBefore(s, q.now) && InMinuteBefore(t, q.now)
    requires later < HintedMoment(q, s, t)
    ensures !AllowedAt(q, s, t, later)
  {
    if q.perShopperPerMinute > 0 && q.perTenantPerMinute > 0 {
      HintIsAWait(q, s, t);
      if |s| >= q.perShopperPerMinute && HintedMoment(q, s, t) == Oldest(s) + WINDOW_MS {
        StillFull(s, q.perShopperPerMinute, later);
      } else {
        StillFull(t, q.perTenantPerMinute, later);
      }
    }
  }

  lemma AllowedFromHint(q: Request, s: seq<int>, t: seq<int>, later: int)
    requires later >= HintedMoment(q, s, t) && RoomAtHint(q, s, t)
    ensures AllowedAt(q, s, t, later)
  {
    PruneMonotone(s, HintedMoment(q, s, t) - WINDOW_MS, later - WINDOW_MS);
    PruneMonotone(t, HintedMoment(q, s, t) - WINDOW_MS, later - WINDOW_MS);
  }

  /** A bucket within its cap has room when its oldest hit leaves, or had it before. */
  lemma RoomWithinCap(hits: seq<int>, cap: int, c: int)
    requires |hits| <= cap && cap > 0 && (|hits| == cap ==> c >= Oldest(hits))
    ensures |Prune(hits, c)| < cap
  {
    PruneBounds(hits, c);
    if |hits| == cap {
      OldestIsLeast(hits);
    }
  }

  /** Buckets that are not over their caps always have room at the hinted moment. */
  lemma WithinCapsHasRoom(q: Request, s: seq<int>, t: seq<int>)
    requires !DecideOn(q, s, t).allowed && q.perShopperPerMinute > 0 && q.perTenantPerMinute > 0
    requires InMinuteBefore(s, q.now) && InMinuteBefore(t, q.now)
    requires |s| <= q.perShopperPerMinute && |t| <= q.perTenantPerMinute
    ensures RoomAtHint(q, s, t)
  {
    HintIsAWait(q, s, t);
    RoomWithinCap(s, q.perShopperPerMinute, HintedMoment(q, s, t) - WINDOW_MS);
    RoomWithinCap(t, q.perTenantPerMinute, HintedMoment(q, s, t) - WINDOW_MS);
  }

  /** Where a single bucket is full, there is room exactly when fewer than cap of its hits are later than its oldest. */
  lemma OneFullBucket(q: Request, s: seq<int>, t: seq<int>)
    requires q.perShopperPerMinute > 0 && q.perTenantPerMinute > 0
    requires InMinuteBefore(s, q.now) && InMinuteBefore(t, q.now)
    ensures |s| >= q.perShopperPerMinute && |t| < q.perTenantPerMinute
        ==> (RoomAtHint(q, s, t) <==> |Prune(s, Oldest(s))| < q.perShopperPerMinute)
    ensures |t| >= q.perTenantPerMinute && |s| < q.perShopperPerMinute
        ==> (RoomAtHint(q, s, t) <==> |Prune(t, Oldest(t))| < q.perTenantPerMinute)
  {
    if !DecideOn(q, s, t).allowed {
      HintIsAWait(q, s, t);
      PruneShorter(s, HintedMoment(q, s, t) - WINDOW_MS);
      PruneShorter(t, HintedMoment(q, s, t) - WINDOW_MS);
    }
  }

  lemma {:induction false} PruneShorter(h: seq<int>, c: int)
    ensures |Prune(h, c)| <= |h|
  {
    if h != [] {
      PruneShorter(h[1..], c);
    }
  }

  // ----- The hint over runs -----

  /** The last-minute hits of the shopper and of the tenant, counted over the whole history. */
  function ShopperMinute(qs: seq<Request>, q: Request): seq<int> {
    InLastMinute(qs, ShopperKey(q.tenantId, q.shopperId), q.now)
  }

  function TenantMinute(qs: seq<Request>, q: Request): seq<int> {
    InLastMinute(qs, TenantKey(q.tenantId), q.now)
  }

  ghost predicate HasRoomAtHint(qs: seq<Request>, q: Request) {
    RoomAtHint(q, ShopperMinute(qs, q), TenantMinute(qs, q))
  }

  lemma MinuteBefore(qs: seq<Request>, q: Request, key: BucketKey)
    requires NonDecreasing(qs + [q])
    ensures InMinuteBefore(InLastMinute(qs, key, q.now), q.now)
  {
    PrefixNonDecreasing(qs, q);
    AllBefore(qs, q.now);
    HistoryTimes(qs, key, q.now);
    PruneBounds(History(qs, key), q.now - WINDOW_MS);
  }

  /** `q` comes again at `later`, after requests `more` of which none was allowed. */
  ghost predicate ComesAgain(qs: seq<Request>, q: Request, more: seq<Request>, later: int) {
    q.now <= later && NoneAllowed(qs, more) && NonDecreasing(qs + more + [q.(now := later)])
  }

  lemma DecisionAgain(qs: seq<Request>, q: Request, more: seq<Request>, later: int)
    requires ComesAgain(qs, q, more, later)
    ensures Decide(qs + more, q.(now := later)).allowed
         == AllowedAt(q, ShopperMinute(qs, q), TenantMinute(qs, q), later)
  {
    DecisionAfterDenials(qs, q, more, later);
    PrunedLater(qs, ShopperKey(q.tenantId, q.shopperId), q.now, later);
    PrunedLater(qs, TenantKey(q.tenantId), q.now, later);
  }

  lemma PrunedLater(qs: seq<Request>, key: BucketKey, now: int, later: int)
    requires now <= later
    ensures Prune(History(qs, key), later - WINDOW_MS) == Prune(InLastMinute(qs, key, now), later - WINDOW_MS)
  {
    PruneTwice(History(qs, key), now - WINDOW_MS, later - WINDOW_MS);
  }

  /**
   What the hint of a denial is worth, whatever the caps were before: the request is denied at every time
   before it; at the hinted moment itself it is allowed exactly when both buckets have room then; and in
   that case it is allowed ever after. Nothing is assumed but that no request was allowed meanwhile.
   */
  lemma RetryHintWorth(qs: seq<Request>, q: Request, more: seq<Request>, later: int)
    requires NonDecreasing(qs + [q]) && !Decide(qs, q).allowed && ComesAgain(qs, q, more, later)
    ensures var moment := q.now + Decide(qs, q).retryAfterMs;
      && (later < moment ==> !Decide(qs + more, q.(now := later)).allowed)
      && (later == moment ==> (Decide(qs + more, q.(now := later)).allowed <==> HasRoomAtHint(qs, q)))
      && (later >= moment && HasRoomAtHint(qs, q) ==> Decide(qs + more, q.(now := later)).allowed)
  {
    var s, t := ShopperMinute(qs, q), TenantMinute(qs, q);
    RefinesFullHistory(qs, q);
    MinuteBefore(qs, q, ShopperKey(q.tenantId, q.shopperId));
    MinuteBefore(qs, q, TenantKey(q.tenantId));
    DecisionAgain(qs, q, more, later);
    HintWorth(q, s, t, later);
  }

  lemma HintWorth(q: Request, s: seq<int>, t: seq<int>, later: int)
    requires !DecideOn(q, s, t).allowed && InMinuteBefore(s, q.now) && InMinuteBefore(t, q.now)
    ensures later < HintedMoment(q, s, t) ==> !AllowedAt(q, s, t, later)
    ensures later == HintedMoment(q, s, t) ==> (AllowedAt(q, s, t, later) <==> RoomAtHint(q, s, t))
    ensures later >= HintedMoment(q, s, t) && RoomAtHint(q, s, t) ==> AllowedAt(q, s, t, later)
  {
    if later < HintedMoment(q, s, t) {
      DeniedBeforeHint(q, s, t, later);
    } else if RoomAtHint(q, s, t) {
      AllowedFromHint(q, s, t, later);
    }
  }

  /** The promise of the hint: the request is allowed at exactly the times from the hinted moment on. */
  ghost predicate HintKept(qs: seq<Request>, q: Request) {
    forall more, later | ComesAgain(qs, q, more, later) ::
      Decide(qs + more, q.(now := later)).allowed <==> later >= q.now + Decide(qs, q).retryAfterMs
  }

  /** The promise is kept exactly when both buckets have room at the hinted moment. */
  lemma HintKeptIff(qs: seq<Request>, q: Request)
    requires NonDecreasing(qs + [q]) && !Decide(qs, q).allowed
    ensures HintKept(qs, q) <==> HasRoomAtHint(qs, q)
  {
    if HasRoomAtHint(qs, q) {
      forall more, later | ComesAgain(qs, q, more, later)
        ensures Decide(qs + more, q.(now := later)).allowed <==> later >= q.now + Decide(qs, q).retryAfterMs
      {
        RetryHintWorth(qs, q, more, later);
      }
    } else {
      HintBroken(qs, q);
    }
  }

  lemma HintBroken(qs: seq<Request>, q: Request)
    requires NonDecreasing(qs + [q]) && !Decide(qs, q).allowed && !HasRoomAtHint(qs, q)
    ensures !HintKept(qs, q)
  {
    var moment := q.now + Decide(qs, q).retryAfterMs;
    HintIsPositive(qs, q);
    assert qs + [] == qs;
    LaterStillNonDecreasing(qs, q, q.(now := moment));
    assert ComesAgain(qs, q, [], moment);
    RetryHintWorth(qs, q, [], moment);
  }

  lemma HintIsPositive(qs: seq<Request>, q: Request)
    requires !Decide(qs, q).allowed
    ensures Decide(qs, q).retryAfterMs >= 1
  {
  }

  /**
   Under caps that never change the promise is always kept: `q`, denied after the run `qs`, is allowed at
   exactly the times from the hinted moment on.
   */
  lemma RetryHintExact(qs: seq<Request>, q: Request, more: seq<Request>, later: int, caps: BucketKey -> nat)
    requires NonDecreasing(qs + [q]) && FixedCaps(qs, caps) && CarriesCaps(q, caps) && !Decide(qs, q).allowed
    requires ComesAgain(qs, q, more, later)
    ensures Decide(qs + more, q.(now := later)).allowed <==> later >= q.now + Decide(qs, q).retryAfterMs
  {
    FixedCapsHaveRoom(qs, q, caps);
    RetryHintWorth(qs, q, more, later);
  }

  lemma FixedCapsHaveRoom(qs: seq<Request>, q: Request, caps: BucketKey -> nat)
    requires NonDecreasing(qs + [q]) && FixedCaps(qs, caps) && CarriesCaps(q, caps) && !Decide(qs, q).allowed
    ensures HasRoomAtHint(qs, q)
  {
    LastMinuteWithinCap(qs, q, ShopperKey(q.tenantId, q.shopperId), caps);
    LastMinuteWithinCap(qs, q, TenantKey(q.tenantId), caps);
    RefinesFullHistory(qs, q);
    MinuteBefore(qs, q, ShopperKey(q.tenantId, q.shopperId));
    MinuteBefore(qs, q, TenantKey(q.tenantId));
    WithinCapsHasRoom(q, ShopperMinute(qs, q), TenantMinute(qs, q));
  }

  lemma DecisionAfterDenials(qs: seq<Request>, q: Request, more: seq<Request>, later: int)
    requires NoneAllowed(qs, more) && NonDecreasing(qs + more + [q.(now := later)])
    ensures Decide(qs + more, q.(now := later))
         == DecideOn(q.(now := later),
              Prune(History(qs, ShopperKey(q.tenantId, q.shopperId)), later - WINDOW_MS),
              Prune(History(qs, TenantKey(q.tenantId)), later - WINDOW_MS))
  {
    RefinesFullHistory(qs + more, q.(now := later));
    HistoryUnchanged(qs, more, ShopperKey(q.tenantId, q.shopperId));
    HistoryUnchanged(qs, more, TenantKey(q.tenantId));
  }

  lemma LastMinuteWithinCap(qs: seq<Request>, q: Request, key: BucketKey, caps: BucketKey -> nat)
    requires NonDecreasing(qs + [q]) && FixedCaps(qs, caps)
    ensures |InLastMinute(qs, key, q.now)| <= caps(key)
  {
    BucketWithinCap(qs, key, caps);
    PrefixNonDecreasing(qs, q);
    WindowIsHistory(qs, key, q.now);
    PruneBounds(Recorded(Run(qs), key), q.now - WINDOW_MS);
  }

  /** Why the caps must not change: after a cap is lowered, waiting out the hint need not be enough. */
  lemma LoweredCapOutlastsHint(b: Buckets)
    requires Recorded(b, ShopperKey("t", "s")) == [0, 30_000] && Recorded(b, TenantKey("t")) == [0, 30_000]
    ensures var q := Request(40_000, "t", "s", 1, 9);
      Check(b, q).1 == Decision(false, 20_000) && !Check(Check(b, q).0, q.(now := 60_000)).1.allowed
  {
    var q := Request(40_000, "t", "s", 1, 9);
    var sk := ShopperKey("t", "s");
    assert Prune([30_000], -20_000) == [30_000] == Prune([30_000], 0);
    assert Prune([0, 30_000], -20_000) == [0, 30_000] && Prune([0, 30_000], 0) == [30_000];
    assert Oldest([0, 30_000]) == 0;
    BucketStep(b, q, sk);
    assert Recorded(Check(b, q).0, sk) == [0, 30_000];
  }

  /** The buckets of that example are reached by two allowed requests under the higher cap. */
  lemma LoweredCapIsReached()
    ensures var qs := [Request(0, "t", "s", 2, 9), Request(30_000, "t", "s", 2, 9)];
      Recorded(Run(qs), ShopperKey("t", "s")) == [0, 30_000] && Recorded(Run(qs), TenantKey("t")) == [0, 30_000]
  {
    var a, b := Request(0, "t", "s", 2, 9), Request(30_000, "t", "s", 2, 9);
    var sk, tk := ShopperKey("t", "s"), TenantKey("t");
    assert [a, b][..1] == [a] && [a][..0] == [];
    var one := Check(map[], a).0;
    assert Run([a]) == one;
    assert Recorded(one, sk) == [0] && Recorded(one, tk) == [0];
    assert Prune([0], -30_000) == [0];
    assert Run([a, b]) == Check(one, b).0;
  }

  // ----- Tenants do not affect one another -----

  lemma ShopperKeyJoins(tenantId: string, shopperId: string)
    ensures ShopperKey(tenantId, shopperId) == S(Collections.Joined(tenantId, ':', shopperId))
  {
  }

  /** The requests of one tenant, in order. */
  function Only(qs: seq<Request>, tenantId: string): seq<Request> {
    if qs == [] then []
    else Only(qs[..|qs| - 1], tenantId) + if qs[|qs| - 1].tenantId == tenantId then [qs[|qs| - 1]] else []
  }

  /** No request of another tenant uses `key`. */
  ghost predicate OwnKey(qs: seq<Request>, tenantId: string, key: BucketKey) {
    forall i | 0 <= i < |qs| && qs[i].tenantId != tenantId :: !UsesKey(qs[i], key)
  }

  lemma {:induction false} OnlyNonDecreasing(qs: seq<Request>, tenantId: string, q: Request)
    requires NonDecreasing(qs + [q])
    ensures NonDecreasing(Only(qs, tenantId) + [q])
  {
    if qs == [] {
      assert Only(qs, tenantId) + [q] == qs + [q];
    } else {
      var before, p := qs[..|qs| - 1], qs[|qs| - 1];
      PrefixNonDecreasing(qs, q);
      assert qs == before + [p];
      OnlyNonDecreasing(before, tenantId, p);
      var rest := Only(before, tenantId);
      if p.tenantId == tenantId {
        assert (rest + [p] + [q])[..|rest| + 1] == rest + [p];
      } else {
        assert rest + [] == rest;
        LaterStillNonDecreasing(rest, p, q);
      }
    }
  }

  lemma LaterStillNonDecreasing(qs: seq<Request>, p: Request, q: Request)
    requires NonDecreasing(qs + [p]) && p.now <= q.now
    ensures NonDecreasing(qs + [q])
  {
    assert (qs + [p])[..|qs|] == qs == (qs + [q])[..|qs|];
  }

  /** No other tenant's id, followed by a colon, starts this one, nor the other way round. */
  ghost predicate SetApart(qs: seq<Request>, tenantId: string) {
    forall i | 0 <= i < |qs| :: !Collections.Nested(qs[i].tenantId, ':', tenantId)
  }

  lemma KeysAreOwn(qs: seq<Request>, q: Request)
    requires SetApart(qs, q.tenantId)
    ensures OwnKey(qs, q.tenantId, ShopperKey(q.tenantId, q.shopperId))
    ensures OwnKey(qs, q.tenantId, TenantKey(q.tenantId))
  {
    var key := ShopperKey(q.tenantId, q.shopperId);
    forall i | 0 <= i < |qs| && qs[i].tenantId != q.tenantId ensures !UsesKey(qs[i], key) {
      DifferentShopperKeys(qs[i], q);
    }
  }

  lemma DifferentShopperKeys(p: Request, q: Request)
    requires p.tenantId != q.tenantId && !Collections.Nested(p.tenantId, ':', q.tenantId)
    ensures !UsesKey(p, ShopperKey(q.tenantId, q.shopperId))
  {
    ShopperKeyJoins(p.tenantId, p.shopperId);
    ShopperKeyJoins(q.tenantId, q.shopperId);
    if UsesKey(p, ShopperKey(q.tenantId, q.shopperId)) {
      Collections.JoinSeparates(p.tenantId, p.shopperId, q.tenantId, q.shopperId, ':');
    }
  }

  /** A tenant's key records the same times whether or not the other tenants' requests were made. */
  lemma {:induction false} HistoryIsOwn(qs: seq<Request>, tenantId: string, key: BucketKey)
    requires OwnKey(qs, tenantId, key) && SetApart(qs, tenantId) && NonDecreasing(qs)
    ensures History(Only(qs, tenantId), key) == History(qs, key)
    decreases |qs|, 0
  {
    if qs != [] {
      var before, p := qs[..|qs| - 1], qs[|qs| - 1];
      assert qs == before + [p];
      PrefixNonDecreasing(before, p);
      assert forall i | 0 <= i < |before| :: before[i] == qs[i];
      HistoryIsOwn(before, tenantId, key);
      if p.tenantId == tenantId {
        DecisionIsOwn(before, p);
        AfterOwnRequest(before, p, tenantId, key);
      } else {
        OnlyStep(before, p, tenantId);
        HistorySkips(before, p, key);
      }
    }
  }

  /** A request of the tenant itself adds the same time with and without the other tenants' requests. */
  lemma AfterOwnRequest(qs: seq<Request>, p: Request, tenantId: string, key: BucketKey)
    requires p.tenantId == tenantId && Decide(qs, p) == Decide(Only(qs, tenantId), p)
    requires History(Only(qs, tenantId), key) == History(qs, key)
    ensures History(Only(qs + [p], tenantId), key) == History(qs + [p], key)
  {
    OnlyStep(qs, p, tenantId);
    HistoryStep(qs, p, key);
    HistoryStep(Only(qs, tenantId), p, key);
  }

  lemma OnlyStep(qs: seq<Request>, p: Request, tenantId: string)
    ensures Only(qs + [p], tenantId) == if p.tenantId == tenantId then Only(qs, tenantId) + [p] else Only(qs, tenantId)
  {
    assert (qs + [p])[..|qs|] == qs;
  }

  lemma HistoryStep(qs: seq<Request>, p: Request, key: BucketKey)
    ensures History(qs + [p], key)
         == History(qs, key) + if Decide(qs, p).allowed && UsesKey(p, key) then [p.now] else []
  {
    assert (qs + [p])[..|qs|] == qs;
  }

  lemma HistorySkips(qs: seq<Request>, p: Request, key: BucketKey)
    requires !UsesKey(p, key)
    ensures History(qs + [p], key) == History(qs, key)
  {
    HistoryStep(qs, p, key);
  }

  /**
   Isolation: unless another tenant's id and a colon start this tenant's id, or the other way round, the
   decision on a tenant's request is the one it would get if no other tenant had made a request.
   */
  lemma {:induction false} DecisionIsOwn(qs: seq<Request>, q: Request)
    requires NonDecreasing(qs + [q]) && SetApart(qs, q.tenantId)
    ensures Decide(qs, q) == Decide(Only(qs, q.tenantId), q)
    decreases |qs|, 1
  {
    var only := Only(qs, q.tenantId);
    PrefixNonDecreasing(qs, q);
    KeysAreOwn(qs, q);
    HistoryIsOwn(qs, q.tenantId, ShopperKey(q.tenantId, q.shopperId));
    HistoryIsOwn(qs, q.tenantId, TenantKey(q.tenantId));
    RefinesFullHistory(qs, q);
    OnlyNonDecreasing(qs, q.tenantId, q);
    RefinesFullHistory(only, q);
  }

  /** Requests of `other` can change a decision on a request of `tenantId`. */
  ghost predicate Interferes(other: string, tenantId: string) {
    exists qs: seq<Request>, q: Request :: InterferesIn(qs, q, other, tenantId)
  }

  ghost predicate InterferesIn(qs: seq<Request>, q: Request, other: string, tenantId: string) {
    && NonDecreasing(qs + [q]) && q.tenantId == tenantId
    && (forall i | 0 <= i < |qs| :: qs[i].tenantId == other || qs[i].tenantId == tenantId)
    && Decide(qs, q) != Decide(Only(qs, tenantId), q)
  }

  /**
   Two tenants are independent of each other exactly when neither id, followed by a colon, starts the
   other: else a request of the one can use up the other's bucket.
   */
  lemma InterferesIffNested(other: string, tenantId: string)
    requires other != tenantId
    ensures Interferes(other, tenantId) <==> Collections.Nested(other, ':', tenantId)
  {
    if Interferes(other, tenantId) && !Collections.Nested(other, ':', tenantId) {
      var qs: seq<Request>, q: Request :| InterferesIn(qs, q, other, tenantId);
      DecisionIsOwn(qs, q);
    }
    if Collections.Nested(other, ':', tenantId) {
      SharedBucket(other, tenantId);
    }
  }

  /** One request of `other` fills a bucket that a request of `tenantId` then finds full. */
  lemma SharedBucket(other: string, tenantId: string)
    requires Collections.Nested(other, ':', tenantId)
    ensures Interferes(other, tenantId)
  {
    var x, y := Collections.JoinMeets(other, tenantId, ':', "s");
    var p, q := Request(0, other, x, 1, 1), Request(0, tenantId, y, 1, 1);
    ShopperKeyJoins(other, x);
    ShopperKeyJoins(tenantId, y);
    DeniedAfter(p, q);
    AllowedAlone(q);
    assert [p][..0] == [];
    assert Only([p], tenantId) == [];
    assert InterferesIn([p], q, other, tenantId);
  }

  lemma AllowedAlone(q: Request)
    requires q.perShopperPerMinute == 1 && q.perTenantPerMinute == 1
    ensures Decide([], q).allowed
  {
  }

  lemma DeniedAfter(p: Request, q: Request)
    requires p.now == q.now == 0 && ShopperKey(p.tenantId, p.shopperId) == ShopperKey(q.tenantId, q.shopperId)
    requires p.perShopperPerMinute == 1 && p.perTenantPerMinute == 1
    requires q.perShopperPerMinute == 1 && q.perTenantPerMinute == 1
    ensures !Decide([p], q).allowed
  {
    var key := ShopperKey(q.tenantId, q.shopperId);
    assert [p][..0] == [];
    assert Run([p]) == Check(map[], p).0;
    assert Recorded(Run([p]), key) == [0];
    assert Prune([0], -60_000) == [0];
  }

  /** For instance, these two (tenant, shopper) pairs fill one bucket. */
  lemma ColonsShareBuckets()
    ensures ShopperKey("a", "b:c") == ShopperKey("a:b", "c")
    ensures var p, q := Request(0, "a", "b:c", 1, 1), Request(0, "a:b", "c", 1, 1);
      !Decide([p], q).allowed && Decide(Only([p], "a:b"), q).allowed
  {
    var p, q := Request(0, "a", "b:c", 1, 1), Request(0, "a:b", "c", 1, 1);
    assert "a" + ":" + "b:c" == "a:b" + ":" + "c";
    assert [p][..0] == [];
    assert Run([p]) == Check(map[], p).0;
    assert Recorded(Run([p]), ShopperKey("a:b", "c")) == [0];
    assert Prune([0], -60_000) == [0];
    assert Only([p], "a:b") == [];
  }

  // ----- The decision, by counting -----

  /** How many requests that use `key` were allowed after the time `since`. */
  ghost function AllowedSince(qs: seq<Request>, key: BucketKey, since: int): nat {
    if qs == [] then 0
    else
      var before, q := qs[..|qs| - 1], qs[|qs| - 1];
      AllowedSince(before, key, since) + if Decide(before, q).allowed && UsesKey(q, key) && q.now > since then 1 else 0
  }

  lemma {:induction false} PrunedCounts(qs: seq<Request>, key: BucketKey, since: int)
    ensures |Prune(History(qs, key), since)| == AllowedSince(qs, key, since)
  {
    if qs != [] {
      PrunedCounts(qs[..|qs| - 1], key, since);
      HistoryPruned(qs, key, since);
    }
  }

  /**
   A request is allowed exactly when both caps are positive and, in the 60 000 ms before it, fewer than cap
   requests of its shopper and of its tenant were allowed; an allowed one is told to wait 0, and one under a
   cap that is not positive to wait a minute.
   */
  lemma AllowedIff(qs: seq<Request>, q: Request)
    requires NonDecreasing(qs + [q])
    ensures Decide(qs, q).allowed
       <==> && 0 < q.perShopperPerMinute && 0 < q.perTenantPerMinute
            && AllowedSince(qs, ShopperKey(q.tenantId, q.shopperId), q.now - 60_000) < q.perShopperPerMinute
            && AllowedSince(qs, TenantKey(q.tenantId), q.now - 60_000) < q.perTenantPerMinute
    ensures Decide(qs, q).allowed ==> Decide(qs, q).retryAfterMs == 0
    ensures q.perShopperPerMinute <= 0 || q.perTenantPerMinute <= 0 ==> Decide(qs, q) == Decision(false, 60_000)
  {
    RefinesFullHistory(qs, q);
    PrunedCounts(qs, ShopperKey(q.tenantId, q.shopperId), q.now - 60_000);
    PrunedCounts(qs, TenantKey(q.tenantId), q.now - 60_000);
  }
}
