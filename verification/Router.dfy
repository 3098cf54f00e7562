/**
 packages/engine/src/router_ordering.ts and router.ts: the ordered list of candidate providers, and
 the fall-through loop over it. What a provider does with a request, given the timeout it is granted,
 is a parameter; costs are exact.
 */
module Router {
  import opened Results
  import opened JsStrings
  import Sorting

  type ProviderId = JsString

  datatype ProviderRouting = ProviderRouting(priority: int, costPerCallUsd: real, timeoutMs: Option<int>)

  datatype Candidate = Candidate(id: ProviderId, meta: ProviderRouting)

  datatype ProviderConfig =
    ProviderConfig(id: ProviderId, enabled: bool, priority: int, costPerCallUsd: real, timeoutMs: int)

  // ----- Ordering -----

  /** The comparator: a negative number when `a` goes first. */
  function CompareCandidates(a: Candidate, b: Candidate): real {
    if a.meta.costPerCallUsd != b.meta.costPerCallUsd then a.meta.costPerCallUsd - b.meta.costPerCallUsd
    else if a.meta.priority != b.meta.priority then (a.meta.priority - b.meta.priority) as real
    else if Less(a.id, b.id) then -1.0
    else if Less(b.id, a.id) then 1.0
    else 0.0
  }

  predicate Before(a: Candidate, b: Candidate) {
    CompareCandidates(a, b) < 0.0
  }

  /** The eligible providers in the order of their first mention. */
  function Eligible(
      allowed: seq<ProviderId>, routing: map<ProviderId, ProviderRouting>,
      registry: set<ProviderId>): seq<Candidate> {
    if allowed == [] then []
    else
      var earlier, id := allowed[..|allowed| - 1], allowed[|allowed| - 1];
      Eligible(earlier, routing, registry)
      + if id !in earlier && id in routing && id in registry then [Candidate(id, routing[id])] else []
  }

  function Order(
      allowed: seq<ProviderId>, routing: map<ProviderId, ProviderRouting>,
      registry: set<ProviderId>): seq<Candidate> {
    Sorting.Sort(Before, Eligible(allowed, routing, registry))
  }

  method OrderCandidates(allowed: seq<ProviderId>, routing: map<ProviderId, ProviderRouting>, registry: set<ProviderId>)
    returns (candidates: seq<Candidate>)
    ensures candidates == Order(allowed, routing, registry)
  {
    var seen: set<ProviderId> := {};
    candidates := [];
    for i := 0 to |allowed|
      invariant forall id :: id in seen <==> id in allowed[..i]
      invariant candidates == Eligible(allowed[..i], routing, registry)
    {
      var id := allowed[i];
      assert allowed[..i + 1][..i] == allowed[..i];
      if id in seen {
        continue;
      }
      seen := seen + {id};
      if id !in routing || id !in registry {
        continue;
      }
      candidates := candidates + [Candidate(id, routing[id])];
    }
    assert allowed[..|allowed|] == allowed;
    candidates := Sorting.Sort(Before, candidates);
  }

  /** What may become a candidate: allow-listed, with routing metadata, with an implementation. */
  predicate MayRoute(
      id: ProviderId, allowed: seq<ProviderId>, routing: map<ProviderId, ProviderRouting>,
      registry: set<ProviderId>) {
    id in allowed && id in routing && id in registry
  }

  lemma {:induction false} EligibleIsIntersection(
      allowed: seq<ProviderId>, routing: map<ProviderId, ProviderRouting>, registry: set<ProviderId>)
    ensures forall c :: c in Eligible(allowed, routing, registry)
              <==> MayRoute(c.id, allowed, routing, registry) && c.meta == routing[c.id]
    ensures Sorting.Distinct(Eligible(allowed, routing, registry))
  {
    if allowed != [] {
      var earlier, id := allowed[..|allowed| - 1], allowed[|allowed| - 1];
      EligibleIsIntersection(earlier, routing, registry);
      assert allowed == earlier + [id];
    }
  }

  lemma BeforeTransitive(a: Candidate, b: Candidate, c: Candidate)
    requires Before(a, b) && Before(b, c)
    ensures Before(a, c)
  {
    if a.meta.costPerCallUsd == b.meta.costPerCallUsd == c.meta.costPerCallUsd
        && a.meta.priority == b.meta.priority == c.meta.priority {
      LessTransitive(a.id, b.id, c.id);
    }
  }

  lemma BeforeTotal(a: Candidate, b: Candidate)
    ensures !Before(a, a)
    ensures a.id != b.id ==> Before(a, b) != Before(b, a)
  {
    LessTotal(a.id, a.id);
    LessTotal(a.id, b.id);
  }

  lemma CandidatesOrdered(s: seq<Candidate>, routing: map<ProviderId, ProviderRouting>)
    requires forall c | c in s :: c.id in routing && c.meta == routing[c.id]
    ensures Sorting.OrdersElements(Before, s)
  {
    forall x, y | x in s && y in s && x != y ensures Before(x, y) != Before(y, x) {
      BeforeTotal(x, y);
    }
    forall x | x in s ensures !Before(x, x) {
      BeforeTotal(x, x);
    }
    forall x, y, z | Before(x, y) && Before(y, z) ensures Before(x, z) {
      BeforeTransitive(x, y, z);
    }
  }

  /** The candidates are exactly the intersection, each once, strictly in (cost, priority, id) order. */
  lemma OrderIsSortedIntersection(
      allowed: seq<ProviderId>, routing: map<ProviderId, ProviderRouting>, registry: set<ProviderId>)
    ensures forall c :: c in Order(allowed, routing, registry)
              <==> MayRoute(c.id, allowed, routing, registry) && c.meta == routing[c.id]
    ensures Sorting.StrictlySorted(Before, Order(allowed, routing, registry))
    ensures Sorting.OrdersElements(Before, Order(allowed, routing, registry))
  {
    var s := Eligible(allowed, routing, registry);
    EligibleIsIntersection(allowed, routing, registry);
    Sorting.SameElements(Order(allowed, routing, registry), s);
    CandidatesOrdered(s, routing);
    CandidatesOrdered(Order(allowed, routing, registry), routing);
    Sorting.SortIsStrict(Before, s);
  }

  /** The order does not depend on how the allow-list is written: permuting or repeating entries changes nothing. */
  lemma OrderIsCanonical(
      a: seq<ProviderId>, b: seq<ProviderId>, routing: map<ProviderId, ProviderRouting>, registry: set<ProviderId>)
    requires forall id :: id in a <==> id in b
    ensures Order(a, routing, registry) == Order(b, routing, registry)
  {
    OrderIsSortedIntersection(a, routing, registry);
    OrderIsSortedIntersection(b, routing, registry);
    Sorting.StrictlySortedUnique(Before, Order(a, routing, registry), Order(b, routing, registry));
  }

  // ----- Routing metadata from configuration -----

  function RoutingOf(config: ProviderConfig): ProviderRouting {
    ProviderRouting(config.priority, config.costPerCallUsd, Some(config.timeoutMs))
  }

  /** The metadata of `id`: that of its last enabled configuration. */
  function LastEnabled(configs: seq<ProviderConfig>, id: ProviderId): Option<ProviderRouting> {
    if configs == [] then None
    else
      var config := configs[|configs| - 1];
      if config.enabled && config.id == id then Some(RoutingOf(config))
      else LastEnabled(configs[..|configs| - 1], id)
  }

  method RoutingFromConfigs(configs: seq<ProviderConfig>) returns (m: map<ProviderId, ProviderRouting>)
    ensures forall id: ProviderId :: (if id in m then Some(m[id]) else None) == LastEnabled(configs, id)
  {
    m := map[];
    for i := 0 to |configs|
      invariant forall id: ProviderId :: (if id in m then Some(m[id]) else None) == LastEnabled(configs[..i], id)
    {
      assert configs[..i + 1][..i] == configs[..i];
      if !configs[i].enabled {
        continue;
      }
      m := m[configs[i].id := RoutingOf(configs[i])];
    }
    assert configs[..|configs|] == configs;
  }

  // ----- The fall-through loop -----

  /** An attempt ends with a result, started and ended at two clock readings, or by rejecting or timing out. */
  datatype Attempt = Fulfils(resultImageUrl: JsString, started: int, ended: int) | Fails

  type Providers = (ProviderId, int) -> Attempt

  datatype TryOnResult =
    TryOnResult(resultImageUrl: JsString, provider: ProviderId, latencyMs: int, cached: bool, costUsd: real)

  datatype RouteError = NoProviderPermitted | AllProvidersFailed

  function ResolveTimeout(candidate: Candidate, callTimeoutMs: Option<int>, defaultTimeoutMs: int): int {
    if callTimeoutMs.Some? then callTimeoutMs.value
    else if candidate.meta.timeoutMs.Some? then candidate.meta.timeoutMs.value
    else defaultTimeoutMs
  }

  /** One request's view of the router. */
  datatype Call =
    Call(providers: Providers, urlOk: JsString -> bool, callTimeoutMs: Option<int>, defaultTimeoutMs: int)
  {

    function AttemptOf(c: Candidate): Attempt {
      providers(c.id, ResolveTimeout(c, callTimeoutMs, defaultTimeoutMs))
    }

    /** The provider's result with the router's own metadata over it. */
    function Stamp(c: Candidate): TryOnResult
      requires AttemptOf(c).Fulfils?
    {
      var a := AttemptOf(c);
      var latencyMs := if a.ended - a.started > 0 then a.ended - a.started else 0;
      TryOnResult(a.resultImageUrl, c.id, latencyMs, false, c.meta.costPerCallUsd)
    }

    /** The stamped result satisfies the result contract. */
    predicate Validates(r: TryOnResult) {
      urlOk(r.resultImageUrl) && r.provider != [] && r.latencyMs >= 0 && r.costUsd >= 0.0
    }

    predicate Succeeds(c: Candidate) {
      AttemptOf(c).Fulfils? && Validates(Stamp(c))
    }
  }

  function Ids(candidates: seq<Candidate>): seq<ProviderId> {
    if candidates == [] then [] else Ids(candidates[..|candidates| - 1]) + [candidates[|candidates| - 1].id]
  }

  /** The index of the first candidate that succeeds, or the length. */
  function FirstSuccess(call: Call, cs: seq<Candidate>): (k: nat)
    ensures k <= |cs| && (k < |cs| ==> call.Succeeds(cs[k])) && forall j | 0 <= j < k :: !call.Succeeds(cs[j])
  {
    if cs == [] || call.Succeeds(cs[0]) then 0 else 1 + FirstSuccess(call, cs[1..])
  }

  /** The outcome over an ordered list: the first success, or an error. */
  function OutcomeOf(call: Call, cs: seq<Candidate>): Result<TryOnResult, RouteError> {
    var k := FirstSuccess(call, cs);
    if cs == [] then Err(NoProviderPermitted)
    else if k == |cs| then Err(AllProvidersFailed)
    else Ok(call.Stamp(cs[k]))
  }

  /** The providers that were tried: those up to the first success. */
  function Tried(call: Call, cs: seq<Candidate>): seq<ProviderId> {
    var k := FirstSuccess(call, cs);
    Ids(if k == |cs| then cs else cs[..k + 1])
  }

  lemma {:induction false} FirstSuccessUnique(call: Call, cs: seq<Candidate>, k: nat)
    requires k <= |cs| && (k < |cs| ==> call.Succeeds(cs[k])) && forall j | 0 <= j < k :: !call.Succeeds(cs[j])
    ensures FirstSuccess(call, cs) == k
  {
    if k > 0 {
      FirstSuccessUnique(call, cs[1..], k - 1);
    }
  }

  /** `tried` lists the ids of the first `n` candidates. */
  predicate AreIds(tried: seq<ProviderId>, cs: seq<Candidate>, n: nat)
    requires n <= |cs|
  {
    |tried| == n && forall j | 0 <= j < n :: tried[j] == cs[j].id
  }

  lemma {:induction false} IdsAt(cs: seq<Candidate>)
    ensures |Ids(cs)| == |cs| && forall i | 0 <= i < |cs| :: Ids(cs)[i] == cs[i].id
  {
    if cs != [] {
      IdsAt(cs[..|cs| - 1]);
    }
  }

  /** The outcome and the attempts when candidate `k` is the first to succeed. */
  lemma SucceedsAt(call: Call, cs: seq<Candidate>, k: nat, tried: seq<ProviderId>)
    requires k < |cs| && call.Succeeds(cs[k]) && forall j | 0 <= j < k :: !call.Succeeds(cs[j])
    requires AreIds(tried, cs, k + 1)
    ensures OutcomeOf(call, cs) == Ok(call.Stamp(cs[k])) && Tried(call, cs) == tried
  {
    FirstSuccessUnique(call, cs, k);
    IdsAt(cs[..k + 1]);
  }

  lemma AllFail(call: Call, cs: seq<Candidate>, tried: seq<ProviderId>)
    requires cs != [] && forall j | 0 <= j < |cs| :: !call.Succeeds(cs[j])
    requires AreIds(tried, cs, |cs|)
    ensures OutcomeOf(call, cs) == Err(AllProvidersFailed) && Tried(call, cs) == tried
  {
    FirstSuccessUnique(call, cs, |cs|);
    IdsAt(cs);
  }

  lemma NoneToTry(call: Call)
    ensures OutcomeOf(call, []) == Err(NoProviderPermitted) && Tried(call, []) == []
  {
  }

  method Route(
      call: Call, allowed: seq<ProviderId>, routing: map<ProviderId, ProviderRouting>, registry: set<ProviderId>)
    returns (outcome: Result<TryOnResult, RouteError>, tried: seq<ProviderId>)
    ensures outcome == OutcomeOf(call, Order(allowed, routing, registry))
    ensures tried == Tried(call, Order(allowed, routing, registry))
  {
    var candidates := OrderCandidates(allowed, routing, registry);
    tried := [];
    if candidates == [] {
      NoneToTry(call);
      return Err(NoProviderPermitted), tried;
    }
    for i := 0 to |candidates|
      invariant AreIds(tried, candidates, i)
      invariant forall j | 0 <= j < i :: !call.Succeeds(candidates[j])
    {
      var candidate := candidates[i];
      tried := tried + [candidate.id];
      var attempt := call.AttemptOf(candidate);
      if attempt.Fulfils? {
        var stamped := call.Stamp(candidate);
        if call.Validates(stamped) {
          assert call.Succeeds(candidate);
          SucceedsAt(call, candidates, i, tried);
          return Ok(stamped), tried;
        }
      }
    }
    AllFail(call, candidates, tried);
    outcome := Err(AllProvidersFailed);
  }

  // ----- Routing, said without a list -----

  /** A candidate the request may be routed to, and whose provider answers it well. */
  ghost predicate Works(
      call: Call, allowed: seq<ProviderId>, routing: map<ProviderId, ProviderRouting>, registry: set<ProviderId>,
      c: Candidate) {
    MayRoute(c.id, allowed, routing, registry) && c.meta == routing[c.id] && call.Succeeds(c)
  }

  /** The winner: it works, and everything else that works goes after it. */
  ghost predicate IsBest(
      call: Call, allowed: seq<ProviderId>, routing: map<ProviderId, ProviderRouting>, registry: set<ProviderId>,
      c: Candidate) {
    Works(call, allowed, routing, registry, c)
    && forall d: Candidate | Works(call, allowed, routing, registry, d) && d != c :: Before(c, d)
  }

  /**
   The outcome is the stamped result of the cheapest permitted provider that works, wherever it stands
   in the allow-list, and an error exactly when none works.
   */
  lemma RouteFindsBest(
      call: Call, allowed: seq<ProviderId>, routing: map<ProviderId, ProviderRouting>, registry: set<ProviderId>)
    ensures var outcome := OutcomeOf(call, Order(allowed, routing, registry));
      (outcome.Ok? <==> exists c: Candidate :: Works(call, allowed, routing, registry, c))
      && (outcome.Ok?
          ==> exists c: Candidate :: IsBest(call, allowed, routing, registry, c) && outcome == Ok(call.Stamp(c)))
  {
    var cs := Order(allowed, routing, registry);
    var k := FirstSuccess(call, cs);
    OrderIsSortedIntersection(allowed, routing, registry);
    if k < |cs| {
      FirstIsBest(call, allowed, routing, registry, k);
    } else {
      forall c: Candidate ensures !Works(call, allowed, routing, registry, c) {
        assert c in cs ==> !call.Succeeds(c);
      }
    }
  }

  /** The winner is unique, so the outcome does not depend on anything else. */
  lemma BestIsUnique(
      call: Call, allowed: seq<ProviderId>, routing: map<ProviderId, ProviderRouting>, registry: set<ProviderId>,
      c: Candidate, d: Candidate)
    requires IsBest(call, allowed, routing, registry, c) && IsBest(call, allowed, routing, registry, d)
    ensures c == d
  {
    if c != d {
      BeforeTotal(c, d);
    }
  }

  lemma FirstIsBest(
      call: Call, allowed: seq<ProviderId>, routing: map<ProviderId, ProviderRouting>, registry: set<ProviderId>,
      k: nat)
    requires k < |Order(allowed, routing, registry)| && call.Succeeds(Order(allowed, routing, registry)[k])
    requires forall j | 0 <= j < k :: !call.Succeeds(Order(allowed, routing, registry)[j])
    ensures IsBest(call, allowed, routing, registry, Order(allowed, routing, registry)[k])
  {
    var cs := Order(allowed, routing, registry);
    OrderIsSortedIntersection(allowed, routing, registry);
    assert cs[k] in cs;
    forall d: Candidate | Works(call, allowed, routing, registry, d) && d != cs[k] ensures Before(cs[k], d) {
      assert d in cs;
      var j :| 0 <= j < |cs| && cs[j] == d;
    }
  }

  /** Each provider is tried at most once, in order, and nothing is tried after the winner. */
  lemma TriedOnce(
      call: Call, allowed: seq<ProviderId>, routing: map<ProviderId, ProviderRouting>, registry: set<ProviderId>)
    ensures var cs := Order(allowed, routing, registry);
      var outcome, tried := OutcomeOf(call, cs), Tried(call, cs);
      Sorting.Distinct(tried) && (outcome.Ok? ==> tried != [] && tried[|tried| - 1] == outcome.value.provider)
  {
    OrderIsSortedIntersection(allowed, routing, registry);
    TriedFrom(call, Order(allowed, routing, registry), routing);
  }

  lemma TriedFrom(call: Call, cs: seq<Candidate>, routing: map<ProviderId, ProviderRouting>)
    requires Sorting.StrictlySorted(Before, cs) && forall c | c in cs :: c.id in routing && c.meta == routing[c.id]
    ensures var outcome, tried := OutcomeOf(call, cs), Tried(call, cs);
      Sorting.Distinct(tried) && (outcome.Ok? ==> tried != [] && tried[|tried| - 1] == outcome.value.provider)
  {
    var k := FirstSuccess(call, cs);
    assert forall i | 0 <= i < |cs| :: cs[i] in cs;
    if k == |cs| {
      IdsDistinct(cs, routing);
      return;
    }
    IdsDistinct(cs[..k + 1], routing);
  }

  lemma {:induction false} IdsDistinct(cs: seq<Candidate>, routing: map<ProviderId, ProviderRouting>)
    requires Sorting.StrictlySorted(Before, cs)
    requires forall i | 0 <= i < |cs| :: cs[i].id in routing && cs[i].meta == routing[cs[i].id]
    ensures Sorting.Distinct(Ids(cs)) && |Ids(cs)| == |cs| && forall i | 0 <= i < |cs| :: Ids(cs)[i] == cs[i].id
  {
    if cs != [] {
      var n := |cs| - 1;
      IdsDistinct(cs[..n], routing);
      BeforeTotal(cs[n], cs[n]);
      forall i | 0 <= i < n ensures cs[i].id != cs[n].id {
        assert Before(cs[i], cs[n]);
      }
    }
  }

  // ----- Said apart from the definitions -----

  /** The order is by cost, then by priority value, then by the UTF-16 code units of the id. */
  lemma BeforeIff(a: Candidate, b: Candidate)
    ensures Before(a, b)
       <==> a.meta.costPerCallUsd < b.meta.costPerCallUsd
            || (a.meta.costPerCallUsd == b.meta.costPerCallUsd
                && (a.meta.priority < b.meta.priority || (a.meta.priority == b.meta.priority && Ascends(a.id, b.id))))
  {
    LessIsAscending(a.id, b.id);
    LessIsAscending(b.id, a.id);
    LessTotal(a.id, b.id);
  }

  /** The timeout a provider is granted: the call's, else the provider's own, else the default. */
  ghost predicate Granted(call: Call, c: Candidate, timeoutMs: int) {
    || call.callTimeoutMs == Some(timeoutMs)
    || (call.callTimeoutMs == None && c.meta.timeoutMs == Some(timeoutMs))
    || (call.callTimeoutMs == None && c.meta.timeoutMs == None && timeoutMs == call.defaultTimeoutMs)
  }

  /** The result says what the candidate's attempt made within the timeout it was granted, and what it costs. */
  ghost predicate SaysAttempt(call: Call, c: Candidate, r: TryOnResult, timeoutMs: int) {
    && Granted(call, c, timeoutMs)
    && var attempt := call.providers(c.id, timeoutMs);
       && attempt.Fulfils? && r.resultImageUrl == attempt.resultImageUrl && call.urlOk(r.resultImageUrl)
       && r.latencyMs == (if attempt.started <= attempt.ended then attempt.ended - attempt.started else 0)
       && r.provider == c.id && !r.cached && r.costUsd == c.meta.costPerCallUsd
  }

  /** A routed result is the winner's own, under the timeout it was granted, with its real id, latency and cost. */
  lemma OutcomeSays(call: Call, cs: seq<Candidate>)
    requires OutcomeOf(call, cs).Ok?
    ensures exists c, timeoutMs :: c in cs && SaysAttempt(call, c, OutcomeOf(call, cs).value, timeoutMs)
  {
    var c := cs[FirstSuccess(call, cs)];
    var timeoutMs := ResolveTimeout(c, call.callTimeoutMs, call.defaultTimeoutMs);
    assert c in cs && SaysAttempt(call, c, OutcomeOf(call, cs).value, timeoutMs);
  }

  /** Which error: the first exactly when no provider is permitted, the second when none of those permitted works. */
  lemma ErrorsAre(
      call: Call, allowed: seq<ProviderId>, routing: map<ProviderId, ProviderRouting>, registry: set<ProviderId>)
    ensures var outcome := OutcomeOf(call, Order(allowed, routing, registry));
      && (outcome == Err(NoProviderPermitted) <==> forall id :: !MayRoute(id, allowed, routing, registry))
      && (outcome == Err(AllProvidersFailed)
          <==> (exists id :: MayRoute(id, allowed, routing, registry))
               && forall c: Candidate :: !Works(call, allowed, routing, registry, c))
  {
    var cs := Order(allowed, routing, registry);
    OrderIsSortedIntersection(allowed, routing, registry);
    RouteFindsBest(call, allowed, routing, registry);
    if cs == [] {
      forall id ensures !MayRoute(id, allowed, routing, registry) {
        PermittedIsCandidate(id, allowed, routing, registry);
      }
    } else {
      assert cs[0] in cs && MayRoute(cs[0].id, allowed, routing, registry);
    }
  }

  lemma PermittedIsCandidate(
      id: ProviderId, allowed: seq<ProviderId>, routing: map<ProviderId, ProviderRouting>, registry: set<ProviderId>)
    ensures MayRoute(id, allowed, routing, registry) ==> Order(allowed, routing, registry) != []
  {
    OrderIsSortedIntersection(allowed, routing, registry);
    if MayRoute(id, allowed, routing, registry) {
      assert Candidate(id, routing[id]) in Order(allowed, routing, registry);
    }
  }

  /** A candidate works exactly when its attempt fulfils in the time granted and its stamped result is valid. */
  lemma SucceedsIff(call: Call, c: Candidate)
    ensures call.Succeeds(c)
       <==> exists timeoutMs :: Granted(call, c, timeoutMs) && call.providers(c.id, timeoutMs).Fulfils?
              && call.urlOk(call.providers(c.id, timeoutMs).resultImageUrl)
              && c.id != [] && c.meta.costPerCallUsd >= 0.0
  {
    assert Granted(call, c, ResolveTimeout(c, call.callTimeoutMs, call.defaultTimeoutMs));
  }

  /** The attempts are exactly those up to the first success, in order. */
  lemma {:induction false} TriedExactly(call: Call, cs: seq<Candidate>, i: nat)
    requires i < |cs|
    ensures i < |Tried(call, cs)| <==> forall j | 0 <= j < i :: !call.Succeeds(cs[j])
    ensures i < |Tried(call, cs)| ==> Tried(call, cs)[i] == cs[i].id
    ensures |Tried(call, cs)| <= |cs|
  {
    var k := FirstSuccess(call, cs);
    IdsAt(cs);
    IdsAt(cs[..if k == |cs| then k else k + 1]);
    assert cs[..|cs|] == cs;
  }

  /** The configuration `k` is the last enabled one of `id`. */
  ghost predicate LastEnabledAt(configs: seq<ProviderConfig>, id: ProviderId, k: nat) {
    && k < |configs| && configs[k].enabled && configs[k].id == id
    && forall j | k < j < |configs| :: !(configs[j].enabled && configs[j].id == id)
  }

  ghost predicate Describes(config: ProviderConfig, meta: ProviderRouting) {
    && meta.priority == config.priority && meta.costPerCallUsd == config.costPerCallUsd
    && meta.timeoutMs == Some(config.timeoutMs)
  }

  /** A provider has metadata exactly when it has an enabled configuration. */
  lemma {:induction false} HasMetadataIff(configs: seq<ProviderConfig>, id: ProviderId)
    ensures LastEnabled(configs, id).None?
       <==> forall j | 0 <= j < |configs| :: !(configs[j].enabled && configs[j].id == id)
  {
    if configs == [] {
      return;
    }
    var before := configs[..|configs| - 1];
    HasMetadataIff(before, id);
    assert forall j | 0 <= j < |before| :: configs[j] == before[j];
  }

  /** And then it is what the last one says. */
  lemma {:induction false} LastEnabledIs(configs: seq<ProviderConfig>, id: ProviderId, k: nat)
    requires LastEnabledAt(configs, id, k)
    ensures LastEnabled(configs, id).Some? && Describes(configs[k], LastEnabled(configs, id).value)
  {
    if k == |configs| - 1 {
      return;
    }
    var before := configs[..|configs| - 1];
    assert forall j | 0 <= j < |before| :: configs[j] == before[j];
    LastEnabledIs(before, id, k);
  }
}
