/**
 apps/api/app/_lib/provider-registry.ts: the providers a deployment routes to, by which credentials it
 has, and what that makes of the router's order and of the budget guard's estimate.
 */
module ProviderRegistry {
  import opened Results
  import opened JsStrings
  import opened Router
  import opened Pipeline
  import Sorting
  import PipelineProperties
  import Budget
  import Scenarios

  // 'deterministic'
  const DETERMINISTIC: ProviderId := [0x64, 0x65, 0x74, 0x65, 0x72, 0x6D, 0x69, 0x6E, 0x69, 0x73, 0x74, 0x69, 0x63]
  // 'fal'
  const FAL: ProviderId := [0x66, 0x61, 0x6C]
  // 'self-hosted'
  const SELF_HOSTED: ProviderId := [0x73, 0x65, 0x6C, 0x66, 0x2D, 0x68, 0x6F, 0x73, 0x74, 0x65, 0x64]

  /** Which of the environment variables are set and not empty. */
  datatype ProviderEnv = ProviderEnv(falKey: bool, inferenceUrl: bool)

  method BuildProviderRegistry(env: ProviderEnv)
    returns (registry: set<ProviderId>, routing: map<ProviderId, ProviderRouting>)
    ensures routing == RoutingFor(env) && registry == routing.Keys
  {
    registry, routing := {}, map[];
    registry := registry + {DETERMINISTIC};
    routing := routing[DETERMINISTIC := ProviderRouting(100, 0.0, Some(5_000))];
    if env.falKey {
      registry := registry + {FAL};
      routing := routing[FAL := ProviderRouting(10, 0.04, Some(30_000))];
    }
    if env.inferenceUrl {
      registry := registry + {SELF_HOSTED};
      routing := routing[SELF_HOSTED := ProviderRouting(20, 0.01, Some(30_000))];
    }
  }

  /** The routing metadata of a deployment, provider by provider. */
  function RoutingFor(env: ProviderEnv): map<ProviderId, ProviderRouting> {
    map[DETERMINISTIC := ProviderRouting(100, 0.0, Some(5_000))]
    + (if env.falKey then map[FAL := ProviderRouting(10, 0.04, Some(30_000))] else map[])
    + (if env.inferenceUrl then map[SELF_HOSTED := ProviderRouting(20, 0.01, Some(30_000))] else map[])
  }

  function Candidates(env: ProviderEnv, allowed: seq<ProviderId>): seq<Candidate> {
    Order(allowed, RoutingFor(env), RoutingFor(env).Keys)
  }

  lemma IdsDiffer()
    ensures DETERMINISTIC != FAL && DETERMINISTIC != SELF_HOSTED && FAL != SELF_HOSTED
  {
    assert |DETERMINISTIC| == 13 && |FAL| == 3 && |SELF_HOSTED| == 11;
  }

  /** Only the deterministic provider is free, and none costs more than the highest price. */
  lemma Costs(env: ProviderEnv, id: ProviderId)
    requires id in RoutingFor(env)
    ensures 0.0 <= RoutingFor(env)[id].costPerCallUsd <= PriceCap(env)
    ensures RoutingFor(env)[id].costPerCallUsd == 0.0 <==> id == DETERMINISTIC
    ensures DETERMINISTIC in RoutingFor(env)
  {
    IdsDiffer();
  }

  /** The highest price in a deployment. */
  function PriceCap(env: ProviderEnv): (c: real)
    ensures 0.0 <= c < ESTIMATED_NEXT_CALL_USD
  {
    if env.falKey then 0.04 else if env.inferenceUrl then 0.01 else 0.0
  }

  /** Whatever is routed is charged at most the highest price, which is less than the guard's estimate. */
  lemma RoutedWithinCap(env: ProviderEnv, call: Call, allowed: seq<ProviderId>)
    ensures var outcome := OutcomeOf(call, Candidates(env, allowed));
      outcome.Ok? ==> 0.0 <= outcome.value.costUsd <= PriceCap(env)
  {
    var cs := Candidates(env, allowed);
    OrderIsSortedIntersection(allowed, RoutingFor(env), RoutingFor(env).Keys);
    var k := FirstSuccess(call, cs);
    if k < |cs| {
      assert cs[k] in cs;
      Costs(env, cs[k].id);
    }
  }

  /** What a routed result costs, by the provider that won. */
  lemma ChargedByWinner(env: ProviderEnv, call: Call, allowed: seq<ProviderId>)
    ensures var cs := Candidates(env, allowed);
      var outcome := OutcomeOf(call, cs);
      outcome.Ok? ==>
        && outcome.value.provider in {DETERMINISTIC, FAL, SELF_HOSTED}
        && (outcome.value.provider == FAL ==> outcome.value.costUsd == 0.04)
        && (outcome.value.provider == SELF_HOSTED ==> outcome.value.costUsd == 0.01)
        && (outcome.value.provider == DETERMINISTIC ==> outcome.value.costUsd == 0.0)
  {
    IdsDiffer();
    var cs := Candidates(env, allowed);
    OrderIsSortedIntersection(allowed, RoutingFor(env), RoutingFor(env).Keys);
    var k := FirstSuccess(call, cs);
    if k < |cs| {
      assert cs[k] in cs;
    }
  }

  /** Unless the call brings its own timeout, the deterministic provider gets five seconds and the others thirty. */
  lemma GrantedTimeouts(env: ProviderEnv, allowed: seq<ProviderId>, c: Candidate, defaultTimeoutMs: int)
    requires c in Candidates(env, allowed)
    ensures ResolveTimeout(c, None, defaultTimeoutMs) == if c.id == DETERMINISTIC then 5_000 else 30_000
  {
    OrderIsSortedIntersection(allowed, RoutingFor(env), RoutingFor(env).Keys);
    TimeoutFor(env, c.id);
  }

  lemma TimeoutFor(env: ProviderEnv, id: ProviderId)
    requires id in RoutingFor(env)
    ensures RoutingFor(env)[id].timeoutMs == Some(if id == DETERMINISTIC then 5_000 else 30_000)
  {
    IdsDiffer();
  }

  /** Where both are candidates, the self-hosted provider is asked before fal. */
  lemma SelfHostedBeforeFal(env: ProviderEnv, allowed: seq<ProviderId>, i: nat, j: nat)
    requires i < |Candidates(env, allowed)| && Candidates(env, allowed)[i].id == SELF_HOSTED
    requires j < |Candidates(env, allowed)| && Candidates(env, allowed)[j].id == FAL
    ensures i < j
  {
    var cs := Candidates(env, allowed);
    OrderIsSortedIntersection(allowed, RoutingFor(env), RoutingFor(env).Keys);
    assert cs[i] in cs && cs[j] in cs;
    SelfHostedIsCheaper(env, cs[i], cs[j]);
    GoesEarlier(cs, i, j);
  }

  lemma SelfHostedIsCheaper(env: ProviderEnv, a: Candidate, b: Candidate)
    requires a.id == SELF_HOSTED && a.id in RoutingFor(env) && a.meta == RoutingFor(env)[a.id]
    requires b.id == FAL && b.id in RoutingFor(env) && b.meta == RoutingFor(env)[b.id]
    ensures a != b && a.meta.costPerCallUsd < b.meta.costPerCallUsd
  {
    IdsDiffer();
  }

  lemma GoesEarlier(cs: seq<Candidate>, i: nat, j: nat)
    requires i < |cs| && j < |cs| && Sorting.StrictlySorted(Before, cs)
    requires cs[i] != cs[j] && cs[i].meta.costPerCallUsd < cs[j].meta.costPerCallUsd
    ensures i < j
  {
    InOrder(cs, j, i);
  }

  /**
   The deterministic provider is not the last resort but the first choice: where it is permitted it
   heads the list, and when it succeeds nothing else is tried.
   */
  lemma DeterministicGoesFirst(env: ProviderEnv, call: Call, allowed: seq<ProviderId>)
    requires DETERMINISTIC in allowed
    ensures var cs := Candidates(env, allowed);
      cs != [] && cs[0].id == DETERMINISTIC && (call.Succeeds(cs[0]) ==> Tried(call, cs) == [DETERMINISTIC])
  {
    HeadIsDeterministic(env, allowed);
    FirstTried(call, Candidates(env, allowed));
  }

  lemma HeadIsDeterministic(env: ProviderEnv, allowed: seq<ProviderId>)
    requires DETERMINISTIC in allowed
    ensures Candidates(env, allowed) != [] && Candidates(env, allowed)[0].id == DETERMINISTIC
  {
    var cs, routing := Candidates(env, allowed), RoutingFor(env);
    OrderIsSortedIntersection(allowed, routing, routing.Keys);
    Costs(env, DETERMINISTIC);
    var free := Candidate(DETERMINISTIC, routing[DETERMINISTIC]);
    assert free in cs;
    assert cs[0] in cs;
    Costs(env, cs[0].id);
    var j :| 0 <= j < |cs| && cs[j] == free;
    InOrder(cs, 0, j);
  }

  lemma InOrder(cs: seq<Candidate>, i: nat, j: nat)
    requires Sorting.StrictlySorted(Before, cs) && j < |cs|
    ensures i < j ==> Before(cs[i], cs[j])
  {
  }

  lemma FirstTried(call: Call, cs: seq<Candidate>)
    requires cs != []
    ensures call.Succeeds(cs[0]) ==> Tried(call, cs) == [cs[0].id]
  {
    var one := [cs[0]];
    assert cs[..1] == one && one[..0] == [];
    assert Ids(one) == [] + [cs[0].id];
  }

  /** Every permitted provider is the deterministic one. */
  ghost predicate NoOther(env: ProviderEnv, allowed: seq<ProviderId>) {
    forall id | id in allowed && id in RoutingFor(env) :: id == DETERMINISTIC
  }

  /** It is the last resort exactly when it is the only one. */
  lemma LastResortIffAlone(env: ProviderEnv, allowed: seq<ProviderId>)
    requires DETERMINISTIC in allowed
    ensures var cs := Candidates(env, allowed);
      cs != [] && (cs[|cs| - 1].id == DETERMINISTIC <==> NoOther(env, allowed))
  {
    var cs, routing := Candidates(env, allowed), RoutingFor(env);
    OrderIsSortedIntersection(allowed, routing, routing.Keys);
    HeadIsDeterministic(env, allowed);
    assert cs[|cs| - 1] in cs;
    if cs[|cs| - 1].id == DETERMINISTIC {
      OnlyOne(env, allowed);
      AloneIsNoOther(env, allowed);
    }
  }

  lemma AloneIsNoOther(env: ProviderEnv, allowed: seq<ProviderId>)
    requires |Candidates(env, allowed)| == 1 && Candidates(env, allowed)[0].id == DETERMINISTIC
    ensures NoOther(env, allowed)
  {
    var cs, routing := Candidates(env, allowed), RoutingFor(env);
    OrderIsSortedIntersection(allowed, routing, routing.Keys);
    forall id | id in allowed && id in routing ensures id == DETERMINISTIC {
      assert Candidate(id, routing[id]) in cs;
    }
  }

  /** If it heads and ends the list, the list is it alone. */
  lemma OnlyOne(env: ProviderEnv, allowed: seq<ProviderId>)
    requires var cs := Candidates(env, allowed);
             cs != [] && cs[0].id == DETERMINISTIC && cs[|cs| - 1].id == DETERMINISTIC
    ensures |Candidates(env, allowed)| == 1
  {
    var cs, routing := Candidates(env, allowed), RoutingFor(env);
    OrderIsSortedIntersection(allowed, routing, routing.Keys);
    assert cs[0] in cs && cs[|cs| - 1] in cs;
    BeforeTotal(cs[0], cs[0]);
    InOrder(cs, 0, |cs| - 1);
  }

  // ----- What the router charges, and the budget guard -----

  /** A cost that routing some call in this deployment leads to. */
  ghost predicate RoutedCost(env: ProviderEnv, cost: real) {
    exists call: Call, allowed: seq<ProviderId> :: CostsWhenRouted(env, call, allowed, cost)
  }

  ghost predicate CostsWhenRouted(env: ProviderEnv, call: Call, allowed: seq<ProviderId>, cost: real) {
    var outcome := OutcomeOf(call, Candidates(env, allowed));
    outcome.Ok? && outcome.value.costUsd == cost
  }

  /** The prices that answers can have when they are the router's. */
  ghost function RoutedPrices(env: ProviderEnv): real -> bool {
    (cost: real) => RoutedCost(env, cost)
  }

  lemma RoutedPricesAtMost(env: ProviderEnv)
    ensures Budget.AtMost(RoutedPrices(env), PriceCap(env))
  {
    forall cost | RoutedPrices(env)(cost) ensures cost <= PriceCap(env) {
      var call: Call, allowed: seq<ProviderId> :| CostsWhenRouted(env, call, allowed, cost);
      RoutedWithinCap(env, call, allowed);
    }
  }

  /** The dearest provider of a deployment. */
  function Dearest(env: ProviderEnv): ProviderId {
    if env.falKey then FAL else if env.inferenceUrl then SELF_HOSTED else DETERMINISTIC
  }

  lemma DearestCosts(env: ProviderEnv)
    ensures Dearest(env) != [] && Dearest(env) in RoutingFor(env)
    ensures RoutingFor(env)[Dearest(env)].costPerCallUsd == PriceCap(env)
  {
    IdsDiffer();
  }

  /** Every attempt fulfils, and every URL is well-formed. */
  function AllGoesWell(): Call {
    Call((id: ProviderId, timeoutMs: int) => Fulfils([], 0, 0), (url: JsString) => true, None, 0)
  }

  /** The highest price is charged when only the dearest provider is permitted. */
  lemma CapIsRouted(env: ProviderEnv)
    ensures RoutedCost(env, PriceCap(env))
  {
    var call, allowed := AllGoesWell(), [Dearest(env)];
    var cs := Candidates(env, allowed);
    OnlyCandidate(env, Dearest(env));
    FirstSuccessUnique(call, cs, 0);
    assert CostsWhenRouted(env, call, allowed, PriceCap(env));
  }

  /** Where only the dearest provider is permitted it heads the list, and does well if all goes well. */
  lemma OnlyCandidate(env: ProviderEnv, id: ProviderId)
    requires id == Dearest(env)
    ensures Candidates(env, [id]) != [] && Candidates(env, [id])[0].meta.costPerCallUsd == PriceCap(env)
    ensures AllGoesWell().Succeeds(Candidates(env, [id])[0])
  {
    var cs := Candidates(env, [id]);
    DearestCosts(env);
    OrderIsSortedIntersection([id], RoutingFor(env), RoutingFor(env).Keys);
    assert Candidate(id, RoutingFor(env)[id]) in cs;
    assert cs[0] in cs;
  }

  /**
   In a deployment with these providers a tenant's spend and what its runs in flight may still spend stay
   below its budget less the guard's estimate plus its concurrency times the dearest price. Nothing is asked
   of the costs: they are the router's own.
   */
  lemma DeployedSpendIsBounded(env: ProviderEnv, tenants: Tenants, events: seq<Event>, tenantId: string, n: nat)
    requires tenantId in tenants && Budget.Moderate(tenants, events, tenantId, RoutedPrices(env), n)
    ensures Budget.Potential(PipelineProperties.RunBooks(tenants, events), tenantId, PriceCap(env))
         <= Budget.Ceiling(tenants[tenantId].monthlyBudgetUsd, PriceCap(env), n)
  {
    RoutedPricesAtMost(env);
    Budget.BudgetPotential(tenants, events, tenantId, RoutedPrices(env), n, PriceCap(env));
  }

  /** In this deployment no tenant whose requests can pass the gates ever exceeds its budget at concurrency `n`. */
  ghost predicate EveryBudgetHolds(env: ProviderEnv, n: nat) {
    forall tenants: Tenants, tenantId | tenantId in tenants && Scenarios.Open(tenants[tenantId]) ::
      Budget.StaysInBudget(tenants, tenantId, RoutedPrices(env), n)
  }

  /** A deployment keeps every budget exactly when `n` calls of its dearest provider cost at most the estimate. */
  lemma DeploymentHoldsIff(env: ProviderEnv, n: nat)
    ensures EveryBudgetHolds(env, n) <==> Budget.Each(PriceCap(env), n) <= ESTIMATED_NEXT_CALL_USD
  {
    if Budget.Each(PriceCap(env), n) <= ESTIMATED_NEXT_CALL_USD {
      RoutedPricesAtMost(env);
      forall tenants: Tenants, tenantId | tenantId in tenants && Scenarios.Open(tenants[tenantId])
        ensures Budget.StaysInBudget(tenants, tenantId, RoutedPrices(env), n)
      {
        Budget.CheapEnoughStays(tenants, tenantId, RoutedPrices(env), n, PriceCap(env));
      }
    } else {
      SmallestBudgetBreaks(env, n);
    }
  }

  /** The tenant with a budget of one estimate: its first `n` runs are all admitted. */
  lemma SmallestBudgetBreaks(env: ProviderEnv, n: nat)
    requires Budget.Each(PriceCap(env), n) > ESTIMATED_NEXT_CALL_USD
    ensures !EveryBudgetHolds(env, n)
  {
    CapIsRouted(env);
    var tenants := map["t" := TenantConfig(1, 1, ESTIMATED_NEXT_CALL_USD, false)];
    OneEstimateBreaks(tenants, "t", RoutedPrices(env), n, PriceCap(env));
    NotEvery(env, tenants, "t", n);
  }

  lemma NotEvery(env: ProviderEnv, tenants: Tenants, tenantId: string, n: nat)
    requires tenantId in tenants && Scenarios.Open(tenants[tenantId])
    requires !Budget.StaysInBudget(tenants, tenantId, RoutedPrices(env), n)
    ensures !EveryBudgetHolds(env, n)
  {
  }

  lemma OneEstimateBreaks(tenants: Tenants, tenantId: string, prices: real -> bool, n: nat, c: real)
    requires tenantId in tenants && Scenarios.Open(tenants[tenantId])
    requires tenants[tenantId].monthlyBudgetUsd == ESTIMATED_NEXT_CALL_USD < Budget.Each(c, n) && prices(c)
    ensures !Budget.StaysInBudget(tenants, tenantId, prices, n)
  {
    var events := Budget.FirstBurst(tenants, tenantId, prices, n, c);
    BrokenBy(tenants, tenantId, events, prices, n);
  }

  lemma BrokenBy(tenants: Tenants, tenantId: string, events: seq<Event>, prices: real -> bool, n: nat)
    requires tenantId in tenants && Budget.Moderate(tenants, events, tenantId, prices, n)
    requires Spend(Run(tenants, events).audit, tenantId) > tenants[tenantId].monthlyBudgetUsd
    ensures !Budget.StaysInBudget(tenants, tenantId, prices, n)
  {
  }

  /** With fal that is one run at a time, with the self-hosted provider alone five, with neither any number. */
  lemma SafeConcurrency(env: ProviderEnv, n: nat)
    ensures EveryBudgetHolds(env, n)
       <==> (env.falKey ==> n <= 1) && (!env.falKey && env.inferenceUrl ==> n <= 5)
  {
    DeploymentHoldsIff(env, n);
    Budget.EachIsProduct(PriceCap(env), n);
  }
}
