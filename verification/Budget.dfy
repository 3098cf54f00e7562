/**
 The monthly budget over whole runs of the pipeline, with any number of requests in flight.
 */
module Budget {
  import opened Results
  import opened Pipeline
  import opened PipelineProperties
  import Collections
  import Scenarios

  /** The admitted runs of a tenant that have not been recorded yet. */
  ghost function InFlightOf(b: Books, tenantId: string): set<nat> {
    set id | id in b.inFlight && b.inFlight[id].input.tenantId == tenantId
  }

  /** Along the run every answer has one of these prices, and at most `n` of the tenant's runs are in flight. */
  ghost predicate Moderate(tenants: Tenants, events: seq<Event>, tenantId: string, prices: real -> bool, n: nat) {
    events == []
    || (Moderate(tenants, events[..|events| - 1], tenantId, prices, n)
        && |InFlightOf(RunBooks(tenants, events), tenantId)| <= n
        && (events[|events| - 1].Answers? ==> prices(events[|events| - 1].value.costUsd)))
  }

  ghost predicate AtMost(prices: real -> bool, c: real) {
    forall x | prices(x) :: x <= c
  }

  /** Any price from nothing up to `c`. */
  function UpTo(c: real): real -> bool {
    (x: real) => 0.0 <= x <= c
  }

  /** `k` times `c`. */
  function Each(c: real, k: nat): real {
    if k == 0 then 0.0 else Each(c, k - 1) + c
  }

  lemma {:induction false} EachIsProduct(c: real, k: nat)
    ensures Each(c, k) == c * k as real
  {
    if k > 0 {
      EachIsProduct(c, k - 1);
      OneMoreTimes(c, k - 1);
    }
  }

  lemma OneMoreTimes(c: real, k: nat)
    ensures c * (k + 1) as real == c * k as real + c
  {
    assert (k + 1) as real == k as real + 1.0;
  }

  lemma {:induction false} EachMonotone(c: real, m: nat, n: nat)
    requires c >= 0.0 && m <= n
    ensures Each(c, m) <= Each(c, n)
  {
    if m < n {
      EachMonotone(c, m, n - 1);
    }
  }

  lemma EachMore(c: real, k: nat)
    ensures Each(c, k + 1) == Each(c, k) + c
  {
  }

  /** No suspended run will be charged more than `c`. */
  ghost predicate ChargesAtMost(b: Books, c: real) {
    forall id | id in b.inFlight && b.inFlight[id].Computed? && !b.inFlight[id].hit :: b.inFlight[id].value.costUsd <= c
  }

  /** What is spent, and what the runs in flight may still spend at up to `c` each. */
  ghost function Potential(b: Books, tenantId: string, c: real): real {
    Spend(b.audit, tenantId) + Each(c, |InFlightOf(b, tenantId)|)
  }

  /** Where admission stops, `n` runs in flight at `c` each on top of it, and nothing less than nothing. */
  function Ceiling(budget: real, c: real, n: nat): real {
    var top := budget - ESTIMATED_NEXT_CALL_USD + Each(c, n);
    if top >= 0.0 then top else 0.0
  }

  lemma ChargesAfter(tenants: Tenants, b: Books, e: Event, eff: Effect, c: real)
    requires ChargesAtMost(b, c) && Possible(tenants, b, e, eff)
    requires e.Answers? ==> e.value.costUsd <= c
    ensures ChargesAtMost(Apply(b, eff), c)
  {
  }

  lemma {:induction false} RunChargesAtMost(
      tenants: Tenants, events: seq<Event>, tenantId: string, prices: real -> bool, n: nat, c: real)
    requires Moderate(tenants, events, tenantId, prices, n) && AtMost(prices, c)
    ensures ChargesAtMost(RunBooks(tenants, events), c)
  {
    if events != [] {
      var before := events[..|events| - 1];
      var eff := LastEffect(tenants, events);
      RunChargesAtMost(tenants, before, tenantId, prices, n, c);
      ChargesAfter(tenants, RunBooks(tenants, before), events[|events| - 1], eff, c);
    }
  }

  /** The effect admits a run of the tenant. */
  ghost predicate AdmitsFor(b: Books, eff: Effect, tenantId: string) {
    eff.Suspends? && Fresh(b, eff.s.input.requestId) && eff.s.input.tenantId == tenantId
  }

  lemma InFlightAfter(tenants: Tenants, b: Books, e: Event, eff: Effect, tenantId: string)
    requires IdsApart(b) && Possible(tenants, b, e, eff)
    ensures !AdmitsFor(b, eff, tenantId) && !eff.Ends? && !eff.Stores?
        ==> InFlightOf(Apply(b, eff), tenantId) == InFlightOf(b, tenantId)
    ensures eff.Ends? ==> InFlightOf(Apply(b, eff), tenantId) == InFlightOf(b, tenantId) - {eff.event.requestId}
    ensures eff.Stores? ==> InFlightOf(Apply(b, eff), tenantId) == InFlightOf(b, tenantId) - {eff.input.requestId}
  {
  }

  /** An effect that admits no run of the tenant does not raise its potential. */
  lemma PotentialFalls(tenants: Tenants, b: Books, e: Event, eff: Effect, tenantId: string, c: real)
    requires IdsApart(b) && Possible(tenants, b, e, eff) && !AdmitsFor(b, eff, tenantId)
    requires c >= 0.0 && ChargesAtMost(b, c)
    ensures Potential(Apply(b, eff), tenantId, c) <= Potential(b, tenantId, c)
  {
    InFlightAfter(tenants, b, e, eff, tenantId);
    SpendAfter(tenants, b, e, eff, tenantId);
    var before, after := InFlightOf(b, tenantId), InFlightOf(Apply(b, eff), tenantId);
    if eff.Stores? && eff.input.tenantId == tenantId {
      assert eff.input.requestId in before;
      assert |before| == |after| + 1;
      assert eff.cost <= c;
      EachMore(c, |after|);
    } else {
      Collections.SubsetSize(after, before);
      EachMonotone(c, |after|, |before|);
    }
  }

  /** After an admission the potential is within the ceiling. */
  lemma AdmissionUnderCeiling(
      tenants: Tenants, b: Books, e: Event, eff: Effect, tenantId: string, n: nat, c: real)
    requires IdsApart(b) && Possible(tenants, b, e, eff) && AdmitsFor(b, eff, tenantId) && c >= 0.0
    requires tenantId in tenants && |InFlightOf(Apply(b, eff), tenantId)| <= n
    ensures Potential(Apply(b, eff), tenantId, c) <= Ceiling(tenants[tenantId].monthlyBudgetUsd, c, n)
  {
    SpendAfter(tenants, b, e, eff, tenantId);
    EachMonotone(c, |InFlightOf(Apply(b, eff), tenantId)|, n);
  }

  /**
   The budget potential: if no provider price exceeds `c` and at most `n` runs of a tenant are in flight at
   once, what it has spent and what its runs in flight may still spend together stay, in every reachable
   state, below the budget less the guard's estimate plus `n` times `c`.
   */
  lemma {:induction false} BudgetPotential(
      tenants: Tenants, events: seq<Event>, tenantId: string, prices: real -> bool, n: nat, c: real)
    requires tenantId in tenants && c >= 0.0
    requires Moderate(tenants, events, tenantId, prices, n) && AtMost(prices, c)
    ensures Potential(RunBooks(tenants, events), tenantId, c) <= Ceiling(tenants[tenantId].monthlyBudgetUsd, c, n)
  {
    if events == [] {
      assert InFlightOf(RunBooks(tenants, events), tenantId) == {};
    } else {
      var before, e := events[..|events| - 1], events[|events| - 1];
      var eff := LastEffect(tenants, events);
      var b := RunBooks(tenants, before);
      BudgetPotential(tenants, before, tenantId, prices, n, c);
      RunChargesAtMost(tenants, before, tenantId, prices, n, c);
      if AdmitsFor(b, eff, tenantId) {
        AdmissionUnderCeiling(tenants, b, e, eff, tenantId, n, c);
      } else {
        PotentialFalls(tenants, b, e, eff, tenantId, c);
      }
    }
  }

  /** What is spent is within the ceiling too. */
  lemma SpendUnderCeiling(
      tenants: Tenants, events: seq<Event>, tenantId: string, prices: real -> bool, n: nat, c: real)
    requires tenantId in tenants && c >= 0.0
    requires Moderate(tenants, events, tenantId, prices, n) && AtMost(prices, c)
    ensures Spend(Run(tenants, events).audit, tenantId) <= Ceiling(tenants[tenantId].monthlyBudgetUsd, c, n)
  {
    BudgetPotential(tenants, events, tenantId, prices, n, c);
    EachMonotone(c, 0, |InFlightOf(RunBooks(tenants, events), tenantId)|);
  }

  // ----- The bound is attained, for every concurrency and every budget -----

  /** Exactly the runs `lo` to `hi - 1` of the tenant are in flight, all waiting for a provider. */
  ghost predicate Flying(tenants: Tenants, events: seq<Event>, tenantId: string, lo: nat, hi: nat) {
    var st := Run(tenants, events);
    lo <= hi && Scenarios.Ready(st, tenantId, hi) && st.inFlight == Waiting(tenantId, lo, hi)
  }

  ghost function Waiting(tenantId: string, lo: nat, hi: nat): map<nat, Suspended> {
    map id: nat | lo <= id < hi :: Routing(Scenarios.Request(tenantId, id, None))
  }

  lemma OneMoreWaits(tenantId: string, lo: nat, hi: nat)
    requires lo <= hi
    ensures Waiting(tenantId, lo, hi)[hi := Routing(Scenarios.Request(tenantId, hi, None))]
         == Waiting(tenantId, lo, hi + 1)
  {
  }

  lemma OneLessWaits(tenantId: string, lo: nat, hi: nat)
    ensures Waiting(tenantId, lo, hi) - {lo} == Waiting(tenantId, lo + 1, hi)
  {
  }

  /** The same, within the concurrency `n`, with `spent` in the ledger. */
  ghost predicate Reached(
      tenants: Tenants, events: seq<Event>, tenantId: string, prices: real -> bool, n: nat, lo: nat, hi: nat,
      spent: real) {
    && Flying(tenants, events, tenantId, lo, hi) && Moderate(tenants, events, tenantId, prices, n)
    && Spend(Run(tenants, events).audit, tenantId) == spent
  }

  lemma {:induction false} RangeSize(ids: set<nat>, lo: nat, hi: nat)
    requires lo <= hi && forall id | id in ids :: lo <= id < hi
    ensures |ids| <= hi - lo
  {
    if lo < hi {
      RangeSize(ids - {hi - 1}, lo, hi - 1);
    }
  }

  lemma FewInFlight(b: Books, tenantId: string, lo: nat, hi: nat)
    requires lo <= hi && forall id | id in b.inFlight :: lo <= id < hi
    ensures |InFlightOf(b, tenantId)| <= hi - lo
  {
    RangeSize(InFlightOf(b, tenantId), lo, hi);
  }

  lemma ModerateSnoc(tenants: Tenants, events: seq<Event>, tenantId: string, prices: real -> bool, n: nat, e: Event)
    requires Moderate(tenants, events, tenantId, prices, n)
    requires |InFlightOf(RunBooks(tenants, events + [e]), tenantId)| <= n
    requires e.Answers? ==> prices(e.value.costUsd)
    ensures Moderate(tenants, events + [e], tenantId, prices, n)
  {
    assert (events + [e])[..|events|] == events;
  }

  function AdmitEvent(tenantId: string, i: nat): Event {
    Arrives(Scenarios.Request(tenantId, i, None))
  }

  /** One more run is admitted while the ledger still leaves room for an estimate. */
  lemma AdmitOne(
      tenants: Tenants, events: seq<Event>, tenantId: string, prices: real -> bool, n: nat, lo: nat, hi: nat,
      spent: real)
    requires tenantId in tenants && Scenarios.Open(tenants[tenantId])
    requires Reached(tenants, events, tenantId, prices, n, lo, hi, spent) && hi - lo < n
    requires spent + ESTIMATED_NEXT_CALL_USD <= tenants[tenantId].monthlyBudgetUsd
    ensures Reached(tenants, events + [AdmitEvent(tenantId, hi)], tenantId, prices, n, lo, hi + 1, spent)
  {
    AdmittedFlies(tenants, events, tenantId, lo, hi);
    FewInFlight(RunBooks(tenants, events + [AdmitEvent(tenantId, hi)]), tenantId, lo, hi + 1);
    ModerateSnoc(tenants, events, tenantId, prices, n, AdmitEvent(tenantId, hi));
  }

  lemma AdmittedFlies(tenants: Tenants, events: seq<Event>, tenantId: string, lo: nat, hi: nat)
    requires tenantId in tenants && Scenarios.Open(tenants[tenantId]) && Flying(tenants, events, tenantId, lo, hi)
    requires Spend(Run(tenants, events).audit, tenantId) + ESTIMATED_NEXT_CALL_USD <= tenants[tenantId].monthlyBudgetUsd
    ensures Flying(tenants, events + [AdmitEvent(tenantId, hi)], tenantId, lo, hi + 1)
    ensures Run(tenants, events + [AdmitEvent(tenantId, hi)]).audit == Run(tenants, events).audit
  {
    Scenarios.Admitted(tenants, Run(tenants, events), tenantId, hi, None);
    OneMoreWaits(tenantId, lo, hi);
    Scenarios.RunSnoc(tenants, events, AdmitEvent(tenantId, hi));
  }

  function SettleEvents(id: nat, cost: real): seq<Event> {
    [Answers(id, Scenarios.Priced(cost))] + [Records(id)]
  }

  /** The oldest run in flight is answered and recorded at `cost`. */
  lemma SettleOne(
      tenants: Tenants, events: seq<Event>, tenantId: string, prices: real -> bool, n: nat, lo: nat, hi: nat,
      spent: real, cost: real)
    requires Reached(tenants, events, tenantId, prices, n, lo, hi, spent) && lo < hi && hi - lo <= n
    requires prices(cost)
    ensures Reached(tenants, events + SettleEvents(lo, cost), tenantId, prices, n, lo + 1, hi, spent + cost)
  {
    var st, answer := Run(tenants, events), Answers(lo, Scenarios.Priced(cost));
    var answered := events + [answer];
    Scenarios.Settled(st, tenantId, hi, lo, None, cost);
    OneLessWaits(tenantId, lo, hi);
    Scenarios.RunSnoc(tenants, events, answer);
    Scenarios.RunSnoc(tenants, answered, Records(lo));
    SettledFlight(tenants, answered, tenantId, prices, n, lo, hi, Records(lo));
    assert events + SettleEvents(lo, cost) == answered + [Records(lo)];
    SpendSnoc(st.audit, AuditEvent(tenantId, "s", lo, Allow, Some(cost)), tenantId);
  }

  lemma SettledFlight(
      tenants: Tenants, answered: seq<Event>, tenantId: string, prices: real -> bool, n: nat, lo: nat, hi: nat,
      e: Event)
    requires answered != [] && Moderate(tenants, answered[..|answered| - 1], tenantId, prices, n)
    requires lo <= hi && hi - lo <= n
    requires var last := answered[|answered| - 1];
             last.Answers? ==> prices(last.value.costUsd)
    requires forall id | id in RunBooks(tenants, answered).inFlight :: lo <= id < hi
    requires forall id | id in RunBooks(tenants, answered + [e]).inFlight :: lo <= id < hi
    requires !e.Answers?
    ensures Moderate(tenants, answered + [e], tenantId, prices, n)
  {
    FewInFlight(RunBooks(tenants, answered), tenantId, lo, hi);
    FewInFlight(RunBooks(tenants, answered + [e]), tenantId, lo, hi);
    ModerateSnoc(tenants, answered, tenantId, prices, n, e);
  }

  /** One run, from its arrival to its record, at the given price. */
  lemma SpendOnce(
      tenants: Tenants, events: seq<Event>, tenantId: string, prices: real -> bool, n: nat, i: nat, spent: real,
      cost: real)
    returns (more: seq<Event>)
    requires tenantId in tenants && Scenarios.Open(tenants[tenantId]) && n >= 1
    requires Reached(tenants, events, tenantId, prices, n, i, i, spent) && prices(cost)
    requires spent + ESTIMATED_NEXT_CALL_USD <= tenants[tenantId].monthlyBudgetUsd
    ensures Reached(tenants, more, tenantId, prices, n, i + 1, i + 1, spent + cost)
  {
    var admitted := events + [AdmitEvent(tenantId, i)];
    AdmitOne(tenants, events, tenantId, prices, n, i, i, spent);
    SettleOne(tenants, admitted, tenantId, prices, n, i, i + 1, spent, cost);
    more := admitted + SettleEvents(i, cost);
  }

  /** Run after run, a tenant can spend any amount that leaves room for one more estimate. */
  lemma {:induction false} SpendOneByOne(
      tenants: Tenants, tenantId: string, n: nat, c: real, k: nat, amount: real)
    returns (events: seq<Event>, i: nat)
    requires tenantId in tenants && Scenarios.Open(tenants[tenantId]) && n >= 1 && c >= 0.0
    requires 0.0 <= amount <= Each(c, k)
    requires amount + ESTIMATED_NEXT_CALL_USD <= tenants[tenantId].monthlyBudgetUsd
    ensures Reached(tenants, events, tenantId, UpTo(c), n, i, i, amount)
  {
    if k == 0 {
      events, i := [], 0;
      Scenarios.InitialReady(tenantId);
    } else {
      var cost := if amount <= c then amount else c;
      EachMore(c, k - 1);
      EachMonotone(c, 0, k - 1);
      events, i := SpendOneByOne(tenants, tenantId, n, c, k - 1, amount - cost);
      events := SpendOnce(tenants, events, tenantId, UpTo(c), n, i, amount - cost, cost);
      i := i + 1;
      assert amount - cost + cost == amount;
    }
  }

  /** With room for one estimate, any number of runs is admitted before the first is recorded. */
  lemma {:induction false} AdmitMany(
      tenants: Tenants, events: seq<Event>, tenantId: string, prices: real -> bool, n: nat, lo: nat, hi: nat,
      spent: real)
    returns (more: seq<Event>)
    requires tenantId in tenants && Scenarios.Open(tenants[tenantId]) && lo <= hi && hi - lo <= n
    requires Reached(tenants, events, tenantId, prices, n, lo, lo, spent)
    requires spent + ESTIMATED_NEXT_CALL_USD <= tenants[tenantId].monthlyBudgetUsd
    ensures Reached(tenants, more, tenantId, prices, n, lo, hi, spent)
    decreases hi
  {
    if lo == hi {
      return events;
    }
    var fewer := AdmitMany(tenants, events, tenantId, prices, n, lo, hi - 1, spent);
    more := AdmitNext(tenants, fewer, tenantId, prices, n, lo, hi - 1, hi, spent);
  }

  lemma AdmitNext(
      tenants: Tenants, events: seq<Event>, tenantId: string, prices: real -> bool, n: nat, lo: nat, hi: nat,
      next: nat, spent: real)
    returns (more: seq<Event>)
    requires tenantId in tenants && Scenarios.Open(tenants[tenantId]) && next == hi + 1
    requires Reached(tenants, events, tenantId, prices, n, lo, hi, spent) && hi - lo < n
    requires spent + ESTIMATED_NEXT_CALL_USD <= tenants[tenantId].monthlyBudgetUsd
    ensures Reached(tenants, more, tenantId, prices, n, lo, next, spent)
  {
    AdmitOne(tenants, events, tenantId, prices, n, lo, hi, spent);
    more := events + [AdmitEvent(tenantId, hi)];
  }

  /** And then each of them, up to `mid`, is charged `c`. */
  lemma {:induction false} SettleMany(
      tenants: Tenants, events: seq<Event>, tenantId: string, prices: real -> bool, n: nat, lo: nat, mid: nat,
      hi: nat, spent: real, c: real)
    returns (more: seq<Event>)
    requires Reached(tenants, events, tenantId, prices, n, lo, hi, spent) && lo <= mid <= hi && hi - lo <= n
    requires prices(c)
    ensures Reached(tenants, more, tenantId, prices, n, mid, hi, spent + Each(c, mid - lo))
    decreases mid
  {
    if lo == mid {
      return events;
    }
    var last := mid - 1;
    var fewer := SettleMany(tenants, events, tenantId, prices, n, lo, last, hi, spent, c);
    EachMore(c, last - lo);
    more := SettleNext(
      tenants, fewer, tenantId, prices, n, last, mid, hi, spent + Each(c, last - lo), c, spent + Each(c, mid - lo));
  }

  lemma SettleNext(
      tenants: Tenants, events: seq<Event>, tenantId: string, prices: real -> bool, n: nat, lo: nat, next: nat,
      hi: nat, spent: real, c: real, total: real)
    returns (more: seq<Event>)
    requires Reached(tenants, events, tenantId, prices, n, lo, hi, spent) && lo < hi && hi - lo <= n && prices(c)
    requires next == lo + 1 && total == spent + c
    ensures Reached(tenants, more, tenantId, prices, n, next, hi, total)
  {
    SettleOne(tenants, events, tenantId, prices, n, lo, hi, spent, c);
    more := events + SettleEvents(lo, c);
  }

  /** After a run that spent some amount, `n` runs at once, each charged `c`. */
  lemma Burst(
      tenants: Tenants, events: seq<Event>, tenantId: string, prices: real -> bool, n: nat, i: nat, spent: real,
      c: real)
    returns (more: seq<Event>)
    requires tenantId in tenants && Scenarios.Open(tenants[tenantId]) && prices(c)
    requires Reached(tenants, events, tenantId, prices, n, i, i, spent)
    requires spent + ESTIMATED_NEXT_CALL_USD <= tenants[tenantId].monthlyBudgetUsd
    ensures Moderate(tenants, more, tenantId, prices, n)
    ensures Spend(Run(tenants, more).audit, tenantId) == spent + Each(c, n)
  {
    var hi := i + n;
    var admitted := AdmitMany(tenants, events, tenantId, prices, n, i, hi, spent);
    more := SettleAll(tenants, admitted, tenantId, prices, n, i, hi, spent, c, spent + Each(c, n));
  }

  lemma SettleAll(
      tenants: Tenants, events: seq<Event>, tenantId: string, prices: real -> bool, n: nat, lo: nat, hi: nat,
      spent: real, c: real, total: real)
    returns (more: seq<Event>)
    requires Reached(tenants, events, tenantId, prices, n, lo, hi, spent) && hi - lo == n && prices(c)
    requires total == spent + Each(c, n)
    ensures Moderate(tenants, more, tenantId, prices, n)
    ensures Spend(Run(tenants, more).audit, tenantId) == total
  {
    more := SettleMany(tenants, events, tenantId, prices, n, lo, hi, hi, spent, c);
  }

  /** From the start, `n` runs at once, each charged `c`, whatever the budget beyond one estimate. */
  lemma FirstBurst(tenants: Tenants, tenantId: string, prices: real -> bool, n: nat, c: real)
    returns (events: seq<Event>)
    requires tenantId in tenants && Scenarios.Open(tenants[tenantId]) && prices(c)
    ensures Moderate(tenants, events, tenantId, prices, n)
    ensures Spend(Run(tenants, events).audit, tenantId) == Each(c, n)
  {
    Scenarios.InitialReady(tenantId);
    assert Reached(tenants, [], tenantId, prices, n, 0, 0, 0.0);
    events := Burst(tenants, [], tenantId, prices, n, 0, 0.0, c);
  }

  lemma EnoughRuns(amount: real, c: real) returns (k: nat)
    requires amount >= 0.0 && c > 0.0
    ensures amount <= Each(c, k)
  {
    var q := amount / c;
    k := q.Floor + 1;
    assert q <= k as real;
    assert amount == c * q;
    ProductMonotone(c, q, k as real);
    EachIsProduct(c, k);
  }

  lemma ProductMonotone(c: real, x: real, y: real)
    requires c > 0.0 && x <= y
    ensures c * x <= c * y
  {
  }

  /**
   The ceiling is attained: for every tenant whose gates can be passed, every price cap and every `n`, some
   run with at most `n` of its requests in flight and no price above the cap spends just that much.
   */
  lemma OvershootIsAttained(tenants: Tenants, tenantId: string, n: nat, c: real) returns (events: seq<Event>)
    requires tenantId in tenants && Scenarios.Open(tenants[tenantId]) && n >= 1 && c > 0.0
    ensures Moderate(tenants, events, tenantId, UpTo(c), n)
    ensures Spend(Run(tenants, events).audit, tenantId)
         == tenants[tenantId].monthlyBudgetUsd - ESTIMATED_NEXT_CALL_USD + Each(c, n)
  {
    var first := tenants[tenantId].monthlyBudgetUsd - ESTIMATED_NEXT_CALL_USD;
    var k := EnoughRuns(first, c);
    var i: nat;
    events, i := SpendOneByOne(tenants, tenantId, n, c, k, first);
    events := Burst(tenants, events, tenantId, UpTo(c), n, i, first, c);
  }

  /** No run at these prices with at most `n` of the tenant's requests in flight exceeds its budget. */
  ghost predicate StaysInBudget(tenants: Tenants, tenantId: string, prices: real -> bool, n: nat)
    requires tenantId in tenants
  {
    forall events | Moderate(tenants, events, tenantId, prices, n) ::
      Spend(Run(tenants, events).audit, tenantId) <= tenants[tenantId].monthlyBudgetUsd
  }

  /** The budget is safe when the runs in flight together cost no more than the guard's estimate of one. */
  lemma CheapEnoughStays(tenants: Tenants, tenantId: string, prices: real -> bool, n: nat, c: real)
    requires tenantId in tenants && tenants[tenantId].monthlyBudgetUsd >= 0.0
    requires c >= 0.0 && AtMost(prices, c) && Each(c, n) <= ESTIMATED_NEXT_CALL_USD
    ensures StaysInBudget(tenants, tenantId, prices, n)
  {
    forall events | Moderate(tenants, events, tenantId, prices, n)
      ensures Spend(Run(tenants, events).audit, tenantId) <= tenants[tenantId].monthlyBudgetUsd
    {
      SpendUnderCeiling(tenants, events, tenantId, prices, n, c);
    }
  }

  /** And at any price up to `c` it is safe in no other case. */
  lemma BudgetHoldsIff(tenants: Tenants, tenantId: string, n: nat, c: real)
    requires tenantId in tenants && Scenarios.Open(tenants[tenantId]) && c >= 0.0
    ensures StaysInBudget(tenants, tenantId, UpTo(c), n) <==> Each(c, n) <= ESTIMATED_NEXT_CALL_USD
  {
    if Each(c, n) <= ESTIMATED_NEXT_CALL_USD {
      CheapEnoughStays(tenants, tenantId, UpTo(c), n, c);
    } else {
      EachIsProduct(c, n);
      var events := OvershootIsAttained(tenants, tenantId, n, c);
    }
  }

  /** A tenant whose runs never overlap never exceeds its budget, at prices up to the full estimate. */
  lemma SequentialStaysInBudget(tenants: Tenants, events: seq<Event>, tenantId: string)
    requires tenantId in tenants && tenants[tenantId].monthlyBudgetUsd >= 0.0
    requires Moderate(tenants, events, tenantId, UpTo(ESTIMATED_NEXT_CALL_USD), 1)
    ensures Spend(Run(tenants, events).audit, tenantId) <= tenants[tenantId].monthlyBudgetUsd
  {
    EachIsProduct(ESTIMATED_NEXT_CALL_USD, 1);
    CheapEnoughStays(tenants, tenantId, UpTo(ESTIMATED_NEXT_CALL_USD), 1, ESTIMATED_NEXT_CALL_USD);
  }

  /** For providers that may charge the full estimate, that is when runs do not overlap. */
  lemma BudgetHoldsIffSequential(tenants: Tenants, tenantId: string, n: nat)
    requires tenantId in tenants && Scenarios.Open(tenants[tenantId])
    ensures StaysInBudget(tenants, tenantId, UpTo(ESTIMATED_NEXT_CALL_USD), n) <==> n <= 1
  {
    BudgetHoldsIff(tenants, tenantId, n, ESTIMATED_NEXT_CALL_USD);
    EachIsProduct(ESTIMATED_NEXT_CALL_USD, n);
  }
}
