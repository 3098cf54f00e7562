/**
 Admission over whole runs of the pipeline: which requests reach the limiter, how many are admitted in a
 minute, and what admission comes down to.
 */
module Admission {
  import opened Results
  import opened Pipeline
  import PipelineProperties
  import RateLimit

  /** The request is of a registered tenant with a verified key. */
  predicate Authorized(tenants: Tenants, input: Input) {
    input.tenantId in tenants && input.keyVerifies
  }

  /** It is authorized, no replay, and neither kill switch is on. */
  predicate Live(tenants: Tenants, st: State, input: Input) {
    && Authorized(tenants, input) && LookupIdempotentJob(st, input.tenantId, input.idempotencyKey).None?
    && !input.globalKillSwitch && !tenants[input.tenantId].killSwitch
  }

  /** The person image is accepted, and so is the garment image if there is one. */
  predicate ImagesAccepted(input: Input) {
    input.personImage.Accepted? && (input.garmentImage.None? || input.garmentImage.value.Accepted?)
  }

  /** The first image that is not accepted, the person's before the garment's, gets this verdict. */
  predicate FirstReject(input: Input, verdict: ImageVerdict) {
    && !verdict.Accepted?
    && (input.personImage == verdict || (input.personImage.Accepted? && input.garmentImage == Some(verdict)))
  }

  /** The request passes every gate before the limiter. */
  predicate ReachesLimiter(tenants: Tenants, st: State, input: Input) {
    && input.requestId !in st.inFlight && input.requestId !in st.finished
    && Live(tenants, st, input) && ImagesAccepted(input)
  }

  /** What the limiter is asked on an event. */
  function Asked(tenants: Tenants, st: State, e: Event): seq<RateLimit.Request> {
    if e.Arrives? && ReachesLimiter(tenants, st, e.input)
    then [LimiterRequest(e.input, tenants[e.input.tenantId])] else []
  }

  /** The requests of a run that the limiter is asked about, in order. */
  function Limited(tenants: Tenants, events: seq<Event>): seq<RateLimit.Request> {
    if events == [] then []
    else
      var before, e := events[..|events| - 1], events[|events| - 1];
      Limited(tenants, before) + Asked(tenants, Run(tenants, before), e)
  }

  predicate Admits(tenants: Tenants, st: State, e: Event) {
    e.Arrives? && e.input.requestId !in st.inFlight && e.input.requestId in React(tenants, st, e).inFlight
  }

  /** The clock readings at which runs of a tenant, or of one of its shoppers, are admitted. */
  function AdmittedTimes(tenants: Tenants, events: seq<Event>, who: RateLimit.Subject): seq<int> {
    if events == [] then []
    else
      var before, e := events[..|events| - 1], events[|events| - 1];
      AdmittedTimes(tenants, before, who)
      + if Admits(tenants, Run(tenants, before), e) && IsOf(e.input, who) then [e.input.now] else []
  }

  predicate IsOf(input: Input, who: RateLimit.Subject) {
    input.tenantId == who.tenantId && (who.Shopper? ==> input.shopperId == who.shopperId)
  }

  // ----- The pipeline's buckets are those of a run of the limiter -----

  lemma GatesAsk(st: State, input: Input, config: TenantConfig)
    requires input.requestId !in st.inFlight
    ensures LimitGates(st, input, config).buckets == RateLimit.Check(st.buckets, LimiterRequest(input, config)).0
    ensures input.requestId in LimitGates(st, input, config).inFlight
        ==> RateLimit.Check(st.buckets, LimiterRequest(input, config)).1.allowed
  {
  }

  /** An event that asks the limiter leaves its buckets; any other leaves the buckets alone and admits nothing. */
  lemma AskedStep(tenants: Tenants, st: State, e: Event)
    ensures Asked(tenants, st, e) == []
        ==> React(tenants, st, e).buckets == st.buckets && !Admits(tenants, st, e)
    ensures Asked(tenants, st, e) != []
        ==> React(tenants, st, e).buckets == RateLimit.Check(st.buckets, Asked(tenants, st, e)[0]).0
            && (Admits(tenants, st, e) ==> RateLimit.Check(st.buckets, Asked(tenants, st, e)[0]).1.allowed)
  {
    if e.Arrives? && ReachesLimiter(tenants, st, e.input) {
      GatesAsk(st, e.input, tenants[e.input.tenantId]);
    }
  }

  lemma LimiterSnoc(qs: seq<RateLimit.Request>, q: RateLimit.Request)
    ensures RateLimit.Run(qs + [q]) == RateLimit.Check(RateLimit.Run(qs), q).0
  {
    assert (qs + [q])[..|qs|] == qs;
  }

  lemma {:induction false} BucketsAreTheLimiters(tenants: Tenants, events: seq<Event>)
    ensures Run(tenants, events).buckets == RateLimit.Run(Limited(tenants, events))
  {
    if events != [] {
      var before, e := events[..|events| - 1], events[|events| - 1];
      BucketsAreTheLimiters(tenants, before);
      AskedStep(tenants, Run(tenants, before), e);
      var qs, asked := Limited(tenants, before), Asked(tenants, Run(tenants, before), e);
      if asked == [] {
        assert qs + asked == qs;
      } else {
        LimiterSnoc(qs, asked[0]);
        assert asked == [asked[0]];
      }
    }
  }

  // ----- The cap on admitted runs -----

  lemma AllowedSnoc(qs: seq<RateLimit.Request>, q: RateLimit.Request, who: RateLimit.Subject)
    ensures RateLimit.AllowedTimes(qs + [q], who)
         == RateLimit.AllowedTimes(qs, who)
            + if RateLimit.Decide(qs, q).allowed && RateLimit.IsOf(q, who) then [q.now] else []
  {
    assert (qs + [q])[..|qs|] == qs;
  }

  /** Every admitted run was allowed by the limiter, so no window holds more admissions than allowances. */
  lemma {:induction false} AdmittedAreAllowed(tenants: Tenants, events: seq<Event>, who: RateLimit.Subject, lo: int)
    ensures |RateLimit.InWindow(AdmittedTimes(tenants, events, who), lo)|
         <= |RateLimit.InWindow(RateLimit.AllowedTimes(Limited(tenants, events), who), lo)|
  {
    if events != [] {
      var before, e := events[..|events| - 1], events[|events| - 1];
      var st, qs := Run(tenants, before), Limited(tenants, before);
      AdmittedAreAllowed(tenants, before, who, lo);
      BucketsAreTheLimiters(tenants, before);
      AskedStep(tenants, st, e);
      AdmissionCounted(tenants, st, e, qs, AdmittedTimes(tenants, before, who), who, lo);
    }
  }

  lemma AdmissionCounted(
      tenants: Tenants, st: State, e: Event, qs: seq<RateLimit.Request>, admitted: seq<int>, who: RateLimit.Subject,
          lo: int)
    requires st.buckets == RateLimit.Run(qs)
    requires |RateLimit.InWindow(admitted, lo)| <= |RateLimit.InWindow(RateLimit.AllowedTimes(qs, who), lo)|
    ensures var more := admitted + if Admits(tenants, st, e) && IsOf(e.input, who) then [e.input.now] else [];
      var allowed := RateLimit.AllowedTimes(qs + Asked(tenants, st, e), who);
      |RateLimit.InWindow(more, lo)| <= |RateLimit.InWindow(allowed, lo)|
  {
    var allowed, asked := RateLimit.AllowedTimes(qs, who), Asked(tenants, st, e);
    AskedStep(tenants, st, e);
    if asked == [] {
      assert qs + asked == qs && admitted + [] == admitted;
    } else {
      var q := asked[0];
      assert asked == [q] && admitted + [] == admitted && allowed + [] == allowed;
      AllowedSnoc(qs, q, who);
      RateLimit.InWindowAppend(admitted, q.now, lo);
      RateLimit.InWindowAppend(allowed, q.now, lo);
    }
  }

  function CapFor(config: TenantConfig, who: RateLimit.Subject): int {
    if who.Tenant? then config.perTenantPerMinute else config.perShopperPerMinute
  }

  /** The limiter is always asked with the tenant's own caps. */
  ghost predicate CapsAreTenants(tenants: Tenants, qs: seq<RateLimit.Request>) {
    forall q | q in qs :: q.tenantId in tenants && forall who | RateLimit.IsOf(q, who) ::
      RateLimit.CapOf(q, who) == CapFor(tenants[q.tenantId], who)
  }

  lemma {:induction false} LimitedCaps(tenants: Tenants, events: seq<Event>)
    ensures CapsAreTenants(tenants, Limited(tenants, events))
  {
    if events != [] {
      LimitedCaps(tenants, events[..|events| - 1]);
    }
  }

  lemma {:induction false} LastCapIsTenants(
      tenants: Tenants, qs: seq<RateLimit.Request>, who: RateLimit.Subject, lo: int)
    requires CapsAreTenants(tenants, qs) && who.tenantId in tenants
    ensures RateLimit.LastCap(qs, who, lo) == 0
         || RateLimit.LastCap(qs, who, lo) == CapFor(tenants[who.tenantId], who) > 0
  {
    if qs != [] {
      var before, q := qs[..|qs| - 1], qs[|qs| - 1];
      assert q in qs;
      LastCapIsTenants(tenants, before, who, lo);
    }
  }

  /**
   In every half-open 60 s window of every run of the pipeline, whatever else the gates do and however many
   requests are in flight, the admitted runs of a tenant or of a shopper number at most the tenant's cap.
   */
  lemma AdmissionsWithinCap(tenants: Tenants, events: seq<Event>, who: RateLimit.Subject, lo: int)
    requires who.tenantId in tenants && RateLimit.NonDecreasing(Limited(tenants, events))
    ensures var cap := CapFor(tenants[who.tenantId], who);
      |RateLimit.InWindow(AdmittedTimes(tenants, events, who), lo)| <= if cap > 0 then cap else 0
  {
    AdmittedAreAllowed(tenants, events, who, lo);
    RateLimit.WindowCap(Limited(tenants, events), who, lo);
    LimitedCaps(tenants, events);
    LastCapIsTenants(tenants, Limited(tenants, events), who, lo);
  }

  // ----- Admission from what was allowed and what was stored -----

  lemma GatesAdmitIff(st: State, input: Input, config: TenantConfig)
    requires input.requestId !in st.inFlight
    ensures input.requestId in LimitGates(st, input, config).inFlight
       <==> RateLimit.Check(st.buckets, LimiterRequest(input, config)).1.allowed
            && Spend(st.audit, input.tenantId) + ESTIMATED_NEXT_CALL_USD <= config.monthlyBudgetUsd
  {
  }

  /**
   A request that passes the earlier gates is admitted exactly when the limiter that never forgets would
   allow it, and the tenant's stored jobs leave room for one estimate: the pruned buckets and the audit
   trail that the code looks at tell no more and no less.
   */
  lemma AdmittedByHistory(tenants: Tenants, events: seq<Event>, input: Input)
    requires ReachesLimiter(tenants, Run(tenants, events), input)
    requires RateLimit.NonDecreasing(Limited(tenants, events) + [LimiterRequest(input, tenants[input.tenantId])])
    ensures var q := LimiterRequest(input, tenants[input.tenantId]);
      input.requestId in Run(tenants, events + [Arrives(input)]).inFlight
      <==> RateLimit.DecideByHistory(Limited(tenants, events), q).allowed
           && PipelineProperties.JobCosts(Run(tenants, events).jobs, input.tenantId) + ESTIMATED_NEXT_CALL_USD
              <= tenants[input.tenantId].monthlyBudgetUsd
  {
    var st, config := Run(tenants, events), tenants[input.tenantId];
    GatesAdmitIff(st, input, config);
    BucketsAreTheLimiters(tenants, events);
    RateLimit.RefinesFullHistory(Limited(tenants, events), LimiterRequest(input, config));
    PipelineProperties.LedgerConservation(tenants, events, input.tenantId);
    LastArrival(tenants, events, input);
  }

  lemma LastArrival(tenants: Tenants, events: seq<Event>, input: Input)
    requires ReachesLimiter(tenants, Run(tenants, events), input)
    ensures Run(tenants, events + [Arrives(input)]) == LimitGates(Run(tenants, events), input, tenants[input.tenantId])
  {
    assert (events + [Arrives(input)])[..|events|] == events;
  }

  // ----- Which way a request goes -----

  /** The limiter's answer to the request. */
  function LimiterSays(tenants: Tenants, st: State, input: Input): RateLimit.Decision
    requires input.tenantId in tenants
  {
    RateLimit.Check(st.buckets, RateLimit.Request(input.now, input.tenantId, input.shopperId,
      tenants[input.tenantId].perShopperPerMinute, tenants[input.tenantId].perTenantPerMinute)).1
  }

  /** Where a fresh request must end up, gate by gate, said of its fields, the limiter's answer and the spend. */
  ghost predicate GoesTo(tenants: Tenants, st: State, input: Input, ending: Option<Ending>) {
    if !Authorized(tenants, input) then ending == Some(Refused(Unauthorized))
    else if LookupIdempotentJob(st, input.tenantId, input.idempotencyKey).Some? then
      ending == Some(Replayed(LookupIdempotentJob(st, input.tenantId, input.idempotencyKey).value))
    else if !Live(tenants, st, input) then ending == Some(Refused(KillSwitchEngaged))
    else if FirstReject(input, TooLarge) then ending == Some(Refused(PayloadTooLarge))
    else if FirstReject(input, OtherwiseRejected) then ending == Some(Refused(InvalidInput))
    else if !LimiterSays(tenants, st, input).allowed then
      ending == Some(Refused(RateLimited(LimiterSays(tenants, st, input).retryAfterMs)))
    else if Spend(st.audit, input.tenantId) + 0.05 > tenants[input.tenantId].monthlyBudgetUsd then
      ending == Some(Refused(BudgetExceeded))
    else ending == None
  }

  /** The run has ended so, or is in flight. */
  ghost predicate EndsAs(after: State, id: nat, ending: Option<Ending>) {
    && (ending.Some? ==> id in after.finished && after.finished[id] == ending.value && id !in after.inFlight)
    && (ending.None? ==> id in after.inFlight && id !in after.finished)
  }

  /** A refusal writes one deny event with the shopper as its actor; any other arrival writes nothing. */
  function Written(input: Input, ending: Option<Ending>): seq<AuditEvent> {
    if ending.Some? && ending.value.Refused? then
      [AuditEvent(input.tenantId, input.shopperId, input.requestId, Deny, None)]
    else []
  }

  lemma LimitedGoes(tenants: Tenants, st: State, input: Input) returns (ending: Option<Ending>)
    requires ReachesLimiter(tenants, st, input)
    ensures GoesTo(tenants, st, input, ending)
    ensures var after := LimitGates(st, input, tenants[input.tenantId]);
      EndsAs(after, input.requestId, ending) && after.audit == st.audit + Written(input, ending)
  {
    if !LimiterSays(tenants, st, input).allowed {
      ending := Some(Refused(RateLimited(LimiterSays(tenants, st, input).retryAfterMs)));
    } else if Spend(st.audit, input.tenantId) + 0.05 > tenants[input.tenantId].monthlyBudgetUsd {
      ending := Some(Refused(BudgetExceeded));
    } else {
      ending := None;
      assert st.audit + [] == st.audit;
    }
  }

  /**
   Each fresh request meets the gates in order: unauthorized, replayed, kill switch, person image before
   garment image, rate limit with the limiter's hint, budget; it is admitted exactly past all of them; and a
   refusal, only a refusal, writes one deny event whose actor is the shopper.
   */
  lemma ArrivalGoes(tenants: Tenants, st: State, input: Input) returns (ending: Option<Ending>)
    requires input.requestId !in st.inFlight && input.requestId !in st.finished
    ensures GoesTo(tenants, st, input, ending)
    ensures var after := Arrive(tenants, st, input);
      EndsAs(after, input.requestId, ending) && after.audit == st.audit + Written(input, ending)
  {
    if ReachesLimiter(tenants, st, input) {
      ending := LimitedGoes(tenants, st, input);
    } else {
      ending := EarlyGoes(tenants, st, input);
    }
  }

  lemma EarlyGoes(tenants: Tenants, st: State, input: Input) returns (ending: Option<Ending>)
    requires input.requestId !in st.inFlight && input.requestId !in st.finished
    requires !ReachesLimiter(tenants, st, input)
    ensures GoesTo(tenants, st, input, ending)
    ensures var after := Arrive(tenants, st, input);
      EndsAs(after, input.requestId, ending) && after.audit == st.audit + Written(input, ending)
  {
    ending := Some(Arrive(tenants, st, input).finished[input.requestId]);
    assert st.audit + [] == st.audit;
  }

  /** Whoever is admitted has accepted images. */
  lemma AdmittedImages(tenants: Tenants, st: State, input: Input)
    requires input.requestId !in st.inFlight && input.requestId !in st.finished
    requires input.requestId in Arrive(tenants, st, input).inFlight
    ensures input.personImage == Accepted && (input.garmentImage == None || input.garmentImage == Some(Accepted))
  {
    var ending := ArrivalGoes(tenants, st, input);
  }
}
