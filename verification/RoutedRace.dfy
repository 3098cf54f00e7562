/**
 packages/engine/src/router.ts with router_timeout.ts: the fall-through loop with every attempt raced
 against its timer and the caller's abort signal, which all the races share.
 */
module RoutedRace {
  import opened Results
  import opened JsStrings
  import opened Router
  import opened TimedRace
  import Collections

  /** What the races settle with: the URL of a result, or an error. */
  type RaceEvent = TimedRace.Event<JsString>

  /** What happens from the start of a candidate's race until the loop goes on, with the clock before and after it. */
  datatype Leg = Leg(events: seq<RaceEvent>, started: int, ended: int)

  /** One request's view of router and races: the leg of a provider that is granted a timeout. */
  datatype RacedCall = RacedCall(
    legs: (ProviderId, int) -> Leg,
    urlOk: JsString -> bool,
    callTimeoutMs: Option<int>,
    defaultTimeoutMs: int,
    hasSignal: bool)
  {
    function LegOf(c: Candidate): Leg {
      legs(c.id, ResolveTimeout(c, callTimeoutMs, defaultTimeoutMs))
    }

    /** The race of a candidate, begun with the caller's signal aborted or not. */
    function RaceOf(c: Candidate, aborted: bool): State<JsString> {
      TimedRace.Run(hasSignal, aborted, LegOf(c).events)
    }

    /** Whether the caller's signal is aborted once the leg is over. */
    predicate AbortedAfter(c: Candidate, aborted: bool) {
      aborted || (hasSignal && CallerAborts in LegOf(c).events)
    }

    /** What the race made of the attempt. */
    function AttemptOf(c: Candidate, aborted: bool): Attempt {
      var settlements := RaceOf(c, aborted).settlements;
      if settlements != [] && settlements[0].Resolved? then
        Fulfils(settlements[0].value, LegOf(c).started, LegOf(c).ended)
      else Fails
    }

    /** The router's view of a single candidate, its attempt being what the race made of it. */
    function Single(c: Candidate, aborted: bool): Call {
      var attempt := AttemptOf(c, aborted);
      Call((id: ProviderId, timeoutMs: int) => attempt, urlOk, callTimeoutMs, defaultTimeoutMs)
    }
  }

  /** The outcome, None while a race has not settled, and the providers whose attempts were started. */
  datatype Raced = Raced(outcome: Option<Result<TryOnResult, RouteError>>, started: seq<ProviderId>)

  function StartedIn(call: RacedCall, c: Candidate, aborted: bool): seq<ProviderId> {
    if call.RaceOf(c, aborted).attemptStarted then [c.id] else []
  }

  /** The loop over the candidates, begun with the caller's signal aborted or not. */
  function RaceAll(call: RacedCall, cs: seq<Candidate>, aborted: bool): Raced {
    if cs == [] then Raced(Some(Err(AllProvidersFailed)), [])
    else
      var c, started := cs[0], StartedIn(call, cs[0], aborted);
      if call.RaceOf(c, aborted).settlements == [] then Raced(None, started)
      else if call.Single(c, aborted).Succeeds(c) then Raced(Some(Ok(call.Single(c, aborted).Stamp(c))), started)
      else
        var rest := RaceAll(call, cs[1..], call.AbortedAfter(c, aborted));
        Raced(rest.outcome, started + rest.started)
  }

  function RacedRoute(call: RacedCall, cs: seq<Candidate>, aborted: bool): Raced {
    if cs == [] then Raced(Some(Err(NoProviderPermitted)), []) else RaceAll(call, cs, aborted)
  }

  // ----- The loop, running the races -----

  /** One race from its start: the events are delivered one by one. */
  method RunRace(hasSignal: bool, aborted: bool, events: seq<RaceEvent>) returns (st: State<JsString>)
    ensures st == TimedRace.Run(hasSignal, aborted, events)
  {
    var race := new Race<JsString>(hasSignal, aborted);
    for j := 0 to |events|
      invariant race.View() == TimedRace.Run(hasSignal, aborted, events[..j])
    {
      assert events[..j + 1][..j] == events[..j];
      race.Deliver(events[j]);
    }
    assert events[..|events|] == events;
    st := State(race.settled, race.settlements, race.timerLive, race.listenerLive, race.controllerAborted,
      race.attemptStarted, race.attemptPending);
  }

  method Route(
      call: RacedCall, allowed: seq<ProviderId>, routing: map<ProviderId, ProviderRouting>,
      registry: set<ProviderId>, alreadyAborted: bool)
    returns (r: Raced)
    ensures r == RacedRoute(call, Order(allowed, routing, registry), alreadyAborted)
  {
    var candidates := OrderCandidates(allowed, routing, registry);
    if candidates == [] {
      return Raced(Some(Err(NoProviderPermitted)), []);
    }
    r := RaceCandidates(call, candidates, alreadyAborted);
  }

  method RaceCandidates(call: RacedCall, candidates: seq<Candidate>, alreadyAborted: bool) returns (r: Raced)
    ensures r == RaceAll(call, candidates, alreadyAborted)
  {
    var aborted, started := alreadyAborted, [];
    AfterNothing(call, candidates, alreadyAborted);
    for i := 0 to |candidates|
      invariant RaceAll(call, candidates, alreadyAborted) == After(started, RaceAll(call, candidates[i..], aborted))
    {
      var c := candidates[i];
      var st := RunRace(call.hasSignal, aborted, call.LegOf(c).events);
      OneLeg(call, candidates, i, aborted, started);
      started := started + if st.attemptStarted then [c.id] else [];
      if st.settlements == [] {
        return Raced(None, started);
      }
      var single := call.Single(c, aborted);
      if single.Succeeds(c) {
        return Raced(Some(Ok(single.Stamp(c))), started);
      }
      aborted := call.AbortedAfter(c, aborted);
    }
    AfterAll(call, candidates, aborted, started);
    r := Raced(Some(Err(AllProvidersFailed)), started);
  }

  function After(started: seq<ProviderId>, rest: Raced): Raced {
    Raced(rest.outcome, started + rest.started)
  }

  lemma AfterNothing(call: RacedCall, cs: seq<Candidate>, aborted: bool)
    ensures RaceAll(call, cs, aborted) == After([], RaceAll(call, cs[0..], aborted))
  {
    assert cs[0..] == cs;
    assert [] + RaceAll(call, cs, aborted).started == RaceAll(call, cs, aborted).started;
  }

  lemma AfterAll(call: RacedCall, cs: seq<Candidate>, aborted: bool, started: seq<ProviderId>)
    ensures After(started, RaceAll(call, cs[|cs|..], aborted)) == Raced(Some(Err(AllProvidersFailed)), started)
  {
    assert cs[|cs|..] == [] && started + [] == started;
  }

  /** One turn of the loop, after some attempts were started. */
  lemma OneLeg(call: RacedCall, cs: seq<Candidate>, i: nat, aborted: bool, started: seq<ProviderId>)
    requires i < |cs|
    ensures var c, more := cs[i], started + StartedIn(call, cs[i], aborted);
      After(started, RaceAll(call, cs[i..], aborted))
      == if call.RaceOf(c, aborted).settlements == [] then Raced(None, more)
         else if call.Single(c, aborted).Succeeds(c) then Raced(Some(Ok(call.Single(c, aborted).Stamp(c))), more)
         else After(more, RaceAll(call, cs[i + 1..], call.AbortedAfter(c, aborted)))
  {
    var rest := RaceAll(call, cs[i + 1..], call.AbortedAfter(cs[i], aborted));
    assert cs[i..][1..] == cs[i + 1..];
    Collections.Associative(started, StartedIn(call, cs[i], aborted), rest.started);
  }

  // ----- After an abort -----

  /** A race begun for a caller who has aborted is cancelled at once, and its attempt is not started. */
  lemma AbortedRace(call: RacedCall, c: Candidate)
    requires call.hasSignal
    ensures call.RaceOf(c, true).settlements == [Cancelled] && !call.RaceOf(c, true).attemptStarted
    ensures !call.Single(c, true).Succeeds(c)
  {
    FirstEventDecides(call.hasSignal, true, call.LegOf(c).events);
  }

  /** Once the caller has aborted, no attempt is started, and the outcome is that all providers failed. */
  lemma {:induction false} NothingAfterAbort(call: RacedCall, cs: seq<Candidate>)
    requires call.hasSignal
    ensures RaceAll(call, cs, true) == Raced(Some(Err(AllProvidersFailed)), [])
  {
    if cs != [] {
      AbortedRace(call, cs[0]);
      NothingAfterAbort(call, cs[1..]);
    }
  }

  /** The signal is first aborted during the leg of candidate `k`. */
  ghost predicate AbortsDuring(call: RacedCall, cs: seq<Candidate>, k: nat) {
    && k < |cs| && CallerAborts in call.LegOf(cs[k]).events
    && forall j | 0 <= j < k :: CallerAborts !in call.LegOf(cs[j]).events
  }

  /** The race of candidate `k`, and of those before it, has an outcome but no success. */
  ghost predicate FailsAt(call: RacedCall, cs: seq<Candidate>, k: nat)
    requires k < |cs|
  {
    call.RaceOf(cs[k], false).settlements != [] && !call.Single(cs[k], false).Succeeds(cs[k])
  }

  /** An abort during the leg of candidate `k` lets no later candidate's attempt start. */
  lemma {:induction false} AbortStopsAttempts(call: RacedCall, cs: seq<Candidate>, k: nat)
    requires call.hasSignal && AbortsDuring(call, cs, k)
    ensures RaceAll(call, cs, false).started <= Names(cs[..k + 1])
  {
    StartedFirst(call, cs[0]);
    NamesFirst(cs, k);
    if k == 0 {
      NothingAfterAbort(call, cs[1..]);
    } else {
      TailAborts(call, cs, k);
      AbortStopsAttempts(call, cs[1..], k - 1);
    }
  }

  /**
   And the route then ends with all providers failed exactly when the legs up to and including that one all
   end without success.
   */
  lemma {:induction false} AbortDecidesRoute(call: RacedCall, cs: seq<Candidate>, k: nat)
    requires call.hasSignal && AbortsDuring(call, cs, k)
    ensures RaceAll(call, cs, false).outcome == Some(Err(AllProvidersFailed))
       <==> forall j | 0 <= j <= k :: FailsAt(call, cs, j)
  {
    if k == 0 {
      NothingAfterAbort(call, cs[1..]);
      assert (forall j | 0 <= j <= k :: FailsAt(call, cs, j)) <==> FailsAt(call, cs, 0);
    } else {
      TailAborts(call, cs, k);
      AbortDecidesRoute(call, cs[1..], k - 1);
      TailFails(call, cs, k);
    }
  }

  /** The ids of candidates, in order. */
  function Names(cs: seq<Candidate>): (ids: seq<ProviderId>)
    ensures |ids| == |cs|
  {
    if cs == [] then [] else [cs[0].id] + Names(cs[1..])
  }

  /** Before any abort, a candidate's attempt is started. */
  lemma StartedFirst(call: RacedCall, c: Candidate)
    ensures StartedIn(call, c, false) == [c.id]
  {
    FirstEventDecides(call.hasSignal, false, call.LegOf(c).events);
  }

  lemma NamesFirst(cs: seq<Candidate>, k: nat)
    requires k < |cs|
    ensures Names(cs[..k + 1]) == [cs[0].id] + Names(cs[1..][..k])
  {
    assert cs[..k + 1][1..] == cs[1..][..k];
  }

  lemma TailAborts(call: RacedCall, cs: seq<Candidate>, k: nat)
    requires AbortsDuring(call, cs, k) && k > 0
    ensures AbortsDuring(call, cs[1..], k - 1) && !call.AbortedAfter(cs[0], false)
  {
  }

  lemma TailFails(call: RacedCall, cs: seq<Candidate>, k: nat)
    requires k < |cs| && k > 0
    ensures (forall j | 0 <= j <= k :: FailsAt(call, cs, j))
       <==> FailsAt(call, cs, 0) && forall j | 0 <= j <= k - 1 :: FailsAt(call, cs[1..], j)
  {
    assert forall j | 0 <= j <= k - 1 :: FailsAt(call, cs[1..], j) <==> FailsAt(call, cs, j + 1);
    assert forall j | 1 <= j <= k :: FailsAt(call, cs, j) <==> FailsAt(call, cs[1..], j - 1);
  }

  // ----- The raced loop is the router's loop, with the attempts the races make -----

  /** What its race makes of the attempt of the provider `id`. */
  function AttemptFor(call: RacedCall, cs: seq<Candidate>, aborted: bool, id: ProviderId): Attempt {
    if cs == [] then Fails
    else if cs[0].id == id then call.AttemptOf(cs[0], aborted)
    else AttemptFor(call, cs[1..], call.AbortedAfter(cs[0], aborted), id)
  }

  function AsCall(call: RacedCall, cs: seq<Candidate>, aborted: bool): Call {
    Call((id: ProviderId, timeoutMs: int) => AttemptFor(call, cs, aborted, id),
      call.urlOk, call.callTimeoutMs, call.defaultTimeoutMs)
  }

  ghost predicate IdsDiffer(cs: seq<Candidate>) {
    forall i, j | 0 <= i < j < |cs| :: cs[i].id != cs[j].id
  }

  /** The two calls make the same of the candidates. */
  ghost predicate Alike(a: Call, b: Call, cs: seq<Candidate>) {
    a.urlOk == b.urlOk && forall i | 0 <= i < |cs| :: a.AttemptOf(cs[i]) == b.AttemptOf(cs[i])
  }

  lemma {:induction false} AlikeSucceed(a: Call, b: Call, cs: seq<Candidate>)
    requires Alike(a, b, cs)
    ensures FirstSuccess(a, cs) == FirstSuccess(b, cs) && OutcomeOf(a, cs) == OutcomeOf(b, cs)
  {
    var k := FirstSuccess(a, cs);
    assert forall i | 0 <= i < |cs| :: a.Succeeds(cs[i]) <==> b.Succeeds(cs[i]);
    FirstSuccessUnique(b, cs, k);
  }

  /** The outcome, candidate by candidate. */
  lemma OutcomeFirst(call: Call, cs: seq<Candidate>)
    requires cs != []
    ensures OutcomeOf(call, cs)
         == if call.Succeeds(cs[0]) then Ok(call.Stamp(cs[0]))
            else if |cs| == 1 then Err(AllProvidersFailed) else OutcomeOf(call, cs[1..])
  {
  }

  lemma TailAlike(call: RacedCall, cs: seq<Candidate>, aborted: bool)
    requires cs != [] && IdsDiffer(cs)
    ensures IdsDiffer(cs[1..])
    ensures Alike(AsCall(call, cs, aborted), AsCall(call, cs[1..], call.AbortedAfter(cs[0], aborted)), cs[1..])
  {
    var tail := cs[1..];
    forall i | 0 <= i < |tail|
      ensures AsCall(call, cs, aborted).AttemptOf(tail[i])
           == AsCall(call, tail, call.AbortedAfter(cs[0], aborted)).AttemptOf(tail[i])
    {
      assert tail[i] == cs[i + 1];
    }
  }

  lemma HeadAlike(call: RacedCall, cs: seq<Candidate>, aborted: bool)
    requires cs != []
    ensures Alike(AsCall(call, cs, aborted), call.Single(cs[0], aborted), [cs[0]])
  {
  }

  /** Once settled, the raced loop ends as the plain loop does over the attempts that the races make. */
  lemma {:induction false} RaceAllRefines(call: RacedCall, cs: seq<Candidate>, aborted: bool)
    requires IdsDiffer(cs) && cs != [] && RaceAll(call, cs, aborted).outcome.Some?
    ensures RaceAll(call, cs, aborted).outcome == Some(OutcomeOf(AsCall(call, cs, aborted), cs))
  {
    var plain := AsCall(call, cs, aborted);
    HeadAlike(call, cs, aborted);
    assert [cs[0]][0] == cs[0];
    OutcomeFirst(plain, cs);
    if !plain.Succeeds(cs[0]) && |cs| > 1 {
      TailAlike(call, cs, aborted);
      RaceAllRefines(call, cs[1..], call.AbortedAfter(cs[0], aborted));
      AlikeSucceed(plain, AsCall(call, cs[1..], call.AbortedAfter(cs[0], aborted)), cs[1..]);
    }
  }

  /** So everything proved of the plain loop holds of the raced one: it finds the least provider that works. */
  lemma RouteRefines(
      call: RacedCall, allowed: seq<ProviderId>, routing: map<ProviderId, ProviderRouting>,
      registry: set<ProviderId>, aborted: bool)
    ensures var cs := Order(allowed, routing, registry);
      var raced := RacedRoute(call, cs, aborted);
      raced.outcome.Some? ==> raced.outcome == Some(OutcomeOf(AsCall(call, cs, aborted), cs))
  {
    var cs := Order(allowed, routing, registry);
    OrderIdsDiffer(allowed, routing, registry);
    if cs != [] && RaceAll(call, cs, aborted).outcome.Some? {
      RaceAllRefines(call, cs, aborted);
    }
  }

  lemma OrderIdsDiffer(
      allowed: seq<ProviderId>, routing: map<ProviderId, ProviderRouting>, registry: set<ProviderId>)
    ensures IdsDiffer(Order(allowed, routing, registry))
  {
    var cs := Order(allowed, routing, registry);
    OrderIsSortedIntersection(allowed, routing, registry);
    forall i, j | 0 <= i < j < |cs| ensures cs[i].id != cs[j].id {
      assert cs[i] in cs && cs[j] in cs;
      BeforeTotal(cs[i], cs[i]);
    }
  }
}
