/**
 packages/engine/src/router_timeout.ts: one attempt raced against a timer and the caller's abort
 signal. The three callbacks share the `settled` flag, the timer handle, the abort controller and the
 listener; an event reaches its callback only while its source is live.
 */
module TimedRace {
  import opened Results

  /** How the promise settles. */
  datatype Outcome<T> = Resolved(value: T) | Rejected(error: T) | TimedOut | Cancelled

  /** What the outside world may do: settle the attempt's promise, let the deadline pass, abort the caller's signal. */
  datatype Event<T> = AttemptFulfils(value: T) | AttemptRejects(error: T) | DeadlinePasses | CallerAborts

  datatype State<T> = State(
    settled: bool,
    settlements: seq<Outcome<T>>,
    timerLive: bool,
    listenerLive: bool,
    controllerAborted: bool,
    attemptStarted: bool,
    attemptPending: bool)

  function Finish<T>(st: State<T>, outcome: Outcome<T>): State<T> {
    if st.settled then st
    else st.(settled := true, timerLive := false, listenerLive := false, settlements := st.settlements + [outcome])
  }

  /** The executor of the promise: set the timer, then either give up at once or listen and start the attempt. */
  function Begin<T>(hasSignal: bool, alreadyAborted: bool): State<T> {
    var armed: State<T> := State(false, [], true, false, false, false, false);
    if hasSignal && alreadyAborted then Finish(armed.(controllerAborted := true), Cancelled)
    else armed.(listenerLive := hasSignal, attemptStarted := true, attemptPending := true)
  }

  /** One event. The listener is registered with `once`, so delivering the abort removes it. */
  function React<T>(st: State<T>, e: Event<T>): State<T> {
    match e
    case AttemptFulfils(value) =>
      if st.attemptPending then Finish(st.(attemptPending := false), Resolved(value)) else st
    case AttemptRejects(error) =>
      if st.attemptPending then Finish(st.(attemptPending := false), Rejected(error)) else st
    case DeadlinePasses =>
      if st.timerLive then Finish(st.(timerLive := false, controllerAborted := true), TimedOut) else st
    case CallerAborts =>
      if st.listenerLive then Finish(st.(listenerLive := false, controllerAborted := true), Cancelled) else st
  }

  function Run<T>(hasSignal: bool, alreadyAborted: bool, events: seq<Event<T>>): State<T> {
    if events == [] then Begin(hasSignal, alreadyAborted)
    else React(Run(hasSignal, alreadyAborted, events[..|events| - 1]), events[|events| - 1])
  }

  class Race<T> {
    var settled: bool
    var settlements: seq<Outcome<T>>
    var timerLive: bool
    var listenerLive: bool
    var controllerAborted: bool
    var attemptStarted: bool
    var attemptPending: bool

    ghost function View(): State<T>
      reads this
    {
      State(settled, settlements, timerLive, listenerLive, controllerAborted, attemptStarted, attemptPending)
    }

    constructor (hasSignal: bool, alreadyAborted: bool)
      ensures View() == Begin(hasSignal, alreadyAborted)
    {
      settled, settlements := false, [];
      timerLive, listenerLive, controllerAborted := true, false, false;
      attemptStarted, attemptPending := false, false;
      new;
      if hasSignal {
        if alreadyAborted {
          OnCallerAbort();
          return;
        }
        listenerLive := true;
      }
      attemptStarted, attemptPending := true, true;
    }

    method FinishWith(outcome: Outcome<T>)
      modifies this
      ensures View() == Finish(old(View()), outcome)
    {
      if settled {
        return;
      }
      settled := true;
      timerLive := false;
      listenerLive := false;
      settlements := settlements + [outcome];
    }

    method OnCallerAbort()
      modifies this
      ensures View() == Finish(old(View()).(listenerLive := false, controllerAborted := true), Cancelled)
    {
      listenerLive := false;
      controllerAborted := true;
      FinishWith(Cancelled);
    }

    method OnTimer()
      modifies this
      ensures View() == Finish(old(View()).(timerLive := false, controllerAborted := true), TimedOut)
    {
      timerLive := false;
      controllerAborted := true;
      FinishWith(TimedOut);
    }

    method OnAttempt(outcome: Outcome<T>)
      modifies this
      ensures View() == Finish(old(View()).(attemptPending := false), outcome)
    {
      attemptPending := false;
      FinishWith(outcome);
    }

    /** The event loop: call the callback of an event whose source is live, drop any other event. */
    method Deliver(e: Event<T>)
      modifies this
      ensures View() == React(old(View()), e)
    {
      match e
      case AttemptFulfils(value) =>
        if attemptPending { OnAttempt(Resolved(value)); }
      case AttemptRejects(error) =>
        if attemptPending { OnAttempt(Rejected(error)); }
      case DeadlinePasses =>
        if timerLive { OnTimer(); }
      case CallerAborts =>
        if listenerLive { OnCallerAbort(); }
    }
  }

  // ----- The reference: the first event decides -----

  /** The outcome an event stands for; an abort means nothing to a race that was given no signal. */
  function Verdict<T>(e: Event<T>, hasSignal: bool): Option<Outcome<T>> {
    match e
    case AttemptFulfils(value) => Some(Resolved(value))
    case AttemptRejects(error) => Some(Rejected(error))
    case DeadlinePasses => Some(TimedOut)
    case CallerAborts => if hasSignal then Some(Cancelled) else None
  }

  /** The verdict of the first event that has one. */
  function FirstVerdict<T>(events: seq<Event<T>>, hasSignal: bool): Option<Outcome<T>> {
    if events == [] then None
    else if Verdict(events[0], hasSignal).Some? then Verdict(events[0], hasSignal)
    else FirstVerdict(events[1..], hasSignal)
  }

  lemma {:induction false} FirstVerdictSnoc<T>(events: seq<Event<T>>, e: Event<T>, hasSignal: bool)
    ensures FirstVerdict(events + [e], hasSignal)
         == if FirstVerdict(events, hasSignal).Some? then FirstVerdict(events, hasSignal) else Verdict(e, hasSignal)
  {
    if events == [] {
      assert (events + [e])[1..] == [];
    } else {
      assert (events + [e])[1..] == events[1..] + [e];
      FirstVerdictSnoc(events[1..], e, hasSignal);
    }
  }

  /** The state a race is in once its verdict, if any, is known. */
  ghost predicate Decided<T>(st: State<T>, hasSignal: bool, alreadyAborted: bool, verdict: Option<Outcome<T>>) {
    && st.settlements == (if verdict.Some? then [verdict.value] else [])
    && st.settled == verdict.Some?
    && st.timerLive == verdict.None?
    && st.listenerLive == (verdict.None? && hasSignal)
    && st.controllerAborted == (verdict == Some(TimedOut) || verdict == Some(Cancelled))
    && st.attemptStarted == !(hasSignal && alreadyAborted)
    && (verdict.None? ==> st.attemptPending)
    && (st.attemptPending ==> st.attemptStarted)
  }

  /**
   Over every interleaving: the promise settles at most once, with the outcome of the first event (or
   as cancelled, when the caller had already aborted); once settled no timer and no listener is live,
   and until then both are; the controller is aborted exactly when the timer or the caller won; and an
   attempt is never started for a caller who had already aborted.
   */
  lemma {:induction false} FirstEventDecides<T>(hasSignal: bool, alreadyAborted: bool, events: seq<Event<T>>)
    ensures Decided(Run(hasSignal, alreadyAborted, events), hasSignal, alreadyAborted,
              if hasSignal && alreadyAborted then Some(Cancelled) else FirstVerdict(events, hasSignal))
  {
    if events != [] {
      var before, e := events[..|events| - 1], events[|events| - 1];
      FirstEventDecides(hasSignal, alreadyAborted, before);
      FirstVerdictSnoc(before, e, hasSignal);
      assert events == before + [e];
    }
  }

  // ----- Where the guarantee depends on the clock -----

  /** The timer callback of a clock that ignores `clearTimer`, firing whatever the state. */
  function LateTimer<T>(st: State<T>): State<T> {
    Finish(st.(timerLive := false, controllerAborted := true), TimedOut)
  }

  /**
   A timer that fires late never settles the promise again, but it does abort the controller: the
   controller tells who won exactly when the clock honours `clearTimer`, or the race was not settled yet,
   or had aborted it already.
   */
  lemma LateTimerOnlyAborts<T>(hasSignal: bool, alreadyAborted: bool, events: seq<Event<T>>)
    ensures var st := Run(hasSignal, alreadyAborted, events);
      |LateTimer(st).settlements| == 1
      && (st.settled ==> LateTimer(st).settlements == st.settlements)
      && (LateTimer(st).controllerAborted
          == (LateTimer(st).settlements[0] == TimedOut || LateTimer(st).settlements[0] == Cancelled)
          <==> !st.settled || st.controllerAborted)
  {
    FirstEventDecides(hasSignal, alreadyAborted, events);
  }
}
