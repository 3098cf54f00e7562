/**
 packages/widget/src/state.ts and embed.ts: the consent-gated state machine of the widget, and the
 loader that watches it and starts the network calls.
 */
module Widget {
  import opened Results

  datatype Name = Idle | Consent | Upload | Uploading | Processing | ResultShown | ErrorShown

  datatype Photo = Photo(fileName: string, mimeType: string, sizeBytes: nat, previewUrl: string)

  datatype WidgetState = WidgetState(
    name: Name,
    consentGiven: bool,
    photo: Option<Photo>,
    jobId: Option<string>,
    resultUrl: Option<string>,
    errorCode: Option<string>)

  datatype WidgetEvent =
    | Open
    | ConsentAccept
    | ConsentDecline
    | FileStaged(photo: Photo)
    | FileCleared
    | Submit
    | JobCreated(jobId: string)
    | JobSucceeded(resultUrl: string)
    | JobFailed(errorCode: string)
    | FileRejected(errorCode: string)
    | Retry
    | Close

  const INITIAL_STATE := WidgetState(Idle, false, None, None, None, None)

  function ClearPhoto(state: WidgetState): WidgetState {
    state.(photo := None, errorCode := None)
  }

  function RetryToUpload(state: WidgetState): WidgetState {
    state.(resultUrl := None, errorCode := None, jobId := None, name := Upload)
  }

  function Transition(state: WidgetState, event: WidgetEvent): WidgetState {
    match state.name
    case Idle => if event.Open? then state.(name := Consent) else state
    case Consent =>
      if event.ConsentAccept? then state.(name := Upload, consentGiven := true)
      else if event.ConsentDecline? || event.Close? then INITIAL_STATE
      else state
    case Upload =>
      if event.FileStaged? && state.consentGiven then state.(photo := Some(event.photo))
      else if event.FileCleared? then ClearPhoto(state)
      else if event.FileRejected? then ClearPhoto(state).(name := ErrorShown, errorCode := Some(event.errorCode))
      else if event.Submit? && state.photo.Some? then state.(name := Uploading)
      else if event.Close? then INITIAL_STATE
      else state
    case Uploading =>
      if event.JobCreated? then state.(name := Processing, jobId := Some(event.jobId))
      else if event.JobFailed? then state.(name := ErrorShown, errorCode := Some(event.errorCode))
      else if event.Close? then INITIAL_STATE
      else state
    case Processing =>
      if event.JobSucceeded? then state.(name := ResultShown, resultUrl := Some(event.resultUrl))
      else if event.JobFailed? then state.(name := ErrorShown, errorCode := Some(event.errorCode))
      else if event.Close? then INITIAL_STATE
      else state
    case ResultShown =>
      if event.Retry? then RetryToUpload(state)
      else if event.Close? then INITIAL_STATE
      else state
    case ErrorShown =>
      if event.Retry? then (if state.consentGiven then RetryToUpload(state) else INITIAL_STATE)
      else if event.Close? then INITIAL_STATE
      else state
  }

  function Run(events: seq<WidgetEvent>): WidgetState {
    if events == [] then INITIAL_STATE
    else Transition(Run(events[..|events| - 1]), events[|events| - 1])
  }

  // ----- What every reachable state satisfies -----

  /** Which data goes with which screen. */
  ghost predicate Consistent(s: WidgetState) {
    && (s.name == Idle ==> s == INITIAL_STATE)
    && (s.name == Consent ==> s == INITIAL_STATE.(name := Consent))
    && (s.consentGiven <==> s.name != Idle && s.name != Consent)
    && (s.name in {Uploading, Processing, ResultShown} ==> s.photo.Some?)
    && (s.name in {Processing, ResultShown} ==> s.jobId.Some?)
    && (s.name in {Idle, Consent, Upload, Uploading} ==> s.jobId.None?)
    && (s.resultUrl.Some? <==> s.name == ResultShown)
    && (s.errorCode.Some? <==> s.name == ErrorShown)
  }

  /** In every state any events can lead to, the data fits the screen and consent is given past the gate. */
  lemma {:induction false} ReachableIsConsistent(events: seq<WidgetEvent>)
    ensures Consistent(Run(events))
  {
    if events != [] {
      ReachableIsConsistent(events[..|events| - 1]);
    }
  }

  /** The event at `i` accepted the consent question, and the widget has not been idle since. */
  ghost predicate AcceptedAt(events: seq<WidgetEvent>, i: nat) {
    i < |events| && events[i] == ConsentAccept && Run(events[..i]).name == Consent
    && forall k | i < k <= |events| :: Run(events[..k]).name != Idle
  }

  lemma AcceptedStill(events: seq<WidgetEvent>, e: WidgetEvent, i: nat)
    requires AcceptedAt(events, i) && Run(events + [e]).name != Idle
    ensures AcceptedAt(events + [e], i)
  {
    var all := events + [e];
    assert all[..i] == events[..i];
    forall k | i < k <= |all| ensures Run(all[..k]).name != Idle {
      if k <= |events| {
        assert all[..k] == events[..k];
      } else {
        assert all[..k] == all;
      }
    }
  }

  /** Past the consent gate there was an acceptance, and the widget has not been idle since. */
  lemma {:induction false} ConsentWasGiven(events: seq<WidgetEvent>) returns (i: nat)
    requires Run(events).consentGiven
    ensures AcceptedAt(events, i)
  {
    var n := |events| - 1;
    var before, e := events[..n], events[n];
    assert events == before + [e];
    ReachableIsConsistent(before);
    ReachableIsConsistent(events);
    if Run(before).consentGiven {
      i := ConsentWasGiven(before);
      AcceptedStill(before, e, i);
    } else {
      i := n;
      assert events[..n + 1] == events;
    }
  }

  /** A photo that is held was staged by an event after the acceptance that still stands. */
  lemma {:induction false} PhotoWasStagedAfterConsent(events: seq<WidgetEvent>) returns (i: nat, j: nat)
    requires Run(events).photo.Some?
    ensures AcceptedAt(events, i) && i < j < |events| && events[j] == FileStaged(Run(events).photo.value)
  {
    var n := |events| - 1;
    var before, e := events[..n], events[n];
    assert events == before + [e];
    ReachableIsConsistent(before);
    ReachableIsConsistent(events);
    if Run(before).photo == Run(events).photo {
      i, j := PhotoWasStagedAfterConsent(before);
      AcceptedStill(before, e, i);
    } else {
      i := ConsentWasGiven(before);
      j := n;
      AcceptedStill(before, e, i);
    }
  }

  /** On this screen the event puts another photo in place of the held one, or gives it up. */
  predicate Replaces(name: Name, event: WidgetEvent) {
    event.Close? || (name == Upload && (event.FileStaged? || event.FileCleared? || event.FileRejected?))
  }

  /** The event at `j` staged the photo on the upload screen, and nothing has replaced or dropped it since. */
  ghost predicate StagedLastAt(events: seq<WidgetEvent>, photo: Photo, j: nat) {
    && j < |events| && events[j] == FileStaged(photo) && Run(events[..j]).name == Upload
    && forall k | j < k < |events| :: !Replaces(Run(events[..k]).name, events[k])
  }

  lemma StagedLastStill(events: seq<WidgetEvent>, e: WidgetEvent, photo: Photo, j: nat)
    requires StagedLastAt(events, photo, j) && !Replaces(Run(events).name, e)
    ensures StagedLastAt(events + [e], photo, j)
  {
    var all := events + [e];
    assert all[..j] == events[..j];
    forall k | j < k < |all| ensures !Replaces(Run(all[..k]).name, all[k]) {
      assert all[..k] == events[..k];
    }
    assert all[..|events|] == events;
  }

  /** A held photo is the last one staged: no later one was, and nothing has cleared, rejected or closed it away. */
  lemma {:induction false} HeldPhotoIsLast(events: seq<WidgetEvent>) returns (j: nat)
    requires Run(events).photo.Some?
    ensures StagedLastAt(events, Run(events).photo.value, j)
  {
    var n := |events| - 1;
    var before, e := events[..n], events[n];
    assert events == before + [e];
    ReachableIsConsistent(before);
    if Replaces(Run(before).name, e) {
      j := n;
    } else {
      j := HeldPhotoIsLast(before);
      StagedLastStill(before, e, Run(events).photo.value, j);
    }
  }

  /** And what was staged last is held. */
  lemma {:induction false} StagedLastIsHeld(events: seq<WidgetEvent>, photo: Photo, j: nat)
    requires StagedLastAt(events, photo, j)
    ensures Run(events).photo == Some(photo)
  {
    var n := |events| - 1;
    ReachableIsConsistent(events[..n]);
    if j < n {
      var before := events[..n];
      assert before[..j] == events[..j];
      forall k | j < k < n ensures !Replaces(Run(before[..k]).name, before[k]) {
        assert before[..k] == events[..k];
      }
      StagedLastIsHeld(before, photo, j);
    }
  }

  /** The whole way to a result and to an error. */
  lemma Journey(photo: Photo, jobId: string, url: string, code: string)
    ensures var submitted := [Open, ConsentAccept, FileStaged(photo), Submit];
      && Run(submitted) == WidgetState(Uploading, true, Some(photo), None, None, None)
      && Run(submitted + [JobCreated(jobId)]) == WidgetState(Processing, true, Some(photo), Some(jobId), None, None)
      && Run(submitted + [JobCreated(jobId)] + [JobSucceeded(url)])
         == WidgetState(ResultShown, true, Some(photo), Some(jobId), Some(url), None)
      && Run(submitted + [JobCreated(jobId)] + [JobFailed(code)])
         == WidgetState(ErrorShown, true, Some(photo), Some(jobId), None, Some(code))
      && Run(submitted + [JobFailed(code)]) == WidgetState(ErrorShown, true, Some(photo), None, None, Some(code))
  {
    var submitted := [Open, ConsentAccept, FileStaged(photo), Submit];
    assert submitted == [] + [Open] + [ConsentAccept] + [FileStaged(photo)] + [Submit];
    RunSnoc([], Open);
    RunSnoc([] + [Open], ConsentAccept);
    RunSnoc([] + [Open] + [ConsentAccept], FileStaged(photo));
    RunSnoc([] + [Open] + [ConsentAccept] + [FileStaged(photo)], Submit);
    RunSnoc(submitted, JobCreated(jobId));
    RunSnoc(submitted, JobFailed(code));
    RunSnoc(submitted + [JobCreated(jobId)], JobSucceeded(url));
    RunSnoc(submitted + [JobCreated(jobId)], JobFailed(code));
  }

  /** Closing forgets everything wherever the shopper is, declining consent too, and a bad file shows why. */
  lemma Leaves(events: seq<WidgetEvent>, code: string)
    ensures Run(events + [Close]) == WidgetState(Idle, false, None, None, None, None)
    ensures Run(events).name == Consent
        ==> Run(events + [ConsentDecline]) == WidgetState(Idle, false, None, None, None, None)
    ensures Run(events).name == Upload
        ==> Run(events + [FileRejected(code)]) == WidgetState(ErrorShown, true, None, None, None, Some(code))
  {
    ReachableIsConsistent(events);
    RunSnoc(events, Close);
    RunSnoc(events, ConsentDecline);
    RunSnoc(events, FileRejected(code));
  }

  /** A retry from a result or an error goes back to the upload screen with consent and photo as they were. */
  lemma RetryReturns(events: seq<WidgetEvent>)
    ensures Run(events).name == ResultShown || Run(events).name == ErrorShown
        ==> Run(events + [Retry]) == WidgetState(Upload, true, Run(events).photo, None, None, None)
  {
    ReachableIsConsistent(events);
    RunSnoc(events, Retry);
  }

  // ----- The loader -----

  /** What the loader is waiting for: nothing, the answer to its create call, or the end of polling. */
  datatype Phase = Quiet | Creating | PollingJob(jobId: string)

  /** How polling ends; `NoTerminal` is a timeout or a failed read. */
  datatype PollEnd = Succeeded(resultImageUrl: Option<string>) | Failed | NoTerminal

  /** `Host` is anything the shopper or the page sends; `Rendered` is the mutation observer. */
  datatype LoaderEvent =
    | Host(event: WidgetEvent)
    | Rendered
    | Created(jobId: string)
    | CreateRefused(code: string)
    | PollEnds(end: PollEnd)

  /**
   The widget and its loader. `calls` are the widget states in which a create call was made; `submits`
   counts the entries into `uploading`, and `claimed` tells whether the present one has had its call.
   */
  datatype LoaderState =
    LoaderState(widget: WidgetState, phase: Phase, calls: seq<WidgetState>, submits: nat, claimed: bool)

  function Send(st: LoaderState, e: WidgetEvent): LoaderState {
    var next := Transition(st.widget, e);
    var enters := next.name == Uploading && st.widget.name != Uploading;
    st.(widget := next, submits := if enters then st.submits + 1 else st.submits,
        claimed := if enters then false else st.claimed)
  }

  function Feed(end: PollEnd): WidgetEvent {
    if end.Succeeded? && end.resultImageUrl.Some? then JobSucceeded(end.resultImageUrl.value)
    else JobFailed("PROVIDER_ERROR")
  }

  function React(st: LoaderState, e: LoaderEvent): LoaderState {
    match e
    case Host(event) => Send(st, event)
    case Rendered =>
      if st.phase == Quiet && st.widget.name == Uploading then
        st.(phase := Creating, calls := st.calls + [st.widget], claimed := true)
      else st
    case Created(jobId) =>
      if st.phase == Creating then Send(st, JobCreated(jobId)).(phase := PollingJob(jobId)) else st
    case CreateRefused(code) =>
      if st.phase == Creating then Send(st, JobFailed(code)).(phase := Quiet) else st
    case PollEnds(end) =>
      if st.phase.PollingJob? then Send(st, Feed(end)).(phase := Quiet) else st
  }

  function RunLoader(events: seq<LoaderEvent>): LoaderState {
    if events == [] then LoaderState(INITIAL_STATE, Quiet, [], 0, false)
    else React(RunLoader(events[..|events| - 1]), events[|events| - 1])
  }

  ghost predicate LoaderInvariant(st: LoaderState) {
    && Consistent(st.widget)
    && (forall c | c in st.calls :: c.name == Uploading && Consistent(c))
    && (st.widget.name == Uploading && st.claimed ==> st.phase == Creating)
    && |st.calls| + (if st.widget.name == Uploading && !st.claimed then 1 else 0) <= st.submits
  }

  lemma TransitionKeeps(s: WidgetState, e: WidgetEvent)
    requires Consistent(s)
    ensures Consistent(Transition(s, e))
  {
  }

  lemma SendKeeps(st: LoaderState, e: WidgetEvent, phase: Phase)
    requires LoaderInvariant(st)
    requires phase == st.phase
        || (st.widget.name == Uploading && st.claimed ==> Transition(st.widget, e).name != Uploading)
    ensures LoaderInvariant(Send(st, e).(phase := phase))
  {
    TransitionKeeps(st.widget, e);
  }

  lemma LoaderStep(st: LoaderState, e: LoaderEvent)
    requires LoaderInvariant(st)
    ensures LoaderInvariant(React(st, e))
  {
    match e
    case Host(event) => SendKeeps(st, event, st.phase);
    case Rendered =>
    case Created(jobId) =>
      if st.phase == Creating { SendKeeps(st, JobCreated(jobId), PollingJob(jobId)); }
    case CreateRefused(code) =>
      if st.phase == Creating { SendKeeps(st, JobFailed(code), Quiet); }
    case PollEnds(end) =>
      if st.phase.PollingJob? { SendKeeps(st, Feed(end), Quiet); }
  }

  lemma {:induction false} LoaderReaches(events: seq<LoaderEvent>)
    ensures LoaderInvariant(RunLoader(events))
  {
    if events != [] {
      LoaderReaches(events[..|events| - 1]);
      LoaderStep(RunLoader(events[..|events| - 1]), events[|events| - 1]);
    }
  }

  /**
   However shopper, page and network interleave: a create call is made only from the uploading screen,
   where consent is given and a photo is staged, and there are never more calls than submissions.
   */
  lemma LoaderNeverJumpsTheGate(events: seq<LoaderEvent>)
    ensures forall c | c in RunLoader(events).calls :: c.name == Uploading && c.consentGiven && c.photo.Some?
    ensures |RunLoader(events).calls| <= RunLoader(events).submits
  {
    LoaderReaches(events);
  }

  /** What the loader sends the widget on an event. */
  function Feeds(st: LoaderState, e: LoaderEvent): Option<WidgetEvent> {
    match e
    case Host(event) => Some(event)
    case Rendered => None
    case Created(jobId) => if st.phase == Creating then Some(JobCreated(jobId)) else None
    case CreateRefused(code) => if st.phase == Creating then Some(JobFailed(code)) else None
    case PollEnds(end) => if st.phase.PollingJob? then Some(Feed(end)) else None
  }

  /** The widget's own events of a loader run: what the host sent and what the loader fed in. */
  function Sent(events: seq<LoaderEvent>): seq<WidgetEvent> {
    if events == [] then []
    else
      var fed := Feeds(RunLoader(events[..|events| - 1]), events[|events| - 1]);
      Sent(events[..|events| - 1]) + if fed.Some? then [fed.value] else []
  }

  lemma FedTransition(st: LoaderState, e: LoaderEvent)
    ensures React(st, e).widget == if Feeds(st, e).Some? then Transition(st.widget, Feeds(st, e).value) else st.widget
  {
  }

  lemma RunSnoc(events: seq<WidgetEvent>, e: WidgetEvent)
    ensures Run(events + [e]) == Transition(Run(events), e)
  {
    assert (events + [e])[..|events|] == events;
  }

  /** The loader drives the widget only through its transitions. */
  lemma {:induction false} LoaderRunsTheMachine(events: seq<LoaderEvent>)
    ensures RunLoader(events).widget == Run(Sent(events))
  {
    if events != [] {
      var before, e := events[..|events| - 1], events[|events| - 1];
      LoaderRunsTheMachine(before);
      FedTransition(RunLoader(before), e);
      var fed := Feeds(RunLoader(before), e);
      if fed.Some? {
        RunSnoc(Sent(before), fed.value);
      } else {
        assert Sent(before) + [] == Sent(before);
      }
    }
  }

  /** Wherever the loader is, a held photo was staged after an acceptance that still stands. */
  lemma LoaderPhotoIsConsented(events: seq<LoaderEvent>) returns (i: nat, j: nat)
    requires RunLoader(events).widget.photo.Some?
    ensures AcceptedAt(Sent(events), i) && i < j < |Sent(events)|
    ensures Sent(events)[j] == FileStaged(RunLoader(events).widget.photo.value)
  {
    LoaderRunsTheMachine(events);
    i, j := PhotoWasStagedAfterConsent(Sent(events));
  }

  /**
   A submission is served: with the loader quiet on the uploading screen, the next rendering makes one call,
   and its answers lead to the result, or to the error screen with the code that says why.
   */
  lemma LoaderServes(st: LoaderState, jobId: string, code: string, url: string)
    requires st.phase == Quiet && st.widget.name == Uploading
    ensures var calling := React(st, Rendered);
      var polling := React(calling, Created(jobId));
      && calling.calls == st.calls + [st.widget] && React(calling, Rendered).calls == calling.calls
      && polling.widget.name == Processing && polling.widget.jobId == Some(jobId)
      && React(calling, CreateRefused(code)).widget.name == ErrorShown
      && React(calling, CreateRefused(code)).widget.errorCode == Some(code)
      && React(polling, PollEnds(Succeeded(Some(url)))).widget.name == ResultShown
      && React(polling, PollEnds(Succeeded(Some(url)))).widget.resultUrl == Some(url)
      && forall end | end == Failed || end == NoTerminal || end == Succeeded(None) ::
           React(polling, PollEnds(end)).widget.name == ErrorShown
           && React(polling, PollEnds(end)).widget.errorCode == Some("PROVIDER_ERROR")
           && React(polling, PollEnds(end)).phase == Quiet
  {
  }
}
