/**
 How each call of fetch_frame_with_retries stands and ends
 (scripts/backtest/download_thetadata_symbol.py), told from the events of a run alone: what it was
 answered, what its thread did last, and how many logins there had been.
 */
module SessionAnswers {
  import opened Wrappers
  import opened ThetaDataSessions

  // ---------------------------------------------------------------------------------------
  // A call's own history

  /** One step of a call, and the new logins there had been before it. */
  datatype Step = Step(event: Event, logins: nat)

  function LoginsIn(events: seq<Event>): nat {
    if events == [] then 0 else
    var last := events[|events| - 1];
    LoginsIn(events[..|events| - 1]) + if last.LogIn? && last.loggedIn then 1 else 0
  }

  function CallsIn(events: seq<Event>): nat {
    if events == [] then 0 else
    CallsIn(events[..|events| - 1]) + if events[|events| - 1].NewCall? then 1 else 0
  }

  /** The steps of the call numbered i, in order. */
  function Own(events: seq<Event>, i: nat): seq<Step> {
    if events == [] then [] else
    var before, last := events[..|events| - 1], events[|events| - 1];
    Own(before, i) + if !last.NewCall? && last.call == i then [Step(last, LoginsIn(before))] else []
  }

  /** The retry delays the call numbered i was given. */
  function RetriesOf(events: seq<Event>, i: nat): nat
    requires i < CallsIn(events)
  {
    var before, last := events[..|events| - 1], events[|events| - 1];
    if i < CallsIn(before) then RetriesOf(before, i) else last.retries
  }

  /** What ThetaData answered, request by request. */
  function Answers(own: seq<Step>): seq<Answer> {
    if own == [] then [] else
    var last := own[|own| - 1].event;
    Answers(own[..|own| - 1]) + if last.Receive? then [last.answer] else []
  }

  function Asked(own: seq<Step>): nat {
    if own == [] then 0 else
    Asked(own[..|own| - 1]) + if own[|own| - 1].event.TakeSlot? then 1 else 0
  }

  /** How many answers may pass on a retry. */
  function MayPasses(answers: seq<Answer>): nat {
    if answers == [] then 0 else
    MayPasses(answers[..|answers| - 1]) + if answers[|answers| - 1] == MayPass then 1 else 0
  }

  /** The new logins there had been when the call last took the client. */
  function ClientLogin(own: seq<Step>): nat {
    if own == [] then 0 else
    var last := own[|own| - 1];
    if last.event.TakeClient? then last.logins else ClientLogin(own[..|own| - 1])
  }

  /** What the call's thread did last; its start when it has done nothing yet. */
  function LastEvent(own: seq<Step>): Event {
    if own == [] then NewCall(0) else own[|own| - 1].event
  }

  predicate LastAnswerIs(own: seq<Step>, answer: Answer) {
    var answers := Answers(own);
    answers != [] && answers[|answers| - 1] == answer
  }

  // ---------------------------------------------------------------------------------------
  // Where a call stands

  /** The last answer used up the retries: it may pass, and as many before it as there are delays. */
  predicate RetriesUsedUp(own: seq<Step>, retries: nat) {
    LastAnswerIs(own, MayPass) && MayPasses(Answers(own)) == retries + 1
  }

  /** The call last reported a lost login that no other login had followed. */
  predicate ReportedLatest(own: seq<Step>) {
    own != [] && LastEvent(own).Report? && own[|own| - 1].logins == ClientLogin(own)
  }

  /** Or one that another login had followed. */
  predicate ReportedEarlier(own: seq<Step>) {
    own != [] && LastEvent(own).Report? && own[|own| - 1].logins != ClientLogin(own)
  }

  /** The answer is what the call's thread has just received. */
  predicate JustAnswered(own: seq<Step>, answer: Answer) {
    LastEvent(own).Receive? && LastEvent(own).answer == answer
  }

  /** How the call ends, each way for its own reason. */
  predicate EndsAsAnswered(point: Point, own: seq<Step>, retries: nat, allowed: nat) {
    && (point == Finished(Answered) <==> LastAnswerIs(own, Frame))
    && (point == Finished(NoData) <==> LastAnswerIs(own, NoDataFound))
    && (point == Finished(Refused) <==> LastAnswerIs(own, Forbidden))
    && (point == Finished(RequestFailed) <==> LastAnswerIs(own, WillNotPass) || RetriesUsedUp(own, retries))
    && (point == Finished(LoginsUsedUp) <==> ReportedLatest(own) && own[|own| - 1].logins == allowed)
    && (point == Finished(Cancelled) <==> LastEvent(own).StopWaiting? || (LastEvent(own).LogIn? && !LastEvent(own).loggedIn))
  }

  /** And where it stands until then: it waits after each answer that may pass, and starts again after the wait, and after another login. */
  predicate StandsAsTold(point: Point, own: seq<Step>, retries: nat, allowed: nat) {
    && (point.Starting? <==> own == [] || LastEvent(own).Wake? || (LastEvent(own).LogIn? && LastEvent(own).loggedIn) || ReportedEarlier(own))
    && (point.WaitingForSlot? <==> LastEvent(own).TakeClient?)
    && (point.InFlight? <==> LastEvent(own).TakeSlot?)
    && (point.Sleeping? <==> JustAnswered(own, MayPass) && MayPasses(Answers(own)) <= retries)
    && (point.Reporting? <==> JustAnswered(own, SessionLost))
    && (point.LoggingIn? <==> ReportedLatest(own) && own[|own| - 1].logins < allowed)
  }

  /** Only answers that may pass, waited after, and lost sessions, reported, are followed by another. */
  predicate GoesOnAfter(own: seq<Step>) {
    var answers := Answers(own);
    && (forall k :: 0 <= k < |answers| - 1 ==> answers[k] == MayPass || answers[k] == SessionLost)
    && (LastEvent(own).Wake? ==> LastAnswerIs(own, MayPass))
    && (LastEvent(own).Report? || LastEvent(own).LogIn? ==> LastAnswerIs(own, SessionLost))
  }

  predicate CallIs(call: Call, own: seq<Step>, retries: nat, allowed: nat) {
    && EndsAsAnswered(call.point, own, retries, allowed) && StandsAsTold(call.point, own, retries, allowed) && GoesOnAfter(own)
    && call.retries == retries
    && call.requests == Asked(own) == |Answers(own)| + (if call.point.InFlight? then 1 else 0)
  }

  /** What the state keeps of the history besides. */
  predicate Remembers(call: Call, own: seq<Step>, retries: nat) {
    && (LoginOf(call.point).Some? ==> LoginOf(call.point).value == ClientLogin(own))
    && call.attempts <= retries
    && MayPasses(Answers(own)) == call.attempts + (if JustAnswered(own, MayPass) then 1 else 0)
    && (LastEvent(own).Receive? ==> LastAnswerIs(own, LastEvent(own).answer))
    && (!call.point.Finished? && Answers(own) != [] ==> LastAnswerIs(own, MayPass) || LastAnswerIs(own, SessionLost))
  }

  predicate Recorded(call: Call, own: seq<Step>, retries: nat, allowed: nat) {
    CallIs(call, own, retries, allowed) && Remembers(call, own, retries)
  }

  lemma AnswersOneMore(own: seq<Step>, step: Step)
    ensures Answers(own + [step]) == Answers(own) + if step.event.Receive? then [step.event.answer] else []
    ensures Asked(own + [step]) == Asked(own) + if step.event.TakeSlot? then 1 else 0
    ensures ClientLogin(own + [step]) == if step.event.TakeClient? then step.logins else ClientLogin(own)
    ensures MayPasses(Answers(own + [step])) == MayPasses(Answers(own)) + if step.event.Receive? && step.event.answer == MayPass then 1 else 0
  {
    assert (own + [step])[..|own|] == own;
    if step.event.Receive? {
      assert (Answers(own) + [step.event.answer])[..|Answers(own)|] == Answers(own);
    } else {
      assert Answers(own) + [] == Answers(own);
    }
  }

  /** A call and what the locks and slots leave it. */
  predicate Fits(system: System, event: Event, own: seq<Step>, retries: nat) {
    && Enabled(system, event) && !event.NewCall? && event.call < |system.calls|
    && Recorded(system.calls[event.call], own, retries, system.allowed)
    && system.logins <= system.allowed && (system.calls[event.call].point.LoggingIn? ==> system.lockHolder == Some(event.call))
  }

  lemma NextEnds(system: System, event: Event, own: seq<Step>, retries: nat)
    requires Fits(system, event, own, retries)
    ensures EndsAsAnswered(Next(system, event).calls[event.call].point, own + [Step(event, system.logins)], retries, system.allowed)
  {
    hide Answers, MayPasses, Asked, ClientLogin, GoesOnAfter;
    var step := Step(event, system.logins);
    AnswersOneMore(own, step);
    var after := own + [step];
    assert after[|after| - 1] == step;
    match event
    case TakeClient(_) =>
    case TakeSlot(_) =>
    case StopWaiting(_) =>
    case Receive(_, _) =>
    case Wake(_) =>
    case Report(_) =>
    case LogIn(_, _) =>
  }

  lemma NextStands(system: System, event: Event, own: seq<Step>, retries: nat)
    requires Fits(system, event, own, retries)
    ensures StandsAsTold(Next(system, event).calls[event.call].point, own + [Step(event, system.logins)], retries, system.allowed)
  {
    hide Answers, MayPasses, Asked, ClientLogin, GoesOnAfter;
    var step := Step(event, system.logins);
    AnswersOneMore(own, step);
    var after := own + [step];
    assert after[|after| - 1] == step;
    match event
    case TakeClient(_) =>
    case TakeSlot(_) =>
    case StopWaiting(_) =>
    case Receive(_, _) =>
    case Wake(_) =>
    case Report(_) =>
    case LogIn(_, _) =>
  }

  lemma NextGoesOn(system: System, event: Event, own: seq<Step>, retries: nat)
    requires Fits(system, event, own, retries)
    ensures GoesOnAfter(own + [Step(event, system.logins)])
  {
    hide Answers, MayPasses, Asked, ClientLogin, EndsAsAnswered;
    AnswersOneMore(own, Step(event, system.logins));
  }

  lemma NextRemembers(system: System, event: Event, own: seq<Step>, retries: nat)
    requires Fits(system, event, own, retries)
    ensures var call := Next(system, event).calls[event.call];
            && Remembers(call, own + [Step(event, system.logins)], retries) && call.retries == retries
            && call.requests == Asked(own + [Step(event, system.logins)]) == |Answers(own + [Step(event, system.logins)])| + (if call.point.InFlight? then 1 else 0)
  {
    hide Answers, MayPasses, Asked, ClientLogin, GoesOnAfter, EndsAsAnswered;
    var step := Step(event, system.logins);
    AnswersOneMore(own, step);
    var after := own + [step];
    assert after[|after| - 1] == step;
    match event
    case TakeClient(_) =>
    case TakeSlot(_) =>
    case StopWaiting(_) =>
    case Receive(_, _) =>
    case Wake(_) =>
    case Report(_) =>
    case LogIn(_, _) =>
  }

  lemma NextRecorded(system: System, event: Event, own: seq<Step>, retries: nat)
    requires Fits(system, event, own, retries)
    ensures Recorded(Next(system, event).calls[event.call], own + [Step(event, system.logins)], retries, system.allowed)
  {
    NextEnds(system, event, own, retries);
    NextStands(system, event, own, retries);
    NextGoesOn(system, event, own, retries);
    NextRemembers(system, event, own, retries);
    hide EndsAsAnswered, StandsAsTold, GoesOnAfter, Remembers, Next, Enabled, Fits;
  }

  // ---------------------------------------------------------------------------------------
  // Over every run

  lemma {:induction false} RunOneMore(system: System, events: seq<Event>)
    requires IsRun(system, events) && events != []
    ensures var before, last := events[..|events| - 1], events[|events| - 1];
            IsRun(system, before) && Enabled(After(system, before), last) && After(system, events) == Next(After(system, before), last)
    decreases |events|
  {
    hide Enabled, Next;
    if |events| > 1 {
      RunOneMore(Next(system, events[0]), events[1..]);
      assert events[1..][..|events| - 2] == events[..|events| - 1][1..];
    }
  }

  ghost predicate AllRecorded(allowed: nat, events: seq<Event>)
    requires IsRun(Initial(allowed), events)
  {
    var system := After(Initial(allowed), events);
    && |system.calls| == CallsIn(events) && system.logins == LoginsIn(events)
    && forall i :: 0 <= i < |system.calls| ==> Recorded(system.calls[i], Own(events, i), RetriesOf(events, i), allowed)
  }

  lemma NewCallRecorded(retries: nat, allowed: nat)
    ensures Recorded(Call(Starting, retries, 0, 0, 0, None), [], retries, allowed)
  {}

  lemma NoEarlierSteps(events: seq<Event>, allowed: nat)
    requires IsRun(Initial(allowed), events) && |After(Initial(allowed), events).calls| == CallsIn(events)
    ensures Own(events, CallsIn(events)) == []
  {
    NoStepsOfLater(events, allowed, CallsIn(events));
  }

  lemma {:induction false} NoStepsOfLater(events: seq<Event>, allowed: nat, i: nat)
    requires IsRun(Initial(allowed), events) && i >= |After(Initial(allowed), events).calls|
    ensures Own(events, i) == []
  {
    if events != [] {
      RunOneMore(Initial(allowed), events);
      NoStepsOfLater(events[..|events| - 1], allowed, i);
    }
  }

  lemma {:induction false} RunIsRecorded(allowed: nat, events: seq<Event>)
    requires IsRun(Initial(allowed), events)
    ensures AllRecorded(allowed, events)
  {
    if events != [] {
      var before, last := events[..|events| - 1], events[|events| - 1];
      RunOneMore(Initial(allowed), events);
      RunIsRecorded(allowed, before);
      EventIsRecorded(allowed, events);
    }
  }

  /** An event leaves the other calls' histories as they were. */
  lemma OthersStay(events: seq<Event>, i: nat)
    requires events != [] && i < CallsIn(events[..|events| - 1])
    ensures i < CallsIn(events) && RetriesOf(events, i) == RetriesOf(events[..|events| - 1], i)
    ensures events[|events| - 1].NewCall? || events[|events| - 1].call != i ==> Own(events, i) == Own(events[..|events| - 1], i)
  {
    assert Own(events[..|events| - 1], i) + [] == Own(events[..|events| - 1], i);
  }

  lemma OldCallRecorded(allowed: nat, events: seq<Event>, i: nat)
    requires events != [] && IsRun(Initial(allowed), events)
    requires var before := events[..|events| - 1]; IsRun(Initial(allowed), before) && AllRecorded(allowed, before) && i < CallsIn(before)
    ensures i < CallsIn(events) && i < |After(Initial(allowed), events).calls|
    ensures Recorded(After(Initial(allowed), events).calls[i], Own(events, i), RetriesOf(events, i), allowed)
  {
    var before, last := events[..|events| - 1], events[|events| - 1];
    assert !last.NewCall? && last.call == i ==> Own(events, i) == Own(before, i) + [Step(last, LoginsIn(before))];
    RunKeepsInvariant(Initial(allowed), before);
    hide Recorded, Enabled, After, IsRun, RequestsInFlight, RetriesOf, Own, CallsIn, LoginsIn;
    RunOneMore(Initial(allowed), events);
    OthersStay(events, i);
    var system := After(Initial(allowed), before);
    if !last.NewCall? {
      NamesACall(system, last);
      if i == last.call {
        assert CallInvariant(system, i);
        hide CallInvariant, Invariant, Next;
        NextRecorded(system, last, Own(before, i), RetriesOf(before, i));
      }
    }
  }

  lemma NewOneRecorded(allowed: nat, events: seq<Event>)
    requires events != [] && IsRun(Initial(allowed), events) && events[|events| - 1].NewCall?
    requires var before := events[..|events| - 1]; IsRun(Initial(allowed), before) && AllRecorded(allowed, before)
    ensures var n := CallsIn(events) - 1; |After(Initial(allowed), events).calls| == n + 1 && Recorded(After(Initial(allowed), events).calls[n], Own(events, n), RetriesOf(events, n), allowed)
  {
    hide Recorded, Enabled, After, IsRun;
    var before, last := events[..|events| - 1], events[|events| - 1];
    RunOneMore(Initial(allowed), events);
    NewCallRecorded(last.retries, allowed);
    NoEarlierSteps(before, allowed);
    var n := CallsIn(before);
    assert CallsIn(events) == n + 1;
    assert Own(events, n) == Own(before, n) + [];
    assert RetriesOf(events, n) == last.retries;
    assert After(Initial(allowed), events).calls == After(Initial(allowed), before).calls + [Call(Starting, last.retries, 0, 0, 0, None)];
  }

  lemma EventIsRecorded(allowed: nat, events: seq<Event>)
    requires events != [] && IsRun(Initial(allowed), events)
    requires var before := events[..|events| - 1]; IsRun(Initial(allowed), before) && AllRecorded(allowed, before)
    ensures AllRecorded(allowed, events)
  {
    hide Recorded, Enabled, After, IsRun, RetriesOf, Own;
    var before, last := events[..|events| - 1], events[|events| - 1];
    RunOneMore(Initial(allowed), events);
    var system := After(Initial(allowed), before);
    if last.NewCall? {
      NewOneRecorded(allowed, events);
    } else {
      NamesACall(system, last);
    }
    forall i | 0 <= i < CallsIn(before)
      ensures Recorded(After(Initial(allowed), events).calls[i], Own(events, i), RetriesOf(events, i), allowed)
    {
      OldCallRecorded(allowed, events, i);
    }
  }

  lemma NamesACall(system: System, event: Event)
    requires Enabled(system, event) && !event.NewCall?
    ensures event.call < |system.calls| == |Next(system, event).calls|
    ensures forall i :: 0 <= i < |system.calls| && i != event.call ==> Next(system, event).calls[i] == system.calls[i]
    ensures Next(system, event).logins == system.logins + if event.LogIn? && event.loggedIn then 1 else 0
  {}

  /**
   Over every interleaving: how each call ends, and where it stands until then, is told by its own
   answers, what its thread did last and the logins there were. It fails exactly when its last
   answer will not pass, or may pass with every retry used up; every answer but its last may pass or
   lost the session; and it has made one request for each answer, and the one in flight.
   */
  lemma CallsEndAsAnswered(allowed: nat, events: seq<Event>, i: nat)
    requires IsRun(Initial(allowed), events) && i < CallsIn(events)
    ensures i < |After(Initial(allowed), events).calls|
    ensures CallIs(After(Initial(allowed), events).calls[i], Own(events, i), RetriesOf(events, i), allowed)
  {
    hide CallIs;
    RunIsRecorded(allowed, events);
  }

  /** When every thread is done, a call that lost its session last has used up the logins or was cancelled, and every other one ended by its last answer. */
  lemma DoneCallsAreAnswered(allowed: nat, events: seq<Event>, i: nat)
    requires IsRun(Initial(allowed), events) && i < CallsIn(events) && AllFinished(After(Initial(allowed), events))
    ensures i < |After(Initial(allowed), events).calls|
    ensures var own := Own(events, i);
            var end := After(Initial(allowed), events).calls[i].point.end;
            && own != []
            && (LastAnswerIs(own, SessionLost) ==> end == LoginsUsedUp || end == Cancelled)
            && (LastAnswerIs(own, MayPass) ==> (end == RequestFailed && MayPasses(Answers(own)) == RetriesOf(events, i) + 1) || end == Cancelled)
            && (Answers(own) == [] ==> end == Cancelled)
  {
    CallsEndAsAnswered(allowed, events, i);
    hide Answers, MayPasses, Asked, ClientLogin;
    var point := After(Initial(allowed), events).calls[i].point;
    assert point.Finished?;
  }
}
