/**
 The worker's two protocols (src/ibkrGatewayWorker.ts): one reconciliation pass at a time with one
 queued rerun, and a shutdown that starts nothing new and waits for what runs. Node runs one segment
 of code between two awaits at a time, so an event is one such segment, and any order of events may
 happen. Answers of the outside world (the account binding, the connection) are inputs of an event.
 */
module GatewayWorker {

  /** `handlers` and `running` are the handlers and pass bodies under way; `reruns` counts the queued reruns asked for. */
  datatype State = State(shuttingDown: bool, activeHandlers: int, inFlight: bool, rerunQueued: bool, passCounter: nat,
                         handlers: set<nat>, handlerCounter: nat, running: set<nat>, reruns: nat)

  const STARTED := State(false, 0, false, false, 0, {}, 0, {}, 0)

  datatype Event =
    | Sigterm
    | OrderNotified
    | HandlerEnded(handler: nat)
    | ReconciliationAsked(bindingOk: bool, connected: bool)
    | PassEnded(pass: nat, bindingOk: bool, connected: bool)

  predicate Enabled(state: State, event: Event) {
    match event
    case HandlerEnded(handler) => handler in state.handlers
    case PassEnded(pass, _, _) => pass in state.running
    case _ => true
  }

  /** reconcilePositionsFromIbkr up to its first await: a pass without a connection is over at once. */
  function Asked(state: State, bindingOk: bool, connected: bool): State {
    if state.shuttingDown || !bindingOk then state
    else if state.inFlight then state.(rerunQueued := true)
    else
      var pass := state.passCounter + 1;
      if connected then state.(inFlight := true, passCounter := pass, running := state.running + {pass})
      else state.(inFlight := false, passCounter := pass)
  }

  function Next(state: State, event: Event): State
    requires Enabled(state, event)
  {
    match event
    case Sigterm => state.(shuttingDown := true)
    case OrderNotified =>
      if state.shuttingDown then state else
      state.(activeHandlers := state.activeHandlers + 1, handlerCounter := state.handlerCounter + 1, handlers := state.handlers + {state.handlerCounter + 1})
    case HandlerEnded(handler) => state.(activeHandlers := state.activeHandlers - 1, handlers := state.handlers - {handler})
    case ReconciliationAsked(bindingOk, connected) => Asked(state, bindingOk, connected)
    case PassEnded(pass, bindingOk, connected) =>
      var ended := state.(inFlight := false, running := state.running - {pass});
      if ended.rerunQueued then Asked(ended.(rerunQueued := false, reruns := state.reruns + 1), bindingOk, connected) else ended
  }

  predicate IsRun(state: State, events: seq<Event>)
    decreases |events|
  {
    events != [] ==> Enabled(state, events[0]) && IsRun(Next(state, events[0]), events[1..])
  }

  function After(state: State, events: seq<Event>): State
    requires IsRun(state, events)
    decreases |events|
  {
    if events == [] then state else After(Next(state, events[0]), events[1..])
  }

  // ---------------------------------------------------------------------------------------
  // The worker's own variables

  class Worker {
    var shuttingDown: bool
    var activeOrderRequestHandlers: int
    var reconciliationInFlight: bool
    var reconciliationRerunQueued: bool
    var reconciliationPassCounter: nat
    ghost var handlers: set<nat>
    ghost var handlerCounter: nat
    ghost var running: set<nat>
    ghost var reruns: nat

    ghost function Now(): State
      reads this
    {
      State(shuttingDown, activeOrderRequestHandlers, reconciliationInFlight, reconciliationRerunQueued, reconciliationPassCounter,
            handlers, handlerCounter, running, reruns)
    }

    constructor ()
      ensures Now() == STARTED
    {
      shuttingDown, activeOrderRequestHandlers, reconciliationInFlight, reconciliationRerunQueued, reconciliationPassCounter := false, 0, false, false, 0;
      handlers, handlerCounter, running, reruns := {}, 0, {}, 0;
    }

    method OnSigterm()
      modifies this
      ensures Now() == Next(old(Now()), Sigterm)
    {
      if shuttingDown {
        return;
      }
      shuttingDown := true;
    }

    /** handleOrderRequestNotification up to its first await; whether it goes on. */
    method StartHandling() returns (started: bool)
      modifies this
      ensures Now() == Next(old(Now()), OrderNotified) && (started <==> !old(shuttingDown))
    {
      if shuttingDown {
        return false;
      }
      activeOrderRequestHandlers := activeOrderRequestHandlers + 1;
      handlerCounter := handlerCounter + 1;
      handlers := handlers + {handlerCounter};
      return true;
    }

    /** Its finally. */
    method EndHandling(ghost handler: nat)
      requires handler in handlers
      modifies this
      ensures Now() == Next(old(Now()), HandlerEnded(handler))
    {
      activeOrderRequestHandlers := activeOrderRequestHandlers - 1;
      handlers := handlers - {handler};
    }

    /** reconcilePositionsFromIbkr up to its first await; the pass it starts, or 0. */
    method Reconcile(bindingOk: bool, connected: bool) returns (pass: nat)
      requires reconciliationRerunQueued ==> reconciliationInFlight
      modifies this
      ensures Now() == Asked(old(Now()), bindingOk, connected)
      ensures pass != 0 ==> pass == reconciliationPassCounter == old(reconciliationPassCounter) + 1 && reconciliationInFlight
    {
      if shuttingDown || !bindingOk {
        return 0;
      }
      if reconciliationInFlight {
        reconciliationRerunQueued := true;
        return 0;
      }
      reconciliationInFlight := true;
      reconciliationPassCounter := reconciliationPassCounter + 1;
      if !connected {
        // The finally runs in this same segment, so no rerun can have been queued.
        reconciliationInFlight := false;
        assert !reconciliationRerunQueued;
        return 0;
      }
      pass := reconciliationPassCounter;
      running := running + {pass};
    }

    /** The finally of a pass that awaited: the lock released, then the queued rerun. */
    method EndPass(ghost pass: nat, bindingOk: bool, connected: bool) returns (rerun: nat)
      requires pass in running
      modifies this
      ensures Now() == Next(old(Now()), PassEnded(pass, bindingOk, connected))
      ensures rerun != 0 ==> old(reconciliationRerunQueued)
    {
      reconciliationInFlight := false;
      running := running - {pass};
      rerun := 0;
      if reconciliationRerunQueued {
        reconciliationRerunQueued := false;
        reruns := reruns + 1;
        rerun := Reconcile(bindingOk, connected);
      }
    }
  }

  // ---------------------------------------------------------------------------------------
  // What every order of events keeps

  /** The condition waitUntilDrained polls. */
  predicate Drained(state: State) {
    state.activeHandlers == 0 && !state.inFlight
  }

  /** One pass body at most, the last one started, exactly while the lock is held; a queued rerun waits for it. */
  predicate Invariant(state: State) {
    && state.running == (if state.inFlight then {state.passCounter} else {})
    && (state.rerunQueued ==> state.inFlight)
    && state.activeHandlers == |state.handlers|
    && (forall handler :: handler in state.handlers ==> handler <= state.handlerCounter)
  }

  lemma EventKeepsInvariant(state: State, event: Event)
    requires Invariant(state) && Enabled(state, event)
    ensures Invariant(Next(state, event))
  {
    hide Invariant, Asked;
    match event
    case Sigterm | OrderNotified | HandlerEnded(_) => HandlerEventKeepsInvariant(state, event);
    case ReconciliationAsked(bindingOk, connected) => AskedKeepsInvariant(state, bindingOk, connected);
    case PassEnded(pass, bindingOk, connected) =>
      PassEndKeepsInvariant(state, pass, if state.rerunQueued then state.reruns + 1 else state.reruns);
      if state.rerunQueued {
        var ended := state.(inFlight := false, running := state.running - {pass}, rerunQueued := false, reruns := state.reruns + 1);
        AskedKeepsInvariant(ended, bindingOk, connected);
      }
  }

  lemma HandlerEventKeepsInvariant(state: State, event: Event)
    requires Invariant(state) && Enabled(state, event) && (event.Sigterm? || event.OrderNotified? || event.HandlerEnded?)
    ensures Invariant(Next(state, event))
  {
    match event
    case OrderNotified => HandlerAdded(state.handlers, state.handlerCounter);
    case HandlerEnded(handler) => HandlerRemoved(state.handlers, handler);
    case _ =>
  }

  lemma PassEndKeepsInvariant(state: State, pass: nat, reruns: nat)
    requires Invariant(state) && pass in state.running
    ensures Invariant(state.(inFlight := false, running := state.running - {pass}, rerunQueued := false, reruns := reruns))
  {
    assert pass == state.passCounter && state.running - {pass} == {};
  }

  lemma HandlerAdded(handlers: set<nat>, last: nat)
    requires forall handler :: handler in handlers ==> handler <= last
    ensures |handlers + {last + 1}| == |handlers| + 1
  {}

  lemma HandlerRemoved(handlers: set<nat>, handler: nat)
    requires handler in handlers
    ensures |handlers - {handler}| == |handlers| - 1
  {}

  lemma AskedKeepsInvariant(state: State, bindingOk: bool, connected: bool)
    requires Invariant(state)
    ensures Invariant(Asked(state, bindingOk, connected))
  {
    assert {} + {state.passCounter + 1} == {state.passCounter + 1};
  }

  lemma {:induction false} RunKeepsInvariant(state: State, events: seq<Event>)
    requires Invariant(state) && IsRun(state, events)
    ensures Invariant(After(state, events))
    decreases |events|
  {
    hide Invariant, Enabled;
    if events != [] {
      EventKeepsInvariant(state, events[0]);
      RunKeepsInvariant(Next(state, events[0]), events[1..]);
    }
  }

  /** In every order of events from the start: at most one pass body runs, a queued rerun has a pass to wait for, and a drained worker runs nothing. */
  lemma SingleFlight(events: seq<Event>)
    requires IsRun(STARTED, events)
    ensures var state := After(STARTED, events);
            && |state.running| <= 1
            && (state.rerunQueued ==> state.inFlight && |state.running| == 1)
            && (Drained(state) ==> state.running == {} && state.handlers == {})
  {
    RunKeepsInvariant(STARTED, events);
  }

  // ---------------------------------------------------------------------------------------
  // Requests during a pass

  /** A request that is not turned away: it starts a pass or is queued. */
  predicate Accepted(state: State, event: Event) {
    event.ReconciliationAsked? && event.bindingOk && !state.shuttingDown
  }

  /** Whether a request was accepted along the way. */
  predicate SomeAccepted(state: State, events: seq<Event>)
    requires IsRun(state, events)
    decreases |events|
  {
    events != [] && (Accepted(state, events[0]) || SomeAccepted(Next(state, events[0]), events[1..]))
  }

  lemma {:induction false} RequestsOnlyQueue(state: State, events: seq<Event>)
    requires Invariant(state) && IsRun(state, events) && state.inFlight && forall i :: 0 <= i < |events| ==> !events[i].PassEnded?
    ensures var after := After(state, events);
            && after.inFlight && after.running == state.running && after.passCounter == state.passCounter && after.reruns == state.reruns
            && (after.rerunQueued <==> state.rerunQueued || SomeAccepted(state, events))
    decreases |events|
  {
    if events != [] {
      EventKeepsInvariant(state, events[0]);
      RequestsOnlyQueue(Next(state, events[0]), events[1..]);
    }
  }

  /**
   While a pass runs, no request starts another one; when it ends, the requests made during it are
   answered by one attempt, begun after all of them, and by none when there were none.
   */
  lemma RequestsYieldOneRerun(state: State, events: seq<Event>, end: Event)
    requires Invariant(state) && IsRun(state, events) && state.inFlight && !state.rerunQueued && forall i :: 0 <= i < |events| ==> !events[i].PassEnded?
    requires end.PassEnded? && Enabled(After(state, events), end)
    ensures var before, after := After(state, events), Next(After(state, events), end);
            && before.passCounter == state.passCounter && before.reruns == state.reruns
            && after.reruns == state.reruns + (if SomeAccepted(state, events) then 1 else 0)
            && !after.rerunQueued
            && after.passCounter == state.passCounter + (if SomeAccepted(state, events) && !before.shuttingDown && end.bindingOk then 1 else 0)
            && (after.inFlight <==> SomeAccepted(state, events) && !before.shuttingDown && end.bindingOk && end.connected)
  {
    RequestsOnlyQueue(state, events);
  }

  // ---------------------------------------------------------------------------------------
  // Shutdown

  /** After SIGTERM no handler and no pass starts, whatever happens; once drained the worker stays drained. */
  lemma {:induction false} NothingStartsAfterSigterm(state: State, events: seq<Event>)
    requires Invariant(state) && IsRun(state, events) && state.shuttingDown
    ensures var after := After(state, events);
            && after.shuttingDown
            && after.passCounter == state.passCounter && after.running <= state.running
            && after.handlerCounter == state.handlerCounter && after.handlers <= state.handlers
            && (Drained(state) ==> Drained(after))
    decreases |events|
  {
    hide IsRun;
    if events != [] {
      NextRun(state, events);
      EventKeepsInvariant(state, events[0]);
      SigtermStep(state, events[0]);
      NothingStartsAfterSigterm(Next(state, events[0]), events[1..]);
    }
  }

  lemma NextRun(state: State, events: seq<Event>)
    requires events != [] && IsRun(state, events)
    ensures Enabled(state, events[0]) && IsRun(Next(state, events[0]), events[1..])
  {}

  lemma SigtermStep(state: State, event: Event)
    requires Invariant(state) && Enabled(state, event) && state.shuttingDown
    ensures var after := Next(state, event);
            && after.shuttingDown && after.passCounter == state.passCounter && after.running <= state.running
            && after.handlerCounter == state.handlerCounter && after.handlers <= state.handlers
            && (Drained(state) ==> Drained(after))
  {
    if Drained(state) {
      assert state.handlers == {} && state.running == {};
    }
  }

  /** After SIGTERM every handler's and pass's end brings the worker nearer to drained: no more ends are left than what runs. */
  lemma {:induction false} DrainingEnds(state: State, events: seq<Event>)
    requires Invariant(state) && IsRun(state, events) && state.shuttingDown
    requires forall i :: 0 <= i < |events| ==> events[i].HandlerEnded? || events[i].PassEnded?
    ensures |events| <= |state.handlers| + |state.running|
    ensures |events| == |state.handlers| + |state.running| ==> Drained(After(state, events))
    decreases |events|
  {
    hide Invariant;
    if events != [] {
      EventKeepsInvariant(state, events[0]);
      EndStep(state, events[0]);
      DrainingEnds(Next(state, events[0]), events[1..]);
    } else {
      NothingRunning(state);
    }
  }

  lemma EndStep(state: State, event: Event)
    requires Invariant(state) && Enabled(state, event) && state.shuttingDown && (event.HandlerEnded? || event.PassEnded?)
    ensures Next(state, event).shuttingDown
    ensures |Next(state, event).handlers| + |Next(state, event).running| == |state.handlers| + |state.running| - 1
  {
    if event.PassEnded? {
      assert state.running - {event.pass} == {};
    } else {
      HandlerRemoved(state.handlers, event.handler);
    }
  }

  lemma NothingRunning(state: State)
    requires Invariant(state)
    ensures |state.handlers| + |state.running| == 0 ==> Drained(state)
  {}
}
