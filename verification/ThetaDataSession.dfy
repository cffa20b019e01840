/**
 The session protocol of the downloader's request threads (scripts/backtest/download_thetadata_symbol.py):
 one login shared by every call of fetch_frame_with_retries, a lock around it, and a few request slots.
 A state is what the threads share and where each call stands; an event is one thread's next atomic
 step, with what ThetaData answers chosen freely. A run is any sequence of enabled events.
 */
module ThetaDataSessions {
  import opened Wrappers

  const MAX_REQUESTS_IN_FLIGHT: nat := 2

  /** Where a call stands; a login number is that of the client it uses. */
  datatype Point =
    | Starting
    | WaitingForSlot(login: nat)
    | InFlight(login: nat)
    | Sleeping
    | Reporting(login: nat)
    | LoggingIn(login: nat)
    | Finished(end: End)

  datatype End = Answered | NoData | Refused | RequestFailed | LoginsUsedUp | Cancelled

  /** One call of fetch_frame_with_retries: its retry delays' count, attempt_index, and what it has done. */
  datatype Call = Call(point: Point, retries: nat, attempts: nat, requests: nat, losses: nat, lastLost: Option<nat>)

  /** `allowed` logins may follow a lost session; `replaced` lists the logins replaced so far. */
  datatype System = System(calls: seq<Call>, logins: nat, lockHolder: Option<nat>, freeSlots: nat, allowed: nat, replaced: seq<nat>)

  datatype Answer = Frame | NoDataFound | SessionLost | Forbidden | MayPass | WillNotPass

  datatype Event =
    | NewCall(retries: nat)
    | TakeClient(call: nat)
    | TakeSlot(call: nat)
    | StopWaiting(call: nat)
    | Receive(call: nat, answer: Answer)
    | Wake(call: nat)
    | Report(call: nat)
    | LogIn(call: nat, loggedIn: bool)

  function Initial(allowed: nat): System {
    System([], 0, None, MAX_REQUESTS_IN_FLIGHT, allowed, [])
  }

  predicate At(system: System, call: nat, holds: Point -> bool) {
    call < |system.calls| && holds(system.calls[call].point)
  }

  predicate Enabled(system: System, event: Event) {
    match event
    case NewCall(_) => true
    case TakeClient(call) => At(system, call, (p: Point) => p.Starting?) && system.lockHolder == None
    case TakeSlot(call) => At(system, call, (p: Point) => p.WaitingForSlot?) && system.freeSlots > 0
    case StopWaiting(call) => At(system, call, (p: Point) => p.WaitingForSlot?)
    case Receive(call, _) => At(system, call, (p: Point) => p.InFlight?)
    case Wake(call) => At(system, call, (p: Point) => p.Sleeping?)
    case Report(call) => At(system, call, (p: Point) => p.Reporting?) && system.lockHolder == None
    case LogIn(call, _) => At(system, call, (p: Point) => p.LoggingIn?)
  }

  /** What a call does with an answer, its slot released. */
  function Received(call: Call, answer: Answer): Point
    requires call.point.InFlight?
  {
    match answer
    case Frame => Finished(Answered)
    case NoDataFound => Finished(NoData)
    case SessionLost => Reporting(call.point.login)
    case Forbidden => Finished(Refused)
    case MayPass => if call.attempts == call.retries then Finished(RequestFailed) else Sleeping
    case WillNotPass => Finished(RequestFailed)
  }

  /** The call goes on to its next repeat after the loss of a login. */
  function Repeating(call: Call, lost: nat): Call {
    call.(point := Starting, losses := call.losses + 1, lastLost := Some(lost))
  }

  function Next(system: System, event: Event): System
    requires Enabled(system, event)
  {
    match event
    case NewCall(retries) => system.(calls := system.calls + [Call(Starting, retries, 0, 0, 0, None)])
    case TakeClient(i) => system.(calls := system.calls[i := system.calls[i].(point := WaitingForSlot(system.logins))])
    case TakeSlot(i) =>
      var call := system.calls[i];
      system.(calls := system.calls[i := call.(point := InFlight(call.point.login), requests := call.requests + 1)], freeSlots := system.freeSlots - 1)
    case StopWaiting(i) => system.(calls := system.calls[i := system.calls[i].(point := Finished(Cancelled))])
    case Receive(i, answer) =>
      system.(calls := system.calls[i := system.calls[i].(point := Received(system.calls[i], answer))], freeSlots := system.freeSlots + 1)
    case Wake(i) => system.(calls := system.calls[i := system.calls[i].(point := Starting, attempts := system.calls[i].attempts + 1)])
    case Report(i) =>
      var call := system.calls[i];
      var login := call.point.login;
      if system.logins != login then system.(calls := system.calls[i := Repeating(call, login)])
      else if system.logins == system.allowed then system.(calls := system.calls[i := call.(point := Finished(LoginsUsedUp))])
      else system.(calls := system.calls[i := call.(point := LoggingIn(login))], lockHolder := Some(i))
    case LogIn(i, loggedIn) =>
      var call := system.calls[i];
      var login := call.point.login;
      if loggedIn then
        system.(calls := system.calls[i := Repeating(call, login)], lockHolder := None, logins := system.logins + 1, replaced := system.replaced + [login])
      else system.(calls := system.calls[i := call.(point := Finished(Cancelled))], lockHolder := None)
  }

  predicate IsRun(system: System, events: seq<Event>)
    decreases |events|
  {
    events != [] ==> Enabled(system, events[0]) && IsRun(Next(system, events[0]), events[1..])
  }

  function After(system: System, events: seq<Event>): System
    requires IsRun(system, events)
    decreases |events|
  {
    if events == [] then system else After(Next(system, events[0]), events[1..])
  }

  // ---------------------------------------------------------------------------------------
  // What every interleaving keeps

  /** The calls with a request in flight. */
  function RequestsInFlight(calls: seq<Call>): nat {
    if calls == [] then 0 else
    RequestsInFlight(calls[..|calls| - 1]) + if calls[|calls| - 1].point.InFlight? then 1 else 0
  }

  /** The login number a call has in hand. */
  function LoginOf(point: Point): Option<nat> {
    match point
    case WaitingForSlot(login) => Some(login)
    case InFlight(login) => Some(login)
    case Reporting(login) => Some(login)
    case LoggingIn(login) => Some(login)
    case _ => None
  }

  /** A call that has not yet asked with the client in hand. */
  predicate BeforeRequest(point: Point) {
    point.Starting? || point.WaitingForSlot?
  }

  predicate CallInvariant(system: System, i: nat)
    requires i < |system.calls|
  {
    var call := system.calls[i];
    && (system.lockHolder == Some(i) <==> call.point.LoggingIn?)
    && call.attempts <= call.retries && (call.point.Sleeping? ==> call.attempts < call.retries)
    && call.requests <= call.attempts + call.losses + 1
    && (!call.point.Finished? ==> call.requests == call.attempts + call.losses + if BeforeRequest(call.point) then 0 else 1)
    && (LoginOf(call.point).Some? ==> LoginOf(call.point).value <= system.logins)
    && (call.point.LoggingIn? ==> call.point.login == system.logins < system.allowed)
    && (call.lastLost.None? ==> call.losses == 0)
    && (call.lastLost.Some? ==> call.losses <= call.lastLost.value + 1 <= system.logins)
    && (call.lastLost.Some? && LoginOf(call.point).Some? ==> call.lastLost.value < LoginOf(call.point).value)
  }

  predicate Invariant(system: System) {
    && (forall i :: 0 <= i < |system.calls| ==> CallInvariant(system, i))
    && (system.lockHolder.Some? ==> system.lockHolder.value < |system.calls|)
    && system.freeSlots + RequestsInFlight(system.calls) == MAX_REQUESTS_IN_FLIGHT
    && system.logins <= system.allowed
    && |system.replaced| == system.logins
    && forall k :: 0 <= k < |system.replaced| ==> system.replaced[k] == k
  }

  lemma {:induction false} InFlightUpdated(calls: seq<Call>, i: nat, call: Call)
    requires i < |calls|
    ensures RequestsInFlight(calls[i := call]) + (if calls[i].point.InFlight? then 1 else 0)
            == RequestsInFlight(calls) + (if call.point.InFlight? then 1 else 0)
  {
    var last := |calls| - 1;
    if i < last {
      assert calls[i := call][..last] == calls[..last][i := call];
      InFlightUpdated(calls[..last], i, call);
    } else {
      assert calls[i := call][..last] == calls[..last];
    }
  }

  lemma {:induction false} InFlightHas(calls: seq<Call>)
    ensures RequestsInFlight(calls) > 0 ==> exists i :: 0 <= i < |calls| && calls[i].point.InFlight?
  {
    if calls != [] && !calls[|calls| - 1].point.InFlight? {
      InFlightHas(calls[..|calls| - 1]);
    }
  }

  lemma OwnCallKept(system: System, event: Event)
    requires Invariant(system) && Enabled(system, event) && !event.NewCall?
    ensures CallInvariant(Next(system, event), event.call)
  {
    hide RequestsInFlight;
    assert CallInvariant(system, event.call);
  }

  lemma OtherCallKept(system: System, event: Event, i: nat)
    requires Invariant(system) && Enabled(system, event) && i < |system.calls| && (event.NewCall? || i != event.call)
    ensures i < |Next(system, event).calls| && CallInvariant(Next(system, event), i)
  {
    hide RequestsInFlight;
    assert CallInvariant(system, i);
    assert !event.NewCall? ==> CallInvariant(system, event.call);
  }

  lemma EventKeepsCalls(system: System, event: Event)
    requires Invariant(system) && Enabled(system, event)
    ensures forall i :: 0 <= i < |Next(system, event).calls| ==> CallInvariant(Next(system, event), i)
  {
    hide RequestsInFlight, Received, Repeating;
    var after := Next(system, event);
    forall i | 0 <= i < |after.calls|
      ensures CallInvariant(after, i)
    {
      if i < |system.calls| && (event.NewCall? || i != event.call) {
        OtherCallKept(system, event, i);
      } else if !event.NewCall? {
        OwnCallKept(system, event);
      }
    }
  }

  /** Slots are taken and given back with the requests in flight. */
  lemma EventKeepsSlots(system: System, event: Event)
    requires Invariant(system) && Enabled(system, event)
    ensures Next(system, event).freeSlots + RequestsInFlight(Next(system, event).calls) == MAX_REQUESTS_IN_FLIGHT
  {
    hide CallInvariant, RequestsInFlight;
    var after := Next(system, event);
    if event.NewCall? {
      NoMoreInFlight(system.calls, after.calls);
    } else {
      InFlightUpdated(system.calls, event.call, after.calls[event.call]);
      assert after.calls == system.calls[event.call := after.calls[event.call]];
    }
  }

  lemma NoMoreInFlight(calls: seq<Call>, after: seq<Call>)
    requires |after| == |calls| + 1 && after[..|calls|] == calls && !after[|calls|].point.InFlight?
    ensures RequestsInFlight(after) == RequestsInFlight(calls)
  {}

  lemma EventKeepsInvariant(system: System, event: Event)
    requires Invariant(system) && Enabled(system, event)
    ensures Invariant(Next(system, event))
  {
    EventKeepsCalls(system, event);
    EventKeepsSlots(system, event);
    hide RequestsInFlight, Received, Repeating;
    if !event.NewCall? {
      assert CallInvariant(system, event.call);
    }
  }

  lemma {:induction false} RunKeepsInvariant(system: System, events: seq<Event>)
    requires Invariant(system) && IsRun(system, events)
    ensures Invariant(After(system, events)) && After(system, events).allowed == system.allowed
    decreases |events|
  {
    hide Invariant, Enabled;
    if events != [] {
      EventKeepsInvariant(system, events[0]);
      AllowedStays(system, events[0]);
      RunKeepsInvariant(Next(system, events[0]), events[1..]);
    }
  }

  lemma AllowedStays(system: System, event: Event)
    requires Enabled(system, event)
    ensures Next(system, event).allowed == system.allowed
  {}

  /**
   After any interleaving from a new session: no more than two requests in flight, no more
   logins than allowed, and the lost logins 0, 1, 2… replaced once each.
   */
  lemma SessionIsSafe(allowed: nat, events: seq<Event>)
    requires IsRun(Initial(allowed), events)
    ensures var system := After(Initial(allowed), events);
            && RequestsInFlight(system.calls) <= 2
            && system.logins <= allowed
            && system.replaced == seq(system.logins, k => k)
  {
    RunKeepsInvariant(Initial(allowed), events);
  }

  /** A call makes at most one request, one for each retry, and one for each login allowed; a repeat after a lost session uses a later login. */
  lemma CallsAreBounded(allowed: nat, events: seq<Event>, i: nat)
    requires IsRun(Initial(allowed), events) && i < |After(Initial(allowed), events).calls|
    ensures var call := After(Initial(allowed), events).calls[i];
            && call.requests <= 1 + call.retries + allowed
            && (call.lastLost.Some? && call.point.InFlight? ==> call.point.login > call.lastLost.value)
  {
    RunKeepsInvariant(Initial(allowed), events);
    assert CallInvariant(After(Initial(allowed), events), i);
  }

  // ---------------------------------------------------------------------------------------
  // No run gets stuck, and every run ends

  predicate AllFinished(system: System) {
    forall i :: 0 <= i < |system.calls| ==> system.calls[i].point.Finished?
  }

  /** While a call is unfinished, some thread can go on: the lock's holder, a request in flight, or the call itself. */
  lemma SomeThreadCanGoOn(system: System) returns (event: Event)
    requires Invariant(system) && !AllFinished(system)
    ensures Enabled(system, event) && !event.NewCall?
  {
    if system.lockHolder.Some? {
      assert CallInvariant(system, system.lockHolder.value);
      return LogIn(system.lockHolder.value, true);
    }
    var i: nat :| i < |system.calls| && !system.calls[i].point.Finished?;
    assert CallInvariant(system, i);
    match system.calls[i].point
    case Starting => event := TakeClient(i);
    case WaitingForSlot(_) =>
      event := TakeSlot(i);
      if system.freeSlots == 0 {
        InFlightHas(system.calls);
        var j: nat :| j < |system.calls| && system.calls[j].point.InFlight?;
        event := Receive(j, Frame);
      }
    case InFlight(_) => event := Receive(i, Frame);
    case Sleeping => event := Wake(i);
    case Reporting(_) => event := Report(i);
  }

  /** How far a call still is from its next request; 0 when it is done. */
  function Distance(point: Point): nat {
    match point
    case Finished(_) => 0
    case InFlight(_) => 6
    case Reporting(_) => 5
    case LoggingIn(_) => 4
    case Sleeping => 4
    case Starting => 3
    case WaitingForSlot(_) => 2
  }

  /** A bound on the events a call still takes part in. */
  function Remaining(call: Call, allowed: nat): int {
    Distance(call.point) + 5 * (1 + call.retries + allowed - call.requests)
  }

  function TotalRemaining(calls: seq<Call>, allowed: nat): int {
    if calls == [] then 0 else
    TotalRemaining(calls[..|calls| - 1], allowed) + Remaining(calls[|calls| - 1], allowed)
  }

  lemma {:induction false} RemainingUpdated(calls: seq<Call>, i: nat, call: Call, allowed: nat)
    requires i < |calls|
    ensures TotalRemaining(calls[i := call], allowed) + Remaining(calls[i], allowed) == TotalRemaining(calls, allowed) + Remaining(call, allowed)
  {
    hide Remaining;
    var last := |calls| - 1;
    if i < last {
      assert calls[i := call][..last] == calls[..last][i := call];
      RemainingUpdated(calls[..last], i, call, allowed);
    } else {
      assert calls[i := call][..last] == calls[..last];
    }
  }

  lemma {:induction false} NeverNegative(calls: seq<Call>, allowed: nat)
    requires forall i :: 0 <= i < |calls| ==> Remaining(calls[i], allowed) >= 0
    ensures TotalRemaining(calls, allowed) >= 0
  {
    if calls != [] {
      NeverNegative(calls[..|calls| - 1], allowed);
    }
  }

  lemma EventUsesUp(system: System, event: Event)
    requires Invariant(system) && Enabled(system, event) && !event.NewCall?
    ensures TotalRemaining(Next(system, event).calls, system.allowed) < TotalRemaining(system.calls, system.allowed)
  {
    var after := Next(system, event);
    var i := event.call;
    assert CallInvariant(system, i);
    RemainingUpdated(system.calls, i, after.calls[i], system.allowed);
    assert after.calls == system.calls[i := after.calls[i]];
  }

  /** Once no new call starts, every interleaving is over after a bounded number of events. */
  lemma {:induction false} EveryRunEnds(system: System, events: seq<Event>)
    requires Invariant(system) && IsRun(system, events) && forall i :: 0 <= i < |events| ==> !events[i].NewCall?
    ensures |events| <= TotalRemaining(system.calls, system.allowed)
    decreases |events|
  {
    hide Enabled, TotalRemaining;
    forall i | 0 <= i < |system.calls|
      ensures Remaining(system.calls[i], system.allowed) >= 0
    {
      assert CallInvariant(system, i);
    }
    NeverNegative(system.calls, system.allowed);
    hide Invariant;
    if events != [] {
      EventKeepsInvariant(system, events[0]);
      EventUsesUp(system, events[0]);
      AllowedStays(system, events[0]);
      EveryRunEnds(Next(system, events[0]), events[1..]);
    }
  }
}
