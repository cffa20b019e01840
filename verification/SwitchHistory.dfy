/**
 What requests to switch tickers keep, in any order of their two steps: the books' values, a leg's realised
 amounts, and whose a ticker was; and exactly when a request between whose steps something changed does not.
 */
module SwitchHistory {
  import opened Wrappers
  import opened BookKeys
  import opened TickerSwitch

  // ---------------------------------------------------------------------------------------
  // Periods

  /** No period starts or ends after the moment. */
  predicate Past(periods: seq<Period>, at: int) {
    forall i :: 0 <= i < |periods| ==> periods[i].startedAt <= at && (periods[i].endedAt.Some? ==> periods[i].endedAt.value <= at)
  }

  /** The flags are the tickers with an open period. */
  ghost predicate FlagsAgree(state: State) {
    forall ticker :: ticker in state.enabled <==> HasOpen(state.periods, ticker)
  }

  lemma PeriodsAfterOpen(periods: seq<Period>, switched: string, enabling: bool, at: int, ticker: string)
    ensures HasOpen(PeriodsAfter(periods, switched, enabling, at), ticker) <==> if ticker == switched then enabling else HasOpen(periods, ticker)
  {
    var after := PeriodsAfter(periods, switched, enabling, at);
    if HasOpen(periods, ticker) && ticker != switched {
      var i :| 0 <= i < |periods| && IsOpen(periods[i], ticker);
      assert IsOpen(after[i], ticker);
    }
    if enabling && ticker == switched {
      assert IsOpen(after[|periods|], ticker);
    }
    if HasOpen(after, ticker) && ticker != switched {
      var i :| 0 <= i < |after| && IsOpen(after[i], ticker);
      assert i < |periods| && IsOpen(periods[i], ticker);
    }
  }

  /** At or after every period's start and end, a ticker is Pluto's exactly when it has an open period. */
  lemma PlutosIsOpen(periods: seq<Period>, ticker: string, at: int)
    requires Past(periods, at)
    ensures BookOfTickerAt(periods, ticker, at) == Pluto <==> HasOpen(periods, ticker)
    ensures !HasOpenAfter(periods, ticker, at)
  {
    if HasOpen(periods, ticker) {
      var i :| 0 <= i < |periods| && IsOpen(periods[i], ticker);
      assert Covers(periods[i], ticker, at);
    }
    if BookOfTickerAt(periods, ticker, at) == Pluto {
      var i :| 0 <= i < |periods| && Covers(periods[i], ticker, at);
      assert IsOpen(periods[i], ticker);
    }
  }

  lemma PastAfter(periods: seq<Period>, ticker: string, enabling: bool, at: int)
    requires Past(periods, at)
    ensures Past(PeriodsAfter(periods, ticker, enabling, at), at)
  {}

  lemma CoversEnded(periods: seq<Period>, switched: string, enabling: bool, switchedAt: int, ticker: string, at: int)
    requires Past(periods, switchedAt)
    ensures BookOfTickerAt(PeriodsAfter(periods, switched, enabling, switchedAt), ticker, at)
            == if switched == ticker && switchedAt <= at then (if enabling then Pluto else Manual) else BookOfTickerAt(periods, ticker, at)
  {
    var after := PeriodsAfter(periods, switched, enabling, switchedAt);
    if switched == ticker && switchedAt <= at && enabling {
      assert Covers(after[|periods|], ticker, at);
    } else if BookOfTickerAt(periods, ticker, at) == Pluto && !(switched == ticker && switchedAt <= at) {
      var i :| 0 <= i < |periods| && Covers(periods[i], ticker, at);
      assert Covers(after[i], ticker, at);
    } else if BookOfTickerAt(after, ticker, at) == Pluto {
      var i :| 0 <= i < |after| && Covers(after[i], ticker, at);
      assert i < |periods| ==> Covers(periods[i], ticker, at);
      assert false;
    }
  }

  lemma NoPeriodsManual(ticker: string, at: int)
    ensures BookOfTickerAt([], ticker, at) == Manual
  {}

  // ---------------------------------------------------------------------------------------
  // What a switch changes of a book's value

  function CashOf(cash: seq<CashEntry>, book: BookKey): real {
    if cash == [] then 0.0 else CashOf(cash[..|cash| - 1], book) + if cash[|cash| - 1].book == book then cash[|cash| - 1].amount else 0.0
  }

  /** A book's open legs at the marks. */
  function PositionsOf(periods: seq<Period>, legs: seq<Leg>, live: string -> Option<real>, book: BookKey, at: int): real {
    if legs == [] then 0.0 else
    var leg := legs[|legs| - 1];
    PositionsOf(periods, legs[..|legs| - 1], live, book, at)
    + if BookOfLegAt(periods, leg.ticker, leg.hedge, at) == book then ValueAt(leg, MarkOf(leg, live)) else 0.0
  }

  /** Cash and positions at the mark. */
  function BookValue(state: State, legs: seq<Leg>, live: string -> Option<real>, book: BookKey, at: int): real {
    CashOf(state.cash, book) + PositionsOf(state.periods, legs, live, book, at)
  }

  lemma CashOfPayments(cash: seq<CashEntry>, plan: Plan, at: int, book: BookKey)
    requires IsPlan(plan)
    ensures CashOf(cash + PaymentsOf(plan, at), book) == CashOf(cash, book) + if book == plan.fromBook then plan.totalValue else -plan.totalValue
  {
    var after := cash + PaymentsOf(plan, at);
    if PaymentsOf(plan, at) != [] {
      assert after[..|cash| + 1] == cash + [CashEntry(plan.toBook, -plan.totalValue, at)];
      assert after[..|cash| + 1][..|cash|] == cash;
      assert CashOf(after, book) == CashOf(after[..|cash| + 1], book) + if plan.fromBook == book then plan.totalValue else 0.0;
    } else {
      NoLegsNoValue();
      assert after == cash;
    }
  }

  /** A plan as it is made: from one book to the other, its totals those of its legs. */
  predicate IsPlan(plan: Plan) {
    plan.fromBook == Other(plan.toBook) && plan.totalValue == TotalValue(plan.legs) && plan.realized == TotalRealized(plan.legs)
  }

  /** The legs that move with the ticker, at the marks. */
  function MovingValue(legs: seq<Leg>, ticker: string, live: string -> Option<real>): real {
    if legs == [] then 0.0 else
    var leg := legs[|legs| - 1];
    MovingValue(legs[..|legs| - 1], ticker, live) + if Moves(leg, ticker) then ValueAt(leg, MarkOf(leg, live)) else 0.0
  }

  /** A plan is worth the legs that move when it is made. */
  lemma {:induction false} PlanIsWorth(transfers: seq<Transfer>, ticker: string, legs: seq<Leg>, live: string -> Option<real>)
    ensures TotalValue(PlanLegsOf(transfers, ticker, legs, live)) == MovingValue(legs, ticker, live)
  {
    hide MarkOf, ValueAt, CostBasis, RealizedAt, TotalValue;
    if legs == [] {
      NoLegsNoValue();
    } else {
      var leg := legs[|legs| - 1];
      PlanIsWorth(transfers, ticker, legs[..|legs| - 1], live);
      var planned := PlanLegsOf(transfers, ticker, legs[..|legs| - 1], live);
      if Moves(leg, ticker) {
        TotalsOneMore(planned, PlanLegOf(transfers, leg, live));
      } else {
        assert planned + [] == planned;
      }
    }
  }

  /** When the ticker changes hands the legs that move leave the source for the receiving book. */
  lemma {:induction false} PositionsMove(before: seq<Period>, after: seq<Period>, switched: string, enabling: bool, legs: seq<Leg>, live: string -> Option<real>,
                                         book: BookKey, at: int)
    requires forall ticker :: BookOfTickerAt(after, ticker, at) == if ticker == switched then (if enabling then Pluto else Manual) else BookOfTickerAt(before, ticker, at)
    requires BookOfTickerAt(before, switched, at) == if enabling then Manual else Pluto
    ensures PositionsOf(after, legs, live, book, at)
            == PositionsOf(before, legs, live, book, at) + (if book == (if enabling then Pluto else Manual) then 1.0 else -1.0) * MovingValue(legs, switched, live)
  {
    hide BookOfTickerAt, MarkOf, ValueAt;
    if legs != [] {
      PositionsMove(before, after, switched, enabling, legs[..|legs| - 1], live, book, at);
    }
  }

  lemma {:induction false} PositionsStay(before: seq<Period>, after: seq<Period>, legs: seq<Leg>, live: string -> Option<real>, book: BookKey, at: int)
    requires forall ticker :: BookOfTickerAt(after, ticker, at) == BookOfTickerAt(before, ticker, at)
    ensures PositionsOf(after, legs, live, book, at) == PositionsOf(before, legs, live, book, at)
  {
    hide BookOfTickerAt, MarkOf, ValueAt;
    if legs != [] {
      PositionsStay(before, after, legs[..|legs| - 1], live, book, at);
    }
  }

  /** What changes hands when a plan is applied: the legs that move by then, if the ticker's open period changes, less what is paid for those of the plan. */
  function Gained(state: State, ticker: string, plan: Plan, legs: seq<Leg>, live: string -> Option<real>): real {
    (if HasOpen(state.periods, ticker) != (plan.toBook == Pluto) then MovingValue(legs, ticker, live) else 0.0) - plan.totalValue
  }

  /** Whatever plan is applied, the receiving book gains that, the other loses it, and the ledger's total stays. */
  lemma AppliedValue(state: State, ticker: string, plan: Plan, at: int, legs: seq<Leg>, live: string -> Option<real>, book: BookKey)
    requires Past(state.periods, at) && IsPlan(plan) && Applied(state, ticker, plan, at).Ok?
    ensures var after := Applied(state, ticker, plan, at).value;
            && BookValue(after, legs, live, book, at)
               == BookValue(state, legs, live, book, at) + (if book == plan.toBook then 1.0 else -1.0) * Gained(state, ticker, plan, legs, live)
            && CashOf(after.cash, Pluto) + CashOf(after.cash, Manual) == CashOf(state.cash, Pluto) + CashOf(state.cash, Manual)
  {
    hide BookOfTickerAt, PeriodsAfter, PositionsOf, CashOf, TransfersOf, PaymentsOf, Past, HasOpen, HasOpenAfter, MovingValue, TotalValue, TotalRealized;
    var enabling := plan.toBook == Pluto;
    var periods := PeriodsAfter(state.periods, ticker, enabling, at);
    PlutosIsOpen(state.periods, ticker, at);
    forall other
      ensures BookOfTickerAt(periods, other, at) == if other == ticker then (if enabling then Pluto else Manual) else BookOfTickerAt(state.periods, other, at)
    {
      CoversEnded(state.periods, ticker, enabling, at, other, at);
    }
    if HasOpen(state.periods, ticker) != enabling {
      PositionsMove(state.periods, periods, ticker, enabling, legs, live, book, at);
    } else {
      PositionsStay(state.periods, periods, legs, live, book, at);
    }
    CashOfPayments(state.cash, plan, at, book);
    CashOfPayments(state.cash, plan, at, Pluto);
    CashOfPayments(state.cash, plan, at, Manual);
  }

  /**
   A switch goes through exactly when it does not switch on a ticker with an open period; and it leaves
   each book's value as it was exactly when the plan's total is worth the legs that change hands: those
   open by then when the ticker's open period is other than asked for, and none when it is not.
   */
  lemma SwitchIsNeutralExactlyWhen(state: State, ticker: string, plan: Plan, at: int, legs: seq<Leg>, live: string -> Option<real>, book: BookKey)
    requires Past(state.periods, at) && IsPlan(plan)
    ensures Applied(state, ticker, plan, at).Ok? <==> !(plan.toBook == Pluto && HasOpen(state.periods, ticker))
    ensures Applied(state, ticker, plan, at).Ok? ==>
              (BookValue(Applied(state, ticker, plan, at).value, legs, live, book, at) == BookValue(state, legs, live, book, at)
               <==> plan.totalValue == if HasOpen(state.periods, ticker) != (plan.toBook == Pluto) then MovingValue(legs, ticker, live) else 0.0)
  {
    hide BookValue, HasOpen, HasOpenAfter, MovingValue, Past, PeriodsAfter, TransfersOf, PaymentsOf, IsPlan;
    PlutosIsOpen(state.periods, ticker, at);
    if Applied(state, ticker, plan, at).Ok? {
      AppliedValue(state, ticker, plan, at, legs, live, book);
    }
  }

  // ---------------------------------------------------------------------------------------
  // A request's second step

  /** A request as it is asked. */
  predicate IsRequest(request: Request) {
    request.plan.Some? ==> IsPlan(request.plan.value) && request.plan.value.toBook == if request.enabling then Pluto else Manual
  }

  lemma AskedIsRequest(state: State, switch: Switch)
    ensures IsRequest(Asked(state, switch))
  {
    hide PlanLegsOf, TotalValue, TotalRealized;
  }

  /** Nothing that counts changed between a request's two steps: the flag is as it was read, and the legs that move are worth the plan's total. */
  predicate UnchangedSinceAsked(state: State, request: Request, legs: seq<Leg>, live: string -> Option<real>) {
    (request.ticker in state.enabled) != request.enabling ==> request.plan.Some? && request.plan.value.totalValue == MovingValue(legs, request.ticker, live)
  }

  /** A request that is locked as it was asked meets the condition. */
  lemma AskedIsUnchanged(state: State, switch: Switch)
    ensures UnchangedSinceAsked(state, Asked(state, switch), switch.legs, switch.live)
  {
    hide PlanLegsOf, TotalValue, TotalRealized, MovingValue;
    PlanIsWorth(state.transfers, switch.ticker, switch.legs, switch.live);
  }

  predicate BothValuesStay(before: State, after: State, legs: seq<Leg>, live: string -> Option<real>, at: int) {
    forall book: BookKey :: BookValue(after, legs, live, book, at) == BookValue(before, legs, live, book, at)
  }

  lemma BothAre(before: State, after: State, legs: seq<Leg>, live: string -> Option<real>, at: int)
    ensures BothValuesStay(before, after, legs, live, at)
            <==> BookValue(after, legs, live, Pluto, at) == BookValue(before, legs, live, Pluto, at) && BookValue(after, legs, live, Manual, at) == BookValue(before, legs, live, Manual, at)
  {
    hide BookValue;
    forall book: BookKey | BookValue(after, legs, live, Pluto, at) == BookValue(before, legs, live, Pluto, at) && BookValue(after, legs, live, Manual, at) == BookValue(before, legs, live, Manual, at)
      ensures BookValue(after, legs, live, book, at) == BookValue(before, legs, live, book, at)
    {
      if book != Pluto {
        assert book == Manual;
      }
    }
  }

  /** While flags and open periods agree, a locked request is never refused, and leaves both books' values and the agreement exactly when nothing that counts changed since it was asked. */
  lemma LockedKeepsExactlyWhen(state: State, request: Request, at: int, legs: seq<Leg>, live: string -> Option<real>)
    requires FlagsAgree(state) && Past(state.periods, at) && IsRequest(request)
    ensures BothValuesStay(state, Locked(state, request, at), legs, live, at) && FlagsAgree(Locked(state, request, at)) <==> UnchangedSinceAsked(state, request, legs, live)
    ensures (request.ticker in state.enabled) != request.enabling && request.plan.Some? ==>
              Applied(WithFlag(state, request.ticker, request.enabling), request.ticker, request.plan.value, at) == Ok(Locked(state, request, at))
    ensures Past(Locked(state, request, at).periods, at)
  {
    hide BookValue, HasOpen, HasOpenAfter, MovingValue, PeriodsAfter, TransfersOf, PaymentsOf, TotalValue, TotalRealized, Past, FlagsAgree;
    if (request.ticker in state.enabled) != request.enabling {
      FlagIsOpen(state, request.ticker);
      var flagged, after := WithFlag(state, request.ticker, request.enabling), Locked(state, request, at);
      FlagsAside(state, request.ticker, request.enabling, legs, live, at);
      if request.plan.None? {
        FlagAlone(state, request.ticker, request.enabling);
      } else {
        var plan := request.plan.value;
        SwitchIsNeutralExactlyWhen(flagged, request.ticker, plan, at, legs, live, Pluto);
        SwitchIsNeutralExactlyWhen(flagged, request.ticker, plan, at, legs, live, Manual);
        BothAre(state, flagged, legs, live, at);
        BothAre(state, after, legs, live, at);
        FlagAndPeriod(state, request.ticker, request.enabling, at, after);
        PastAfter(state.periods, request.ticker, request.enabling, at);
      }
    }
  }

  lemma FlagIsOpen(state: State, ticker: string)
    requires FlagsAgree(state)
    ensures ticker in state.enabled <==> HasOpen(state.periods, ticker)
  {}

  lemma FlagsAside(state: State, ticker: string, enabling: bool, legs: seq<Leg>, live: string -> Option<real>, at: int)
    ensures BothValuesStay(state, WithFlag(state, ticker, enabling), legs, live, at)
  {}

  /** The flag without the period no longer agrees with it. */
  lemma FlagAlone(state: State, ticker: string, enabling: bool)
    requires FlagsAgree(state) && (ticker in state.enabled) != enabling
    ensures !FlagsAgree(WithFlag(state, ticker, enabling))
  {
    hide HasOpen;
    assert (ticker in WithFlag(state, ticker, enabling).enabled) != HasOpen(state.periods, ticker);
  }

  lemma FlagAndPeriod(state: State, ticker: string, enabling: bool, at: int, after: State)
    requires FlagsAgree(state) && after.enabled == WithFlag(state, ticker, enabling).enabled && after.periods == PeriodsAfter(state.periods, ticker, enabling, at)
    ensures FlagsAgree(after)
  {
    hide HasOpen, PeriodsAfter;
    forall other
      ensures other in after.enabled <==> HasOpen(after.periods, other)
    {
      PeriodsAfterOpen(state.periods, ticker, enabling, at, other);
    }
  }

  // ---------------------------------------------------------------------------------------
  // Any order of steps

  datatype System = System(state: State, asked: map<nat, Request>)

  const AT_FIRST := System(NOTHING_YET, map[])

  /** A step of one of the requests; `legs` and `live` are what is open, and its prices, when the lock is held. */
  datatype Event =
    | Ask(id: nat, switch: Switch)
    | Lock(id: nat, at: int, legs: seq<Leg>, live: string -> Option<real>)

  function Next(system: System, event: Event): System {
    match event
    case Ask(id, switch) => system.(asked := system.asked[id := Asked(system.state, switch)])
    case Lock(id, at, _, _) =>
      if id !in system.asked then system else System(Locked(system.state, system.asked[id], at), system.asked - {id})
  }

  function After(events: seq<Event>): System {
    if events == [] then AT_FIRST else Next(After(events[..|events| - 1]), events[|events| - 1])
  }

  /** The locks are held one after the other, none after the moment. */
  predicate InTimeOrder(events: seq<Event>, at: int) {
    events != [] ==>
      var last := events[|events| - 1];
      (last.Lock? ==> last.at <= at) && InTimeOrder(events[..|events| - 1], if last.Lock? then last.at else at)
  }

  predicate UnchangedAt(system: System, event: Event) {
    event.Lock? && event.id in system.asked ==> UnchangedSinceAsked(system.state, system.asked[event.id], event.legs, event.live)
  }

  /** Nothing that counts changes between the two steps of any request. */
  predicate AllUnchanged(events: seq<Event>) {
    events != [] ==> AllUnchanged(events[..|events| - 1]) && UnchangedAt(After(events[..|events| - 1]), events[|events| - 1])
  }

  ghost predicate AllAreRequests(asked: map<nat, Request>) {
    forall id :: id in asked ==> IsRequest(asked[id])
  }

  lemma {:induction false} AskedAreRequests(events: seq<Event>)
    ensures AllAreRequests(After(events).asked)
  {
    hide IsRequest, Asked, Locked;
    if events != [] {
      AskedAreRequests(events[..|events| - 1]);
      var last := events[|events| - 1];
      if last.Ask? {
        AskedIsRequest(After(events[..|events| - 1]).state, last.switch);
      }
    }
  }

  lemma NothingAgrees(at: int)
    ensures FlagsAgree(NOTHING_YET) && Past(NOTHING_YET.periods, at)
  {}

  lemma PastLater(periods: seq<Period>, at: int, later: int)
    requires Past(periods, at) && at <= later
    ensures Past(periods, later)
  {}

  /** In any order of steps in which nothing that counts changes between a request's two, flags and open periods agree. */
  lemma {:induction false} FlagsAlwaysAgree(events: seq<Event>, at: int)
    requires InTimeOrder(events, at) && AllUnchanged(events)
    ensures FlagsAgree(After(events).state) && Past(After(events).state.periods, at)
  {
    hide FlagsAgree, Past, Asked, Locked, UnchangedSinceAsked, BothValuesStay, IsRequest;
    if events == [] {
      NothingAgrees(at);
    } else {
      var before, last := events[..|events| - 1], events[|events| - 1];
      if last.Lock? {
        FlagsAlwaysAgree(before, last.at);
        AskedAreRequests(before);
        if last.id in After(before).asked {
          LockedKeepsExactlyWhen(After(before).state, After(before).asked[last.id], last.at, last.legs, last.live);
        }
        PastLater(After(events).state.periods, last.at, at);
      } else {
        FlagsAlwaysAgree(before, at);
      }
    }
  }

  /** And then a step leaves both books' values, and the agreement, exactly when nothing that counts changed since its request was asked. */
  lemma EveryStepKeepsExactlyWhen(events: seq<Event>, event: Event)
    requires event.Lock? && InTimeOrder(events, event.at) && AllUnchanged(events)
    ensures var before, after := After(events).state, Next(After(events), event).state;
            BothValuesStay(before, after, event.legs, event.live, event.at) && FlagsAgree(after) <==> UnchangedAt(After(events), event)
  {
    hide FlagsAgree, Past, Asked, Locked, UnchangedSinceAsked, IsRequest, BookValue;
    FlagsAlwaysAgree(events, event.at);
    AskedAreRequests(events);
    if event.id in After(events).asked {
      LockedKeepsExactlyWhen(After(events).state, After(events).asked[event.id], event.at, event.legs, event.live);
    }
  }

  // ---------------------------------------------------------------------------------------
  // Whose a ticker was

  /** The last lock of the ticker up to a moment. */
  function Replayed(events: seq<Event>, ticker: string, at: int): BookKey {
    if events == [] then Manual else
    var before, last := events[..|events| - 1], events[|events| - 1];
    if last.Lock? && last.id in After(before).asked && After(before).asked[last.id].ticker == ticker && last.at <= at
    then (if After(before).asked[last.id].enabling then Pluto else Manual)
    else Replayed(before, ticker, at)
  }

  /** In such an order the stored periods tell whose a leg was at any moment just as replaying the locked requests does; a hedge is always Manual's. */
  lemma {:induction false} PeriodsReplayRequests(events: seq<Event>, ticker: string, hedge: bool, at: int, end: int)
    requires InTimeOrder(events, end) && AllUnchanged(events)
    ensures BookOfLegAt(After(events).state.periods, ticker, hedge, at) == if hedge then Manual else Replayed(events, ticker, at)
  {
    hide BookOfTickerAt, Asked, Locked, FlagsAgree, Past, UnchangedSinceAsked, IsRequest, BothValuesStay;
    if events == [] {
      NoPeriodsManual(ticker, at);
    } else {
      var before, last := events[..|events| - 1], events[|events| - 1];
      PeriodsReplayRequests(before, ticker, hedge, at, if last.Lock? then last.at else end);
      if last.Lock? && last.id in After(before).asked {
        FlagsAlwaysAgree(before, last.at);
        AskedAreRequests(before);
        LockedBook(After(before).state, After(before).asked[last.id], last.at, last.legs, last.live, ticker, at);
      }
    }
  }

  /** Whose a ticker is once a request is locked. */
  lemma LockedBook(state: State, request: Request, lockedAt: int, legs: seq<Leg>, live: string -> Option<real>, ticker: string, at: int)
    requires FlagsAgree(state) && Past(state.periods, lockedAt) && IsRequest(request) && UnchangedSinceAsked(state, request, legs, live)
    ensures BookOfTickerAt(Locked(state, request, lockedAt).periods, ticker, at)
            == if request.ticker == ticker && lockedAt <= at then (if request.enabling then Pluto else Manual) else BookOfTickerAt(state.periods, ticker, at)
  {
    hide BookOfTickerAt, HasOpen, HasOpenAfter, MovingValue, PeriodsAfter, TransfersOf, PaymentsOf, TotalValue, TotalRealized, BothValuesStay, Past, FlagsAgree;
    LockedKeepsExactlyWhen(state, request, lockedAt, legs, live);
    FlagIsOpen(state, request.ticker);
    if (request.ticker in state.enabled) == request.enabling {
      if lockedAt <= at {
        PastLater(state.periods, lockedAt, at);
        PlutosIsOpen(state.periods, request.ticker, at);
      }
    } else {
      CoversEnded(state.periods, request.ticker, request.enabling, lockedAt, ticker, at);
    }
  }

  // ---------------------------------------------------------------------------------------
  // What may change between the two steps

  const SHARE := Leg("1", "AMD", false, false, 1.0, 1.0, 10.0, None)

  const NO_PRICE := (id: string) => None

  lemma ShareIsWorthTen()
    ensures MovingValue([SHARE], "AMD", NO_PRICE) == 10.0
  {
    assert [SHARE][..0] == [];
  }

  lemma NothingMoves()
    ensures MovingValue([], "AMD", NO_PRICE) == 0.0
  {}

  /** A share bought after the plan was made moves to Pluto unpaid. */
  lemma FillAfterThePlan()
    ensures var request := Asked(NOTHING_YET, Switch("AMD", true, [], NO_PRICE));
            !BothValuesStay(NOTHING_YET, Locked(NOTHING_YET, request, 5), [SHARE], NO_PRICE, 5)
  {
    var switch := Switch("AMD", true, [], NO_PRICE);
    var request := Asked(NOTHING_YET, switch);
    hide BothValuesStay, MovingValue, Locked, FlagsAgree, Past;
    NothingAgrees(5);
    AskedIsRequest(NOTHING_YET, switch);
    AskedIsUnchanged(NOTHING_YET, switch);
    ShareIsWorthTen();
    NothingMoves();
    LockedKeepsExactlyWhen(NOTHING_YET, request, 5, [SHARE], NO_PRICE);
    LockedKeepsExactlyWhen(NOTHING_YET, request, 5, [], NO_PRICE);
  }

  /** AMD switched on while it is on, with a switch off locked in between: its flag is set and no period is open. */
  const OFF_BETWEEN := [
    Ask(1, Switch("AMD", true, [], NO_PRICE)), Lock(1, 1, [], NO_PRICE),
    Ask(2, Switch("AMD", true, [SHARE], NO_PRICE)),
    Ask(3, Switch("AMD", false, [SHARE], NO_PRICE)), Lock(3, 2, [SHARE], NO_PRICE),
    Lock(2, 3, [SHARE], NO_PRICE)]

  lemma FlagWithoutPeriod()
    ensures "AMD" in After(OFF_BETWEEN).state.enabled && !HasOpen(After(OFF_BETWEEN).state.periods, "AMD") && Past(After(OFF_BETWEEN).state.periods, 3)
  {
    hide PlanLegsOf, PlanLegOf, TotalValue, TotalRealized, TransfersOf, PaymentsOf;
    var events := OFF_BETWEEN;
    assert events[..0] == [];
    forall n | 0 <= n < 6
      ensures events[..n + 1][..n] == events[..n] && events[..n + 1][n] == events[n]
    {}
    assert After(events[..1]) == Next(AT_FIRST, events[0]);
    assert After(events[..2]) == Next(After(events[..1]), events[1]);
    assert After(events[..2]).state.enabled == {"AMD"} && After(events[..2]).state.periods == [Period("AMD", 1, None)];
    assert IsOpen(After(events[..2]).state.periods[0], "AMD");
    assert After(events[..3]) == Next(After(events[..2]), events[2]);
    assert After(events[..3]).asked[2].plan.None?;
    assert After(events[..4]) == Next(After(events[..3]), events[3]);
    assert After(events[..5]) == Next(After(events[..4]), events[4]);
    assert After(events[..5]).state.enabled == {} && After(events[..5]).state.periods == [Period("AMD", 1, Some(2))];
    assert events[..6] == events;
    assert After(events) == Next(After(events[..5]), events[5]);
  }

  /** The next switch off then pays Pluto for a share that is Manual's, and stays Manual's. */
  lemma OffBetweenIsPaidFor()
    ensures var state := After(OFF_BETWEEN).state;
            var request := Asked(state, Switch("AMD", false, [SHARE], NO_PRICE));
            BookValue(Locked(state, request, 4), [SHARE], NO_PRICE, Manual, 4) == BookValue(state, [SHARE], NO_PRICE, Manual, 4) - 10.0
  {
    var state, switch := After(OFF_BETWEEN).state, Switch("AMD", false, [SHARE], NO_PRICE);
    hide After, BookValue, HasOpen, HasOpenAfter, MovingValue, Past, PlanLegsOf, TotalValue, TotalRealized, TransfersOf, PaymentsOf, PeriodsAfter;
    FlagWithoutPeriod();
    PastLater(state.periods, 3, 4);
    var request := Asked(state, switch);
    AskedIsRequest(state, switch);
    PlanIsWorth(state.transfers, "AMD", [SHARE], NO_PRICE);
    ShareIsWorthTen();
    var flagged := WithFlag(state, "AMD", false);
    FlagsAside(state, "AMD", false, [SHARE], NO_PRICE, 4);
    SwitchIsNeutralExactlyWhen(flagged, "AMD", request.plan.value, 4, [SHARE], NO_PRICE, Manual);
    AppliedValue(flagged, "AMD", request.plan.value, 4, [SHARE], NO_PRICE, Manual);
  }

  // ---------------------------------------------------------------------------------------
  // A leg's realised amounts telescope

  /** What a leg's sources took when it moved, all moves together. */
  function RealizedOf(transfers: seq<Transfer>, legId: string): real {
    if transfers == [] then 0.0 else
    RealizedOf(transfers[..|transfers| - 1], legId) + if transfers[|transfers| - 1].legId == legId then transfers[|transfers| - 1].realized else 0.0
  }

  predicate ListedOnce(leg: Leg, legs: seq<Leg>) {
    && (forall i :: 0 <= i < |legs| && legs[i].id == leg.id ==>
          legs[i].short == leg.short && legs[i].quantity == leg.quantity && legs[i].multiplier == leg.multiplier && legs[i].entryPrice == leg.entryPrice)
    && (forall i, j :: 0 <= i < j < |legs| ==> !(legs[i].id == leg.id && legs[j].id == leg.id))
  }

  /** The realised amounts so far are what the leg gained from its entry to its last mark. */
  predicate Telescoped(transfers: seq<Transfer>, leg: Leg) {
    RealizedOf(transfers, leg.id) == RealizedAt(leg, leg.entryPrice, CostBasis(transfers, leg))
  }

  lemma GainsAdd(leg: Leg, entry: real, cost: real, mark: real)
    ensures RealizedAt(leg, entry, cost) + RealizedAt(leg, cost, mark) == RealizedAt(leg, entry, mark)
  {
    var unit := leg.quantity * leg.multiplier;
    var sign := leg.Sign();
    assert sign * (cost - entry) * leg.quantity * leg.multiplier == (sign * (cost - entry)) * unit;
    assert sign * (mark - cost) * leg.quantity * leg.multiplier == (sign * (mark - cost)) * unit;
    assert sign * (mark - entry) * leg.quantity * leg.multiplier == (sign * (mark - entry)) * unit;
    assert sign * (cost - entry) + sign * (mark - cost) == sign * (mark - entry);
  }

  lemma RealizedOneMore(transfers: seq<Transfer>, transfer: Transfer, leg: Leg)
    ensures RealizedOf(transfers + [transfer], leg.id) == RealizedOf(transfers, leg.id) + if transfer.legId == leg.id then transfer.realized else 0.0
    ensures CostBasis(transfers + [transfer], leg) == if transfer.legId == leg.id then transfer.mark else CostBasis(transfers, leg)
  {
    assert (transfers + [transfer])[..|transfers|] == transfers;
  }

  lemma {:induction false} CostBasisOfSame(transfers: seq<Transfer>, a: Leg, b: Leg)
    requires a.id == b.id && a.entryPrice == b.entryPrice
    ensures CostBasis(transfers, a) == CostBasis(transfers, b)
  {
    if transfers != [] {
      CostBasisOfSame(transfers[..|transfers| - 1], a, b);
    }
  }

  /** The plan holds the leg at most once, as the same leg, realised from its cost in the plan to its mark. */
  predicate PlannedOnce(planned: seq<PlanLeg>, leg: Leg) {
    && (forall i :: 0 <= i < |planned| && planned[i].leg.id == leg.id ==> planned[i].realized == RealizedAt(leg, planned[i].costBasis, planned[i].mark))
    && (forall i, j :: 0 <= i < j < |planned| ==> !(planned[i].leg.id == leg.id && planned[j].leg.id == leg.id))
  }

  /** The plan's cost of the leg is its cost by now: no other switch moved it since the plan was made. */
  predicate CostIsCurrent(planned: seq<PlanLeg>, transfers: seq<Transfer>, leg: Leg) {
    forall i :: 0 <= i < |planned| && planned[i].leg.id == leg.id ==> planned[i].costBasis == CostBasis(transfers, leg)
  }

  predicate HasPlanned(planned: seq<PlanLeg>, n: nat, leg: Leg)
    requires n <= |planned|
  {
    exists i :: 0 <= i < n && planned[i].leg.id == leg.id
  }

  /** The first `n` transfers of a plan: those of other legs change nothing, the leg's own adds what it realises and leaves its mark. */
  lemma {:induction false} PlanAdds(transfers: seq<Transfer>, plan: Plan, at: int, leg: Leg, n: nat)
    requires n <= |plan.legs| && PlannedOnce(plan.legs, leg)
    ensures var after := transfers + TransfersOf(plan, at)[..n];
            && (!HasPlanned(plan.legs, n, leg) ==> RealizedOf(after, leg.id) == RealizedOf(transfers, leg.id) && CostBasis(after, leg) == CostBasis(transfers, leg))
            && forall i :: 0 <= i < n && plan.legs[i].leg.id == leg.id ==>
                 RealizedOf(after, leg.id) == RealizedOf(transfers, leg.id) + RealizedAt(leg, plan.legs[i].costBasis, plan.legs[i].mark) && CostBasis(after, leg) == plan.legs[i].mark
  {
    hide RealizedAt, RealizedOf, CostBasis;
    var all := TransfersOf(plan, at);
    if n == 0 {
      assert transfers + all[..0] == transfers;
    } else {
      assert transfers + all[..n] == (transfers + all[..n - 1]) + [all[n - 1]];
      PlanAdds(transfers, plan, at, leg, n - 1);
      RealizedOneMore(transfers + all[..n - 1], all[n - 1], leg);
      if plan.legs[n - 1].leg.id == leg.id {
        assert !HasPlanned(plan.legs, n - 1, leg);
      }
    }
  }

  lemma GainIsZero(leg: Leg, from: real, to: real)
    ensures RealizedAt(leg, from, to) == 0.0 <==> from == to || leg.quantity * leg.multiplier == 0.0
  {
    var unit := leg.quantity * leg.multiplier;
    assert RealizedAt(leg, from, to) == (leg.Sign() * (to - from)) * unit;
    if from != to && unit != 0.0 {
      NotZero(leg.Sign() * (to - from), unit);
    }
  }

  lemma NotZero(a: real, b: real)
    requires a != 0.0 && b != 0.0
    ensures a * b != 0.0
  {}

  /** A plan keeps the leg's realised amounts telescoping exactly when its cost of the leg is current, or the leg is of nothing. */
  lemma TelescopesExactlyWhen(transfers: seq<Transfer>, plan: Plan, at: int, leg: Leg)
    requires Telescoped(transfers, leg) && PlannedOnce(plan.legs, leg)
    ensures Telescoped(transfers + TransfersOf(plan, at), leg) <==> CostIsCurrent(plan.legs, transfers, leg) || leg.quantity * leg.multiplier == 0.0
  {
    hide RealizedAt, RealizedOf, CostBasis, PlannedOnce, TransfersOf;
    PlanAdds(transfers, plan, at, leg, |plan.legs|);
    assert TransfersOf(plan, at)[..|plan.legs|] == TransfersOf(plan, at);
    if HasPlanned(plan.legs, |plan.legs|, leg) {
      var i :| 0 <= i < |plan.legs| && plan.legs[i].leg.id == leg.id;
      OnlyPlanned(plan.legs, leg, i);
      var cost, planned, mark := CostBasis(transfers, leg), plan.legs[i].costBasis, plan.legs[i].mark;
      GainsAdd(leg, leg.entryPrice, cost, mark);
      GainsAdd(leg, cost, planned, mark);
      GainIsZero(leg, cost, planned);
    }
  }

  lemma OnlyPlanned(planned: seq<PlanLeg>, leg: Leg, i: nat)
    requires PlannedOnce(planned, leg) && i < |planned| && planned[i].leg.id == leg.id
    ensures forall j :: 0 <= j < |planned| && planned[j].leg.id == leg.id ==> j == i
  {}

  lemma {:induction false} PlannedAreLegs(transfers: seq<Transfer>, ticker: string, legs: seq<Leg>, live: string -> Option<real>, i: nat) returns (k: nat)
    requires i < |PlanLegsOf(transfers, ticker, legs, live)|
    ensures k < |legs| && PlanLegsOf(transfers, ticker, legs, live)[i].leg == legs[k]
  {
    hide CostBasis, MarkOf, ValueAt, RealizedAt;
    k := |legs| - 1;
    if i < |PlanLegsOf(transfers, ticker, legs[..k], live)| {
      k := PlannedAreLegs(transfers, ticker, legs[..k], live, i);
    }
  }

  lemma {:induction false} PlannedLegs(transfers: seq<Transfer>, ticker: string, legs: seq<Leg>, live: string -> Option<real>, leg: Leg)
    requires ListedOnce(leg, legs)
    ensures PlannedOnce(PlanLegsOf(transfers, ticker, legs, live), leg)
  {
    hide RealizedAt, CostBasis, MarkOf, ValueAt;
    if legs != [] {
      var last := |legs| - 1;
      PlannedLegs(transfers, ticker, legs[..last], live, leg);
      var before := PlanLegsOf(transfers, ticker, legs[..last], live);
      if legs[last].id == leg.id {
        SameRealized(legs[last], leg, CostBasis(transfers, legs[last]), MarkOf(legs[last], live));
        forall i | 0 <= i < |before|
          ensures before[i].leg.id != leg.id
        {
          var k := PlannedAreLegs(transfers, ticker, legs[..last], live, i);
          assert legs[..last][k] == legs[k];
        }
      }
    }
  }

  lemma SameRealized(a: Leg, b: Leg, cost: real, mark: real)
    requires a.short == b.short && a.quantity == b.quantity && a.multiplier == b.multiplier
    ensures RealizedAt(a, cost, mark) == RealizedAt(b, cost, mark)
  {}

  lemma NoGain(leg: Leg)
    ensures RealizedAt(leg, leg.entryPrice, leg.entryPrice) == 0.0
  {}

  /** The leg is the same, and listed once, whenever a switch is asked for. */
  predicate SameLegThroughout(leg: Leg, events: seq<Event>) {
    forall i :: 0 <= i < |events| && events[i].Ask? ==> ListedOnce(leg, events[i].switch.legs)
  }

  /** The flag is not yet as asked. */
  predicate Changes(state: State, request: Request) {
    (request.ticker in state.enabled) != request.enabling
  }

  predicate CostCurrentAt(system: System, event: Event, leg: Leg) {
    event.Lock? && event.id in system.asked && Changes(system.state, system.asked[event.id]) && system.asked[event.id].plan.Some? ==>
      CostIsCurrent(system.asked[event.id].plan.value.legs, system.state.transfers, leg)
  }

  /** No switch moves the leg between the two steps of another one that is applied. */
  predicate CostsStayCurrent(leg: Leg, events: seq<Event>) {
    events != [] ==> CostsStayCurrent(leg, events[..|events| - 1]) && CostCurrentAt(After(events[..|events| - 1]), events[|events| - 1], leg)
  }

  ghost predicate AllPlanOnce(asked: map<nat, Request>, leg: Leg) {
    forall id :: id in asked && asked[id].plan.Some? ==> PlannedOnce(asked[id].plan.value.legs, leg)
  }

  lemma {:induction false} AskedPlanOnce(events: seq<Event>, leg: Leg)
    requires SameLegThroughout(leg, events)
    ensures AllPlanOnce(After(events).asked, leg)
  {
    hide PlannedOnce, Locked, PlanLegsOf, ListedOnce, TotalValue, TotalRealized;
    if events != [] {
      var before, last := events[..|events| - 1], events[|events| - 1];
      AskedPlanOnce(before, leg);
      if last.Ask? {
        PlannedLegs(After(before).state.transfers, last.switch.ticker, last.switch.legs, last.switch.live, leg);
      }
    }
  }

  /** Through any order of steps in which it is not moved between two of another's, a leg's realised amounts add up to its gain from entry to last mark. */
  lemma {:induction false} RealizedTelescopes(events: seq<Event>, leg: Leg)
    requires SameLegThroughout(leg, events) && CostsStayCurrent(leg, events)
    ensures Telescoped(After(events).state.transfers, leg)
  {
    hide RealizedAt, TransfersOf, PlanLegsOf, Locked, Asked, ListedOnce;
    if events == [] {
      assert RealizedAt(leg, leg.entryPrice, leg.entryPrice) == 0.0 by {
        NoGain(leg);
      }
    } else {
      hide RealizedOf, CostBasis, PlannedOnce, Telescoped, CostIsCurrent;
      var before, last := events[..|events| - 1], events[|events| - 1];
      RealizedTelescopes(before, leg);
      AskedPlanOnce(before, leg);
      var system := After(before);
      if last.Lock? && last.id in system.asked {
        LockedTransfers(system.state, system.asked[last.id], last.at);
        if system.asked[last.id].plan.Some? && (system.asked[last.id].ticker in system.state.enabled) != system.asked[last.id].enabling {
          TelescopesExactlyWhen(system.state.transfers, system.asked[last.id].plan.value, last.at, leg);
        }
      }
    }
  }

  /** A locked request adds its plan's transfers, or nothing. */
  lemma LockedTransfers(state: State, request: Request, at: int)
    ensures var after := Locked(state, request, at).transfers;
            || after == state.transfers
            || ((request.ticker in state.enabled) != request.enabling && request.plan.Some? && after == state.transfers + TransfersOf(request.plan.value, at))
  {
    hide TransfersOf, PaymentsOf, PeriodsAfter;
  }

  // ---------------------------------------------------------------------------------------
  // A position's own unrealised

  /** What the legs would realise from a cost each at their prices. */
  function GainFromEntry(legs: seq<Leg>, price: string -> real): real {
    if legs == [] then 0.0 else
    var leg := legs[|legs| - 1];
    GainFromEntry(legs[..|legs| - 1], price) + RealizedAt(leg, leg.entryPrice, price(leg.id))
  }

  function GainFromLastMark(transfers: seq<Transfer>, legs: seq<Leg>, price: string -> real): real {
    if legs == [] then 0.0 else
    var leg := legs[|legs| - 1];
    GainFromLastMark(transfers, legs[..|legs| - 1], price) + RealizedAt(leg, CostBasis(transfers, leg), price(leg.id))
  }

  predicate HasLeg(legs: seq<Leg>, id: string) {
    exists k :: 0 <= k < |legs| && legs[k].id == id
  }

  /** The cost adjustment of a position: what the transfers of its open legs realised. */
  function Adjustment(transfers: seq<Transfer>, legs: seq<Leg>): real {
    if transfers == [] then 0.0 else
    var last := transfers[|transfers| - 1];
    Adjustment(transfers[..|transfers| - 1], legs) + if HasLeg(legs, last.legId) then last.realized else 0.0
  }

  lemma {:induction false} AdjustmentOfNone(transfers: seq<Transfer>)
    ensures Adjustment(transfers, []) == 0.0
  {
    if transfers != [] {
      AdjustmentOfNone(transfers[..|transfers| - 1]);
    }
  }

  lemma {:induction false} AdjustmentOneMore(transfers: seq<Transfer>, legs: seq<Leg>, leg: Leg)
    requires forall k :: 0 <= k < |legs| ==> legs[k].id != leg.id
    ensures Adjustment(transfers, legs + [leg]) == Adjustment(transfers, legs) + RealizedOf(transfers, leg.id)
  {
    hide HasLeg;
    if transfers != [] {
      NotHad(legs, leg.id);
      AdjustmentOneMore(transfers[..|transfers| - 1], legs, leg);
      IsOneMore(legs, leg, transfers[|transfers| - 1].legId);
    }
  }

  lemma NotHad(legs: seq<Leg>, id: string)
    requires forall k :: 0 <= k < |legs| ==> legs[k].id != id
    ensures !HasLeg(legs, id)
  {}

  lemma IsOneMore(legs: seq<Leg>, leg: Leg, id: string)
    ensures HasLeg(legs + [leg], id) <==> HasLeg(legs, id) || leg.id == id
  {
    var all := legs + [leg];
    if leg.id == id {
      assert all[|legs|].id == id;
    }
    if HasLeg(legs, id) {
      var k :| 0 <= k < |legs| && legs[k].id == id;
      assert all[k].id == id;
    }
    if HasLeg(all, id) {
      var k :| 0 <= k < |all| && all[k].id == id;
      assert all[k] == if k < |legs| then legs[k] else leg;
    }
  }

  /** The owner's own unrealised: the position's less what its open legs' sources took is their gain since each one's last mark. */
  lemma {:induction false} OwnersUnrealized(events: seq<Event>, legs: seq<Leg>, price: string -> real)
    requires forall k :: 0 <= k < |legs| ==> SameLegThroughout(legs[k], events) && CostsStayCurrent(legs[k], events)
    requires forall i, j :: 0 <= i < j < |legs| ==> legs[i].id != legs[j].id
    ensures var transfers := After(events).state.transfers;
            GainFromEntry(legs, price) - Adjustment(transfers, legs) == GainFromLastMark(transfers, legs, price)
  {
    hide RealizedAt, After, SameLegThroughout, CostsStayCurrent, Adjustment, RealizedOf, CostBasis;
    var transfers := After(events).state.transfers;
    if legs == [] {
      AdjustmentOfNone(transfers);
    } else {
      var last := |legs| - 1;
      OwnersUnrealized(events, legs[..last], price);
      AdjustmentOneMore(transfers, legs[..last], legs[last]);
      assert legs[..last] + [legs[last]] == legs;
      RealizedTelescopes(events, legs[last]);
      GainsAdd(legs[last], legs[last].entryPrice, CostBasis(transfers, legs[last]), price(legs[last].id));
    }
  }
}
