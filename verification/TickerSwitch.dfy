/**
 Tickers switched between the two books at the mark (src/books/tickerSwitch.ts, the bot-enabled request of
 src/routes/shortlist.ts) and the book of a ticker at a moment (src/books/tickerBookPeriods.ts). A request
 reads the flag and plans before its transaction, which locks the flag and reads it again: the two are
 separate steps. Moments are integers and amounts exact.
 */
module TickerSwitch {
  import opened Wrappers
  import opened BookKeys

  /** An open leg; `hedge` for the strategy that always stays in Manual. */
  datatype Leg = Leg(id: string, ticker: string, hedge: bool, short: bool, quantity: real, multiplier: real, entryPrice: real, lastClose: Option<real>) {
    function Sign(): real {
      if short then -1.0 else 1.0
    }
  }

  /** A stretch of time a ticker is Pluto's. */
  datatype Period = Period(ticker: string, startedAt: int, endedAt: Option<int>)

  datatype Transfer = Transfer(legId: string, fromBook: BookKey, toBook: BookKey, at: int, quantity: real, mark: real, costBasis: real, value: real, realized: real)

  datatype CashEntry = CashEntry(book: BookKey, amount: real, at: int)

  /** `enabled` are the tickers whose bot_enabled flag is set. */
  datatype State = State(enabled: set<string>, periods: seq<Period>, transfers: seq<Transfer>, cash: seq<CashEntry>)

  const NOTHING_YET := State({}, [], [], [])

  /** What the periods' table refuses: a second open period of a ticker, and one that ends before it starts. */
  datatype SwitchError = OpenAlready | EndsBeforeItStarts

  /** A switch as asked for: the legs open when it is planned, and their live prices then. */
  datatype Switch = Switch(ticker: string, enabling: bool, legs: seq<Leg>, live: string -> Option<real>)

  datatype PlanLeg = PlanLeg(leg: Leg, costBasis: real, mark: real, value: real, realized: real)

  datatype Plan = Plan(fromBook: BookKey, toBook: BookKey, legs: seq<PlanLeg>, totalValue: real, realized: real)

  // ---------------------------------------------------------------------------------------
  // The book of a ticker

  predicate Covers(period: Period, ticker: string, at: int) {
    period.ticker == ticker && period.startedAt <= at && (period.endedAt.Some? ==> period.endedAt.value > at)
  }

  function BookOfTickerAt(periods: seq<Period>, ticker: string, at: int): BookKey {
    if exists i :: 0 <= i < |periods| && Covers(periods[i], ticker, at) then Pluto else Manual
  }

  function BookOfLegAt(periods: seq<Period>, ticker: string, hedge: bool, at: int): BookKey {
    if hedge then Manual else BookOfTickerAt(periods, ticker, at)
  }

  // ---------------------------------------------------------------------------------------
  // The plan

  function MarkOf(leg: Leg, live: string -> Option<real>): real {
    match live(leg.id)
    case Some(price) => price
    case None => if leg.lastClose.Some? then leg.lastClose.value else leg.entryPrice
  }

  /** The leg's mark when it last moved between the books, or its entry price. */
  function CostBasis(transfers: seq<Transfer>, leg: Leg): real {
    if transfers == [] then leg.entryPrice
    else if transfers[|transfers| - 1].legId == leg.id then transfers[|transfers| - 1].mark
    else CostBasis(transfers[..|transfers| - 1], leg)
  }

  /** The leg's value at a price. */
  function ValueAt(leg: Leg, price: real): real {
    leg.Sign() * price * leg.quantity * leg.multiplier
  }

  /** legTransferFigures: what the source realises on top of its cost. */
  function RealizedAt(leg: Leg, costBasis: real, mark: real): real {
    leg.Sign() * (mark - costBasis) * leg.quantity * leg.multiplier
  }

  function PlanLegOf(transfers: seq<Transfer>, leg: Leg, live: string -> Option<real>): PlanLeg {
    var cost, mark := CostBasis(transfers, leg), MarkOf(leg, live);
    PlanLeg(leg, cost, mark, ValueAt(leg, mark), RealizedAt(leg, cost, mark))
  }

  predicate Moves(leg: Leg, ticker: string) {
    leg.ticker == ticker && !leg.hedge
  }

  function PlanLegsOf(transfers: seq<Transfer>, ticker: string, legs: seq<Leg>, live: string -> Option<real>): seq<PlanLeg> {
    if legs == [] then [] else
    var leg := legs[|legs| - 1];
    PlanLegsOf(transfers, ticker, legs[..|legs| - 1], live) + if Moves(leg, ticker) then [PlanLegOf(transfers, leg, live)] else []
  }

  function TotalValue(legs: seq<PlanLeg>): real {
    if legs == [] then 0.0 else TotalValue(legs[..|legs| - 1]) + legs[|legs| - 1].value
  }

  function TotalRealized(legs: seq<PlanLeg>): real {
    if legs == [] then 0.0 else TotalRealized(legs[..|legs| - 1]) + legs[|legs| - 1].realized
  }

  function PlanOf(transfers: seq<Transfer>, switch: Switch): Plan {
    var legs := PlanLegsOf(transfers, switch.ticker, switch.legs, switch.live);
    var from := if switch.enabling then Manual else Pluto;
    Plan(from, Other(from), legs, TotalValue(legs), TotalRealized(legs))
  }

  // ---------------------------------------------------------------------------------------
  // The switch

  function Ended(periods: seq<Period>, ticker: string, at: int): (after: seq<Period>)
    ensures |after| == |periods|
    ensures forall i :: 0 <= i < |periods| ==>
      after[i] == if periods[i].ticker == ticker && periods[i].endedAt.None? then periods[i].(endedAt := Some(at)) else periods[i]
  {
    seq(|periods|, i requires 0 <= i < |periods| =>
      if periods[i].ticker == ticker && periods[i].endedAt.None? then periods[i].(endedAt := Some(at)) else periods[i])
  }

  function PeriodsAfter(periods: seq<Period>, ticker: string, enabling: bool, at: int): seq<Period> {
    if enabling then periods + [Period(ticker, at, None)] else Ended(periods, ticker, at)
  }

  function TransferOf(plan: Plan, planLeg: PlanLeg, at: int): Transfer {
    Transfer(planLeg.leg.id, plan.fromBook, plan.toBook, at, planLeg.leg.quantity, planLeg.mark, planLeg.costBasis, planLeg.value, planLeg.realized)
  }

  function TransfersOf(plan: Plan, at: int): (transfers: seq<Transfer>)
    ensures |transfers| == |plan.legs| && forall i :: 0 <= i < |plan.legs| ==> transfers[i] == TransferOf(plan, plan.legs[i], at)
  {
    seq(|plan.legs|, i requires 0 <= i < |plan.legs| => TransferOf(plan, plan.legs[i], at))
  }

  /** The receiving book pays the source; nothing when the legs are worth nothing together. */
  function PaymentsOf(plan: Plan, at: int): seq<CashEntry> {
    if plan.legs == [] || plan.totalValue == 0.0 then [] else [CashEntry(plan.toBook, -plan.totalValue, at), CashEntry(plan.fromBook, plan.totalValue, at)]
  }

  predicate IsOpen(period: Period, ticker: string) {
    period.ticker == ticker && period.endedAt.None?
  }

  predicate HasOpen(periods: seq<Period>, ticker: string) {
    exists i :: 0 <= i < |periods| && IsOpen(periods[i], ticker)
  }

  predicate HasOpenAfter(periods: seq<Period>, ticker: string, at: int) {
    exists i :: 0 <= i < |periods| && IsOpen(periods[i], ticker) && periods[i].startedAt > at
  }

  /** applyTickerSwitch in its caller's transaction: a switch off with no open period ends none, and still pays. */
  function Applied(state: State, ticker: string, plan: Plan, at: int): Result<State, SwitchError> {
    var enabling := plan.toBook == Pluto;
    if enabling && HasOpen(state.periods, ticker) then Err(OpenAlready)
    else if !enabling && HasOpenAfter(state.periods, ticker, at) then Err(EndsBeforeItStarts)
    else Ok(State(state.enabled, PeriodsAfter(state.periods, ticker, enabling, at), state.transfers + TransfersOf(plan, at), state.cash + PaymentsOf(plan, at)))
  }

  // ---------------------------------------------------------------------------------------
  // The request

  /** A bot-enabled request on its way to the lock; no plan when the flag read said already what is asked. */
  datatype Request = Request(ticker: string, enabling: bool, plan: Option<Plan>)

  /** Its first step, without the lock: the flag read, and the plan made when it is to change. */
  function Asked(state: State, switch: Switch): Request {
    Request(switch.ticker, switch.enabling, if (switch.ticker in state.enabled) != switch.enabling then Some(PlanOf(state.transfers, switch)) else None)
  }

  function WithFlag(state: State, ticker: string, enabling: bool): State {
    state.(enabled := if enabling then state.enabled + {ticker} else state.enabled - {ticker})
  }

  /** Its second step, under the lock: nothing when the flag says so by then, else the flag and, when there is a plan, the switch; none of it on an error. */
  function Locked(state: State, request: Request, at: int): State {
    if (request.ticker in state.enabled) == request.enabling then state else
    var flagged := WithFlag(state, request.ticker, request.enabling);
    if request.plan.None? then flagged else
    var applied := Applied(flagged, request.ticker, request.plan.value, at);
    if applied.Ok? then applied.value else state
  }

  class BookTables {
    var enabled: set<string>
    var periods: seq<Period>
    var transfers: seq<Transfer>
    var cash: seq<CashEntry>

    function Now(): State
      reads this
    {
      State(enabled, periods, transfers, cash)
    }

    constructor ()
      ensures Now() == NOTHING_YET
    {
      enabled, periods, transfers, cash := {}, [], [], [];
    }

    /** planTickerSwitch, once the books are started. */
    method PlanTickerSwitch(switch: Switch) returns (plan: Plan)
      ensures plan == PlanOf(transfers, switch)
    {
      hide PlanLegOf, TotalValue, TotalRealized;
      var legs, total, realized := [], 0.0, 0.0;
      NoLegsNoValue();
      assert switch.legs[..0] == [];
      for i := 0 to |switch.legs|
        invariant legs == PlanLegsOf(transfers, switch.ticker, switch.legs[..i], switch.live)
        invariant total == TotalValue(legs) && realized == TotalRealized(legs)
      {
        var leg := switch.legs[i];
        assert switch.legs[..i + 1][..i] == switch.legs[..i];
        if leg.ticker == switch.ticker && !leg.hedge {
          var planned := PlanLegOf(transfers, leg, switch.live);
          TotalsOneMore(legs, planned);
          legs, total, realized := legs + [planned], total + planned.value, realized + planned.realized;
        }
      }
      assert switch.legs[..|switch.legs|] == switch.legs;
      var from := if switch.enabling then Manual else Pluto;
      plan := Plan(from, Other(from), legs, total, realized);
    }

    /** applyTickerSwitch: on an error its caller's transaction is rolled back. */
    method ApplyTickerSwitch(ticker: string, plan: Plan, at: int) returns (error: Option<SwitchError>)
      modifies this
      ensures error.None? ==> Applied(old(Now()), ticker, plan, at) == Ok(Now())
      ensures error.Some? ==> Applied(old(Now()), ticker, plan, at) == Err(error.value) && Now() == old(Now())
    {
      if plan.toBook == Pluto {
        if HasOpen(periods, ticker) {
          return Some(OpenAlready);
        }
        periods := periods + [Period(ticker, at, None)];
      } else {
        if HasOpenAfter(periods, ticker, at) {
          return Some(EndsBeforeItStarts);
        }
        periods := Ended(periods, ticker, at);
      }
      if plan.legs == [] {
        assert transfers + TransfersOf(plan, at) == transfers && cash + PaymentsOf(plan, at) == cash;
        return None;
      }
      transfers := transfers + TransfersOf(plan, at);
      if plan.totalValue == 0.0 {
        assert cash + PaymentsOf(plan, at) == cash;
        return None;
      }
      cash := cash + [CashEntry(plan.toBook, -plan.totalValue, at), CashEntry(plan.fromBook, plan.totalValue, at)];
      return None;
    }

    /** The request to switch Pluto on or off for a ticker, up to its transaction. */
    method AskBotEnabled(switch: Switch) returns (request: Request)
      ensures request == Asked(Now(), switch)
    {
      if (switch.ticker in enabled) == switch.enabling {
        return Request(switch.ticker, switch.enabling, None);
      }
      var plan := PlanTickerSwitch(switch);
      return Request(switch.ticker, switch.enabling, Some(plan));
    }

    /** Its transaction, from the lock on. */
    method SetBotEnabled(request: Request, at: int) returns (changed: bool)
      modifies this
      ensures Now() == Locked(old(Now()), request, at)
      ensures changed <==> (request.ticker in old(enabled)) != request.enabling
                           && (request.plan.Some? ==> Applied(WithFlag(old(Now()), request.ticker, request.enabling), request.ticker, request.plan.value, at).Ok?)
    {
      hide Applied;
      if (request.ticker in enabled) == request.enabling {
        return false;
      }
      var before := enabled;
      enabled := if request.enabling then enabled + {request.ticker} else enabled - {request.ticker};
      if request.plan.Some? {
        var error := ApplyTickerSwitch(request.ticker, request.plan.value, at);
        if error.Some? {
          enabled := before;
          return false;
        }
      }
      return true;
    }
  }

  lemma TotalsOneMore(legs: seq<PlanLeg>, leg: PlanLeg)
    ensures TotalValue(legs + [leg]) == TotalValue(legs) + leg.value && TotalRealized(legs + [leg]) == TotalRealized(legs) + leg.realized
  {
    assert (legs + [leg])[..|legs|] == legs;
  }

  lemma NoLegsNoValue()
    ensures TotalValue([]) == 0.0 && TotalRealized([]) == 0.0
  {}

  /** A switch on is refused just when a period of the ticker is open, a switch off just when one is that starts later; else a flag, its period and its transfers change together. */
  lemma RefusesExactlyWhen(state: State, ticker: string, plan: Plan, at: int)
    ensures var applied := Applied(state, ticker, plan, at);
            && (plan.toBook == Pluto ==> applied != Err(EndsBeforeItStarts)
                                         && (applied == Err(OpenAlready) <==> exists i :: 0 <= i < |state.periods| && state.periods[i].ticker == ticker && state.periods[i].endedAt == None))
            && (plan.toBook != Pluto ==> applied != Err(OpenAlready)
                                         && (applied == Err(EndsBeforeItStarts) <==>
                                             exists i :: 0 <= i < |state.periods| && state.periods[i].ticker == ticker && state.periods[i].endedAt == None && at < state.periods[i].startedAt))
  {
    hide TransfersOf, PaymentsOf, PeriodsAfter;
    if i :| 0 <= i < |state.periods| && state.periods[i].ticker == ticker && state.periods[i].endedAt == None {
      assert IsOpen(state.periods[i], ticker);
    }
    if i :| 0 <= i < |state.periods| && state.periods[i].ticker == ticker && state.periods[i].endedAt == None && at < state.periods[i].startedAt {
      assert IsOpen(state.periods[i], ticker) && state.periods[i].startedAt > at;
    }
    if HasOpen(state.periods, ticker) {
      var i :| 0 <= i < |state.periods| && IsOpen(state.periods[i], ticker);
      assert state.periods[i].endedAt == None;
    }
    if HasOpenAfter(state.periods, ticker, at) {
      var i :| 0 <= i < |state.periods| && IsOpen(state.periods[i], ticker) && state.periods[i].startedAt > at;
      assert state.periods[i].endedAt == None;
    }
  }

  // ---------------------------------------------------------------------------------------
  // What a plan says of each leg

  /** The last transfer of the leg. */
  predicate IsLastTransfer(transfers: seq<Transfer>, legId: string, j: nat) {
    j < |transfers| && transfers[j].legId == legId && forall i :: j < i < |transfers| ==> transfers[i].legId != legId
  }

  predicate NeverMoved(transfers: seq<Transfer>, legId: string) {
    forall i :: 0 <= i < |transfers| ==> transfers[i].legId != legId
  }

  /** The leg at its live price, else its last close, else its entry price; its cost the mark it last moved at, else its entry price; a short leg's value below zero. */
  ghost predicate IsPlanned(planned: PlanLeg, leg: Leg, transfers: seq<Transfer>, live: string -> Option<real>) {
    && planned.leg == leg
    && (live(leg.id).Some? ==> planned.mark == live(leg.id).value)
    && (live(leg.id).None? && leg.lastClose.Some? ==> planned.mark == leg.lastClose.value)
    && (live(leg.id).None? && leg.lastClose.None? ==> planned.mark == leg.entryPrice)
    && (NeverMoved(transfers, leg.id) ==> planned.costBasis == leg.entryPrice)
    && (forall j: nat :: IsLastTransfer(transfers, leg.id, j) ==> planned.costBasis == transfers[j].mark)
    && (!leg.short ==> planned.value == planned.mark * leg.quantity * leg.multiplier && planned.realized == (planned.mark - planned.costBasis) * leg.quantity * leg.multiplier)
    && (leg.short ==> planned.value == -(planned.mark * leg.quantity * leg.multiplier) && planned.realized == (planned.costBasis - planned.mark) * leg.quantity * leg.multiplier)
  }

  lemma {:induction false} CostOfUnmoved(transfers: seq<Transfer>, leg: Leg)
    requires NeverMoved(transfers, leg.id)
    ensures CostBasis(transfers, leg) == leg.entryPrice
  {
    if transfers != [] {
      CostOfUnmoved(transfers[..|transfers| - 1], leg);
    }
  }

  lemma {:induction false} CostOfLast(transfers: seq<Transfer>, leg: Leg, j: nat)
    requires IsLastTransfer(transfers, leg.id, j)
    ensures CostBasis(transfers, leg) == transfers[j].mark
  {
    if j < |transfers| - 1 {
      CostOfLast(transfers[..|transfers| - 1], leg, j);
    }
  }

  lemma CostBasisIs(transfers: seq<Transfer>, leg: Leg)
    ensures NeverMoved(transfers, leg.id) ==> CostBasis(transfers, leg) == leg.entryPrice
    ensures forall j: nat :: IsLastTransfer(transfers, leg.id, j) ==> CostBasis(transfers, leg) == transfers[j].mark
  {
    hide CostBasis;
    if NeverMoved(transfers, leg.id) {
      CostOfUnmoved(transfers, leg);
    }
    forall j: nat | IsLastTransfer(transfers, leg.id, j)
      ensures CostBasis(transfers, leg) == transfers[j].mark
    {
      CostOfLast(transfers, leg, j);
    }
  }

  lemma SignedTimes(leg: Leg, price: real)
    ensures leg.Sign() * price * leg.quantity * leg.multiplier == if leg.short then -(price * leg.quantity * leg.multiplier) else price * leg.quantity * leg.multiplier
  {
    var worth := price * leg.quantity * leg.multiplier;
    assert leg.Sign() * worth == if leg.short then -worth else worth;
    assert leg.Sign() * price * leg.quantity * leg.multiplier == leg.Sign() * worth;
  }

  lemma OppositeTimes(leg: Leg, a: real, b: real)
    ensures -((a - b) * leg.quantity * leg.multiplier) == (b - a) * leg.quantity * leg.multiplier
  {
    assert (b - a) * leg.quantity == -((a - b) * leg.quantity);
  }

  lemma {:induction false} PlannedIs(leg: Leg, transfers: seq<Transfer>, live: string -> Option<real>)
    ensures IsPlanned(PlanLegOf(transfers, leg, live), leg, transfers, live)
  {
    var cost, mark := CostBasis(transfers, leg), MarkOf(leg, live);
    CostBasisIs(transfers, leg);
    SignedTimes(leg, mark);
    SignedTimes(leg, mark - cost);
    OppositeTimes(leg, mark, cost);
    hide CostBasis, Leg.Sign;
  }

  /** A plan has the ticker's open legs that are no hedge's, each once and in order, as they are planned; from one book to the other. */
  lemma {:induction false} PlanIs(transfers: seq<Transfer>, switch: Switch) returns (at: seq<nat>)
    ensures var plan := PlanOf(transfers, switch);
            && plan.toBook == (if switch.enabling then Pluto else Manual) && plan.fromBook == (if switch.enabling then Manual else Pluto)
            && |at| == |plan.legs|
            && (forall k :: 0 <= k < |at| ==> at[k] < |switch.legs| && IsPlanned(plan.legs[k], switch.legs[at[k]], transfers, switch.live))
            && (forall k, m :: 0 <= k < m < |at| ==> at[k] < at[m])
            && (forall i :: 0 <= i < |switch.legs| ==> (i in at <==> switch.legs[i].ticker == switch.ticker && !switch.legs[i].hedge))
  {
    at := PlanLegsAre(transfers, switch.ticker, switch.legs, switch.live);
  }

  lemma {:induction false} PlanLegsAre(transfers: seq<Transfer>, ticker: string, legs: seq<Leg>, live: string -> Option<real>) returns (at: seq<nat>)
    ensures var planned := PlanLegsOf(transfers, ticker, legs, live);
            && |at| == |planned|
            && (forall k :: 0 <= k < |at| ==> at[k] < |legs| && IsPlanned(planned[k], legs[at[k]], transfers, live))
            && (forall k, m :: 0 <= k < m < |at| ==> at[k] < at[m])
            && (forall i :: 0 <= i < |legs| ==> (i in at <==> legs[i].ticker == ticker && !legs[i].hedge))
  {
    hide IsPlanned, PlanLegOf;
    at := [];
    if legs != [] {
      var last := |legs| - 1;
      var before := PlanLegsAre(transfers, ticker, legs[..last], live);
      PlannedIs(legs[last], transfers, live);
      at := before;
      if Moves(legs[last], ticker) {
        at := before + [last];
        assert at[|before|] == last;
      }
      forall i | 0 <= i < |legs|
        ensures i in at <==> legs[i].ticker == ticker && !legs[i].hedge
      {
        if i < last {
          assert legs[..last][i] == legs[i];
          assert i in at <==> i in before;
        }
      }
    }
  }
}
