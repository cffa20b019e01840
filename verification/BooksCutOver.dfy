/** The books' start from IBKR's statement or from its live figures (src/books/cutover.ts). */
module BooksCutOver {
  import opened Wrappers
  import opened BookKeys
  import opened ProRataSplit
  import opened StatementAttribution
  import opened StatementImport
  import opened StatementGap

  /** A leg open at the cut-over; `alwaysManual` for a strategy that is never Pluto's. */
  datatype Leg = Leg(ticker: string, alwaysManual: bool, short: bool, quantity: real, multiplier: real, entryPrice: real, closingPrice: Option<real>)

  datatype Plan = Plan(ibkrCash: real, plutoStartingValue: real, plutoPositions: real, manualPositions: real, plutoOpeningCash: real, manualOpeningCash: real,
                       withoutClosingPrice: set<string>)

  datatype PlanError = NegativeStartingValue

  function LegValue(leg: Leg): real {
    (if leg.closingPrice.Some? then leg.closingPrice.value else leg.entryPrice) * leg.quantity * leg.multiplier * (if leg.short then -1.0 else 1.0)
  }

  predicate IsPlutos(leg: Leg, plutoTickers: set<string>) {
    leg.ticker in plutoTickers && !leg.alwaysManual
  }

  /** The value of the legs that are, or are not, Pluto's. */
  function PositionsValue(legs: seq<Leg>, plutoTickers: set<string>, plutos: bool): real {
    if legs == [] then 0.0 else
    var leg := legs[|legs| - 1];
    PositionsValue(legs[..|legs| - 1], plutoTickers, plutos) + if IsPlutos(leg, plutoTickers) == plutos then LegValue(leg) else 0.0
  }

  function TotalValue(legs: seq<Leg>): real {
    if legs == [] then 0.0 else TotalValue(legs[..|legs| - 1]) + LegValue(legs[|legs| - 1])
  }

  lemma {:induction false} EveryLegOnce(legs: seq<Leg>, plutoTickers: set<string>)
    ensures PositionsValue(legs, plutoTickers, true) + PositionsValue(legs, plutoTickers, false) == TotalValue(legs)
  {
    hide LegValue;
    if legs != [] {
      EveryLegOnce(legs[..|legs| - 1], plutoTickers);
    }
  }

  /** What a book's long legs would bring, or its short ones cost to buy back, at the day's closing price, or the entry price of a leg without one. */
  function AtTheClose(legs: seq<Leg>, plutoTickers: set<string>, plutos: bool, short: bool): real {
    if legs == [] then 0.0 else
    var leg := legs[|legs| - 1];
    var ofPluto := !leg.alwaysManual && leg.ticker in plutoTickers;
    var price := match leg.closingPrice case Some(close) => close case None => leg.entryPrice;
    AtTheClose(legs[..|legs| - 1], plutoTickers, plutos, short) + if ofPluto == plutos && leg.short == short then price * leg.quantity * leg.multiplier else 0.0
  }

  /** A book's positions are worth what its long legs would bring less what its short ones would cost. */
  lemma {:induction false} LongsLessShorts(legs: seq<Leg>, plutoTickers: set<string>, plutos: bool)
    ensures PositionsValue(legs, plutoTickers, plutos) == AtTheClose(legs, plutoTickers, plutos, false) - AtTheClose(legs, plutoTickers, plutos, true)
  {
    if legs != [] {
      var leg := legs[|legs| - 1];
      LongsLessShorts(legs[..|legs| - 1], plutoTickers, plutos);
      ValueIs(leg);
      hide LegValue;
    }
  }

  lemma ValueIs(leg: Leg)
    ensures var price := match leg.closingPrice case Some(close) => close case None => leg.entryPrice;
            LegValue(leg) == if leg.short then -(price * leg.quantity * leg.multiplier) else price * leg.quantity * leg.multiplier
  {
    var value := (if leg.closingPrice.Some? then leg.closingPrice.value else leg.entryPrice) * leg.quantity * leg.multiplier;
    assert value * -1.0 == -value && value * 1.0 == value;
  }

  /** Pluto's cash makes its book worth the starting value, Manual has the rest of the account's cash, and every leg is valued in one of the books. */
  ghost predicate IsPlan(plan: Plan, plutoStartingValue: real, ibkrCash: real, legs: seq<Leg>, plutoTickers: set<string>) {
    && plan.ibkrCash == ibkrCash && plan.plutoStartingValue == plutoStartingValue
    && plan.plutoOpeningCash + plan.manualOpeningCash == ibkrCash
    && plan.plutoOpeningCash + plan.plutoPositions == plutoStartingValue
    && plan.plutoPositions == PositionsValue(legs, plutoTickers, true)
    && plan.plutoPositions + plan.manualPositions == TotalValue(legs)
    && (forall ticker :: ticker in plan.withoutClosingPrice <==> exists k :: 0 <= k < |legs| && legs[k].ticker == ticker && legs[k].closingPrice.None?)
  }

  /** planBooksCutover: Pluto's cash makes its book worth the starting value, Manual has the rest of the account's cash. */
  method PlanBooksCutOver(plutoStartingValue: real, ibkrCash: real, legs: seq<Leg>, plutoTickers: set<string>) returns (r: Result<Plan, PlanError>)
    ensures r.Err? <==> plutoStartingValue < 0.0
    ensures r.Ok? ==> IsPlan(r.value, plutoStartingValue, ibkrCash, legs, plutoTickers)
  {
    hide LegValue;
    if plutoStartingValue < 0.0 {
      return Err(NegativeStartingValue);
    }
    var plutoPositions, manualPositions, withoutClosingPrice := 0.0, 0.0, {};
    assert legs[..0] == [];
    for i := 0 to |legs|
      invariant plutoPositions == PositionsValue(legs[..i], plutoTickers, true)
      invariant manualPositions == PositionsValue(legs[..i], plutoTickers, false)
      invariant forall ticker :: ticker in withoutClosingPrice <==> exists k :: 0 <= k < i && legs[k].ticker == ticker && legs[k].closingPrice.None?
    {
      assert legs[..i + 1][..i] == legs[..i];
      if legs[i].closingPrice.None? {
        withoutClosingPrice := withoutClosingPrice + {legs[i].ticker};
      }
      if IsPlutos(legs[i], plutoTickers) {
        plutoPositions := plutoPositions + LegValue(legs[i]);
      } else {
        manualPositions := manualPositions + LegValue(legs[i]);
      }
    }
    assert legs[..|legs|] == legs;
    EveryLegOnce(legs, plutoTickers);
    var plutoOpeningCash := plutoStartingValue - plutoPositions;
    return Ok(Plan(ibkrCash, plutoStartingValue, plutoPositions, manualPositions, plutoOpeningCash, ibkrCash - plutoOpeningCash, withoutClosingPrice));
  }

  /** applyBooksCutover: the two opening balances, as the ledger keeps them. */
  function OpeningEntries(plan: Plan, at: int): seq<LedgerEntry> {
    [LedgerEntry(Of(Pluto), StoredAmount(plan.plutoOpeningCash), at, None), LedgerEntry(Of(Manual), StoredAmount(plan.manualOpeningCash), at, None)]
  }

  /**
   The books open with the account's cash to within a ledger step, and with just it when it and
   Pluto's part have no more decimals than the ledger keeps; and Pluto's book, its legs included, is
   worth the starting value to within half a step.
   */
  lemma BooksOpenWithTheCash(plan: Plan, cutOver: CutOver, plutoStartingValue: real, ibkrCash: real, legs: seq<Leg>, plutoTickers: set<string>)
    requires IsPlan(plan, plutoStartingValue, ibkrCash, legs, plutoTickers)
    ensures var entries := OpeningEntries(plan, cutOver.at);
            && IsOpening(entries, cutOver)
            && -STEP <= ibkrCash - OpeningCash(entries) <= STEP
            && (IsLedgerAmount(ibkrCash) && IsLedgerAmount(plan.plutoOpeningCash) ==> OpeningCash(entries) == ibkrCash)
            && entries[0].book == Of(Pluto)
            && -HALF_STEP <= plutoStartingValue - (entries[0].amount + PositionsValue(legs, plutoTickers, true)) <= HALF_STEP
  {
    hide StoredAmount, IsLedgerAmount, PositionsValue, TotalValue;
    var entries := OpeningEntries(plan, cutOver.at);
    assert entries[..1][..0] == [] && entries[..1] == [entries[0]];
    assert OpeningCash(entries[..1]) == entries[0].amount;
    StoredNear(plan.plutoOpeningCash);
    StoredNear(plan.manualOpeningCash);
    if IsLedgerAmount(ibkrCash) && IsLedgerAmount(plan.plutoOpeningCash) {
      LedgerAmountsLess(ibkrCash, plan.plutoOpeningCash);
    }
  }

  lemma LedgerAmountsLess(a: real, b: real)
    requires IsLedgerAmount(a) && IsLedgerAmount(b)
    ensures IsLedgerAmount(a - b)
  {
    var steps := (a * 1000000.0).Floor - (b * 1000000.0).Floor;
    assert (a - b) * 1000000.0 == steps as real;
    assert (steps as real).Floor == steps;
  }
}
