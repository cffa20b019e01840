/**
 What a cycle's cash break-even means (src/backtest/cycleCashBreakEven.ts:3-5): the cycle's cash, row by row,
 and that the shares held, sold at the break-even, leave none of it out.
 */
module CycleCash {
  import opened Wrappers
  import opened HedgeFifo
  import opened CashBreakEven

  /** The cash of a share trade: its price, an assignment's at the strike, and always the commission paid. */
  function ShareCash(row: Row): real {
    var price, strike, commission := if row.stockPrice.Some? then row.stockPrice.value else 0.0, if row.strike.Some? then row.strike.value else 0.0,
                                     if row.commission.Some? then row.commission.value else 0.0;
    match row.kind
    case BoughtShares => -(row.quantity * price) - commission
    case PutAssigned => -(row.quantity * strike) - commission
    case SoldShares => row.quantity * price - commission
    case CallAssigned => row.quantity * strike - commission
    case _ => 0.0
  }

  /** The shares it brings, as traded on its day. */
  function ShareCount(row: Row): real {
    match row.kind
    case BoughtShares => row.quantity
    case PutAssigned => row.quantity
    case SoldShares => -row.quantity
    case CallAssigned => -row.quantity
    case _ => 0.0
  }

  /** The premium counts: neither a hedge's nor a LEAPS', and not an open option's mark. */
  predicate CountsPremium(row: Row, options: Options) {
    options.premiumsIncluded && row.bucket != Hedge && row.bucket != Leaps && !(row.kind == OpenMark && row.at.None?)
  }

  predicate IsHedgePut(row: Row) {
    row.bucket == Hedge && row.at.Some? && row.strike.Some?
  }

  predicate BuysHedge(row: Row) {
    IsHedgePut(row) && (row.kind == BoughtPut || row.kind == PutFromTheKept)
  }

  predicate SellsHedge(row: Row) {
    IsHedgePut(row) && (row.kind == SoldPut || row.kind == PutKept)
  }

  /** A Put is that of its expiry and its strike on one scale, split-adjusted, to the nearest ten-thousandth. */
  function PutOf(row: Row, options: Options): Contract
    requires options.Valid() && IsHedgePut(row)
  {
    Contract(row.expiry, (row.strike.value / options.factorOf(row.day) * 10000.0 + 0.5).Floor)
  }

  /** The row's Puts in split-adjusted shares. */
  function AsHeld(row: Row, options: Options): (shares: real)
    requires options.Valid()
    ensures row.quantity > 0.0 ==> shares > 0.0
  {
    PositiveProduct(row.quantity, options.factorOf(row.day));
    row.quantity * options.factorOf(row.day)
  }

  lemma {:induction false} SamePut(row: Row, options: Options)
    requires options.Valid()
    ensures AsHeld(row, options) == AdjustedShares(row, options)
    ensures IsHedgePut(row) <==> IsHedgeRow(row)
    ensures IsHedgePut(row) ==> PutOf(row, options) == ContractOf(row, options)
    ensures BuysHedge(row) <==> IsHedgePurchase(row)
    ensures SellsHedge(row) <==> IsHedgeSale(row)
    ensures !(BuysHedge(row) && SellsHedge(row)) && (BuysHedge(row) || SellsHedge(row) ==> IsHedgePut(row))
  {}

  /** A Put's purchases and sales among the first n rows, in split-adjusted shares. */
  function PutEvents(timeline: seq<Row>, options: Options, put: Contract, n: nat): (events: seq<Event>)
    requires options.Valid() && HedgePurchasesAreSome(timeline) && n <= |timeline|
    ensures Possible(events)
  {
    if n == 0 then [] else
    var row, before := timeline[n - 1], PutEvents(timeline, options, put, n - 1);
    var shares := AsHeld(row, options);
    if BuysHedge(row) && PutOf(row, options) == put then before + [Bought(Lot(shares, -row.premium))]
    else if SellsHedge(row) && PutOf(row, options) == put then before + [Sold(if shares > 0.0 then shares else 0.0)]
    else before
  }

  /** What the contract's sales among the first n rows had cost, oldest Puts first. */
  function HedgeCost(timeline: seq<Row>, options: Options, put: Contract, n: nat): real
    requires options.Valid() && HedgePurchasesAreSome(timeline) && n <= |timeline|
  {
    Story(PutEvents(timeline, options, put, n)).1
  }

  lemma {:induction false} PutEventsAre(timeline: seq<Row>, options: Options, put: Contract, n: nat)
    requires options.Valid() && HedgePurchasesAreSome(timeline) && n <= |timeline|
    ensures PutEvents(timeline, options, put, n) == EventsOf(timeline[..n], options, put)
  {
    if n > 0 {
      PutEventsAre(timeline, options, put, n - 1);
      var before := timeline[..n];
      assert before[..n - 1] == timeline[..n - 1];
      SamePut(timeline[n - 1], options);
      hide AsHeld, AdjustedShares, PutOf, ContractOf, IsHedgePut, IsHedgeRow, BuysHedge, IsHedgePurchase, SellsHedge, IsHedgeSale;
      assert EventsOf(timeline[..n - 1], options, put) + [] == EventsOf(timeline[..n - 1], options, put);
    }
  }

  /** With the hedge in: what a Put sale brought less what its Puts cost. */
  function HedgeGain(timeline: seq<Row>, options: Options, n: nat): real
    requires options.Valid() && HedgeCanBeRead(timeline, options) && n < |timeline|
  {
    if options.hedgeIncluded && SellsHedge(timeline[n]) then
      var put := PutOf(timeline[n], options);
      timeline[n].premium - (HedgeCost(timeline, options, put, n + 1) - HedgeCost(timeline, options, put, n))
    else 0.0
  }

  /** The cycle's cash after the first n rows. */
  function CashAfter(timeline: seq<Row>, options: Options, n: nat): real
    requires options.Valid() && HedgeCanBeRead(timeline, options) && n <= |timeline|
  {
    if n == 0 then 0.0 else
    var row := timeline[n - 1];
    CashAfter(timeline, options, n - 1) + ShareCash(row) + (if CountsPremium(row, options) then row.premium else 0.0) + HedgeGain(timeline, options, n - 1)
  }

  /** The shares after the first n rows, split-adjusted. */
  function SharesAfter(timeline: seq<Row>, options: Options, n: nat): real
    requires n <= |timeline|
  {
    if n == 0 then 0.0 else SharesAfter(timeline, options, n - 1) + ShareCount(timeline[n - 1]) * options.factorOf(timeline[n - 1].day)
  }

  lemma {:induction false} CostTakenIs(timeline: seq<Row>, options: Options, contract: Contract)
    requires options.Valid() && HedgePurchasesAreSome(timeline) && options.hedgeIncluded
    ensures CostTaken(timeline, options, contract) == Story(EventsOf(timeline, options, contract)).1
  {
    hide *;
    HoldingsAreStories(timeline, options, contract);
  }

  lemma {:induction false} HedgeGainIs(timeline: seq<Row>, options: Options, n: nat)
    requires options.Valid() && HedgeCanBeRead(timeline, options) && n < |timeline|
    ensures HedgeGain(timeline, options, n) == HedgeRealizedAt(timeline, options, n)
  {
    hide Take, ContractOf, PutOf, AdjustedShares, Story, EventsOf, PutEvents, IsHedgePut, IsHedgeRow, SellsHedge, IsHedgeSale, IsHedgePurchase;
    var row := timeline[n];
    SamePut(row, options);
    if options.hedgeIncluded && SellsHedge(row) {
      var contract := ContractOf(row, options);
      CostTakenIs(timeline[..n + 1], options, contract);
      CostTakenIs(timeline[..n], options, contract);
      PutEventsAre(timeline, options, contract, n + 1);
      PutEventsAre(timeline, options, contract, n);
      assert timeline[..n + 1][..n] == timeline[..n];
    }
  }

  lemma {:induction false} NetOfIs(row: Row, hedge: real, options: Options)
    requires row.bucket != Hedge ==> hedge == 0.0
    ensures NetOf(row, hedge, options.premiumsIncluded) == -(ShareCash(row) + (if CountsPremium(row, options) then row.premium else 0.0) + hedge)
  {}

  lemma {:induction false} OnlyHedgeRows(timeline: seq<Row>, options: Options, n: nat)
    requires options.Valid() && HedgeCanBeRead(timeline, options) && n < |timeline| && timeline[n].bucket != Hedge
    ensures HedgeGain(timeline, options, n) == 0.0
  {}

  /** What a timeline's rows cost net is the cash they took. */
  lemma {:induction false} NetIsCash(timeline: seq<Row>, options: Options, n: nat)
    requires options.Valid() && HedgeCanBeRead(timeline, options) && n <= |timeline|
    ensures NetBefore(timeline, options, n) == -CashAfter(timeline, options, n)
  {
    if n > 0 {
      NetIsCash(timeline, options, n - 1);
      HedgeGainIs(timeline, options, n - 1);
      hide HedgeGain, HedgeRealizedAt, NetOf, ShareCash, CountsPremium;
      if timeline[n - 1].bucket != Hedge {
        OnlyHedgeRows(timeline, options, n - 1);
      }
      NetOfIs(timeline[n - 1], HedgeRealizedAt(timeline, options, n - 1), options);
    }
  }

  lemma {:induction false} SharesAre(timeline: seq<Row>, options: Options, n: nat)
    requires n <= |timeline|
    ensures SharesBefore(timeline, options, n) == SharesAfter(timeline, options, n)
  {
    if n > 0 {
      SharesAre(timeline, options, n - 1);
      CountTimes(timeline[n - 1], options);
    }
  }

  lemma CountTimes(row: Row, options: Options)
    ensures SharesIn(row, options) == ShareCount(row) * options.factorOf(row.day)
  {
    assert SharesIn(row, options) == Direction(row.kind) as real * row.quantity * options.factorOf(row.day);
    assert Direction(row.kind) as real * row.quantity == ShareCount(row);
  }

  // ---------------------------------------------------------------------------------------
  // The price that ends the cycle flat

  /** A sale of so many shares at a price, with no commission. */
  function SaleAt(at: Option<int>, day: int, quantity: real, price: real): Row {
    Row(at, day, SoldShares, OtherBucket, quantity, None, None, Some(price), 0.0, None)
  }

  lemma QuotientOnly(net: real, shares: real, price: real)
    requires shares > 0.0
    ensures shares * price == net <==> price == net / shares
  {
    var quotient := net / shares;
    assert quotient * shares == net;
    if shares * price == net {
      assert (price - quotient) * shares == 0.0;
    }
  }

  /** The shares the rows of its marks hold. */
  function MarkedShareCount(timeline: seq<Row>, n: nat): real
    requires n <= |timeline|
  {
    if n == 0 then 0.0 else if timeline[n - 1].kind == MarkedShares then MarkedShareCount(timeline, n - 1) + timeline[n - 1].quantity else MarkedShareCount(timeline, n - 1)
  }

  lemma {:induction false} MarksAre(timeline: seq<Row>, n: nat)
    requires n <= |timeline|
    ensures SharesAtMarks(timeline[..n]) == MarkedShareCount(timeline, n)
  {
    if n > 0 {
      MarksAre(timeline, n - 1);
      var before := timeline[..n];
      assert before[..n - 1] == timeline[..n - 1];
    }
  }

  /** There is a cash break-even when the marks hold shares, and the cycle ends with no cash in or out exactly when they are sold at it. */
  lemma {:induction false} BreakEvenEndsFlat(timeline: seq<Row>, options: Options, at: Option<int>, day: int, price: real)
    requires options.Valid() && HedgeCanBeRead(timeline, options)
    ensures var shares := MarkedShareCount(timeline, |timeline|);
            var all := timeline + [SaleAt(at, day, shares, price)];
            && HedgeCanBeRead(all, options) && (BreakEvenOf(timeline, options).Some? <==> shares > 0.0)
            && (shares > 0.0 ==> (CashAfter(all, options, |all|) == 0.0 <==> BreakEvenOf(timeline, options) == Some(price)))
  {
    hide HedgeRealizedAt, NetOf, SharesAtMarks, HedgeGain, ShareCash, NetBefore, CashAfter, CountsPremium, MarkedShareCount;
    var shares, net := SharesAtMarks(timeline), NetBefore(timeline, options, |timeline|);
    MarksAre(timeline, |timeline|);
    assert timeline[..|timeline|] == timeline;
    var sale := SaleAt(at, day, shares, price);
    var all, n := timeline + [sale], |timeline|;
    HedgePurchasesStay(timeline, sale, options);
    PrefixSums(timeline, sale, options, n);
    NetIsCash(all, options, n);
    LastSale(all, options, at, day, shares, price);
    if shares > 0.0 {
      QuotientOnly(net, shares, price);
    }
  }

  lemma {:induction false} LastSale(all: seq<Row>, options: Options, at: Option<int>, day: int, shares: real, price: real)
    requires options.Valid() && HedgeCanBeRead(all, options) && all != [] && all[|all| - 1] == SaleAt(at, day, shares, price)
    ensures CashAfter(all, options, |all|) == CashAfter(all, options, |all| - 1) + shares * price
  {
    hide HedgeRealizedAt, HedgeCost;
    var sale := all[|all| - 1];
    assert HedgeGain(all, options, |all| - 1) == 0.0;
    assert ShareCash(sale) == shares * price - 0.0;
  }

  /** And before a row: the shares held as its moment began, sold at the value, leave none of the cash the cycle then took, the moment's hedge gains counted. */
  lemma {:induction false} BreakEvenBeforeIsFlat(timeline: seq<Row>, options: Options, n: nat, price: real)
    requires options.Valid() && HedgeCanBeRead(timeline, options) && n < |timeline|
    ensures var start := MomentStart(timeline, n);
            var shares := SharesAfter(timeline, options, start) / options.factorOf(timeline[n].day);
            && (BreakEvenBefore(timeline, options, n).Some? <==> shares > 0.0)
            && (shares > 0.0 ==> (BreakEvenBefore(timeline, options, n) == Some(price)
                                  <==> CashAfter(timeline, options, start) + GainOfMoment(timeline, options, n, |timeline|) + shares * price == 0.0))
  {
    hide HedgeRealizedAt, HedgeGain, NetBefore, CashAfter, SharesAfter, SharesBefore, MomentStart, HedgeOfMoment, GainOfMoment;
    var start := MomentStart(timeline, n);
    NetIsCash(timeline, options, start);
    SharesAre(timeline, options, start);
    GainOfMomentIs(timeline, options, n, |timeline|);
    var net := NetBefore(timeline, options, start) - HedgeOfMoment(timeline, options, MomentOf(timeline, n), |timeline|);
    var shares := SharesBefore(timeline, options, start) / options.factorOf(timeline[n].day);
    if shares > 0.0 {
      QuotientOnly(net, shares, price);
    }
  }

  /** The hedge's gains of row n's moment among the first m rows: those of its run of rows of one instant. */
  function GainOfMoment(timeline: seq<Row>, options: Options, n: nat, m: nat): real
    requires options.Valid() && HedgeCanBeRead(timeline, options) && n < |timeline| && m <= |timeline|
  {
    if m == 0 then 0.0 else
    GainOfMoment(timeline, options, n, m - 1) + if SameMoment(timeline, n, m - 1) then HedgeGain(timeline, options, m - 1) else 0.0
  }

  /** Every row between the two is of their instant. */
  predicate SameMoment(timeline: seq<Row>, n: nat, m: nat)
    requires n < |timeline| && m < |timeline|
  {
    forall i :: 0 <= i < |timeline| && (n <= i <= m || m <= i <= n) ==> timeline[i].at == timeline[n].at
  }

  lemma {:induction false} SameMomentIs(timeline: seq<Row>, n: nat, m: nat)
    requires n <= m < |timeline|
    ensures MomentOf(timeline, n) == MomentOf(timeline, m) <==> SameMoment(timeline, n, m)
    decreases m
  {
    hide MomentOf;
    if n < m {
      SameMomentIs(timeline, n, m - 1);
      MomentStep(timeline, m);
      MomentsGrow(timeline, n, m - 1);
      if SameMoment(timeline, n, m) {
        assert timeline[m - 1].at == timeline[n].at == timeline[m].at;
      }
      if SameMoment(timeline, n, m - 1) && timeline[m].at == timeline[m - 1].at {
        assert forall i :: n <= i <= m ==> i == m || timeline[i].at == timeline[n].at;
        assert timeline[m - 1].at == timeline[n].at;
      }
    }
  }

  lemma {:induction false} GainOfMomentIs(timeline: seq<Row>, options: Options, n: nat, m: nat)
    requires options.Valid() && HedgeCanBeRead(timeline, options) && n < |timeline| && m <= |timeline|
    ensures GainOfMoment(timeline, options, n, m) == HedgeOfMoment(timeline, options, MomentOf(timeline, n), m)
  {
    hide HedgeGain, HedgeRealizedAt, MomentOf, SameMoment;
    if m > 0 {
      GainOfMomentIs(timeline, options, n, m - 1);
      HedgeGainIs(timeline, options, m - 1);
      if n <= m - 1 {
        SameMomentIs(timeline, n, m - 1);
      } else {
        SameMomentIs(timeline, m - 1, n);
        SameEitherWay(timeline, m - 1, n);
      }
    }
  }

  lemma SameEitherWay(timeline: seq<Row>, n: nat, m: nat)
    requires n < |timeline| && m < |timeline|
    ensures SameMoment(timeline, n, m) <==> SameMoment(timeline, m, n)
  {
    if SameMoment(timeline, n, m) || SameMoment(timeline, m, n) {
      assert timeline[m].at == timeline[n].at;
    }
  }
}
