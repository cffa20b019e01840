/**
 When the rewritten timeline keeps its total (src/backtest/cycleHedgeHandOvers.ts:13), from the input's rows
 alone: each contract's shares are replayed through its purchases, closings, mark rows and expiry, whatever
 the marks. The total is kept when no closing exceeds the shares held and every Put still held meets a mark
 row; with positive marks it is not when just one of the two fails.
 */
module HedgeReplay {
  import opened Wrappers
  import opened HedgeHandOvers
  import opened HedgeTotals

  /** A hedge Put's contract on the split-adjusted scale. */
  datatype Contract = Contract(expiry: int, strike: real)

  datatype Holding = Holding(shares: real, heldAtEnd: bool)

  predicate IsOf(market: Market, row: Row, contract: Contract)
    requires market.Valid()
  {
    row.expiry == Some(contract.expiry) && row.strike.Some? && row.strike.value / market.factorOf(row.day) == contract.strike
  }

  /** A mark row takes what is still held of every contract, or of its own when it names one. */
  predicate Marks(market: Market, row: Row, contract: Contract)
    requires market.Valid()
  {
    IsMark(row) && !IsPurchase(row) && !IsClosing(row) && (row.strike.Some? ==> IsOf(market, row, contract))
  }

  function AfterExpiry(market: Market, held: Holding, contract: Contract, before: Option<int>): Holding {
    if held.shares > 0.0 && !held.heldAtEnd && (before.Some? ==> market.settles(contract.expiry) < before.value) then held.(shares := 0.0) else held
  }

  function AfterRow(market: Market, held: Holding, contract: Contract, row: Row): Holding
    requires market.Valid()
  {
    if IsPurchase(row) && IsOf(market, row, contract) then
      if held.shares > 0.0 then Holding(held.shares + SharesOf(market, row), held.heldAtEnd || row.unrealized) else Holding(SharesOf(market, row), row.unrealized)
    else if IsClosing(row) && IsOf(market, row, contract) then held.(shares := Max(0.0, held.shares - SharesOf(market, row)))
    else if Marks(market, row, contract) && held.heldAtEnd then held.(shares := 0.0)
    else held
  }

  /** What is held of the contract after the first `n` rows. */
  function HeldAfter(market: Market, timeline: seq<Row>, contract: Contract, n: nat): Holding
    requires market.Valid() && n <= |timeline|
    decreases n, 0
  {
    if n == 0 then Holding(0.0, false) else AfterRow(market, HeldAt(market, timeline, contract, n - 1), contract, timeline[n - 1])
  }

  /** What is held of it when a row comes. */
  function HeldAt(market: Market, timeline: seq<Row>, contract: Contract, k: nat): Holding
    requires market.Valid() && k < |timeline|
    decreases k, 1
  {
    AfterExpiry(market, HeldAfter(market, timeline, contract, k), contract, timeline[k].at)
  }

  /** The row, when it closes a Put that is held, closes no more than is held. */
  predicate ClosesWhatIsHeld(market: Market, timeline: seq<Row>, k: nat)
    requires market.Valid() && k < |timeline|
  {
    var row := timeline[k];
    IsClosing(row) && row.expiry.Some? ==>
      var held := HeldAt(market, timeline, Contract(row.expiry.value, row.strike.value / market.factorOf(row.day)), k);
      held.shares > 0.0 ==> SharesOf(market, row) <= held.shares
  }

  predicate ClosingsFit(market: Market, timeline: seq<Row>)
    requires market.Valid()
  {
    forall k :: 0 <= k < |timeline| ==> ClosesWhatIsHeld(market, timeline, k)
  }

  /** Nothing is held of the contract at the end but what runs out. */
  predicate NothingLeft(market: Market, timeline: seq<Row>, contract: Contract)
    requires market.Valid()
  {
    var held := HeldAfter(market, timeline, contract, |timeline|);
    held.shares > 0.0 ==> !held.heldAtEnd
  }

  /** Every purchase of a Put that is held at the end meets a later mark row. */
  predicate HeldMeetMarks(market: Market, timeline: seq<Row>)
    requires market.Valid()
  {
    forall k :: 0 <= k < |timeline| && IsPurchase(timeline[k]) && timeline[k].unrealized ==>
      MarkedLater(market, timeline, k, Contract(timeline[k].expiry.value, timeline[k].strike.value / market.factorOf(timeline[k].day)))
  }

  predicate MarkedLater(market: Market, timeline: seq<Row>, k: nat, contract: Contract)
    requires market.Valid() && k < |timeline|
  {
    exists j :: k < j < |timeline| && Marks(market, timeline[j], contract)
  }

  // ---------------------------------------------------------------------------------------
  // A Put that meets its mark row is not left

  /** Once the last mark row is past, with no later purchase of a Put held at the end, none is held so. */
  lemma {:induction false} MarkedIsNotLeft(market: Market, timeline: seq<Row>, contract: Contract, n: nat)
    requires market.Valid() && n <= |timeline| && HeldMeetMarks(market, timeline)
    ensures var held := HeldAfter(market, timeline, contract, n);
            held.shares > 0.0 && held.heldAtEnd ==> exists j :: n <= j < |timeline| && Marks(market, timeline[j], contract)
  {
    hide SharesOf, Marks, HeldMeetMarks;
    if n > 0 {
      MarkedIsNotLeft(market, timeline, contract, n - 1);
      var row, held := timeline[n - 1], HeldAfter(market, timeline, contract, n);
      if held.shares > 0.0 && held.heldAtEnd {
        if IsPurchase(row) && IsOf(market, row, contract) && row.unrealized {
          HeldMeetsMark(market, timeline, contract, n - 1);
        } else {
          MarkIsNoPurchase(market, row, contract);
        }
      }
    }
  }

  lemma HeldMeetsMark(market: Market, timeline: seq<Row>, contract: Contract, k: nat)
    requires market.Valid() && k < |timeline| && HeldMeetMarks(market, timeline) && IsPurchase(timeline[k]) && IsOf(market, timeline[k], contract) && timeline[k].unrealized
    ensures exists j :: k < j < |timeline| && Marks(market, timeline[j], contract)
  {
    assert MarkedLater(market, timeline, k, contract);
  }

  lemma MarkIsNoPurchase(market: Market, row: Row, contract: Contract)
    requires market.Valid()
    ensures Marks(market, row, contract) ==> !IsPurchase(row) && !IsClosing(row)
  {}

  // ---------------------------------------------------------------------------------------
  // The lots are what the replay holds

  predicate IsLotOf(lot: Lot, contract: Contract) {
    lot.quantity > 0.0 && lot.expiry == contract.expiry && lot.strike == contract.strike
  }

  predicate HasLot(lots: seq<Lot>, contract: Contract) {
    exists i :: 0 <= i < |lots| && IsLotOf(lots[i], contract)
  }

  /** At most one open lot of a contract. */
  predicate OpenOnce(lots: seq<Lot>) {
    forall i, j :: 0 <= i < j < |lots| && lots[i].quantity > 0.0 && lots[j].quantity > 0.0 ==> lots[i].expiry != lots[j].expiry || lots[i].strike != lots[j].strike
  }

  predicate NoneNegative(lots: seq<Lot>) {
    forall i :: 0 <= i < |lots| ==> lots[i].quantity >= 0.0
  }

  /** The contract's open lot is what is held of it. */
  predicate Shows(lots: seq<Lot>, contract: Contract, held: Holding) {
    && OpenOnce(lots) && NoneNegative(lots) && held.shares >= 0.0
    && (forall i :: 0 <= i < |lots| && IsLotOf(lots[i], contract) ==> held == Holding(lots[i].quantity, lots[i].heldAtEnd))
    && (held.shares > 0.0 ==> HasLot(lots, contract))
  }

  lemma ExpiredShows(market: Market, books: Books, before: Option<int>, source: int, contract: Contract, held: Holding)
    requires market.Valid() && Shows(books.lots, contract, held)
    ensures Shows(Expired(market, books, before, source, |books.lots|).lots, contract, AfterExpiry(market, held, contract, before))
  {
    hide Expired;
    var lots, after := books.lots, Expired(market, books, before, source, |books.lots|).lots;
    forall i | 0 <= i < |lots|
      ensures after[i] == if Expires(market, lots[i], before) then lots[i].(quantity := 0.0) else lots[i]
    {
      ExpiredLots(market, books, before, source, |lots|, i);
    }
    if AfterExpiry(market, held, contract, before).shares > 0.0 {
      var i :| 0 <= i < |lots| && IsLotOf(lots[i], contract);
      assert IsLotOf(after[i], contract);
    }
  }

  /** One lot changed: those of other contracts are as they were. */
  lemma UpdatedShows(lots: seq<Lot>, i: nat, lot: Lot, contract: Contract, held: Holding)
    requires i < |lots| && lots[i].quantity > 0.0 && Shows(lots, contract, held)
    requires lot.quantity >= 0.0 && lot.expiry == lots[i].expiry && lot.strike == lots[i].strike
    ensures Shows(lots[i := lot], contract, if IsLotOf(lots[i], contract) then Holding(lot.quantity, lot.heldAtEnd) else held)
  {
    var after := lots[i := lot];
    if IsLotOf(lots[i], contract) {
      if lot.quantity > 0.0 {
        assert IsLotOf(after[i], contract);
      }
    } else if held.shares > 0.0 {
      var j :| 0 <= j < |lots| && IsLotOf(lots[j], contract);
      assert IsLotOf(after[j], contract);
    }
  }

  lemma AddedShows(lots: seq<Lot>, lot: Lot, contract: Contract, held: Holding)
    requires Shows(lots, contract, held) && lot.quantity > 0.0 && !HasLot(lots, Contract(lot.expiry, lot.strike))
    ensures Shows(lots + [lot], contract, if IsLotOf(lot, contract) then Holding(lot.quantity, lot.heldAtEnd) else held)
  {
    var after := lots + [lot];
    assert forall i :: 0 <= i < |lots| ==> after[i] == lots[i];
    forall i | 0 <= i < |lots| && lots[i].quantity > 0.0
      ensures lots[i].expiry != lot.expiry || lots[i].strike != lot.strike
    {
      assert !IsLotOf(lots[i], Contract(lot.expiry, lot.strike));
    }
    if IsLotOf(lot, contract) {
      assert IsLotOf(after[|lots|], contract);
    } else if held.shares > 0.0 {
      var j :| 0 <= j < |lots| && IsLotOf(lots[j], contract);
      assert IsLotOf(after[j], contract);
    }
  }

  /** The lot a row finds is its contract's, when one is open. */
  lemma FoundLot(market: Market, lots: seq<Lot>, row: Row, contract: Contract)
    requires market.Valid() && row.strike.Some?
    ensures var i := OpenLot(lots, row.expiry, row.strike.value / market.factorOf(row.day));
            && (i < |lots| ==> lots[i].quantity > 0.0 && (IsOf(market, row, contract) <==> IsLotOf(lots[i], contract)))
            && (i == |lots| && row.expiry.Some? ==> !HasLot(lots, Contract(row.expiry.value, row.strike.value / market.factorOf(row.day))))
            && (i == |lots| && IsOf(market, row, contract) ==> !HasLot(lots, contract))
  {}

  lemma BoughtShows(market: Market, books: Books, row: Row, index: int, contract: Contract, held: Holding)
    requires market.Valid() && IsPurchase(row) && Shows(books.lots, contract, held)
    ensures Shows(Bought(market, books, row, index).lots, contract, AfterRow(market, held, contract, row))
  {
    hide AverageMark, OpenLot, Shows, HasLot;
    var quantity, strike := SharesOf(market, row), row.strike.value / market.factorOf(row.day);
    hide SharesOf;
    var i := OpenLot(books.lots, row.expiry, strike);
    FoundLot(market, books.lots, row, contract);
    if i < |books.lots| {
      var lot := books.lots[i];
      var more := lot.(lastMark := AverageMark(lot.lastMark, lot.quantity, -row.premium / quantity, quantity), quantity := lot.quantity + quantity,
                       heldAtEnd := lot.heldAtEnd || row.unrealized);
      UpdatedShows(books.lots, i, more, contract, held);
      ShownLot(books.lots, i, contract, held);
    } else {
      AddedShows(books.lots, Lot(row.expiry.value, strike, quantity, -row.premium / quantity, Instant(row.at), row.unrealized), contract, held);
      NotShown(books.lots, contract, held);
    }
  }

  lemma ShownLot(lots: seq<Lot>, i: nat, contract: Contract, held: Holding)
    requires i < |lots| && Shows(lots, contract, held)
    ensures IsLotOf(lots[i], contract) ==> held == Holding(lots[i].quantity, lots[i].heldAtEnd)
  {}

  lemma NotShown(lots: seq<Lot>, contract: Contract, held: Holding)
    requires Shows(lots, contract, held)
    ensures held.shares >= 0.0 && (!HasLot(lots, contract) ==> held.shares == 0.0)
  {}

  lemma ClosedShows(market: Market, books: Books, row: Row, index: int, contract: Contract, held: Holding)
    requires market.Valid() && IsClosing(row) && !IsPurchase(row) && Shows(books.lots, contract, held)
    ensures Shows(Closed(market, books, row, index).lots, contract, AfterRow(market, held, contract, row))
  {
    hide OpenLot, Shows, HasLot, Worth, SharesOf;
    var quantity := SharesOf(market, row);
    var i := OpenLot(books.lots, row.expiry, row.strike.value / market.factorOf(row.day));
    FoundLot(market, books.lots, row, contract);
    if i < |books.lots| {
      var lot := books.lots[i];
      UpdatedShows(books.lots, i, lot.(quantity := Max(0.0, lot.quantity - quantity)), contract, held);
      ShownLot(books.lots, i, contract, held);
    } else {
      NotShown(books.lots, contract, held);
      assert IsOf(market, row, contract) ==> held.(shares := Max(0.0, held.shares - quantity)) == held;
    }
  }

  lemma EmptiedShows(market: Market, lots: seq<Lot>, row: Row, contract: Contract, held: Holding)
    requires market.Valid() && IsMark(row) && !IsPurchase(row) && !IsClosing(row) && Shows(lots, contract, held)
    ensures Shows(Emptied(market, lots, row), contract, AfterRow(market, held, contract, row))
  {
    var after := Emptied(market, lots, row);
    hide Emptied, SharesOf;
    if AfterRow(market, held, contract, row).shares > 0.0 {
      var i :| 0 <= i < |lots| && IsLotOf(lots[i], contract);
      assert IsLotOf(after[i], contract);
    }
  }

  lemma OwnRowShows(market: Market, books: Books, row: Row, index: int, contract: Contract, held: Holding)
    requires market.Valid() && Shows(books.lots, contract, held)
    ensures Shows(OwnRow(market, books, row, index).lots, contract, AfterRow(market, held, contract, row))
  {
    if IsPurchase(row) {
      hide Shows, Bought, AfterRow;
      BoughtShows(market, books, row, index, contract, held);
    } else if IsClosing(row) {
      hide Shows, Closed, AfterRow;
      ClosedShows(market, books, row, index, contract, held);
    } else if IsMark(row) {
      hide Shows, Emptied, TakenValue, AfterRow;
      EmptiedShows(market, books.lots, row, contract, held);
    } else {
      hide Shows, SharesOf;
    }
  }

  lemma {:induction false} MarkedLots(market: Market, books: Books, row: Row, destination: Destination, source: int, n: nat, i: nat)
    requires market.Valid() && row.at.Some? && i < n <= |books.lots|
    ensures var lot := Marked(market, books, row, destination, source, n).lots[i];
            lot == books.lots[i]
            || (MarkOf(market, books.lots[i], row).Some? && lot == books.lots[i].(lastMark := MarkOf(market, books.lots[i], row).value / market.factorOf(row.day)))
  {
    hide MarkOf;
    var earlier := Marked(market, books, row, destination, source, n - 1);
    if i < n - 1 {
      MarkedLots(market, books, row, destination, source, n - 1, i);
    } else {
      assert earlier.lots[i] == earlier.lots[n - 1..][0] == books.lots[i];
    }
  }

  /** Marks change no lot's shares. */
  lemma HandedOverShows(market: Market, books: Books, timeline: seq<Row>, index: nat, contract: Contract, held: Holding)
    requires market.Valid() && index < |timeline| && Shows(books.lots, contract, held)
    ensures Shows(HandedOver(market, books, timeline, index).lots, contract, held)
  {
    hide Marked, MarkOf;
    var after := HandedOver(market, books, timeline, index);
    if HandOverEnding(timeline, index).Some? {
      var destination := HandOverEnding(timeline, index).value;
      forall i | 0 <= i < |books.lots|
        ensures after.lots[i] == books.lots[i].(lastMark := after.lots[i].lastMark)
      {
        MarkedLots(market, books, timeline[index], destination, index, |books.lots|, i);
      }
      if held.shares > 0.0 {
        var i :| 0 <= i < |books.lots| && IsLotOf(books.lots[i], contract);
        assert IsLotOf(after.lots[i], contract);
      }
    }
  }

  /** Before each row the lots are what the replay of the rows holds. */
  lemma {:induction false} RewritingShows(market: Market, timeline: seq<Row>, contract: Contract, n: nat)
    requires market.Valid() && n <= |timeline|
    ensures Shows(Rewriting(market, timeline, n).lots, contract, HeldAfter(market, timeline, contract, n))
  {
    hide Shows, OwnRow, Expired, HandedOver, AfterRow, AfterExpiry;
    if n == 0 {
      NoLotsShown(contract);
    } else {
      RewritingShows(market, timeline, contract, n - 1);
      var books, row, held := Rewriting(market, timeline, n - 1), timeline[n - 1], HeldAfter(market, timeline, contract, n - 1);
      ExpiredShows(market, books, row.at, Earlier(n - 1), contract, held);
      var expired := Expired(market, books, row.at, Earlier(n - 1), |books.lots|);
      OwnRowShows(market, expired, row, n - 1, contract, AfterExpiry(market, held, contract, row.at));
      assert HeldAt(market, timeline, contract, n - 1) == AfterExpiry(market, held, contract, row.at);
      HandedOverShows(market, OwnRow(market, expired, row, n - 1), timeline, n - 1, contract, HeldAfter(market, timeline, contract, n));
    }
  }

  lemma NoLotsShown(contract: Contract)
    ensures Shows([], contract, Holding(0.0, false))
  {}

  lemma AtTheRowShows(market: Market, timeline: seq<Row>, contract: Contract, k: nat)
    requires market.Valid() && k < |timeline|
    ensures var books := Rewriting(market, timeline, k);
            Shows(Expired(market, books, timeline[k].at, Earlier(k), |books.lots|).lots, contract, HeldAt(market, timeline, contract, k))
  {
    hide Shows, Expired, Rewriting;
    RewritingShows(market, timeline, contract, k);
    var books := Rewriting(market, timeline, k);
    ExpiredShows(market, books, timeline[k].at, Earlier(k), contract, HeldAfter(market, timeline, contract, k));
  }

  lemma AtTheEndShows(market: Market, timeline: seq<Row>, contract: Contract)
    requires market.Valid()
    ensures Shows(Rewritten(market, timeline).lots, contract, AfterExpiry(market, HeldAfter(market, timeline, contract, |timeline|), contract, None))
  {
    hide Shows, Expired, Rewriting;
    RewritingShows(market, timeline, contract, |timeline|);
    var books := Rewriting(market, timeline, |timeline|);
    ExpiredShows(market, books, None, |timeline| - 1, contract, HeldAfter(market, timeline, contract, |timeline|));
  }

  // ---------------------------------------------------------------------------------------
  // The total is kept

  /** A closing fits its lot exactly when it closes no more than is held. */
  lemma FitsItsLot(market: Market, timeline: seq<Row>, k: nat)
    requires market.Valid() && k < |timeline|
    ensures ClosingFits(market, timeline, k) <==> ClosesWhatIsHeld(market, timeline, k)
  {
    var row := timeline[k];
    if IsClosing(row) && row.expiry.Some? {
      hide Shows, Expired, Rewriting, SharesOf, HasLot, OpenLot, HeldAt;
      var books := Rewriting(market, timeline, k);
      var lots := Expired(market, books, row.at, Earlier(k), |books.lots|).lots;
      var contract := Contract(row.expiry.value, row.strike.value / market.factorOf(row.day));
      AtTheRowShows(market, timeline, contract, k);
      FoundLot(market, lots, row, contract);
      NotShown(lots, contract, HeldAt(market, timeline, contract, k));
      var i := OpenLot(lots, row.expiry, row.strike.value / market.factorOf(row.day));
      if i < |lots| {
        ShownLot(lots, i, contract, HeldAt(market, timeline, contract, k));
      }
    }
  }

  /** A lot left open at the end is of a Put still held, and so is every such Put's. */
  lemma LeftIsHeld(market: Market, timeline: seq<Row>, i: nat)
    requires market.Valid() && i < |Rewritten(market, timeline).lots|
    ensures var lot := Rewritten(market, timeline).lots[i];
            lot.quantity >= 0.0 && (lot.quantity > 0.0 ==> !NothingLeft(market, timeline, Contract(lot.expiry, lot.strike)))
  {
    var lot := Rewritten(market, timeline).lots[i];
    hide Rewritten, HeldAfter;
    var contract := Contract(lot.expiry, lot.strike);
    AtTheEndShows(market, timeline, contract);
    assert lot.quantity > 0.0 ==> IsLotOf(lot, contract);
  }

  lemma HeldIsLeft(market: Market, timeline: seq<Row>, contract: Contract)
    requires market.Valid() && !NothingLeft(market, timeline, contract)
    ensures HasLot(Rewritten(market, timeline).lots, contract)
  {
    hide Rewritten, HeldAfter;
    AtTheEndShows(market, timeline, contract);
  }

  /**
   The total is kept when no closing exceeds the shares held of its Put, and every purchase of a Put
   held at the end meets a later mark row of it. Whatever the marks were.
   */
  lemma TotalIsKept(market: Market, timeline: seq<Row>)
    requires market.Valid() && ClosingsFit(market, timeline) && HeldMeetMarks(market, timeline)
    ensures Total(Rewritten(market, timeline).rows) == Total(timeline)
  {
    forall contract
      ensures NothingLeft(market, timeline, contract)
    {
      MarkedIsNotLeft(market, timeline, contract, |timeline|);
    }
    hide HeldMeetMarks, NothingLeft;
    NothingLeftKeepsTheTotal(market, timeline);
  }

  lemma NothingLeftKeepsTheTotal(market: Market, timeline: seq<Row>)
    requires market.Valid() && ClosingsFit(market, timeline) && forall contract :: NothingLeft(market, timeline, contract)
    ensures Total(Rewritten(market, timeline).rows) == Total(timeline)
  {
    hide Rewritten, NothingLeft, ClosingFits, ClosesWhatIsHeld, Total;
    forall k: nat | k < |timeline|
      ensures ClosingFits(market, timeline, k)
    {
      assert ClosesWhatIsHeld(market, timeline, k);
      FitsItsLot(market, timeline, k);
    }
    forall i | 0 <= i < |Rewritten(market, timeline).lots|
      ensures Rewritten(market, timeline).lots[i].quantity == 0.0
    {
      LeftIsHeld(market, timeline, i);
    }
    TotalKept(market, timeline);
  }

  // ---------------------------------------------------------------------------------------
  // And when it is not, marks being positive

  /** No price is below 0; and with `strict`, none is 0. */
  predicate IsPrice(price: real, strict: bool) {
    price >= 0.0 && (strict ==> price > 0.0)
  }

  /** No Put is bought for less than nothing and no mark is below 0; with `strict`, each costs something and no mark is 0. */
  ghost predicate MarksArePrices(market: Market, timeline: seq<Row>, strict: bool) {
    && (forall k :: 0 <= k < |timeline| && IsPurchase(timeline[k]) ==> IsPrice(-timeline[k].premium, strict))
    && (forall lot: Lot, row: Row :: row.at.Some? && MarkOf(market, lot, row).Some? ==> IsPrice(MarkOf(market, lot, row).value, strict))
  }

  predicate LotsArePriced(lots: seq<Lot>, strict: bool) {
    forall i :: 0 <= i < |lots| ==> IsPrice(lots[i].lastMark, strict) && lots[i].quantity >= 0.0
  }

  lemma PriceTimes(a: real, b: real, strict: bool)
    requires IsPrice(a, strict) && b > 0.0
    ensures IsPrice(a * b, strict) && (strict || a > 0.0 ==> a * b > 0.0)
  {
    if a > 0.0 {
      PositiveProduct(a, b);
    }
  }

  lemma PositiveProduct(a: real, b: real)
    requires a > 0.0 && b > 0.0
    ensures a * b > 0.0
  {}

  lemma PriceOver(a: real, b: real, strict: bool)
    requires IsPrice(a, strict) && b > 0.0
    ensures IsPrice(a / b, strict)
  {
    var quotient := a / b;
    assert quotient * b == a;
    assert (-quotient) * b == -(quotient * b);
    if quotient < 0.0 {
      PositiveProduct(-quotient, b);
    }
  }

  lemma AverageIsPrice(mark: real, quantity: real, cost: real, bought: real, strict: bool)
    requires IsPrice(mark, strict) && quantity > 0.0 && IsPrice(cost, strict) && bought > 0.0
    ensures IsPrice(AverageMark(mark, quantity, cost, bought), strict)
  {
    PriceTimes(mark, quantity, strict);
    PriceTimes(cost, bought, strict);
    PriceOver(mark * quantity + cost * bought, quantity + bought, strict);
  }

  lemma OwnRowPriced(market: Market, books: Books, row: Row, index: int, strict: bool)
    requires market.Valid() && LotsArePriced(books.lots, strict) && (IsPurchase(row) ==> IsPrice(-row.premium, strict))
    ensures LotsArePriced(OwnRow(market, books, row, index).lots, strict) && OwnRow(market, books, row, index).overshoot >= books.overshoot
  {
    hide SharesOf, AverageMark, OpenLot, Emptied, Worth, TakenValue, IsPrice;
    if IsPurchase(row) {
      var quantity := SharesOf(market, row);
      PriceOver(-row.premium, quantity, strict);
      var i := OpenLot(books.lots, row.expiry, row.strike.value / market.factorOf(row.day));
      if i < |books.lots| {
        AverageIsPrice(books.lots[i].lastMark, books.lots[i].quantity, -row.premium / quantity, quantity, strict);
      }
    } else if IsClosing(row) {
      var i := OpenLot(books.lots, row.expiry, row.strike.value / market.factorOf(row.day));
      if i < |books.lots| {
        WorthOfExcess(books.lots[i].lastMark, SharesOf(market, row) - books.lots[i].quantity, strict);
      }
    }
  }

  lemma WorthOfExcess(mark: real, excess: real, strict: bool)
    requires IsPrice(mark, strict)
    ensures Worth(mark, Max(0.0, excess)) >= 0.0 && (excess <= 0.0 ==> Worth(mark, Max(0.0, excess)) == 0.0)
    ensures strict && excess > 0.0 ==> Worth(mark, Max(0.0, excess)) > 0.0
  {
    if excess > 0.0 {
      PriceTimes(mark, excess, strict);
    }
  }

  lemma ExpiredPriced(market: Market, books: Books, before: Option<int>, source: int, strict: bool)
    requires market.Valid() && LotsArePriced(books.lots, strict)
    ensures LotsArePriced(Expired(market, books, before, source, |books.lots|).lots, strict)
  {
    hide Expired, IsPrice;
    forall i | 0 <= i < |books.lots|
      ensures IsPrice(Expired(market, books, before, source, |books.lots|).lots[i].lastMark, strict) && Expired(market, books, before, source, |books.lots|).lots[i].quantity >= 0.0
    {
      ExpiredLots(market, books, before, source, |books.lots|, i);
    }
  }

  lemma HandedOverPriced(market: Market, books: Books, timeline: seq<Row>, index: nat, strict: bool)
    requires market.Valid() && index < |timeline| && LotsArePriced(books.lots, strict) && MarksArePrices(market, timeline, strict)
    ensures LotsArePriced(HandedOver(market, books, timeline, index).lots, strict) && HandedOver(market, books, timeline, index).overshoot == books.overshoot
  {
    hide Marked, MarkOf, IsPrice;
    var after := HandedOver(market, books, timeline, index);
    if HandOverEnding(timeline, index).Some? {
      forall i | 0 <= i < |books.lots|
        ensures IsPrice(after.lots[i].lastMark, strict) && after.lots[i].quantity >= 0.0
      {
        MarkedLots(market, books, timeline[index], HandOverEnding(timeline, index).value, index, |books.lots|, i);
        if MarkOf(market, books.lots[i], timeline[index]).Some? {
          PriceOver(MarkOf(market, books.lots[i], timeline[index]).value, market.factorOf(timeline[index].day), strict);
        }
      }
    }
  }

  /** Lots stay priced, and what closings take beyond them only grows: from nothing, and with strict prices with the first that does not fit. */
  lemma {:induction false} OvershootGrows(market: Market, timeline: seq<Row>, n: nat, strict: bool)
    requires market.Valid() && n <= |timeline| && MarksArePrices(market, timeline, strict)
    ensures var books := Rewriting(market, timeline, n);
            && LotsArePriced(books.lots, strict) && books.overshoot >= 0.0
            && ((forall k :: 0 <= k < n ==> ClosingFits(market, timeline, k)) ==> books.overshoot == 0.0)
            && (strict && books.overshoot == 0.0 ==> forall k :: 0 <= k < n ==> ClosingFits(market, timeline, k))
  {
    hide Expired, OwnRow, HandedOver, MarksArePrices, LotsArePriced, ClosingFits, IsPrice;
    if n == 0 {
      NoLotsPriced(strict);
    } else {
      OvershootGrows(market, timeline, n - 1, strict);
      var books, row := Rewriting(market, timeline, n - 1), timeline[n - 1];
      var expired := Expired(market, books, row.at, Earlier(n - 1), |books.lots|);
      ExpiredPriced(market, books, row.at, Earlier(n - 1), strict);
      PurchasePaid(market, timeline, n - 1, strict);
      OwnRowPriced(market, expired, row, n - 1, strict);
      OwnOvershoot(market, timeline, n - 1, strict);
      HandedOverPriced(market, OwnRow(market, expired, row, n - 1), timeline, n - 1, strict);
    }
  }

  lemma NoLotsPriced(strict: bool)
    ensures LotsArePriced([], strict)
  {}

  lemma PurchasePaid(market: Market, timeline: seq<Row>, k: nat, strict: bool)
    requires k < |timeline| && MarksArePrices(market, timeline, strict)
    ensures IsPurchase(timeline[k]) ==> IsPrice(-timeline[k].premium, strict)
  {}

  lemma OwnOvershoot(market: Market, timeline: seq<Row>, k: nat, strict: bool)
    requires market.Valid() && k < |timeline|
    requires var books := Rewriting(market, timeline, k); LotsArePriced(Expired(market, books, timeline[k].at, Earlier(k), |books.lots|).lots, strict)
    ensures var books := Rewriting(market, timeline, k);
            var expired := Expired(market, books, timeline[k].at, Earlier(k), |books.lots|);
            && (ClosingFits(market, timeline, k) ==> OwnRow(market, expired, timeline[k], k).overshoot == books.overshoot)
            && (strict && OwnRow(market, expired, timeline[k], k).overshoot == books.overshoot ==> ClosingFits(market, timeline, k))
  {
    hide Rewriting, SharesOf, Bought, Closed, OpenLot, Worth, Emptied, TakenValue, Expired, LotsArePriced;
    var row, books := timeline[k], Rewriting(market, timeline, k);
    var expired := Expired(market, books, row.at, Earlier(k), |books.lots|);
    if IsPurchase(row) {
      BoughtOvershoot(market, expired, row, k);
    } else if IsClosing(row) {
      ClosedOvershoot(market, expired, row, k, strict);
    }
  }

  lemma ClosedOvershoot(market: Market, books: Books, row: Row, index: int, strict: bool)
    requires market.Valid() && IsClosing(row) && LotsArePriced(books.lots, strict)
    ensures var i := OpenLot(books.lots, row.expiry, row.strike.value / market.factorOf(row.day));
            var fits := i < |books.lots| ==> SharesOf(market, row) <= books.lots[i].quantity;
            && (fits ==> Closed(market, books, row, index).overshoot == books.overshoot)
            && (strict && Closed(market, books, row, index).overshoot == books.overshoot ==> fits)
  {
    hide SharesOf, OpenLot, Worth, IsPrice;
    var i := OpenLot(books.lots, row.expiry, row.strike.value / market.factorOf(row.day));
    if i < |books.lots| {
      WorthOfExcess(books.lots[i].lastMark, SharesOf(market, row) - books.lots[i].quantity, strict);
    }
  }

  lemma {:induction false} OpenValueOfPriced(lots: seq<Lot>, strict: bool)
    requires LotsArePriced(lots, strict)
    ensures OpenValue(lots) >= 0.0 && ((forall i :: 0 <= i < |lots| ==> lots[i].quantity == 0.0) ==> OpenValue(lots) == 0.0)
    ensures strict && OpenValue(lots) == 0.0 ==> forall i :: 0 <= i < |lots| ==> lots[i].quantity == 0.0
  {
    hide IsPrice;
    if lots != [] {
      var last := |lots| - 1;
      OpenValueOfPriced(lots[..last], strict);
      if lots[last].quantity > 0.0 {
        PriceTimes(lots[last].lastMark, lots[last].quantity, strict);
        PriceIsNotNegative(lots[last].lastMark * lots[last].quantity, strict);
      }
    }
  }

  lemma PriceIsNotNegative(price: real, strict: bool)
    requires IsPrice(price, strict)
    ensures price >= 0.0
  {}

  /**
   When no mark is below 0, the emitted total is at least the original when every closing fits, and at
   most when nothing is left; when none is 0 either, it is kept in both cases only when both hold.
   */
  lemma TotalIsKeptExactlyWhen(market: Market, timeline: seq<Row>, strict: bool)
    requires market.Valid() && MarksArePrices(market, timeline, strict)
    ensures var total, kept := Total(Rewritten(market, timeline).rows), Total(timeline);
            var allFit, nothingLeft := ClosingsFit(market, timeline), forall contract :: NothingLeft(market, timeline, contract);
            && (allFit ==> total >= kept) && (nothingLeft ==> total <= kept)
            && (strict && allFit ==> (total == kept <==> nothingLeft))
            && (strict && nothingLeft ==> (total == kept <==> allFit))
  {
    var end := Rewritten(market, timeline);
    OvershootGrows(market, timeline, |timeline|, strict);
    EndIsPriced(market, timeline, strict);
    hide Rewriting, Rewritten, NothingLeft, ClosesWhatIsHeld, ClosingFits, Total, MarksArePrices;
    TotalKeptExactlyWhen(market, timeline);
    OpenValueOfPriced(end.lots, strict);
    forall k: nat | k < |timeline|
      ensures ClosingFits(market, timeline, k) <==> ClosesWhatIsHeld(market, timeline, k)
    {
      FitsItsLot(market, timeline, k);
    }
    forall contract | !NothingLeft(market, timeline, contract)
      ensures HasLot(end.lots, contract)
    {
      HeldIsLeft(market, timeline, contract);
    }
    forall i | 0 <= i < |end.lots| && end.lots[i].quantity > 0.0
      ensures !NothingLeft(market, timeline, Contract(end.lots[i].expiry, end.lots[i].strike))
    {
      LeftIsHeld(market, timeline, i);
    }
  }

  lemma EndIsPriced(market: Market, timeline: seq<Row>, strict: bool)
    requires market.Valid() && LotsArePriced(Rewriting(market, timeline, |timeline|).lots, strict)
    ensures LotsArePriced(Rewritten(market, timeline).lots, strict) && Rewritten(market, timeline).overshoot == Rewriting(market, timeline, |timeline|).overshoot
  {
    hide Rewriting;
    ExpiredPriced(market, Rewriting(market, timeline, |timeline|), None, |timeline| - 1, strict);
  }

  // ---------------------------------------------------------------------------------------
  // Where it is not kept

  /** A Put still held that meets no mark row: bought for $5, it comes to $0 in the rewritten timeline. */
  lemma HeldPutWithoutItsMark() returns (market: Market, timeline: seq<Row>)
    ensures market.Valid() && ClosingsFit(market, timeline) && !HeldMeetMarks(market, timeline)
    ensures Total(timeline) == -5.0 && Total(Rewritten(market, timeline).rows) == 0.0
  {
    market := Market((expiry: int) => 100, (day: int, expiry: int, strike: real, price: Option<real>) => None, (day: int) => 1.0);
    var bought := Row(Some(1), 1, BoughtPut, true, OptionContract, 1.0, Some(10.0), Some(9), None, -5.0, 0.0, true);
    timeline := [bought];
    assert timeline[..0] == [];
    assert Total(timeline) == -5.0;
    assert !MarkedLater(market, timeline, 0, Contract(9, 10.0));
    var lot, output := Lot(9, 10.0, 1.0, 5.0, 1, true), bought.(premium := 0.0);
    var one := Books([lot], [output], [0], [false], 0.0);
    OneHeldPut(market, timeline, bought, one);
    assert [output][..0] == [];
    assert Total([output]) == 0.0;
  }

  lemma OneHeldPut(market: Market, timeline: seq<Row>, bought: Row, one: Books)
    requires market.Valid() && (forall day :: market.factorOf(day) == 1.0) && timeline == [bought]
    requires bought == Row(Some(1), 1, BoughtPut, true, OptionContract, 1.0, Some(10.0), Some(9), None, -5.0, 0.0, true)
    requires one == Books([Lot(9, 10.0, 1.0, 5.0, 1, true)], [bought.(premium := 0.0)], [0], [false], 0.0)
    ensures Rewritten(market, timeline) == one
  {
    hide Marked, Expired;
    assert Rewriting(market, timeline, 0) == NO_BOOKS;
    NothingExpires(market, NO_BOOKS, bought.at, 0);
    assert Bought(market, NO_BOOKS, bought, 0) == one;
    assert HandOverEnding(timeline, 0) == None;
    assert Rewriting(market, timeline, 1) == one;
    HeldDoesNotExpire(market, one);
  }

  lemma HeldDoesNotExpire(market: Market, one: Books)
    requires market.Valid() && |one.lots| == 1 && one.lots[0].heldAtEnd
    ensures Expired(market, one, None, 0, 1) == one
  {
    assert Expired(market, one, None, 0, 0) == one;
  }
}
