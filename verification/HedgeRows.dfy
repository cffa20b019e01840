/**
 Every row the rewritten timeline has, read off the input's rows (src/backtest/cycleHedgeHandOvers.ts):
 each hedge Put is followed through the timeline on its own, and before and after each row stand the rows
 of the Puts that ran out and of those marked at a hand-over, one for each and no other.
 */
module HedgeRows {
  import opened Wrappers
  import opened HedgeHandOvers
  import opened HedgeTotals
  import opened HedgeReplay

  // ---------------------------------------------------------------------------------------
  // One Put through the timeline

  /** What is held of a Put: its shares, its last mark per share, when it was bought, and whether it is still held at the end. */
  datatype Position = Position(shares: real, mark: real, since: int, heldAtEnd: bool)

  predicate OfContract(market: Market, row: Row, contract: Contract)
    requires market.Valid()
  {
    row.expiry == Some(contract.expiry) && row.strike.Some? && row.strike.value / market.factorOf(row.day) == contract.strike
  }

  predicate Buys(row: Row) {
    row.hedge && row.instrument == OptionContract && row.caption == BoughtPut && row.strike.Some? && row.expiry.Some? && row.quantity > 0.0
  }

  predicate Sells(row: Row) {
    row.hedge && row.instrument == OptionContract && row.caption == SoldPut && row.strike.Some? && row.quantity > 0.0
  }

  predicate TakesTheRest(row: Row) {
    row.hedge && row.at == None && row.caption == OpenPutMarked
  }

  /** It ran out before the row, with no row of its own. */
  predicate RunsOut(market: Market, position: Position, contract: Contract, before: Option<int>) {
    position.shares > 0.0 && !position.heldAtEnd && (before == None || market.settles(contract.expiry) < before.value)
  }

  function AfterExpiries(market: Market, position: Position, contract: Contract, before: Option<int>): Position {
    if RunsOut(market, position, contract, before) then position.(shares := 0.0) else position
  }

  function AfterOwnRow(market: Market, position: Position, contract: Contract, row: Row): Position
    requires market.Valid()
  {
    var shares := row.quantity * market.factorOf(row.day);
    if Buys(row) && OfContract(market, row, contract) then
      MorePositive(row.quantity, market.factorOf(row.day));
      var cost := -row.premium / shares;
      if position.shares > 0.0 then
        Position(position.shares + shares, (position.mark * position.shares + cost * shares) / (position.shares + shares), position.since, position.heldAtEnd || row.unrealized)
      else Position(shares, cost, if row.at.Some? then row.at.value else 0, row.unrealized)
    else if Sells(row) && OfContract(market, row, contract) then position.(shares := if position.shares > shares then position.shares - shares else 0.0)
    else if TakesTheRest(row) && position.heldAtEnd && (row.strike.Some? ==> OfContract(market, row, contract)) then position.(shares := 0.0)
    else position
  }

  lemma MorePositive(quantity: real, factor: real)
    requires factor > 0.0
    ensures quantity > 0.0 ==> quantity * factor > 0.0
  {}

  /** The Put's price as traded when the shares are handed over with this row: it is open, from before the row, not settled by then, and has one. */
  function HandOverPrice(market: Market, position: Position, contract: Contract, row: Row): Option<real> {
    if row.at.Some? && position.shares > 0.0 && position.since < row.at.value && row.at.value < market.settles(contract.expiry)
    then market.markOf(row.day, contract.expiry, AsTraded(contract.strike, market.factorOf(row.day)), row.stockPrice)
    else None
  }

  /** The shares are handed over with this row: it is the last of its moment, and the moment has a hand-over. */
  predicate HandsOver(timeline: seq<Row>, k: nat)
    requires k < |timeline|
  {
    && timeline[k].at.Some? && (k + 1 < |timeline| ==> timeline[k + 1].at != timeline[k].at)
    && exists destination :: LastNamed(timeline, k, timeline[k].at, destination)
  }

  /** The Put after the first n rows. */
  function PositionAfter(market: Market, timeline: seq<Row>, contract: Contract, n: nat): Position
    requires market.Valid() && n <= |timeline|
    decreases n, 1
  {
    if n == 0 then Position(0.0, 0.0, 0, false) else
    var position, row := PositionOnce(market, timeline, contract, n - 1), timeline[n - 1];
    var price := HandOverPrice(market, position, contract, row);
    if HandsOver(timeline, n - 1) && price.Some? then position.(mark := price.value / market.factorOf(row.day)) else position
  }

  /** The Put when row k comes. */
  function PositionAt(market: Market, timeline: seq<Row>, contract: Contract, k: nat): Position
    requires market.Valid() && k < |timeline|
    decreases k, 2
  {
    AfterExpiries(market, PositionAfter(market, timeline, contract, k), contract, timeline[k].at)
  }

  /** The Put once row k is in. */
  function PositionOnce(market: Market, timeline: seq<Row>, contract: Contract, k: nat): Position
    requires market.Valid() && k < |timeline|
    decreases k, 3
  {
    AfterOwnRow(market, PositionAt(market, timeline, contract, k), contract, timeline[k])
  }

  // ---------------------------------------------------------------------------------------
  // The rows

  /** The row of a Put that ran out: it books the loss of its last mark. */
  function RunOutRow(market: Market, position: Position, contract: Contract): Row
    requires market.Valid()
  {
    var factor := market.factorOf(contract.expiry);
    Row(Some(market.settles(contract.expiry)), contract.expiry, PutExpired, true, OptionContract, position.shares / factor, Some(AsTraded(contract.strike, factor)), Some(contract.expiry),
        None, -(position.mark * position.shares), 0.0, false)
  }

  /** The row of a Put handed over: it books what the Put made since its last mark. */
  function MarkRow(market: Market, position: Position, contract: Contract, row: Row, destination: Destination, price: real): Row
    requires market.Valid()
  {
    var factor := market.factorOf(row.day);
    Row(row.at, row.day, PutHandedTo(destination, price), true, OptionContract, position.shares / factor, Some(AsTraded(contract.strike, factor)), Some(contract.expiry),
        row.stockPrice, (price / factor - position.mark) * position.shares, 0.0, false)
  }

  /** The contract has just the row that is wanted of it among these, or none. */
  ghost predicate HasJust(market: Market, rows: seq<Row>, contract: Contract, wanted: Option<Row>)
    requires market.Valid()
  {
    if wanted.None? then forall i :: 0 <= i < |rows| ==> !OfContract(market, rows[i], contract)
    else exists i :: 0 <= i < |rows| && rows[i] == wanted.value && forall j :: 0 <= j < |rows| && OfContract(market, rows[j], contract) ==> j == i
  }

  /** Every row is some contract's. */
  predicate AllOfContracts(rows: seq<Row>) {
    forall i :: 0 <= i < |rows| ==> rows[i].expiry.Some? && rows[i].strike.Some?
  }

  // ---------------------------------------------------------------------------------------
  // A row for some of the lots

  /** The rows a walk through the first n lots adds. */
  function RowsOf(lots: seq<Lot>, rowOf: Lot -> Option<Row>, n: nat): seq<Row>
    requires n <= |lots|
  {
    if n == 0 then [] else
    RowsOf(lots, rowOf, n - 1) + var row := rowOf(lots[n - 1]); if row.Some? then [row.value] else []
  }

  ghost predicate ComeFrom(lots: seq<Lot>, rowOf: Lot -> Option<Row>, n: nat, at: seq<nat>)
    requires n <= |lots|
  {
    && |at| == |RowsOf(lots, rowOf, n)|
    && (forall k :: 0 <= k < |at| ==> at[k] < n && rowOf(lots[at[k]]) == Some(RowsOf(lots, rowOf, n)[k]))
    && (forall k, m :: 0 <= k < m < |at| ==> at[k] < at[m])
    && (forall i :: 0 <= i < n && rowOf(lots[i]).Some? ==> i in at)
  }

  lemma OneMoreComes(lots: seq<Lot>, rowOf: Lot -> Option<Row>, n: nat, at: seq<nat>)
    requires 0 < n <= |lots| && ComeFrom(lots, rowOf, n - 1, at)
    ensures ComeFrom(lots, rowOf, n, if rowOf(lots[n - 1]).Some? then at + [n - 1] else at)
  {
    var before, rows := RowsOf(lots, rowOf, n - 1), RowsOf(lots, rowOf, n);
    assert rows == before + if rowOf(lots[n - 1]).Some? then [rowOf(lots[n - 1]).value] else [];
    hide RowsOf;
    if rowOf(lots[n - 1]).Some? {
      var all := at + [n - 1];
      assert all[|at|] == n - 1 && rows[|at|] == rowOf(lots[n - 1]).value;
      assert forall k :: 0 <= k < |at| ==> all[k] == at[k] && rows[k] == before[k];
      assert forall i :: 0 <= i < n - 1 && i in at ==> i in all;
    } else {
      assert rows == before;
    }
  }

  lemma {:induction false} RowsComeFrom(lots: seq<Lot>, rowOf: Lot -> Option<Row>, n: nat) returns (at: seq<nat>)
    requires n <= |lots|
    ensures ComeFrom(lots, rowOf, n, at)
  {
    at := [];
    if n > 0 {
      hide ComeFrom;
      at := RowsComeFrom(lots, rowOf, n - 1);
      OneMoreComes(lots, rowOf, n, at);
      if rowOf(lots[n - 1]).Some? {
        at := at + [n - 1];
      }
    }
  }

  /** The rows are each of their lot's contract, and no lot without shares has one. */
  ghost predicate RowsFit(market: Market, lots: seq<Lot>, rowOf: Lot -> Option<Row>)
    requires market.Valid()
  {
    forall i :: 0 <= i < |lots| && rowOf(lots[i]).Some? ==>
      lots[i].quantity > 0.0 && forall contract :: OfContract(market, rowOf(lots[i]).value, contract) <==> contract == Contract(lots[i].expiry, lots[i].strike)
  }

  lemma OneForEach(market: Market, lots: seq<Lot>, rowOf: Lot -> Option<Row>, contract: Contract, wanted: Option<Row>)
    requires market.Valid() && OpenOnce(lots) && RowsFit(market, lots, rowOf)
    requires forall i :: 0 <= i < |lots| && IsLotOf(lots[i], contract) ==> rowOf(lots[i]) == wanted
    requires wanted.Some? ==> HasLot(lots, contract)
    ensures HasJust(market, RowsOf(lots, rowOf, |lots|), contract, wanted)
  {
    hide RowsOf, OfContract;
    var rows := RowsOf(lots, rowOf, |lots|);
    var at := RowsComeFrom(lots, rowOf, |lots|);
    forall k | 0 <= k < |rows| && OfContract(market, rows[k], contract)
      ensures IsLotOf(lots[at[k]], contract) && wanted == Some(rows[k])
    {
      assert rowOf(lots[at[k]]) == Some(rows[k]);
    }
    if wanted.Some? {
      var i :| 0 <= i < |lots| && IsLotOf(lots[i], contract);
      var k :| 0 <= k < |at| && at[k] == i;
      assert rows[k] == wanted.value;
      forall j | 0 <= j < |rows| && OfContract(market, rows[j], contract)
        ensures j == k
      {
        assert at[j] == at[k];
      }
    }
  }

  // ---------------------------------------------------------------------------------------
  // The lots are the Puts followed

  /** The contract's open lot has the position's mark and moment. */
  predicate Tells(lots: seq<Lot>, contract: Contract, position: Position) {
    forall i :: 0 <= i < |lots| && IsLotOf(lots[i], contract) ==> lots[i].lastMark == position.mark && lots[i].boughtAt == position.since
  }

  function HoldingOf(position: Position): Holding {
    Holding(position.shares, position.heldAtEnd)
  }

  predicate Follows(lots: seq<Lot>, contract: Contract, position: Position) {
    Shows(lots, contract, HoldingOf(position)) && Tells(lots, contract, position)
  }

  lemma ExpiredFollows(market: Market, books: Books, before: Option<int>, source: int, contract: Contract, position: Position)
    requires market.Valid() && Follows(books.lots, contract, position)
    ensures Follows(Expired(market, books, before, source, |books.lots|).lots, contract, AfterExpiries(market, position, contract, before))
  {
    hide Expired, Shows;
    ExpiredShows(market, books, before, source, contract, HoldingOf(position));
    var lots, after := books.lots, Expired(market, books, before, source, |books.lots|).lots;
    forall i | 0 <= i < |lots|
      ensures after[i] == if Expires(market, lots[i], before) then lots[i].(quantity := 0.0) else lots[i]
    {
      ExpiredLots(market, books, before, source, |lots|, i);
    }
  }

  lemma SameRows(market: Market, row: Row, contract: Contract)
    requires market.Valid()
    ensures OfContract(market, row, contract) <==> IsOf(market, row, contract)
    ensures Buys(row) <==> IsPurchase(row)
    ensures Sells(row) <==> IsClosing(row)
    ensures TakesTheRest(row) <==> IsMark(row)
    ensures SharesOf(market, row) == row.quantity * market.factorOf(row.day)
  {}

  lemma HoldingAfterRow(market: Market, position: Position, contract: Contract, row: Row)
    requires market.Valid()
    ensures HoldingOf(AfterOwnRow(market, position, contract, row)) == AfterRow(market, HoldingOf(position), contract, row)
  {
    SameRows(market, row, contract);
    assert IsPurchase(row) ==> !IsClosing(row) && !IsMark(row);
    assert IsClosing(row) ==> !IsMark(row);
    hide SharesOf, Buys, Sells, IsPurchase, IsClosing, OfContract, IsOf;
  }

  lemma OneLot(lots: seq<Lot>, i: nat, j: nat, contract: Contract, held: Holding)
    requires i < |lots| && j < |lots| && IsLotOf(lots[i], contract) && IsLotOf(lots[j], contract) && Shows(lots, contract, held)
    ensures i == j
  {}

  lemma {:induction false} MoreOfTheLot(market: Market, lot: Lot, row: Row, contract: Contract, position: Position)
    requires market.Valid() && IsPurchase(row) && IsOf(market, row, contract)
    requires lot.quantity == position.shares > 0.0 && lot.lastMark == position.mark
    ensures var quantity, after := SharesOf(market, row), AfterOwnRow(market, position, contract, row);
            AverageMark(lot.lastMark, lot.quantity, -row.premium / quantity, quantity) == after.mark && after.since == position.since
  {
    SameRows(market, row, contract);
    hide SharesOf, OfContract, IsOf, Buys, IsPurchase;
  }

  lemma {:induction false} NewLot(market: Market, row: Row, contract: Contract, position: Position)
    requires market.Valid() && IsPurchase(row) && IsOf(market, row, contract) && position.shares <= 0.0
    ensures var after := AfterOwnRow(market, position, contract, row); after.mark == -row.premium / SharesOf(market, row) && after.since == Instant(row.at)
  {
    SameRows(market, row, contract);
    hide SharesOf, OfContract, IsOf, Buys, IsPurchase;
  }

  lemma {:induction false} OtherContract(market: Market, row: Row, contract: Contract, position: Position)
    requires market.Valid() && IsPurchase(row) && !IsOf(market, row, contract)
    ensures AfterOwnRow(market, position, contract, row) == position
  {
    SameRows(market, row, contract);
    hide SharesOf, OfContract, IsOf;
  }

  lemma {:induction false} OtherLot(market: Market, row: Row, contract: Contract)
    requires market.Valid() && IsPurchase(row) && !IsOf(market, row, contract)
    ensures row.expiry.value != contract.expiry || row.strike.value / market.factorOf(row.day) != contract.strike
  {}

  lemma {:induction false} BoughtTells(market: Market, books: Books, row: Row, index: int, contract: Contract, position: Position)
    requires market.Valid() && IsPurchase(row) && Follows(books.lots, contract, position)
    ensures Tells(Bought(market, books, row, index).lots, contract, AfterOwnRow(market, position, contract, row))
  {
    hide OpenLot, Shows, HasLot, AfterOwnRow, AverageMark, SharesOf, IsOf;
    var i := OpenLot(books.lots, row.expiry, row.strike.value / market.factorOf(row.day));
    FoundLot(market, books.lots, row, contract);
    if !IsOf(market, row, contract) {
      OtherContract(market, row, contract, position);
      OtherLot(market, row, contract);
    } else if i < |books.lots| {
      ShownLot(books.lots, i, contract, HoldingOf(position));
      MoreOfTheLot(market, books.lots[i], row, contract, position);
      forall j | 0 <= j < |books.lots| && IsLotOf(books.lots[j], contract)
        ensures j == i
      {
        OneLot(books.lots, i, j, contract, HoldingOf(position));
      }
    } else {
      NotShown(books.lots, contract, HoldingOf(position));
      NewLot(market, row, contract, position);
      NoLotOf(books.lots, contract);
    }
  }

  lemma NoLotOf(lots: seq<Lot>, contract: Contract)
    requires !HasLot(lots, contract)
    ensures forall i :: 0 <= i < |lots| ==> !IsLotOf(lots[i], contract)
  {}

  /** No row but a purchase touches a lot's mark, or opens one. */
  lemma OthersKeepMarks(market: Market, books: Books, row: Row, index: int)
    requires market.Valid() && !IsPurchase(row)
    ensures var after := OwnRow(market, books, row, index).lots;
            |after| == |books.lots| && forall j :: 0 <= j < |after| ==>
              after[j] == books.lots[j].(quantity := after[j].quantity) && (after[j].quantity > 0.0 ==> books.lots[j].quantity > 0.0)
  {
    hide OpenLot, SharesOf, TakenValue, Worth, IsPurchase;
    if IsClosing(row) {
      hide Max;
      var i := OpenLot(books.lots, row.expiry, row.strike.value / market.factorOf(row.day));
      assert i < |books.lots| ==> books.lots[i].quantity > 0.0;
    }
  }

  lemma OthersTell(market: Market, books: Books, row: Row, index: int, contract: Contract, position: Position)
    requires market.Valid() && !IsPurchase(row) && Tells(books.lots, contract, position)
    ensures Tells(OwnRow(market, books, row, index).lots, contract, AfterOwnRow(market, position, contract, row))
  {
    SameRows(market, row, contract);
    OthersKeepMarks(market, books, row, index);
    hide OwnRow, Buys, Sells, TakesTheRest, OfContract, IsPurchase, SharesOf;
    var after := AfterOwnRow(market, position, contract, row);
    assert after.mark == position.mark && after.since == position.since;
  }

  lemma OwnRowFollows(market: Market, books: Books, row: Row, index: int, contract: Contract, position: Position)
    requires market.Valid() && Follows(books.lots, contract, position)
    ensures Follows(OwnRow(market, books, row, index).lots, contract, AfterOwnRow(market, position, contract, row))
  {
    assert IsPurchase(row) ==> OwnRow(market, books, row, index) == Bought(market, books, row, index);
    hide Shows, Tells, OwnRow, AfterRow, AfterOwnRow, Bought, IsPurchase;
    OwnRowShows(market, books, row, index, contract, HoldingOf(position));
    HoldingAfterRow(market, position, contract, row);
    if IsPurchase(row) {
      BoughtTells(market, books, row, index, contract, position);
    } else {
      OthersTell(market, books, row, index, contract, position);
    }
  }

  /** The lot's price is its Put's. */
  lemma PriceIs(market: Market, lots: seq<Lot>, i: nat, contract: Contract, position: Position, row: Row)
    requires market.Valid() && row.at.Some? && i < |lots| && IsLotOf(lots[i], contract) && Follows(lots, contract, position)
    ensures MarkOf(market, lots[i], row) == HandOverPrice(market, position, contract, row)
  {
    ShownLot(lots, i, contract, HoldingOf(position));
    hide AsTraded;
  }

  lemma HandsOverIs(timeline: seq<Row>, k: nat)
    requires k < |timeline|
    ensures HandsOver(timeline, k) ==> timeline[k].at.Some?
    ensures HandOverEnding(timeline, k).Some? <==> HandsOver(timeline, k)
    ensures HandsOver(timeline, k) ==> LastNamed(timeline, k, timeline[k].at, HandOverEnding(timeline, k).value)
  {
    hide LastNamed, HandOverEnding;
    if HandsOver(timeline, k) {
      var destination :| LastNamed(timeline, k, timeline[k].at, destination);
      HandOverEndingIs(timeline, k, destination);
    }
    if HandOverEnding(timeline, k).Some? {
      HandOverEndingIs(timeline, k, HandOverEnding(timeline, k).value);
    }
  }

  /** The position after a hand-over with this row. */
  function AfterHandOver(market: Market, timeline: seq<Row>, k: nat, contract: Contract, position: Position): Position
    requires market.Valid() && k < |timeline|
  {
    var price := HandOverPrice(market, position, contract, timeline[k]);
    if HandsOver(timeline, k) && price.Some? then position.(mark := price.value / market.factorOf(timeline[k].day)) else position
  }

  lemma {:induction false} MarkedLot(market: Market, books: Books, row: Row, destination: Destination, source: int, n: nat, i: nat)
    requires market.Valid() && row.at.Some? && i < n <= |books.lots|
    ensures Marked(market, books, row, destination, source, n).lots[i]
            == var price := MarkOf(market, books.lots[i], row); if price.Some? then books.lots[i].(lastMark := price.value / market.factorOf(row.day)) else books.lots[i]
  {
    hide MarkOf;
    var earlier := Marked(market, books, row, destination, source, n - 1);
    if i < n - 1 {
      MarkedLot(market, books, row, destination, source, n - 1, i);
    } else {
      assert earlier.lots[i] == earlier.lots[n - 1..][0] == books.lots[i];
    }
  }

  lemma HandedOverFollows(market: Market, books: Books, timeline: seq<Row>, k: nat, contract: Contract, position: Position)
    requires market.Valid() && k < |timeline| && Follows(books.lots, contract, position)
    ensures Follows(HandedOver(market, books, timeline, k).lots, contract, AfterHandOver(market, timeline, k, contract, position))
  {
    hide Marked, MarkOf, HandOverPrice, HandsOver, HandOverEnding, Shows;
    HandedOverShows(market, books, timeline, k, contract, HoldingOf(position));
    HandsOverIs(timeline, k);
    var after := HandedOver(market, books, timeline, k);
    if HandsOver(timeline, k) {
      var row, destination := timeline[k], HandOverEnding(timeline, k).value;
      forall i | 0 <= i < |books.lots| && IsLotOf(after.lots[i], contract)
        ensures after.lots[i].lastMark == AfterHandOver(market, timeline, k, contract, position).mark && after.lots[i].boughtAt == position.since
      {
        MarkedLot(market, books, row, destination, k, |books.lots|, i);
        PriceIs(market, books.lots, i, contract, position, row);
      }
    }
  }

  /** After any rows each contract's open lot is the Put followed through them. */
  lemma {:induction false} RewritingFollows(market: Market, timeline: seq<Row>, contract: Contract, n: nat)
    requires market.Valid() && n <= |timeline|
    ensures Follows(Rewriting(market, timeline, n).lots, contract, PositionAfter(market, timeline, contract, n))
    decreases n, 1
  {
    hide Follows, OwnRow, Expired, HandedOver, AfterOwnRow, AfterExpiries, HandOverPrice, HandsOver;
    if n == 0 {
      NoLotsFollow(contract);
    } else {
      OnceFollows(market, timeline, contract, n - 1);
      var books, row := Rewriting(market, timeline, n - 1), timeline[n - 1];
      var once := OwnRow(market, Expired(market, books, row.at, Earlier(n - 1), |books.lots|), row, n - 1);
      HandedOverFollows(market, once, timeline, n - 1, contract, PositionOnce(market, timeline, contract, n - 1));
    }
  }

  lemma NoLotsFollow(contract: Contract)
    ensures Follows([], contract, Position(0.0, 0.0, 0, false))
  {}

  /** And so it is when a row comes, and once it is in. */
  lemma {:induction false} OnceFollows(market: Market, timeline: seq<Row>, contract: Contract, k: nat)
    requires market.Valid() && k < |timeline|
    ensures var books := Rewriting(market, timeline, k);
            var expired := Expired(market, books, timeline[k].at, Earlier(k), |books.lots|);
            && Follows(books.lots, contract, PositionAfter(market, timeline, contract, k))
            && Follows(expired.lots, contract, PositionAt(market, timeline, contract, k))
            && Follows(OwnRow(market, expired, timeline[k], k).lots, contract, PositionOnce(market, timeline, contract, k))
    decreases k, 2
  {
    hide Follows, OwnRow, Expired, Rewriting, AfterOwnRow, AfterExpiries, PositionAfter;
    RewritingFollows(market, timeline, contract, k);
    var books, row := Rewriting(market, timeline, k), timeline[k];
    ExpiredFollows(market, books, row.at, Earlier(k), contract, PositionAfter(market, timeline, contract, k));
    OwnRowFollows(market, Expired(market, books, row.at, Earlier(k), |books.lots|), row, k, contract, PositionAt(market, timeline, contract, k));
  }

  // ---------------------------------------------------------------------------------------
  // The rows are theirs

  function RunOuts(market: Market, before: Option<int>): Lot -> Option<Row>
    requires market.Valid()
  {
    (lot: Lot) => if Expires(market, lot, before) then Some(ExpiryRow(market, lot)) else None
  }

  function HandOvers(market: Market, row: Row, destination: Destination): Lot -> Option<Row>
    requires market.Valid() && row.at.Some?
  {
    (lot: Lot) => var mark := MarkOf(market, lot, row); if mark.Some? then Some(HandOverRow(market, lot, row, destination, mark.value)) else None
  }

  lemma {:induction false} ExpiredRows(market: Market, books: Books, before: Option<int>, source: int, n: nat)
    requires market.Valid() && n <= |books.lots|
    ensures Expired(market, books, before, source, n).rows == books.rows + RowsOf(books.lots, RunOuts(market, before), n)
  {
    hide ExpiryRow, Expires;
    if n > 0 {
      ExpiredRows(market, books, before, source, n - 1);
    }
  }

  lemma {:induction false} MarkedRows(market: Market, books: Books, row: Row, destination: Destination, source: int, n: nat)
    requires market.Valid() && n <= |books.lots| && row.at.Some?
    ensures Marked(market, books, row, destination, source, n).rows == books.rows + RowsOf(books.lots, HandOvers(market, row, destination), n)
  {
    hide HandOverRow, MarkOf;
    if n > 0 {
      MarkedRows(market, books, row, destination, source, n - 1);
    }
  }

  lemma TradedBack(strike: real, factor: real)
    requires factor > 0.0
    ensures strike * factor / factor == strike
  {}

  lemma RunOutsFit(market: Market, lots: seq<Lot>, before: Option<int>)
    requires market.Valid()
    ensures RowsFit(market, lots, RunOuts(market, before))
  {
    forall i | 0 <= i < |lots| && RunOuts(market, before)(lots[i]).Some?
      ensures lots[i].quantity > 0.0
      ensures forall contract :: OfContract(market, RunOuts(market, before)(lots[i]).value, contract) <==> contract == Contract(lots[i].expiry, lots[i].strike)
    {
      var lot := lots[i];
      TradedBack(lot.strike, market.factorOf(lot.expiry));
      assert ExpiryRow(market, lot).strike.value == lot.strike * market.factorOf(lot.expiry);
    }
  }

  lemma HandOversFit(market: Market, lots: seq<Lot>, row: Row, destination: Destination)
    requires market.Valid() && row.at.Some?
    ensures RowsFit(market, lots, HandOvers(market, row, destination))
  {
    forall i | 0 <= i < |lots| && HandOvers(market, row, destination)(lots[i]).Some?
      ensures lots[i].quantity > 0.0
      ensures forall contract :: OfContract(market, HandOvers(market, row, destination)(lots[i]).value, contract) <==> contract == Contract(lots[i].expiry, lots[i].strike)
    {
      var lot := lots[i];
      TradedBack(lot.strike, market.factorOf(row.day));
      assert HandOverRow(market, lot, row, destination, MarkOf(market, lot, row).value).strike.value == lot.strike * market.factorOf(row.day);
    }
  }

  // ---------------------------------------------------------------------------------------
  // Every row, read off the input

  /** The rows of the Puts that ran out, one for each. */
  ghost predicate AreRunOuts(market: Market, rows: seq<Row>, positions: Contract -> Position, before: Option<int>)
    requires market.Valid()
  {
    && AllOfContracts(rows)
    && forall contract :: HasJust(market, rows, contract,
         if RunsOut(market, positions(contract), contract, before) then Some(RunOutRow(market, positions(contract), contract)) else None)
  }

  /** The rows of the Puts handed over with row k, one for each. */
  ghost predicate AreHandOvers(market: Market, rows: seq<Row>, timeline: seq<Row>, k: nat)
    requires market.Valid() && k < |timeline|
  {
    && AllOfContracts(rows)
    && (rows != [] ==> HandsOver(timeline, k))
    && (HandsOver(timeline, k) ==> exists destination :: LastNamed(timeline, k, timeline[k].at, destination) && forall contract ::
         var position := PositionOnce(market, timeline, contract, k);
         var price := HandOverPrice(market, position, contract, timeline[k]);
         HasJust(market, rows, contract, if price.Some? then Some(MarkRow(market, position, contract, timeline[k], destination, price.value)) else None))
  }

  lemma {:induction false} AllHaveContracts(lots: seq<Lot>, rowOf: Lot -> Option<Row>, n: nat)
    requires n <= |lots| && forall lot :: rowOf(lot).Some? ==> rowOf(lot).value.expiry.Some? && rowOf(lot).value.strike.Some?
    ensures AllOfContracts(RowsOf(lots, rowOf, n))
  {
    if n > 0 {
      AllHaveContracts(lots, rowOf, n - 1);
    }
  }

  lemma {:induction false} RunOutRowIs(market: Market, lots: seq<Lot>, before: Option<int>, contract: Contract, position: Position)
    requires market.Valid() && Follows(lots, contract, position)
    ensures HasJust(market, RowsOf(lots, RunOuts(market, before), |lots|), contract,
                    if RunsOut(market, position, contract, before) then Some(RunOutRow(market, position, contract)) else None)
  {
    hide Shows, OfContract, RunOutRow, ExpiryRow, HasJust, RowsOf;
    var wanted := if RunsOut(market, position, contract, before) then Some(RunOutRow(market, position, contract)) else None;
    RunOutsFit(market, lots, before);
    hide RowsFit;
    forall i | 0 <= i < |lots| && IsLotOf(lots[i], contract)
      ensures RunOuts(market, before)(lots[i]) == wanted
    {
      ShownLot(lots, i, contract, HoldingOf(position));
      SameRunOutRow(market, lots[i], contract, position);
    }
    ShownHas(lots, contract, HoldingOf(position));
    OneForEach(market, lots, RunOuts(market, before), contract, wanted);
  }

  lemma ShownHas(lots: seq<Lot>, contract: Contract, held: Holding)
    requires Shows(lots, contract, held)
    ensures OpenOnce(lots) && (held.shares > 0.0 ==> HasLot(lots, contract))
  {}

  lemma SameRunOutRow(market: Market, lot: Lot, contract: Contract, position: Position)
    requires market.Valid() && IsLotOf(lot, contract) && lot.quantity == position.shares && lot.lastMark == position.mark
    ensures ExpiryRow(market, lot) == RunOutRow(market, position, contract)
  {
    hide AsTraded;
    assert lot == Lot(contract.expiry, contract.strike, position.shares, position.mark, lot.boughtAt, lot.heldAtEnd);
  }

  lemma SameMarkRow(market: Market, lot: Lot, contract: Contract, position: Position, row: Row, destination: Destination, price: real)
    requires market.Valid() && IsLotOf(lot, contract) && lot.quantity == position.shares && lot.lastMark == position.mark
    ensures HandOverRow(market, lot, row, destination, price) == MarkRow(market, position, contract, row, destination, price)
  {
    hide AsTraded;
    assert lot == Lot(contract.expiry, contract.strike, position.shares, position.mark, lot.boughtAt, lot.heldAtEnd);
  }

  lemma {:induction false} HandOverRowIs(market: Market, lots: seq<Lot>, row: Row, destination: Destination, contract: Contract, position: Position)
    requires market.Valid() && row.at.Some? && Follows(lots, contract, position)
    ensures var price := HandOverPrice(market, position, contract, row);
            HasJust(market, RowsOf(lots, HandOvers(market, row, destination), |lots|), contract,
                    if price.Some? then Some(MarkRow(market, position, contract, row, destination, price.value)) else None)
  {
    hide Shows, OfContract, MarkRow, HandOverRow, HasJust, RowsOf, MarkOf;
    var price := HandOverPrice(market, position, contract, row);
    var wanted := if price.Some? then Some(MarkRow(market, position, contract, row, destination, price.value)) else None;
    HandOversFit(market, lots, row, destination);
    hide RowsFit;
    forall i | 0 <= i < |lots| && IsLotOf(lots[i], contract)
      ensures HandOvers(market, row, destination)(lots[i]) == wanted
    {
      ShownLot(lots, i, contract, HoldingOf(position));
      PriceIs(market, lots, i, contract, position, row);
      if price.Some? {
        SameMarkRow(market, lots[i], contract, position, row, destination, price.value);
      }
    }
    ShownHas(lots, contract, HoldingOf(position));
    OneForEach(market, lots, HandOvers(market, row, destination), contract, wanted);
  }

  lemma RunOutsHaveContracts(market: Market, before: Option<int>)
    requires market.Valid()
    ensures forall lot :: RunOuts(market, before)(lot).Some? ==> RunOuts(market, before)(lot).value.expiry.Some? && RunOuts(market, before)(lot).value.strike.Some?
  {}

  lemma HandOversHaveContracts(market: Market, row: Row, destination: Destination)
    requires market.Valid() && row.at.Some?
    ensures forall lot :: var added := HandOvers(market, row, destination)(lot); added.Some? ==> added.value.expiry.Some? && added.value.strike.Some?
  {
    hide MarkOf;
  }

  /** The Puts as a row comes. */
  function Before(market: Market, timeline: seq<Row>, k: nat): Contract -> Position
    requires market.Valid() && k <= |timeline|
  {
    (contract: Contract) => PositionAfter(market, timeline, contract, k)
  }

  lemma {:induction false} RunOutsAre(market: Market, timeline: seq<Row>, k: nat, before: Option<int>)
    requires market.Valid() && k <= |timeline|
    ensures var lots := Rewriting(market, timeline, k).lots; AreRunOuts(market, RowsOf(lots, RunOuts(market, before), |lots|), Before(market, timeline, k), before)
  {
    hide RunOuts, RunsOut, RunOutRow, HasJust, RowsOf, Rewriting, PositionAfter;
    var lots := Rewriting(market, timeline, k).lots;
    RunOutsHaveContracts(market, before);
    AllHaveContracts(lots, RunOuts(market, before), |lots|);
    forall contract
      ensures var position := PositionAfter(market, timeline, contract, k);
              HasJust(market, RowsOf(lots, RunOuts(market, before), |lots|), contract, if RunsOut(market, position, contract, before) then Some(RunOutRow(market, position, contract)) else None)
    {
      RewritingFollows(market, timeline, contract, k);
      RunOutRowIs(market, lots, before, contract, PositionAfter(market, timeline, contract, k));
    }
  }

  /** What the hand-over step adds. */
  lemma {:induction false} HandOversAre(market: Market, timeline: seq<Row>, k: nat) returns (rows: seq<Row>)
    requires market.Valid() && k < |timeline|
    ensures var books := Rewriting(market, timeline, k);
            var once := OwnRow(market, Expired(market, books, timeline[k].at, Earlier(k), |books.lots|), timeline[k], k);
            HandedOver(market, once, timeline, k).rows == once.rows + rows && AreHandOvers(market, rows, timeline, k)
  {
    hide HandOvers, HandOverPrice, MarkRow, HasJust, RowsOf, Rewriting, PositionOnce, Expired, OwnRow, Marked, HandsOver, LastNamed, HandOverEnding, Follows;
    var books := Rewriting(market, timeline, k);
    var once := OwnRow(market, Expired(market, books, timeline[k].at, Earlier(k), |books.lots|), timeline[k], k);
    HandsOverIs(timeline, k);
    rows := [];
    if HandsOver(timeline, k) {
      var row, destination := timeline[k], HandOverEnding(timeline, k).value;
      rows := RowsOf(once.lots, HandOvers(market, row, destination), |once.lots|);
      MarkedRows(market, once, row, destination, k, |once.lots|);
      HandOversHaveContracts(market, row, destination);
      AllHaveContracts(once.lots, HandOvers(market, row, destination), |once.lots|);
      forall contract
        ensures var position := PositionOnce(market, timeline, contract, k);
                var price := HandOverPrice(market, position, contract, row);
                HasJust(market, rows, contract, if price.Some? then Some(MarkRow(market, position, contract, row, destination, price.value)) else None)
      {
        OnceFollows(market, timeline, contract, k);
        HandOverRowIs(market, once.lots, row, destination, contract, PositionOnce(market, timeline, contract, k));
      }
    }
  }

  // ---------------------------------------------------------------------------------------
  // The input's own rows

  function OwnContract(market: Market, row: Row): Contract
    requires market.Valid() && row.strike.Some? && row.expiry.Some?
  {
    Contract(row.expiry.value, row.strike.value / market.factorOf(row.day))
  }

  /**
   The input's row with its premium as a period's: a purchase has none, a closing what it brought less the
   last mark of what it closed, a mark row of one Put the same for the rest of it, any other row its own.
   */
  predicate IsOwnRow(market: Market, timeline: seq<Row>, k: nat, own: Row)
    requires market.Valid() && k < |timeline|
  {
    var row := timeline[k];
    && own == row.(premium := own.premium)
    && (Buys(row) ==> own.premium == 0.0)
    && (Sells(row) ==> own.premium == row.premium - if row.expiry.None? then 0.0 else ClosedAtMark(market, PositionAt(market, timeline, OwnContract(market, row), k), row))
    && (TakesTheRest(row) && row.strike.Some? ==> own.premium == row.premium - if row.expiry.None? then 0.0 else RestAtMark(PositionAt(market, timeline, OwnContract(market, row), k)))
    && (!Buys(row) && !Sells(row) && !TakesTheRest(row) ==> own == row)
  }

  function ClosedAtMark(market: Market, position: Position, row: Row): real {
    if position.shares > 0.0 then position.mark * (row.quantity * market.factorOf(row.day)) else 0.0
  }

  function RestAtMark(position: Position): real {
    if position.shares > 0.0 && position.heldAtEnd then position.mark * position.shares else 0.0
  }

  lemma {:induction false} TakenOfOne(market: Market, lots: seq<Lot>, row: Row, contract: Contract, position: Position)
    requires market.Valid() && IsMark(row) && row.strike.Some? && row.expiry.Some? && contract == OwnContract(market, row)
    requires OpenOnce(lots) && forall i :: 0 <= i < |lots| && IsLotOf(lots[i], contract) ==> lots[i].heldAtEnd == position.heldAtEnd && lots[i].Value() == position.mark * position.shares
    ensures TakenValue(market, lots, row) == if position.heldAtEnd && HasLot(lots, contract) then position.mark * position.shares else 0.0
  {
    if lots != [] {
      var last := |lots| - 1;
      var before := lots[..last];
      assert forall i :: 0 <= i < last ==> before[i] == lots[i];
      TakenOfOne(market, before, row, contract, position);
      assert TakenBy(market, lots[last], row) <==> IsLotOf(lots[last], contract) && lots[last].heldAtEnd;
      if IsLotOf(lots[last], contract) {
        assert !HasLot(before, contract);
      } else {
        assert HasLot(lots, contract) <==> HasLot(before, contract);
      }
    }
  }

  lemma {:induction false} TakenOfNone(market: Market, lots: seq<Lot>, row: Row)
    requires market.Valid() && row.strike.Some? && row.expiry.None?
    ensures TakenValue(market, lots, row) == 0.0
  {
    if lots != [] {
      TakenOfNone(market, lots[..|lots| - 1], row);
    }
  }

  /** The lots are those of the row's own Put. */
  predicate FollowsOwn(market: Market, timeline: seq<Row>, k: nat, lots: seq<Lot>)
    requires market.Valid() && k < |timeline| && timeline[k].expiry.Some? && timeline[k].strike.Some?
  {
    Follows(lots, OwnContract(market, timeline[k]), PositionAt(market, timeline, OwnContract(market, timeline[k]), k))
  }

  lemma {:induction false} OwnRowIs(market: Market, timeline: seq<Row>, k: nat, books: Books)
    requires market.Valid() && k < |timeline|
    requires timeline[k].expiry.Some? && timeline[k].strike.Some? ==> FollowsOwn(market, timeline, k, books.lots)
    ensures OwnRow(market, books, timeline[k], k).rows != [] && OwnRow(market, books, timeline[k], k).rows == books.rows + [OwnRow(market, books, timeline[k], k).rows[|books.rows|]]
    ensures IsOwnRow(market, timeline, k, OwnRow(market, books, timeline[k], k).rows[|books.rows|])
  {
    hide PositionAt, Shows, HasLot, OpenLot, Emptied, SharesOf;
    var row := timeline[k];
    if IsPurchase(row) {
      assert Buys(row);
    } else if IsClosing(row) {
      ClosingRowIs(market, timeline, k, books);
    } else if IsMark(row) && row.strike.Some? {
      if row.expiry.Some? {
        var contract := OwnContract(market, row);
        var position := PositionAt(market, timeline, contract, k);
        assert Follows(books.lots, contract, position);
        RestIs(market, books.lots, row, contract, position);
      } else {
        TakenOfNone(market, books.lots, row);
      }
    }
  }

  lemma {:induction false} RestIs(market: Market, lots: seq<Lot>, row: Row, contract: Contract, position: Position)
    requires market.Valid() && IsMark(row) && row.strike.Some? && row.expiry.Some? && contract == OwnContract(market, row) && Follows(lots, contract, position)
    ensures TakenValue(market, lots, row) == RestAtMark(position)
  {
    hide TakenValue, OwnContract;
    forall i | 0 <= i < |lots| && IsLotOf(lots[i], contract)
      ensures lots[i].heldAtEnd == position.heldAtEnd && lots[i].Value() == position.mark * position.shares
    {
      ShownLot(lots, i, contract, HoldingOf(position));
    }
    ShownHas(lots, contract, HoldingOf(position));
    NotShown(lots, contract, HoldingOf(position));
    TakenOfOne(market, lots, row, contract, position);
    if HasLot(lots, contract) {
      var i :| 0 <= i < |lots| && IsLotOf(lots[i], contract);
      ShownLot(lots, i, contract, HoldingOf(position));
    }
  }

  lemma ClosedAtMarkIs(market: Market, position: Position, row: Row)
    requires market.Valid()
    ensures ClosedAtMark(market, position, row) == if position.shares > 0.0 then Worth(position.mark, SharesOf(market, row)) else 0.0
  {}

  lemma {:induction false} ClosingRowIs(market: Market, timeline: seq<Row>, k: nat, books: Books)
    requires market.Valid() && k < |timeline| && IsClosing(timeline[k])
    requires timeline[k].expiry.Some? && timeline[k].strike.Some? ==> FollowsOwn(market, timeline, k, books.lots)
    ensures var row := timeline[k];
            var premium := row.premium - if row.expiry.None? then 0.0 else ClosedAtMark(market, PositionAt(market, timeline, OwnContract(market, row), k), row);
            Closed(market, books, row, k).rows == books.rows + [row.(premium := premium)]
  {
    hide PositionAt, Shows, HasLot, OpenLot, Max, SharesOf, Worth, ClosedAtMark, Tells;
    var row := timeline[k];
    var i := OpenLot(books.lots, row.expiry, row.strike.value / market.factorOf(row.day));
    if row.expiry.Some? {
      var contract := OwnContract(market, row);
      var position := PositionAt(market, timeline, contract, k);
      FoundLot(market, books.lots, row, contract);
      NotShown(books.lots, contract, HoldingOf(position));
      ClosedAtMarkIs(market, position, row);
      if i < |books.lots| {
        ToldLot(books.lots, i, contract, position);
      }
    }
  }

  lemma ToldLot(lots: seq<Lot>, i: nat, contract: Contract, position: Position)
    requires i < |lots| && Follows(lots, contract, position)
    ensures IsLotOf(lots[i], contract) ==> lots[i].quantity == position.shares > 0.0 && lots[i].lastMark == position.mark
  {}

  /**
   The rows of the rewritten timeline, row by row of the input: first one for each Put that ran out before
   it, then the row itself, and when the shares are handed over with it one for each Put held from before
   that has a price; at the end one for each Put that ran out since.
   */
  lemma {:induction false} RowsAre(market: Market, timeline: seq<Row>, k: nat) returns (ranOut: seq<Row>, own: Row, handedOver: seq<Row>)
    requires market.Valid() && k < |timeline|
    ensures Rewriting(market, timeline, k + 1).rows == Rewriting(market, timeline, k).rows + ranOut + [own] + handedOver
    ensures AreRunOuts(market, ranOut, Before(market, timeline, k), timeline[k].at)
    ensures IsOwnRow(market, timeline, k, own)
    ensures AreHandOvers(market, handedOver, timeline, k)
  {
    hide AreRunOuts, AreHandOvers, RunOuts, RowsOf, Before, IsOwnRow, Expired, OwnRow, HandedOver, PositionAt, Follows;
    var books, row := Rewriting(market, timeline, k), timeline[k];
    var expired := Expired(market, books, row.at, Earlier(k), |books.lots|);
    ranOut := RowsOf(books.lots, RunOuts(market, row.at), |books.lots|);
    ExpiredRows(market, books, row.at, Earlier(k), |books.lots|);
    RunOutsAre(market, timeline, k, row.at);
    if row.expiry.Some? && row.strike.Some? {
      OnceFollows(market, timeline, OwnContract(market, row), k);
    }
    OwnRowIs(market, timeline, k, expired);
    own := OwnRow(market, expired, row, k).rows[|expired.rows|];
    handedOver := HandOversAre(market, timeline, k);
  }

  lemma {:induction false} LastRowsAre(market: Market, timeline: seq<Row>) returns (ranOut: seq<Row>)
    requires market.Valid()
    ensures Rewritten(market, timeline).rows == Rewriting(market, timeline, |timeline|).rows + ranOut
    ensures AreRunOuts(market, ranOut, Before(market, timeline, |timeline|), None)
  {
    hide AreRunOuts, RunOuts, RowsOf, Before, Rewriting, Expired;
    var books := Rewriting(market, timeline, |timeline|);
    ranOut := RowsOf(books.lots, RunOuts(market, None), |books.lots|);
    ExpiredRows(market, books, None, |timeline| - 1, |books.lots|);
    RunOutsAre(market, timeline, |timeline|, None);
  }
}
