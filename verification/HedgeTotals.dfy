/** What the hand-over rewrite keeps: the cycle's total after every row, and the input's rows in their order. */
module HedgeTotals {
  import opened Wrappers
  import opened HedgeHandOvers

  // ---------------------------------------------------------------------------------------
  // Totals

  function Total(rows: seq<Row>): real {
    if rows == [] then 0.0 else Total(rows[..|rows| - 1]) + rows[|rows| - 1].premium + rows[|rows| - 1].stockDollars
  }

  /** The open lots at their last marks. */
  function OpenValue(lots: seq<Lot>): real {
    if lots == [] then 0.0 else OpenValue(lots[..|lots| - 1]) + lots[|lots| - 1].Value()
  }

  lemma TotalPushed(rows: seq<Row>, row: Row)
    ensures Total(rows + [row]) == Total(rows) + row.premium + row.stockDollars
  {
    assert (rows + [row])[..|rows|] == rows;
  }

  lemma {:induction false} OpenValueUpdated(lots: seq<Lot>, i: nat, lot: Lot)
    requires i < |lots|
    ensures OpenValue(lots[i := lot]) == OpenValue(lots) - lots[i].Value() + lot.Value()
  {
    var last := |lots| - 1;
    if i < last {
      assert lots[i := lot][..last] == lots[..last][i := lot];
      OpenValueUpdated(lots[..last], i, lot);
    } else {
      assert lots[i := lot][..last] == lots[..last];
    }
  }

  /** What a state's rows come to beyond its open lots, closings in excess of their lots given back. */
  function Realized(books: Books): real {
    Total(books.rows) - OpenValue(books.lots) + books.overshoot
  }

  /** A lot changed and a row pushed for it: the row's amount is what the lot gained, and what comes on top. */
  lemma LotAndRow(books: Books, i: nat, lot: Lot, row: Row, source: int, added: bool, extra: real)
    requires i < |books.lots| && row.premium + row.stockDollars == lot.Value() - books.lots[i].Value() + extra
    ensures Realized(Pushed(books.(lots := books.lots[i := lot]), row, source, added)) == Realized(books) + extra
  {
    hide Lot.Value, Total, OpenValue;
    TotalPushed(books.rows, row);
    OpenValueUpdated(books.lots, i, lot);
  }

  lemma EmptyLot(lot: Lot)
    ensures lot.(quantity := 0.0).Value() == 0.0
  {}

  lemma HandOverAmount(market: Market, lot: Lot, row: Row, destination: Destination, mark: real)
    requires market.factorOf(row.day) > 0.0
    ensures var marked := HandOverRow(market, lot, row, destination, mark);
            marked.premium == lot.(lastMark := mark / market.factorOf(row.day)).Value() - lot.Value() && marked.stockDollars == 0.0
  {
    ProductOfDifference(mark / market.factorOf(row.day), lot.lastMark, lot.quantity);
  }

  lemma ProductOfDifference(a: real, b: real, c: real)
    ensures (a - b) * c == a * c - b * c
  {}

  lemma {:induction false} ExpiredRealizes(market: Market, books: Books, before: Option<int>, source: int, n: nat)
    requires market.Valid() && n <= |books.lots|
    ensures Realized(Expired(market, books, before, source, n)) == Realized(books)
  {
    hide Realized, Lot.Value, Expires;
    if n > 0 {
      ExpiredRealizes(market, books, before, source, n - 1);
      var earlier := Expired(market, books, before, source, n - 1);
      var lot := books.lots[n - 1];
      assert earlier.lots[n - 1] == earlier.lots[n - 1..][0] == lot;
      if Expires(market, lot, before) {
        EmptyLot(lot);
        LotAndRow(earlier, n - 1, lot.(quantity := 0.0), ExpiryRow(market, lot), source, true, 0.0);
      }
    }
  }

  lemma {:induction false} MarkedRealizes(market: Market, books: Books, row: Row, destination: Destination, source: int, n: nat)
    requires market.Valid() && n <= |books.lots| && row.at.Some?
    ensures Realized(Marked(market, books, row, destination, source, n)) == Realized(books)
  {
    hide Realized, Lot.Value, MarkOf, HandOverRow;
    if n > 0 {
      MarkedRealizes(market, books, row, destination, source, n - 1);
      var earlier := Marked(market, books, row, destination, source, n - 1);
      var lot := books.lots[n - 1];
      assert earlier.lots[n - 1] == earlier.lots[n - 1..][0] == lot;
      var mark := MarkOf(market, lot, row);
      if mark.Some? {
        HandOverAmount(market, lot, row, destination, mark.value);
        LotAndRow(earlier, n - 1, lot.(lastMark := mark.value / market.factorOf(row.day)), HandOverRow(market, lot, row, destination, mark.value), source, true, 0.0);
      }
    }
  }

  lemma CostOfShares(premium: real, quantity: real)
    requires quantity > 0.0
    ensures -premium / quantity * quantity == -premium
  {}

  lemma BoughtRealizes(market: Market, books: Books, row: Row, index: int)
    requires market.Valid() && IsPurchase(row)
    ensures Realized(Bought(market, books, row, index)) == Realized(books) + row.premium + row.stockDollars
  {
    hide SharesOf, AverageMark, Realized, OpenLot;
    var quantity := SharesOf(market, row);
    var cost := -row.premium / quantity;
    CostOfShares(row.premium, quantity);
    var strike := row.strike.value / market.factorOf(row.day);
    var i := OpenLot(books.lots, row.expiry, strike);
    var output := row.(premium := 0.0);
    if i < |books.lots| {
      var held := books.lots[i];
      var lot := held.(lastMark := AverageMark(held.lastMark, held.quantity, cost, quantity), quantity := held.quantity + quantity,
                       heldAtEnd := held.heldAtEnd || row.unrealized);
      LotAndRow(books, i, lot, output, index, false, row.premium + row.stockDollars);
    } else {
      var lot := Lot(row.expiry.value, strike, quantity, cost, Instant(row.at), row.unrealized);
      NewLotAndRow(books, lot, output, index, row.premium + row.stockDollars);
    }
  }

  lemma NewLotAndRow(books: Books, lot: Lot, row: Row, source: int, extra: real)
    requires row.premium + row.stockDollars == lot.Value() + extra
    ensures Realized(Pushed(books.(lots := books.lots + [lot]), row, source, false)) == Realized(books) + extra
  {
    hide Lot.Value, Total;
    TotalPushed(books.rows, row);
    assert (books.lots + [lot])[..|books.lots|] == books.lots;
  }

  lemma ClosedRealizes(market: Market, books: Books, row: Row, index: int)
    requires market.Valid() && IsClosing(row)
    ensures Realized(Closed(market, books, row, index)) == Realized(books) + row.premium + row.stockDollars
  {
    hide SharesOf, Realized, OpenLot, Max, Worth, Lot.Value;
    var quantity := SharesOf(market, row);
    var i := OpenLot(books.lots, row.expiry, row.strike.value / market.factorOf(row.day));
    if i < |books.lots| {
      var lot := books.lots[i];
      var output, left := row.(premium := row.premium - Worth(lot.lastMark, quantity)), lot.(quantity := Max(0.0, lot.quantity - quantity));
      var beyond := Worth(lot.lastMark, Max(0.0, quantity - lot.quantity));
      SplitQuantity(lot, quantity);
      LotAndRow(books, i, left, output, index, false, row.premium + row.stockDollars - beyond);
      OvershootAdds(Pushed(books.(lots := books.lots[i := left]), output, index, false), beyond);
    } else {
      RowAlone(books, row, index);
    }
  }

  lemma OvershootAdds(books: Books, excess: real)
    ensures Realized(books.(overshoot := books.overshoot + excess)) == Realized(books) + excess
  {}

  lemma RowAlone(books: Books, row: Row, index: int)
    ensures Realized(Pushed(books, row, index, false)) == Realized(books) + row.premium + row.stockDollars
  {
    TotalPushed(books.rows, row);
  }

  lemma SplitQuantity(lot: Lot, closed: real)
    ensures lot.(quantity := Max(0.0, lot.quantity - closed)).Value() + Worth(lot.lastMark, closed) == lot.Value() + Worth(lot.lastMark, Max(0.0, closed - lot.quantity))
  {
    if lot.quantity >= closed {
      assert lot.lastMark * (lot.quantity - closed) == lot.lastMark * lot.quantity - lot.lastMark * closed;
    } else {
      assert lot.lastMark * (closed - lot.quantity) == lot.lastMark * closed - lot.lastMark * lot.quantity;
    }
  }

  lemma {:induction false} EmptiedValue(market: Market, lots: seq<Lot>, row: Row)
    requires market.Valid()
    ensures OpenValue(Emptied(market, lots, row)) == OpenValue(lots) - TakenValue(market, lots, row)
  {
    if lots != [] {
      var last := |lots| - 1;
      EmptiedValue(market, lots[..last], row);
      assert Emptied(market, lots, row)[..last] == Emptied(market, lots[..last], row);
      EmptyLot(lots[last]);
    }
  }

  lemma OwnRowRealizes(market: Market, books: Books, row: Row, index: int)
    requires market.Valid()
    ensures Realized(OwnRow(market, books, row, index)) == Realized(books) + row.premium + row.stockDollars
  {
    hide Bought, Closed, Emptied, TakenValue;
    if IsPurchase(row) {
      BoughtRealizes(market, books, row, index);
    } else if IsClosing(row) {
      ClosedRealizes(market, books, row, index);
    } else if IsMark(row) {
      EmptiedValue(market, books.lots, row);
      TotalPushed(books.rows, row.(premium := row.premium - TakenValue(market, books.lots, row)));
    } else {
      TotalPushed(books.rows, row);
    }
  }

  /** After every row: what was emitted is what came in, plus the open lots at their last marks, less what closings took beyond their lots. */
  lemma {:induction false} EveryRowConserves(market: Market, timeline: seq<Row>, n: nat)
    requires market.Valid() && n <= |timeline|
    ensures var books := Rewriting(market, timeline, n);
            Total(books.rows) == Total(timeline[..n]) + OpenValue(books.lots) - books.overshoot
  {
    hide OwnRow, HandedOver, Expired;
    if n > 0 {
      EveryRowConserves(market, timeline, n - 1);
      var books, row := Rewriting(market, timeline, n - 1), timeline[n - 1];
      var expired := Expired(market, books, row.at, Earlier(n - 1), |books.lots|);
      ExpiredRealizes(market, books, row.at, Earlier(n - 1), |books.lots|);
      OwnRowRealizes(market, expired, row, n - 1);
      HandedOverRealizes(market, OwnRow(market, expired, row, n - 1), timeline, n - 1);
      assert timeline[..n][..n - 1] == timeline[..n - 1];
    } else {
      assert timeline[..0] == [];
    }
  }

  lemma HandedOverRealizes(market: Market, books: Books, timeline: seq<Row>, index: nat)
    requires market.Valid() && index < |timeline|
    ensures Realized(HandedOver(market, books, timeline, index)) == Realized(books)
  {
    if HandOverEnding(timeline, index).Some? {
      MarkedRealizes(market, books, timeline[index], HandOverEnding(timeline, index).value, index, |books.lots|);
    }
  }

  /** The cycle keeps its total exactly when the lots still open at the end come to what closings took beyond their lots. */
  lemma TotalKeptExactlyWhen(market: Market, timeline: seq<Row>)
    requires market.Valid()
    ensures var end := Rewritten(market, timeline);
            && Total(end.rows) == Total(timeline) + OpenValue(end.lots) - end.overshoot
            && (Total(end.rows) == Total(timeline) <==> OpenValue(end.lots) == end.overshoot)
  {
    hide Expired, Rewriting, Total, OpenValue;
    EveryRowConserves(market, timeline, |timeline|);
    var books := Rewriting(market, timeline, |timeline|);
    assert timeline[..|timeline|] == timeline;
    ExpiredRealizes(market, books, None, |timeline| - 1, |books.lots|);
  }

  // ---------------------------------------------------------------------------------------
  // When the totals are equal

  /** The row, when it closes a Put, closes no more than its open lot. */
  predicate ClosingFits(market: Market, timeline: seq<Row>, k: nat)
    requires market.Valid() && k < |timeline|
  {
    var row, books := timeline[k], Rewriting(market, timeline, k);
    var lots := Expired(market, books, row.at, Earlier(k), |books.lots|).lots;
    IsClosing(row) ==>
      var i := OpenLot(lots, row.expiry, row.strike.value / market.factorOf(row.day));
      i < |lots| ==> SharesOf(market, row) <= lots[i].quantity
  }

  lemma {:induction false} NoOvershoot(market: Market, timeline: seq<Row>, n: nat)
    requires market.Valid() && n <= |timeline| && forall k :: 0 <= k < n ==> ClosingFits(market, timeline, k)
    ensures Rewriting(market, timeline, n).overshoot == 0.0
  {
    hide Expired, SharesOf, Bought, OpenLot, Emptied, TakenValue, HandedOver;
    if n > 0 {
      NoOvershoot(market, timeline, n - 1);
      assert ClosingFits(market, timeline, n - 1);
      var books, row := Rewriting(market, timeline, n - 1), timeline[n - 1];
      var expired := Expired(market, books, row.at, Earlier(n - 1), |books.lots|);
      if IsPurchase(row) {
        BoughtOvershoot(market, expired, row, n - 1);
      }
      HandedOverOvershoot(market, OwnRow(market, expired, row, n - 1), timeline, n - 1);
    }
  }

  lemma BoughtOvershoot(market: Market, books: Books, row: Row, index: int)
    requires market.Valid() && IsPurchase(row)
    ensures Bought(market, books, row, index).overshoot == books.overshoot
  {
    hide SharesOf, AverageMark;
  }

  lemma HandedOverOvershoot(market: Market, books: Books, timeline: seq<Row>, index: nat)
    requires market.Valid() && index < |timeline|
    ensures HandedOver(market, books, timeline, index).overshoot == books.overshoot
  {}

  lemma {:induction false} EmptyLotsWorthNothing(lots: seq<Lot>)
    requires forall i :: 0 <= i < |lots| ==> lots[i].quantity == 0.0
    ensures OpenValue(lots) == 0.0
  {
    if lots != [] {
      EmptyLotsWorthNothing(lots[..|lots| - 1]);
    }
  }

  /** The total is kept when no closing exceeds its open lot and every lot held at the end met its mark row. */
  lemma TotalKept(market: Market, timeline: seq<Row>)
    requires market.Valid()
    requires forall k :: 0 <= k < |timeline| ==> ClosingFits(market, timeline, k)
    requires forall i :: 0 <= i < |Rewritten(market, timeline).lots| ==> Rewritten(market, timeline).lots[i].quantity == 0.0
    ensures Total(Rewritten(market, timeline).rows) == Total(timeline)
  {
    hide Expired, ClosingFits;
    NoOvershoot(market, timeline, |timeline|);
    EmptyLotsWorthNothing(Rewritten(market, timeline).lots);
    TotalKeptExactlyWhen(market, timeline);
  }

  /** Only lots held at the end are left open: every other one is closed or expires. */
  lemma OnlyHeldLotsStay(market: Market, timeline: seq<Row>, i: nat)
    requires market.Valid() && i < |Rewritten(market, timeline).lots|
    ensures Rewritten(market, timeline).lots[i].quantity > 0.0 ==> Rewritten(market, timeline).lots[i].heldAtEnd
  {
    var books := Rewriting(market, timeline, |timeline|);
    ExpiredLots(market, books, None, |timeline| - 1, |books.lots|, i);
  }

  lemma {:induction false} ExpiredLots(market: Market, books: Books, before: Option<int>, source: int, n: nat, i: nat)
    requires market.Valid() && i < n <= |books.lots|
    ensures Expired(market, books, before, source, n).lots[i]
            == if Expires(market, books.lots[i], before) then books.lots[i].(quantity := 0.0) else books.lots[i]
  {
    var earlier := Expired(market, books, before, source, n - 1);
    if i < n - 1 {
      ExpiredLots(market, books, before, source, n - 1, i);
    } else {
      assert earlier.lots[i] == earlier.lots[n - 1..][0] == books.lots[i];
    }
  }

  /** A closing beyond its lot breaks the total: one Put bought for $5 and two sold for $8 come to -$2 instead of $3. */
  lemma ClosingBeyondItsLot() returns (market: Market, timeline: seq<Row>)
    ensures market.Valid() && Total(timeline) == 3.0 && Total(Rewritten(market, timeline).rows) == -2.0
  {
    market := Market((expiry: int) => 100, (day: int, expiry: int, strike: real, price: Option<real>) => None, (day: int) => 1.0);
    var bought := Row(Some(1), 1, BoughtPut, true, OptionContract, 1.0, Some(10.0), Some(9), None, -5.0, 0.0, false);
    var sold := Row(Some(2), 2, SoldPut, true, OptionContract, 2.0, Some(10.0), Some(9), None, 8.0, 0.0, false);
    timeline := [bought, sold];
    assert timeline[..1] == [bought] && timeline[..1][..0] == [];
    var lot := Lot(9, 10.0, 1.0, 5.0, 1, false);
    var one := Books([lot], [bought.(premium := 0.0)], [0], [false], 0.0);
    TheOneBought(market, timeline, bought, lot, one);
    TheTwoSold(market, timeline, sold, lot, one);
    assert OpenValue([lot.(quantity := 0.0)]) == 0.0 by {
      assert [lot.(quantity := 0.0)][..0] == [];
    }
    assert Total(timeline) == 3.0 by {
      assert Total([bought]) == -5.0;
    }
    TotalKeptExactlyWhen(market, timeline);
  }

  lemma TheOneBought(market: Market, timeline: seq<Row>, bought: Row, lot: Lot, one: Books)
    requires market.Valid() && (forall day :: market.factorOf(day) == 1.0) && |timeline| == 2 && timeline[0] == bought && timeline[0].at != timeline[1].at
    requires bought == Row(Some(1), 1, BoughtPut, true, OptionContract, 1.0, Some(10.0), Some(9), None, -5.0, 0.0, false)
    requires lot == Lot(9, 10.0, 1.0, 5.0, 1, false) && one == Books([lot], [bought.(premium := 0.0)], [0], [false], 0.0)
    ensures Rewriting(market, timeline, 1) == one
  {
    hide Marked, Expired;
    assert Rewriting(market, timeline, 0) == NO_BOOKS;
    NothingExpires(market, NO_BOOKS, bought.at, 0);
    assert Bought(market, NO_BOOKS, bought, 0) == one;
    assert HandOverEnding(timeline, 0) == None;
  }

  lemma TheTwoSold(market: Market, timeline: seq<Row>, sold: Row, lot: Lot, one: Books)
    requires market.Valid() && (forall day :: market.factorOf(day) == 1.0 && market.settles(day) == 100)
    requires |timeline| == 2 && timeline[1] == sold && Rewriting(market, timeline, 1) == one
    requires sold == Row(Some(2), 2, SoldPut, true, OptionContract, 2.0, Some(10.0), Some(9), None, 8.0, 0.0, false) && timeline[0].at == Some(1)
    requires lot == Lot(9, 10.0, 1.0, 5.0, 1, false) && one.lots == [lot] && one.overshoot == 0.0
    ensures Rewritten(market, timeline).lots == [lot.(quantity := 0.0)] && Rewritten(market, timeline).overshoot == 5.0
  {
    hide Marked, Rewriting;
    assert Expired(market, one, sold.at, 0, 0) == one;
    assert Expired(market, one, sold.at, 0, 1) == one;
    var two := Closed(market, one, sold, 1);
    assert two.lots == [lot.(quantity := 0.0)] && two.overshoot == 5.0;
    assert HandOverEnding(timeline, 1) == None;
    assert Step(market, one, timeline, 1) == two;
    SecondStep(market, timeline);
    assert Expired(market, two, None, 1, 0) == two;
    assert Expired(market, two, None, 1, 1) == two;
  }

  lemma SecondStep(market: Market, timeline: seq<Row>)
    requires market.Valid() && |timeline| == 2
    ensures Rewriting(market, timeline, 2) == Step(market, Rewriting(market, timeline, 1), timeline, 1)
  {
    hide Step;
  }

  // ---------------------------------------------------------------------------------------
  // The input's rows

  /** The rows that are not added ones. */
  function OwnRows(rows: seq<Row>, added: seq<bool>): seq<Row>
    requires |rows| == |added|
  {
    if rows == [] then [] else
    var last := |rows| - 1;
    OwnRows(rows[..last], added[..last]) + if added[last] then [] else [rows[last]]
  }

  function OwnSources(sources: seq<int>, added: seq<bool>): seq<int>
    requires |sources| == |added|
  {
    if sources == [] then [] else
    var last := |sources| - 1;
    OwnSources(sources[..last], added[..last]) + if added[last] then [] else [sources[last]]
  }

  /** The output row is the input row; only a hedge Put's purchase, closing or mark has another premium. */
  predicate IsTheRow(output: Row, input: Row) {
    output == input.(premium := output.premium) && (output != input ==> IsPurchase(input) || IsClosing(input) || IsMark(input))
  }

  /** An added row is a hedge Put's, and takes no part in the stock's amounts. */
  predicate IsAddedRow(row: Row) {
    row.hedge && row.instrument == OptionContract && row.stockDollars == 0.0 && (row.caption.PutExpired? || row.caption.PutHandedTo?)
  }

  /** The output so far: the first `n` input rows in their order, added rows among them, sources from 0 to `top` never decreasing. */
  predicate InOrder(books: Books, timeline: seq<Row>, n: nat, top: int)
    requires n <= |timeline|
  {
    && |books.rows| == |books.sources| == |books.added|
    && (forall i :: 0 <= i < |books.rows| && books.added[i] ==> IsAddedRow(books.rows[i]))
    && (forall i :: 0 <= i < |books.sources| ==> 0 <= books.sources[i] <= top)
    && (forall i, j :: 0 <= i < j < |books.sources| ==> books.sources[i] <= books.sources[j])
    && |OwnRows(books.rows, books.added)| == |OwnSources(books.sources, books.added)| == n
    && (forall k :: 0 <= k < n ==> IsTheRow(OwnRows(books.rows, books.added)[k], timeline[k]) && OwnSources(books.sources, books.added)[k] == k)
  }

  lemma PushedOwn(books: Books, row: Row, source: int, added: bool)
    requires |books.rows| == |books.sources| == |books.added|
    ensures var after := Pushed(books, row, source, added);
            && OwnRows(after.rows, after.added) == OwnRows(books.rows, books.added) + (if added then [] else [row])
            && OwnSources(after.sources, after.added) == OwnSources(books.sources, books.added) + (if added then [] else [source])
  {
    var after, n := Pushed(books, row, source, added), |books.rows|;
    assert after.rows[..n] == books.rows && after.added[..n] == books.added && after.sources[..n] == books.sources;
  }

  lemma PushedInOrder(books: Books, timeline: seq<Row>, n: nat, top: int, row: Row, source: int, added: bool)
    requires n <= |timeline| && InOrder(books, timeline, n, top) && 0 <= source && top <= source
    requires if added then IsAddedRow(row) else n < |timeline| && source == n && IsTheRow(row, timeline[n])
    ensures InOrder(Pushed(books, row, source, added), timeline, if added then n else n + 1, source)
  {
    hide OwnRows, OwnSources, IsTheRow, IsAddedRow;
    PushedOwn(books, row, source, added);
  }

  lemma OtherLotsInOrder(books: Books, lots: seq<Lot>, overshoot: real, timeline: seq<Row>, n: nat, top: int)
    requires n <= |timeline| && InOrder(books, timeline, n, top)
    ensures InOrder(books.(lots := lots, overshoot := overshoot), timeline, n, top)
  {}

  lemma {:induction false} ExpiredInOrder(market: Market, books: Books, before: Option<int>, source: int, m: nat, timeline: seq<Row>, n: nat)
    requires market.Valid() && m <= |books.lots| && n <= |timeline| && 0 <= source && InOrder(books, timeline, n, source)
    ensures InOrder(Expired(market, books, before, source, m), timeline, n, source)
  {
    hide InOrder;
    if m > 0 {
      ExpiredInOrder(market, books, before, source, m - 1, timeline, n);
      var earlier, lot := Expired(market, books, before, source, m - 1), books.lots[m - 1];
      var emptied := earlier.lots[m - 1 := lot.(quantity := 0.0)];
      OtherLotsInOrder(earlier, emptied, earlier.overshoot, timeline, n, source);
      PushedInOrder(earlier.(lots := emptied), timeline, n, source, ExpiryRow(market, lot), source, true);
    }
  }

  lemma {:induction false} MarkedInOrder(market: Market, books: Books, row: Row, destination: Destination, source: int, m: nat, timeline: seq<Row>, n: nat)
    requires market.Valid() && m <= |books.lots| && row.at.Some? && n <= |timeline| && 0 <= source && InOrder(books, timeline, n, source)
    ensures InOrder(Marked(market, books, row, destination, source, m), timeline, n, source)
  {
    hide InOrder;
    if m > 0 {
      MarkedInOrder(market, books, row, destination, source, m - 1, timeline, n);
      var earlier, lot := Marked(market, books, row, destination, source, m - 1), books.lots[m - 1];
      var mark := MarkOf(market, lot, row);
      if mark.Some? {
        var marked := earlier.lots[m - 1 := lot.(lastMark := mark.value / market.factorOf(row.day))];
        OtherLotsInOrder(earlier, marked, earlier.overshoot, timeline, n, source);
        PushedInOrder(earlier.(lots := marked), timeline, n, source, HandOverRow(market, lot, row, destination, mark.value), source, true);
      }
    }
  }

  /** A row's own output is the row, its premium aside when it is a hedge Put's; only lots change beside it. */
  lemma OwnRowIs(market: Market, books: Books, row: Row, index: int)
    requires market.Valid()
    ensures exists lots, overshoot, output ::
      OwnRow(market, books, row, index) == Pushed(books.(lots := lots, overshoot := overshoot), output, index, false) && IsTheRow(output, row)
  {
    hide SharesOf, AverageMark, Emptied, TakenValue;
    var after := OwnRow(market, books, row, index);
    var output := after.rows[|books.rows|];
    assert after == Pushed(books.(lots := after.lots, overshoot := after.overshoot), output, index, false);
    assert IsTheRow(output, row);
  }

  lemma {:induction false} RowsStayInOrder(market: Market, timeline: seq<Row>, n: nat)
    requires market.Valid() && n <= |timeline|
    ensures InOrder(Rewriting(market, timeline, n), timeline, n, n - 1)
    ensures n == 0 ==> Rewriting(market, timeline, n).lots == []
  {
    hide InOrder, OwnRow, Expired, Marked;
    if n == 0 {
      NothingInOrder(timeline);
    } else {
      RowsStayInOrder(market, timeline, n - 1);
      var index: nat := n - 1;
      var books, row := Rewriting(market, timeline, index), timeline[index];
      LaterTop(books, timeline, index, index - 1, Earlier(index));
      ExpiredInOrder(market, books, row.at, Earlier(index), |books.lots|, timeline, index);
      var expired := Expired(market, books, row.at, Earlier(index), |books.lots|);
      OwnRowIs(market, expired, row, index);
      var lots, overshoot, output :|
        OwnRow(market, expired, row, index) == Pushed(expired.(lots := lots, overshoot := overshoot), output, index, false) && IsTheRow(output, row);
      OtherLotsInOrder(expired, lots, overshoot, timeline, index, Earlier(index));
      PushedInOrder(expired.(lots := lots, overshoot := overshoot), timeline, index, Earlier(index), output, index, false);
      var own := OwnRow(market, expired, row, index);
      if HandOverEnding(timeline, index).Some? {
        MarkedInOrder(market, own, row, HandOverEnding(timeline, index).value, index, |own.lots|, timeline, n);
      }
    }
  }

  lemma NothingInOrder(timeline: seq<Row>)
    ensures InOrder(NO_BOOKS, timeline, 0, -1)
  {}

  lemma LaterTop(books: Books, timeline: seq<Row>, n: nat, top: int, later: int)
    requires n <= |timeline| && InOrder(books, timeline, n, top) && top <= later
    ensures InOrder(books, timeline, n, later)
  {}

  /** The whole output holds the input's rows in order, each with its own index, and only Puts' rows are added or changed. */
  lemma TimelineIsKept(market: Market, timeline: seq<Row>)
    requires market.Valid()
    ensures InOrder(Rewritten(market, timeline), timeline, |timeline|, |timeline| - 1)
  {
    hide InOrder, Expired;
    RowsStayInOrder(market, timeline, |timeline|);
    var books := Rewriting(market, timeline, |timeline|);
    if timeline != [] {
      ExpiredInOrder(market, books, None, |timeline| - 1, |books.lots|, timeline, |timeline|);
    } else {
      NothingExpires(market, books, None, -1);
    }
  }

  lemma NothingExpires(market: Market, books: Books, before: Option<int>, source: int)
    requires market.Valid() && books.lots == []
    ensures Expired(market, books, before, source, |books.lots|) == books
  {}

  // ---------------------------------------------------------------------------------------
  // Where the marks are

  /** A hand-over is marked after the last row of its moment, for the last destination the moment names. */
  lemma HandOverEndingIs(timeline: seq<Row>, index: nat, destination: Destination)
    requires index < |timeline|
    ensures HandOverEnding(timeline, index) == Some(destination) <==>
      && timeline[index].at.Some?
      && (index + 1 < |timeline| ==> timeline[index + 1].at != timeline[index].at)
      && LastNamed(timeline, index, timeline[index].at, destination)
  {
    LastHandOverIs(timeline, index, timeline[index].at, destination);
  }

  /** Going back from `index`, the first hand-over row of the moment names the destination. */
  predicate LastNamed(timeline: seq<Row>, index: int, at: Option<int>, destination: Destination)
    requires index < |timeline|
  {
    exists i: nat :: i <= index && NamedAt(timeline, i, index, at, destination)
  }

  predicate NamedAt(timeline: seq<Row>, i: nat, index: int, at: Option<int>, destination: Destination)
    requires i <= index < |timeline|
  {
    && timeline[i].caption == SharesHandedTo(destination)
    && (forall j :: i <= j <= index ==> timeline[j].at == at)
    && (forall j :: i < j <= index ==> !timeline[j].caption.SharesHandedTo?)
  }

  lemma {:induction false} LastHandOverIs(timeline: seq<Row>, index: int, at: Option<int>, destination: Destination)
    requires index < |timeline|
    ensures LastHandOver(timeline, index, at) == Some(destination) <==> LastNamed(timeline, index, at, destination)
    decreases index
  {
    if index >= 0 && timeline[index].at == at && !timeline[index].caption.SharesHandedTo? {
      LastHandOverIs(timeline, index - 1, at, destination);
      LastNamedBefore(timeline, index, at, destination);
    } else if LastNamed(timeline, index, at, destination) {
      var i: nat :| i <= index && NamedAt(timeline, i, index, at, destination);
      assert timeline[index].at == at;
    } else if index >= 0 && timeline[index].at == at {
      assert !NamedAt(timeline, index, index, at, destination);
    }
  }

  lemma LastNamedBefore(timeline: seq<Row>, index: nat, at: Option<int>, destination: Destination)
    requires index < |timeline| && timeline[index].at == at && !timeline[index].caption.SharesHandedTo?
    ensures LastNamed(timeline, index, at, destination) <==> LastNamed(timeline, index - 1, at, destination)
  {
    if LastNamed(timeline, index, at, destination) {
      var i: nat :| i <= index && NamedAt(timeline, i, index, at, destination);
      assert i <= index - 1 && NamedAt(timeline, i, index - 1, at, destination);
    }
    if LastNamed(timeline, index - 1, at, destination) {
      var i: nat :| i <= index - 1 && NamedAt(timeline, i, index - 1, at, destination);
      assert NamedAt(timeline, i, index, at, destination);
    }
  }
}
