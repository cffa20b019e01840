/**
 The hedge marked at every hand-over of the shares (src/backtest/cycleHedgeHandOvers.ts): the timeline
 of a cycle rewritten so that each period is credited with what its Put made, rows being added for the
 marks and for the Puts that expire. Instants and days are integers, marks and amounts exact, and the
 1e-9 tolerances are comparisons with zero.
 */
module HedgeHandOvers {
  import opened Wrappers

  datatype Destination = CC | Unstructured

  datatype Label =
    | BoughtPut
    | SoldPut
    | OpenPutMarked
    | SharesHandedTo(destination: Destination)
    | PutExpired
    | PutHandedTo(destination: Destination, mark: real)
    | OtherLabel(text: string)

  datatype Instrument = OptionContract | Stock | OtherInstrument

  /** A row of a cycle's timeline; `at` is None for what was still open when the cycle was read. */
  datatype Row = Row(at: Option<int>, day: int, caption: Label, hedge: bool, instrument: Instrument, quantity: real, strike: Option<real>,
                     expiry: Option<int>, stockPrice: Option<real>, premium: real, stockDollars: real, unrealized: bool)

  /** A hedge Put on the split-adjusted scale; `lastMark` is per share: the cost with commission, then each mark. */
  datatype Lot = Lot(expiry: int, strike: real, quantity: real, lastMark: real, boughtAt: int, heldAtEnd: bool) {
    function Value(): real {
      lastMark * quantity
    }
  }

  /** What the rewrite asks about the world: when an expiry settles, a Put's closing mark, a day's cumulative split factor. */
  datatype Market = Market(settles: int -> int, markOf: (int, int, real, Option<real>) -> Option<real>, factorOf: int -> real) {
    ghost predicate Valid() {
      forall day :: factorOf(day) > 0.0
    }
  }

  predicate IsPurchase(row: Row) {
    row.hedge && row.instrument == OptionContract && row.caption == BoughtPut && row.strike.Some? && row.expiry.Some? && row.quantity > 0.0
  }

  predicate IsClosing(row: Row) {
    row.hedge && row.instrument == OptionContract && row.caption == SoldPut && row.strike.Some? && row.quantity > 0.0
  }

  predicate IsMark(row: Row) {
    row.hedge && row.at.None? && row.caption == OpenPutMarked
  }

  predicate SameContract(lot: Lot, expiry: Option<int>, strike: real) {
    expiry == Some(lot.expiry) && lot.strike == strike
  }

  // ---------------------------------------------------------------------------------------
  // The rewrite's state and its steps

  /** `added` tells the rows put in from the input's; `overshoot` is what closing rows took beyond their lots. */
  datatype Books = Books(lots: seq<Lot>, rows: seq<Row>, sources: seq<int>, added: seq<bool>, overshoot: real)

  const NO_BOOKS := Books([], [], [], [], 0.0)

  function Pushed(books: Books, row: Row, source: int, added: bool): Books {
    books.(rows := books.rows + [row], sources := books.sources + [source], added := books.added + [added])
  }

  predicate Expires(market: Market, lot: Lot, before: Option<int>) {
    lot.quantity > 0.0 && !lot.heldAtEnd && (before.Some? ==> market.settles(lot.expiry) < before.value)
  }

  /** A strike as traded on a day of that split factor. */
  function AsTraded(strike: real, factor: real): real {
    strike * factor
  }

  function ExpiryRow(market: Market, lot: Lot): Row
    requires market.factorOf(lot.expiry) > 0.0
  {
    var factor := market.factorOf(lot.expiry);
    Row(Some(market.settles(lot.expiry)), lot.expiry, PutExpired, true, OptionContract, lot.quantity / factor, Some(AsTraded(lot.strike, factor)), Some(lot.expiry),
        None, -lot.Value(), 0.0, false)
  }

  /** The first `n` lots gone through: those that ran out with no row of their own get one, and are empty. */
  function Expired(market: Market, books: Books, before: Option<int>, source: int, n: nat): (after: Books)
    requires market.Valid() && n <= |books.lots|
    ensures |after.lots| == |books.lots| && after.lots[n..] == books.lots[n..] && after.overshoot == books.overshoot
  {
    if n == 0 then books else
    var earlier := Expired(market, books, before, source, n - 1);
    assert earlier.lots[n - 1] == earlier.lots[n - 1..][0];
    var lot := books.lots[n - 1];
    if !Expires(market, lot, before) then earlier else
    Pushed(earlier.(lots := earlier.lots[n - 1 := lot.(quantity := 0.0)]), ExpiryRow(market, lot), source, true)
  }

  /** The destination of the moment's last hand-over, from `index` back; None when the shares were not handed over in it. */
  function LastHandOver(timeline: seq<Row>, index: int, at: Option<int>): (destination: Option<Destination>)
    requires index < |timeline|
    ensures destination.Some? ==> exists i :: 0 <= i <= index && timeline[i].at == at && timeline[i].caption == SharesHandedTo(destination.value)
    decreases index
  {
    if index < 0 || timeline[index].at != at then None
    else if timeline[index].caption.SharesHandedTo? then Some(timeline[index].caption.destination)
    else LastHandOver(timeline, index - 1, at)
  }

  /** The destination of the hand-over that ends with this row; None for any row but a moment's last. */
  function HandOverEnding(timeline: seq<Row>, index: nat): Option<Destination>
    requires index < |timeline|
  {
    if timeline[index].at.None? || (index + 1 < |timeline| && timeline[index + 1].at == timeline[index].at) then None
    else LastHandOver(timeline, index, timeline[index].at)
  }

  /** The Put's mark per share as traded when it is handed over with this row. */
  function MarkOf(market: Market, lot: Lot, row: Row): Option<real>
    requires row.at.Some?
  {
    if lot.quantity <= 0.0 || lot.boughtAt >= row.at.value || market.settles(lot.expiry) <= row.at.value then None
    else market.markOf(row.day, lot.expiry, AsTraded(lot.strike, market.factorOf(row.day)), row.stockPrice)
  }

  function HandOverRow(market: Market, lot: Lot, row: Row, destination: Destination, mark: real): Row
    requires market.factorOf(row.day) > 0.0
  {
    var factor := market.factorOf(row.day);
    Row(row.at, row.day, PutHandedTo(destination, mark), true, OptionContract, lot.quantity / factor, Some(AsTraded(lot.strike, factor)), Some(lot.expiry),
        row.stockPrice, (mark / factor - lot.lastMark) * lot.quantity, 0.0, false)
  }

  /** The first `n` lots gone through: each Put held from before is marked at the row's close. */
  function Marked(market: Market, books: Books, row: Row, destination: Destination, source: int, n: nat): (after: Books)
    requires market.Valid() && n <= |books.lots| && row.at.Some?
    ensures |after.lots| == |books.lots| && after.lots[n..] == books.lots[n..] && after.overshoot == books.overshoot
  {
    if n == 0 then books else
    var earlier := Marked(market, books, row, destination, source, n - 1);
    assert earlier.lots[n - 1] == earlier.lots[n - 1..][0];
    var lot := books.lots[n - 1];
    var mark := MarkOf(market, lot, row);
    if mark.None? then earlier else
    Pushed(earlier.(lots := earlier.lots[n - 1 := lot.(lastMark := mark.value / market.factorOf(row.day))]),
           HandOverRow(market, lot, row, destination, mark.value), source, true)
  }

  function HandedOver(market: Market, books: Books, timeline: seq<Row>, index: nat): Books
    requires market.Valid() && index < |timeline|
  {
    match HandOverEnding(timeline, index)
    case None => books
    case Some(destination) => Marked(market, books, timeline[index], destination, index, |books.lots|)
  }

  /** The first open lot of the contract; the number of lots when there is none. */
  function OpenLot(lots: seq<Lot>, expiry: Option<int>, strike: real): (i: nat)
    ensures i <= |lots|
    ensures i < |lots| ==> lots[i].quantity > 0.0 && SameContract(lots[i], expiry, strike)
    ensures forall j :: 0 <= j < i ==> !(lots[j].quantity > 0.0 && SameContract(lots[j], expiry, strike))
  {
    if lots == [] then 0
    else if lots[0].quantity > 0.0 && SameContract(lots[0], expiry, strike) then 0
    else 1 + OpenLot(lots[1..], expiry, strike)
  }

  function Instant(at: Option<int>): int {
    if at.Some? then at.value else 0
  }

  /** The row's shares on the adjusted scale. */
  function SharesOf(market: Market, row: Row): (shares: real)
    requires market.Valid()
    ensures row.quantity > 0.0 ==> shares > 0.0
  {
    Scaled(row.quantity, market.factorOf(row.day))
  }

  function Scaled(quantity: real, factor: real): (scaled: real)
    requires factor > 0.0
    ensures quantity > 0.0 ==> scaled > 0.0
  {
    quantity * factor
  }

  /** The mark per share of two holdings taken together. */
  function AverageMark(mark: real, quantity: real, cost: real, bought: real): (average: real)
    requires quantity + bought > 0.0
    ensures average * (quantity + bought) == mark * quantity + cost * bought
  {
    (mark * quantity + cost * bought) / (quantity + bought)
  }

  function Bought(market: Market, books: Books, row: Row, index: int): Books
    requires market.Valid() && IsPurchase(row)
  {
    var quantity, strike := SharesOf(market, row), row.strike.value / market.factorOf(row.day);
    var cost := -row.premium / quantity;
    var i := OpenLot(books.lots, row.expiry, strike);
    var lots :=
      if i < |books.lots| then
        var held := books.lots[i];
        books.lots[i := held.(lastMark := AverageMark(held.lastMark, held.quantity, cost, quantity),
                              quantity := held.quantity + quantity, heldAtEnd := held.heldAtEnd || row.unrealized)]
      else books.lots + [Lot(row.expiry.value, strike, quantity, cost, Instant(row.at), row.unrealized)];
    Pushed(books.(lots := lots), row.(premium := 0.0), index, false)
  }

  function Max(a: real, b: real): real {
    if a >= b then a else b
  }

  function Worth(mark: real, shares: real): real {
    mark * shares
  }

  function Closed(market: Market, books: Books, row: Row, index: int): Books
    requires market.Valid() && IsClosing(row)
  {
    var quantity := SharesOf(market, row);
    var i := OpenLot(books.lots, row.expiry, row.strike.value / market.factorOf(row.day));
    if i == |books.lots| then Pushed(books, row, index, false) else
    var lot := books.lots[i];
    Pushed(books.(lots := books.lots[i := lot.(quantity := Max(0.0, lot.quantity - quantity))], overshoot := books.overshoot + Worth(lot.lastMark, Max(0.0, quantity - lot.quantity))),
           row.(premium := row.premium - Worth(lot.lastMark, quantity)), index, false)
  }

  /** The lots a mark row takes the rest of. */
  predicate TakenBy(market: Market, lot: Lot, row: Row)
    requires market.Valid()
  {
    lot.quantity > 0.0 && lot.heldAtEnd && (row.strike.Some? ==> SameContract(lot, row.expiry, row.strike.value / market.factorOf(row.day)))
  }

  function TakenValue(market: Market, lots: seq<Lot>, row: Row): real
    requires market.Valid()
  {
    if lots == [] then 0.0 else
    TakenValue(market, lots[..|lots| - 1], row) + if TakenBy(market, lots[|lots| - 1], row) then lots[|lots| - 1].Value() else 0.0
  }

  function Emptied(market: Market, lots: seq<Lot>, row: Row): (after: seq<Lot>)
    requires market.Valid()
    ensures |after| == |lots|
    ensures forall i :: 0 <= i < |lots| ==> after[i] == if TakenBy(market, lots[i], row) then lots[i].(quantity := 0.0) else lots[i]
  {
    seq(|lots|, i requires 0 <= i < |lots| => if TakenBy(market, lots[i], row) then lots[i].(quantity := 0.0) else lots[i])
  }

  function OwnRow(market: Market, books: Books, row: Row, index: int): Books
    requires market.Valid()
  {
    if IsPurchase(row) then Bought(market, books, row, index)
    else if IsClosing(row) then Closed(market, books, row, index)
    else if IsMark(row) then
      Pushed(books.(lots := Emptied(market, books.lots, row)), row.(premium := row.premium - TakenValue(market, books.lots, row)), index, false)
    else Pushed(books, row, index, false)
  }

  function Earlier(index: nat): int {
    if index == 0 then 0 else index - 1
  }

  /** One row: what expired before it, the row itself, and the marks of a hand-over it ends. */
  function Step(market: Market, books: Books, timeline: seq<Row>, index: nat): Books
    requires market.Valid() && index < |timeline|
  {
    HandedOver(market, OwnRow(market, Expired(market, books, timeline[index].at, Earlier(index), |books.lots|), timeline[index], index), timeline, index)
  }

  /** The first `n` rows rewritten. */
  function Rewriting(market: Market, timeline: seq<Row>, n: nat): Books
    requires market.Valid() && n <= |timeline|
  {
    if n == 0 then NO_BOOKS else Step(market, Rewriting(market, timeline, n - 1), timeline, n - 1)
  }

  function Rewritten(market: Market, timeline: seq<Row>): Books
    requires market.Valid()
  {
    var books := Rewriting(market, timeline, |timeline|);
    Expired(market, books, None, |timeline| - 1, |books.lots|)
  }

  // ---------------------------------------------------------------------------------------
  // The rewrite as it is done

  class Rewriter {
    const market: Market
    var lots: seq<Lot>
    var rows: seq<Row>
    var sourceIndexes: seq<int>
    ghost var added: seq<bool>
    ghost var overshoot: real

    ghost function State(): Books
      reads this
    {
      Books(lots, rows, sourceIndexes, added, overshoot)
    }

    constructor (market: Market)
      ensures this.market == market && State() == NO_BOOKS
    {
      this.market, lots, rows, sourceIndexes, added, overshoot := market, [], [], [], [], 0.0;
    }

    method Push(row: Row, sourceIndex: int, ghost isAdded: bool)
      modifies this
      ensures State() == Pushed(old(State()), row, sourceIndex, isAdded)
    {
      rows, sourceIndexes, added := rows + [row], sourceIndexes + [sourceIndex], added + [isAdded];
    }

    method Expire(before: Option<int>, sourceIndex: int)
      requires market.Valid()
      modifies this
      ensures State() == Expired(market, old(State()), before, sourceIndex, |old(lots)|)
    {
      ghost var books := State();
      for i := 0 to |lots|
        invariant |lots| == |books.lots| && State() == Expired(market, books, before, sourceIndex, i)
      {
        var lot := lots[i];
        assert lot == lots[i..][0] && books.lots[i] == books.lots[i..][0];
        if Expires(market, lot, before) {
          Push(ExpiryRow(market, lot), sourceIndex, true);
          lots := lots[i := lot.(quantity := 0.0)];
        }
      }
    }

    method LastHandOverOfMoment(timeline: seq<Row>, index: nat) returns (destination: Option<Destination>)
      requires index < |timeline|
      ensures destination == LastHandOver(timeline, index, timeline[index].at)
    {
      var at, position := timeline[index].at, index as int;
      while position >= 0 && timeline[position].at == at
        invariant -1 <= position <= index
        invariant LastHandOver(timeline, index, at) == LastHandOver(timeline, position, at)
      {
        if timeline[position].caption.SharesHandedTo? {
          return Some(timeline[position].caption.destination);
        }
        position := position - 1;
      }
      return None;
    }

    method MarkAtHandOver(timeline: seq<Row>, index: nat)
      requires market.Valid() && index < |timeline|
      modifies this
      ensures State() == HandedOver(market, old(State()), timeline, index)
    {
      var row := timeline[index];
      if row.at.None? || (index + 1 < |timeline| && timeline[index + 1].at == row.at) {
        return;
      }
      var destination := LastHandOverOfMoment(timeline, index);
      if destination.None? {
        return;
      }
      ghost var books := State();
      for i := 0 to |lots|
        invariant |lots| == |books.lots| && State() == Marked(market, books, row, destination.value, index, i)
      {
        var lot := lots[i];
        assert lot == lots[i..][0] && books.lots[i] == books.lots[i..][0];
        var mark := MarkOf(market, lot, row);
        if mark.Some? {
          Push(HandOverRow(market, lot, row, destination.value, mark.value), index, true);
          lots := lots[i := lot.(lastMark := mark.value / market.factorOf(row.day))];
        }
      }
    }

    method Buy(row: Row, index: nat)
      requires market.Valid() && IsPurchase(row)
      modifies this
      ensures State() == Bought(market, old(State()), row, index)
    {
      hide AverageMark, SharesOf;
      var quantity, strike := SharesOf(market, row), row.strike.value / market.factorOf(row.day);
      var cost := -row.premium / quantity;
      var i := OpenLot(lots, row.expiry, strike);
      if i < |lots| {
        var held := lots[i];
        held := held.(lastMark := AverageMark(held.lastMark, held.quantity, cost, quantity));
        held := held.(quantity := held.quantity + quantity);
        held := held.(heldAtEnd := held.heldAtEnd || row.unrealized);
        lots := lots[i := held];
      } else {
        lots := lots + [Lot(row.expiry.value, strike, quantity, cost, Instant(row.at), row.unrealized)];
      }
      Push(row.(premium := 0.0), index, false);
    }

    method Close(row: Row, index: nat)
      requires market.Valid() && IsClosing(row)
      modifies this
      ensures State() == Closed(market, old(State()), row, index)
    {
      hide SharesOf, Max, OpenLot, Worth;
      var quantity := SharesOf(market, row);
      var i := OpenLot(lots, row.expiry, row.strike.value / market.factorOf(row.day));
      if i == |lots| {
        Push(row, index, false);
      } else {
        var lot := lots[i];
        Push(row.(premium := row.premium - Worth(lot.lastMark, quantity)), index, false);
        overshoot := overshoot + Worth(lot.lastMark, Max(0.0, quantity - lot.quantity));
        lots := lots[i := lot.(quantity := Max(0.0, lot.quantity - quantity))];
      }
    }

    method MarkHeld(row: Row, index: nat)
      requires market.Valid() && IsMark(row) && !IsPurchase(row) && !IsClosing(row)
      modifies this
      ensures State() == OwnRow(market, old(State()), row, index)
    {
      var marked := 0.0;
      var emptied := [];
      ghost var held := lots;
      assert held[..0] == [];
      for i := 0 to |lots|
        invariant lots == held && unchanged(this)
        invariant marked == TakenValue(market, lots[..i], row)
        invariant emptied == Emptied(market, lots, row)[..i]
      {
        assert lots[..i + 1][..i] == lots[..i];
        var lot := lots[i];
        if TakenBy(market, lot, row) {
          marked := marked + lot.lastMark * lot.quantity;
          lot := lot.(quantity := 0.0);
        }
        emptied := emptied + [lot];
      }
      assert lots[..|lots|] == lots;
      assert emptied == Emptied(market, lots, row);
      Push(row.(premium := row.premium - marked), index, false);
      lots := emptied;
    }

    /** withHedgeMarkedAtHandOvers */
    method Rewrite(timeline: seq<Row>)
      requires market.Valid() && State() == NO_BOOKS
      modifies this
      ensures State() == Rewritten(market, timeline)
    {
      for index := 0 to |timeline|
        invariant State() == Rewriting(market, timeline, index)
      {
        var row := timeline[index];
        Expire(row.at, Earlier(index));
        if IsPurchase(row) {
          Buy(row, index);
        } else if IsClosing(row) {
          Close(row, index);
        } else if IsMark(row) {
          MarkHeld(row, index);
        } else {
          Push(row, index, false);
        }
        MarkAtHandOver(timeline, index);
      }
      Expire(None, |timeline| - 1);
    }
  }
}
