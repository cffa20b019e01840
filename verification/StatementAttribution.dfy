/**
 IBKR's nightly statement turned into ledger entries (attributeStatement in src/books/statementAttribution.ts).
 A row's texts are read beforehand: amounts are exact numbers or missing, moments are integers.
 */
module StatementAttribution {
  import opened Wrappers
  import opened BookKeys
  import opened ProRataSplit
  import opened InterestPeriods

  // ---------------------------------------------------------------------------------------
  // The statement

  datatype LedgerBook = Of(book: BookKey) | Unallocated

  datatype RowKey = TradeKey(id: string) | CashKey(id: string) | TaxKey(id: string) | TransferKey(id: string) | CorporateKey(id: string)

  datatype EntryKind = Trade | Dividend | WithholdingTax | Interest | Fee | SalesTax | CommissionAdjustment | CorporateAction | OtherStatementRow | ExternalTransfer

  datatype Entry = Entry(book: LedgerBook, amount: real, at: int, kind: EntryKind, key: RowKey, symbol: Option<string>, needsReview: bool)

  /** A fill as its sales-tax row names it: trade date, side, unsigned count and contract. */
  datatype Fill = Fill(date: string, side: string, count: real, contract: string)

  /** `listed` is false for a level of detail the books skip; `hedgeOption` names the contract of an option fill. */
  datatype TradeRow = TradeRow(listed: bool, id: string, fill: Fill, netCash: Option<real>, symbol: Option<string>, at: Option<int>, option: Option<string>)

  datatype CashType = Deposit | DividendPaid | Withholding | InterestPaid | OtherFees | CommissionAdjusted | UnknownType

  datatype CashRow = CashRow(listed: bool, id: string, cashType: CashType, namesInterest: bool, month: Option<Month>, amount: Option<real>, symbol: Option<string>,
                             at: Option<int>, day: Day, exDate: Option<int>)

  datatype TaxRow = TaxRow(id: string, taxedId: string, taxedFill: Option<Fill>, salesTax: Option<real>, date: Option<int>, symbol: Option<string>)

  datatype Direction = In | Out

  datatype TransferRow = TransferRow(id: string, ofCash: bool, amount: Option<real>, direction: Option<Direction>, at: Option<int>, rateToBase: Option<real>, symbol: Option<string>)

  datatype CorporateRow = CorporateRow(id: string, proceeds: Option<real>, amount: Option<real>, at: Option<int>, symbol: Option<string>)

  datatype Statement = Statement(trades: seq<TradeRow>, cash: seq<CashRow>, taxes: seq<TaxRow>, transfers: seq<TransferRow>, corporate: seq<CorporateRow>,
                                 startingCash: Option<real>, endingCash: Option<real>)

  predicate CashRowDate(row: CashRow) {
    IsDay(row.day) && (row.month.Some? ==> IsMonth(row.month.value))
  }

  predicate CashRowDates(rows: seq<CashRow>) {
    forall i :: 0 <= i < |rows| ==> CashRowDate(rows[i])
  }

  /** The books' lookups. */
  datatype Context = Context(bookOf: (string, int) -> BookKey, isHedge: string -> bool, valueWeights: int -> Weights, cashWeights: ((Day, Day)) -> Weights)

  /** Keys of rows read, entries to post, keys of rows that need a person. */
  datatype Parsed = Parsed(rowKeys: seq<RowKey>, entries: seq<Entry>, problems: seq<RowKey>) {
    function Then(next: Parsed): Parsed {
      Parsed(rowKeys + next.rowKeys, entries + next.entries, problems + next.problems)
    }
  }

  const NOTHING := Parsed([], [], [])

  datatype Placement = InBook(book: LedgerBook, needsReview: bool) | ByWeights(weights: Weights, needsReview: bool)

  datatype Placed = Placed(placement: Placement, at: int)

  // ---------------------------------------------------------------------------------------
  // Rows

  /** place: one entry for a book, or one for each by weights. */
  function Place(key: RowKey, amount: real, at: int, kind: EntryKind, symbol: Option<string>, placement: Placement): seq<Entry> {
    match placement
    case InBook(book, needsReview) => [Entry(book, amount, at, kind, key, symbol, needsReview)]
    case ByWeights(weights, needsReview) =>
      var parts := SplitAmountByWeights(amount, weights);
      [Entry(Of(Pluto), parts.pluto, at, kind, key, symbol, needsReview), Entry(Of(Manual), parts.manual, at, kind, key, symbol, needsReview)]
  }

  function Posted(key: RowKey, amount: real, at: int, kind: EntryKind, symbol: Option<string>, placement: Placement): Parsed {
    Parsed([key], if amount == 0.0 then [] else Place(key, amount, at, kind, symbol, placement), [])
  }

  function Faulty(key: RowKey): Parsed {
    Parsed([key], [], [key])
  }

  function OfTrade(row: TradeRow, context: Context): Parsed {
    var key := TradeKey(row.id);
    if !row.listed then NOTHING
    else if row.netCash.None? || row.symbol.None? || row.at.None? then Faulty(key)
    else
      var book := if row.option.Some? && context.isHedge(row.option.value) then Manual else context.bookOf(row.symbol.value, row.at.value);
      Posted(key, row.netCash.value, row.at.value, Trade, row.symbol, InBook(Of(book), false))
  }

  /** Dividend, withholding or payment in lieu of a ticker. */
  predicate ByTicker(row: CashRow) {
    row.cashType == DividendPaid || (row.cashType == Withholding && row.symbol.Some?)
  }

  predicate ByDailyCash(row: CashRow) {
    row.cashType == InterestPaid || (row.cashType == Withholding && row.namesInterest)
  }

  function CashKind(row: CashRow): EntryKind {
    if row.cashType == Deposit then ExternalTransfer
    else if ByTicker(row) || ByDailyCash(row) then
      (match row.cashType case DividendPaid => Dividend case Withholding => WithholdingTax case _ => Interest)
    else match row.cashType case OtherFees => Fee case CommissionAdjusted => CommissionAdjustment case _ => OtherStatementRow
  }

  function CashPlacement(row: CashRow, context: Context, at: int): Placement
    requires CashRowDate(row)
  {
    if row.cashType == Deposit then InBook(Unallocated, false)
    else if ByTicker(row) then
      if row.symbol.None? then ByWeights(context.valueWeights(at), true)
      else InBook(Of(context.bookOf(row.symbol.value, if row.exDate.Some? then row.exDate.value else at)), false)
    else if ByDailyCash(row) then ByWeights(context.cashWeights(InterestPeriodOf(row.month, row.day)), false)
    else
      var review := row.cashType != OtherFees && row.cashType != CommissionAdjusted;
      if row.symbol.None? then ByWeights(context.valueWeights(at), review) else InBook(Of(context.bookOf(row.symbol.value, at)), review)
  }

  function OfCash(row: CashRow, context: Context): Parsed
    requires CashRowDate(row)
  {
    var key := CashKey(row.id);
    if !row.listed then NOTHING
    else if row.amount.None? || row.at.None? then Faulty(key)
    else Posted(key, row.amount.value, row.at.value, CashKind(row), row.symbol, CashPlacement(row, context, row.at.value))
  }

  /** The tax of a fill is in the fill's net cash, unless the row names a cash transaction. */
  predicate InTrade(row: TaxRow, fills: set<Fill>, placed: map<string, Placed>) {
    row.taxedId !in placed && row.taxedFill.Some? && row.taxedFill.value in fills
  }

  function OfTax(row: TaxRow, context: Context, fills: set<Fill>, placed: map<string, Placed>): Parsed {
    var key := TaxKey(row.id);
    if InTrade(row, fills, placed) then Parsed([key], [], [])
    else if row.salesTax.None? || row.date.None? then Faulty(key)
    else
      var at := if row.taxedId in placed then placed[row.taxedId].at else row.date.value;
      var placement := if row.taxedId in placed then placed[row.taxedId].placement else ByWeights(context.valueWeights(at), true);
      Posted(key, row.salesTax.value, at, SalesTax, row.symbol, placement)
  }

  function Abs(x: real): real {
    if x < 0.0 then -x else x
  }

  function TransferAmount(row: TransferRow): real
    requires row.amount.Some? && row.direction.Some?
  {
    (if row.direction.value == In then 1.0 else -1.0) * Abs(row.amount.value) * (if row.rateToBase.Some? then row.rateToBase.value else 1.0)
  }

  function OfTransfer(row: TransferRow): Parsed {
    var key := TransferKey(row.id);
    if !row.ofCash || row.amount.None? || row.direction.None? || row.at.None? then Faulty(key)
    else Posted(key, TransferAmount(row), row.at.value, ExternalTransfer, row.symbol, InBook(Unallocated, false))
  }

  function CorporateAmount(row: CorporateRow): real {
    if row.proceeds.Some? then row.proceeds.value else if row.amount.Some? then row.amount.value else 0.0
  }

  function OfCorporate(row: CorporateRow, context: Context): Parsed {
    var key := CorporateKey(row.id);
    if CorporateAmount(row) == 0.0 then Parsed([key], [], [])
    else if row.at.None? then Faulty(key)
    else Posted(key, CorporateAmount(row), row.at.value, CorporateAction, row.symbol,
                if row.symbol.None? then ByWeights(context.valueWeights(row.at.value), true) else InBook(Of(context.bookOf(row.symbol.value, row.at.value)), true))
  }

  // ---------------------------------------------------------------------------------------
  // Sections

  function FillsOf(rows: seq<TradeRow>): set<Fill> {
    if rows == [] then {} else
    var last := |rows| - 1;
    FillsOf(rows[..last]) + if rows[last].listed then {rows[last].fill} else {}
  }

  /** What the cash transactions were placed as, for the taxes on them; the last row of an id counts. */
  function PlacedOf(rows: seq<CashRow>, context: Context): map<string, Placed>
    requires CashRowDates(rows)
  {
    if rows == [] then map[] else
    var last := |rows| - 1;
    WithPlaced(PlacedOf(rows[..last], context), rows[last], context)
  }

  function WithPlaced(placed: map<string, Placed>, row: CashRow, context: Context): map<string, Placed>
    requires CashRowDate(row)
  {
    if !row.listed || row.amount.None? || row.at.None? then placed else placed[row.id := Placed(CashPlacement(row, context, row.at.value), row.at.value)]
  }

  function OfTrades(rows: seq<TradeRow>, context: Context): Parsed {
    if rows == [] then NOTHING else OfTrades(rows[..|rows| - 1], context).Then(OfTrade(rows[|rows| - 1], context))
  }

  function OfCashRows(rows: seq<CashRow>, context: Context): Parsed
    requires CashRowDates(rows)
  {
    if rows == [] then NOTHING else OfCashRows(rows[..|rows| - 1], context).Then(OfCash(rows[|rows| - 1], context))
  }

  function OfTaxes(rows: seq<TaxRow>, context: Context, fills: set<Fill>, placed: map<string, Placed>): Parsed {
    if rows == [] then NOTHING else OfTaxes(rows[..|rows| - 1], context, fills, placed).Then(OfTax(rows[|rows| - 1], context, fills, placed))
  }

  function OfTransfers(rows: seq<TransferRow>): Parsed {
    if rows == [] then NOTHING else OfTransfers(rows[..|rows| - 1]).Then(OfTransfer(rows[|rows| - 1]))
  }

  function OfCorporateRows(rows: seq<CorporateRow>, context: Context): Parsed {
    if rows == [] then NOTHING else OfCorporateRows(rows[..|rows| - 1], context).Then(OfCorporate(rows[|rows| - 1], context))
  }

  function Attributed(statement: Statement, context: Context): Parsed
    requires CashRowDates(statement.cash)
  {
    OfTrades(statement.trades, context)
      .Then(OfCashRows(statement.cash, context))
      .Then(OfTaxes(statement.taxes, context, FillsOf(statement.trades), PlacedOf(statement.cash, context)))
      .Then(OfTransfers(statement.transfers))
      .Then(OfCorporateRows(statement.corporate, context))
  }

  lemma NothingThen(parsed: Parsed)
    ensures NOTHING.Then(parsed) == parsed && parsed.Then(NOTHING) == parsed
  {}

  lemma ThenThen(a: Parsed, b: Parsed, c: Parsed)
    ensures a.Then(b).Then(c) == a.Then(b.Then(c))
  {}

  // ---------------------------------------------------------------------------------------
  // The attribution as it is done

  class Attribution {
    const context: Context
    var entries: seq<Entry>
    var problems: seq<RowKey>
    var rowKeys: seq<RowKey>

    function Result(): Parsed
      reads this
    {
      Parsed(rowKeys, entries, problems)
    }

    constructor (context: Context)
      ensures this.context == context && Result() == NOTHING
    {
      this.context, entries, problems, rowKeys := context, [], [], [];
    }

    method PlaceRow(key: RowKey, amount: real, at: int, kind: EntryKind, symbol: Option<string>, placement: Placement)
      modifies this`entries
      ensures entries == old(entries) + Place(key, amount, at, kind, symbol, placement)
    {
      if placement.InBook? {
        entries := entries + [Entry(placement.book, amount, at, kind, key, symbol, placement.needsReview)];
        return;
      }
      var parts := SplitAmountByWeights(amount, placement.weights);
      var books := [Pluto, Manual];
      ghost var before := entries;
      for i := 0 to 2
        invariant entries == before + Place(key, amount, at, kind, symbol, placement)[..i]
      {
        var part := if books[i] == Pluto then parts.pluto else parts.manual;
        entries := entries + [Entry(Of(books[i]), part, at, kind, key, symbol, placement.needsReview)];
      }
    }

    method AttributeTrade(row: TradeRow)
      modifies this
      ensures Result() == old(Result()).Then(OfTrade(row, context))
    {
      hide Place;
      if !row.listed {
        return;
      }
      var key := TradeKey(row.id);
      rowKeys := rowKeys + [key];
      if row.netCash.None? || row.symbol.None? || row.at.None? {
        problems := problems + [key];
        return;
      }
      if row.netCash.value == 0.0 {
        return;
      }
      var book := if row.option.Some? && context.isHedge(row.option.value) then Manual else context.bookOf(row.symbol.value, row.at.value);
      PlaceRow(key, row.netCash.value, row.at.value, Trade, row.symbol, InBook(Of(book), false));
    }

    method AttributeTrades(rows: seq<TradeRow>) returns (fills: set<Fill>)
      modifies this
      ensures Result() == old(Result()).Then(OfTrades(rows, context)) && fills == FillsOf(rows)
    {
      hide OfTrade, Parsed.Then;
      ghost var before := Result();
      fills := {};
      assert rows[..0] == [];
      NothingThen(before);
      for i := 0 to |rows|
        invariant Result() == before.Then(OfTrades(rows[..i], context)) && fills == FillsOf(rows[..i])
      {
        assert rows[..i + 1][..i] == rows[..i];
        ThenThen(before, OfTrades(rows[..i], context), OfTrade(rows[i], context));
        AttributeTrade(rows[i]);
        if rows[i].listed {
          fills := fills + {rows[i].fill};
        }
      }
      assert rows[..|rows|] == rows;
    }

    method AttributeCashRow(row: CashRow, placedBefore: map<string, Placed>) returns (placed: map<string, Placed>)
      requires CashRowDate(row)
      modifies this
      ensures Result() == old(Result()).Then(OfCash(row, context)) && placed == WithPlaced(placedBefore, row, context)
    {
      hide Place, CashPlacement, CashKind;
      placed := placedBefore;
      if !row.listed {
        return;
      }
      var key := CashKey(row.id);
      rowKeys := rowKeys + [key];
      if row.amount.None? || row.at.None? {
        problems := problems + [key];
        return;
      }
      var placement := CashPlacement(row, context, row.at.value);
      placed := placed[row.id := Placed(placement, row.at.value)];
      if row.amount.value == 0.0 {
        return;
      }
      PlaceRow(key, row.amount.value, row.at.value, CashKind(row), row.symbol, placement);
    }

    method AttributeCash(rows: seq<CashRow>) returns (placed: map<string, Placed>)
      requires CashRowDates(rows)
      modifies this
      ensures Result() == old(Result()).Then(OfCashRows(rows, context)) && placed == PlacedOf(rows, context)
    {
      hide OfCash, WithPlaced, Parsed.Then;
      ghost var before := Result();
      placed := map[];
      assert rows[..0] == [];
      NothingThen(before);
      for i := 0 to |rows|
        invariant Result() == before.Then(OfCashRows(rows[..i], context)) && placed == PlacedOf(rows[..i], context)
      {
        assert rows[..i + 1][..i] == rows[..i];
        ThenThen(before, OfCashRows(rows[..i], context), OfCash(rows[i], context));
        placed := AttributeCashRow(rows[i], placed);
      }
      assert rows[..|rows|] == rows;
    }

    method AttributeTax(row: TaxRow, fills: set<Fill>, placed: map<string, Placed>)
      modifies this
      ensures Result() == old(Result()).Then(OfTax(row, context, fills, placed))
    {
      hide Place;
      var key := TaxKey(row.id);
      rowKeys := rowKeys + [key];
      if row.taxedId !in placed && row.taxedFill.Some? && row.taxedFill.value in fills {
        return;
      }
      if row.salesTax.None? || row.date.None? {
        problems := problems + [key];
        return;
      }
      if row.salesTax.value == 0.0 {
        return;
      }
      var at := if row.taxedId in placed then placed[row.taxedId].at else row.date.value;
      var placement := if row.taxedId in placed then placed[row.taxedId].placement else ByWeights(context.valueWeights(at), true);
      PlaceRow(key, row.salesTax.value, at, SalesTax, row.symbol, placement);
    }

    method AttributeTaxes(rows: seq<TaxRow>, fills: set<Fill>, placed: map<string, Placed>)
      modifies this
      ensures Result() == old(Result()).Then(OfTaxes(rows, context, fills, placed))
    {
      hide OfTax, Parsed.Then;
      ghost var before := Result();
      assert rows[..0] == [];
      NothingThen(before);
      for i := 0 to |rows|
        invariant Result() == before.Then(OfTaxes(rows[..i], context, fills, placed))
      {
        assert rows[..i + 1][..i] == rows[..i];
        ThenThen(before, OfTaxes(rows[..i], context, fills, placed), OfTax(rows[i], context, fills, placed));
        AttributeTax(rows[i], fills, placed);
      }
      assert rows[..|rows|] == rows;
    }

    method AttributeTransfer(row: TransferRow)
      modifies this
      ensures Result() == old(Result()).Then(OfTransfer(row))
    {
      hide Place, TransferAmount;
      var key := TransferKey(row.id);
      rowKeys := rowKeys + [key];
      if !row.ofCash {
        problems := problems + [key];
        return;
      }
      if row.amount.None? || row.direction.None? || row.at.None? {
        problems := problems + [key];
        return;
      }
      var amount := TransferAmount(row);
      if amount == 0.0 {
        return;
      }
      PlaceRow(key, amount, row.at.value, ExternalTransfer, row.symbol, InBook(Unallocated, false));
    }

    method AttributeTransfers(rows: seq<TransferRow>)
      modifies this
      ensures Result() == old(Result()).Then(OfTransfers(rows))
    {
      hide OfTransfer, Parsed.Then;
      ghost var before := Result();
      assert rows[..0] == [];
      NothingThen(before);
      for i := 0 to |rows|
        invariant Result() == before.Then(OfTransfers(rows[..i]))
      {
        assert rows[..i + 1][..i] == rows[..i];
        ThenThen(before, OfTransfers(rows[..i]), OfTransfer(rows[i]));
        AttributeTransfer(rows[i]);
      }
      assert rows[..|rows|] == rows;
    }

    method AttributeCorporateAction(row: CorporateRow)
      modifies this
      ensures Result() == old(Result()).Then(OfCorporate(row, context))
    {
      hide Place;
      var key := CorporateKey(row.id);
      rowKeys := rowKeys + [key];
      var amount := CorporateAmount(row);
      if amount == 0.0 {
        return;
      }
      if row.at.None? {
        problems := problems + [key];
        return;
      }
      PlaceRow(key, amount, row.at.value, CorporateAction, row.symbol,
               if row.symbol.None? then ByWeights(context.valueWeights(row.at.value), true) else InBook(Of(context.bookOf(row.symbol.value, row.at.value)), true));
    }

    method AttributeCorporateActions(rows: seq<CorporateRow>)
      modifies this
      ensures Result() == old(Result()).Then(OfCorporateRows(rows, context))
    {
      hide OfCorporate, Parsed.Then;
      ghost var before := Result();
      assert rows[..0] == [];
      NothingThen(before);
      for i := 0 to |rows|
        invariant Result() == before.Then(OfCorporateRows(rows[..i], context))
      {
        assert rows[..i + 1][..i] == rows[..i];
        ThenThen(before, OfCorporateRows(rows[..i], context), OfCorporate(rows[i], context));
        AttributeCorporateAction(rows[i]);
      }
      assert rows[..|rows|] == rows;
    }

    /** attributeStatement */
    method Attribute(statement: Statement)
      requires CashRowDates(statement.cash) && Result() == NOTHING
      modifies this
      ensures Result() == Attributed(statement, context)
    {
      hide OfTrades, OfCashRows, OfTaxes, OfTransfers, OfCorporateRows, FillsOf, PlacedOf;
      NothingThen(OfTrades(statement.trades, context));
      hide Parsed.Then;
      var fills := AttributeTrades(statement.trades);
      var placed := AttributeCash(statement.cash);
      AttributeTaxes(statement.taxes, fills, placed);
      AttributeTransfers(statement.transfers);
      AttributeCorporateActions(statement.corporate);
    }
  }
}
