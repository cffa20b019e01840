/**
 Whose each entry of an attributed statement is, from its row and the books' lookups alone (the rules at
 src/books/statementAttribution.ts:11-22): the book, the kind, the moment and the review flag, row by row.
 */
module StatementBooks {
  import opened Wrappers
  import opened BookKeys
  import opened ProRataSplit
  import opened InterestPeriods
  import opened StatementAttribution

  /** A row of any section, in the order the sections are read. */
  datatype StatementRow = FillRow(fill: TradeRow) | MoneyRow(cash: CashRow) | SalesTaxRow(tax: TaxRow) | MovedRow(transfer: TransferRow) | ActionRow(action: CorporateRow)

  predicate RowDates(rows: seq<StatementRow>) {
    forall i :: 0 <= i < |rows| && rows[i].MoneyRow? ==> CashRowDate(rows[i].cash)
  }

  function FillRows(rows: seq<TradeRow>): (all: seq<StatementRow>)
    ensures RowDates(all)
  {
    seq(|rows|, i requires 0 <= i < |rows| => FillRow(rows[i]))
  }

  function MoneyRows(rows: seq<CashRow>): (all: seq<StatementRow>)
    requires CashRowDates(rows)
    ensures RowDates(all)
  {
    seq(|rows|, i requires 0 <= i < |rows| => MoneyRow(rows[i]))
  }

  function TaxRows(rows: seq<TaxRow>): (all: seq<StatementRow>)
    ensures RowDates(all)
  {
    seq(|rows|, i requires 0 <= i < |rows| => SalesTaxRow(rows[i]))
  }

  function MovedRows(rows: seq<TransferRow>): (all: seq<StatementRow>)
    ensures RowDates(all)
  {
    seq(|rows|, i requires 0 <= i < |rows| => MovedRow(rows[i]))
  }

  function ActionRows(rows: seq<CorporateRow>): (all: seq<StatementRow>)
    ensures RowDates(all)
  {
    seq(|rows|, i requires 0 <= i < |rows| => ActionRow(rows[i]))
  }

  function RowsOf(statement: Statement): (rows: seq<StatementRow>)
    requires CashRowDates(statement.cash)
    ensures RowDates(rows)
  {
    FillRows(statement.trades) + MoneyRows(statement.cash) + TaxRows(statement.taxes) + MovedRows(statement.transfers) + ActionRows(statement.corporate)
  }

  // ---------------------------------------------------------------------------------------
  // Where a row's cash goes

  /** What the entries of one row have in common. */
  datatype Posting = Posting(key: RowKey, amount: real, at: int, kind: EntryKind, symbol: Option<string>)

  /** The whole amount, in one book. */
  predicate Whole(entries: seq<Entry>, posting: Posting, book: LedgerBook, needsReview: bool) {
    entries == [Entry(book, posting.amount, posting.at, posting.kind, posting.key, posting.symbol, needsReview)]
  }

  /** Pluto's part, its share of the weights above zero to the nearest millionth, or half when neither is above zero. */
  predicate IsShare(part: real, amount: real, weights: Weights) {
    var pluto, manual := if weights.pluto > 0.0 then weights.pluto else 0.0, if weights.manual > 0.0 then weights.manual else 0.0;
    if pluto + manual > 0.0 then
      -0.0000005 * (pluto + manual) <= amount * pluto - part * (pluto + manual) <= 0.0000005 * (pluto + manual)
    else -0.0000005 <= amount / 2.0 - part <= 0.0000005
  }

  /** The amount to its millionths, split between Pluto and Manual by the weights. */
  predicate Shared(entries: seq<Entry>, posting: Posting, weights: Weights, needsReview: bool) {
    && |entries| == 2 && entries[0].book == Of(Pluto) && entries[1].book == Of(Manual)
    && IsShare(entries[0].amount, posting.amount, weights)
    && (entries[0].amount + entries[1].amount) * 1000000.0 == (posting.amount * 1000000.0 + 0.5).Floor as real
    && forall i :: 0 <= i < 2 ==> entries[i] == Entry(entries[i].book, entries[i].amount, posting.at, posting.kind, posting.key, posting.symbol, needsReview)
  }

  /** The ticker's book at a moment when there is a ticker, else both by their value. */
  predicate TickersOrShared(entries: seq<Entry>, posting: Posting, symbol: Option<string>, tickerAt: int, context: Context, reviewTicker: bool, reviewShared: bool) {
    if symbol.Some? then Whole(entries, posting, Of(context.bookOf(symbol.value, tickerAt)), reviewTicker)
    else Shared(entries, posting, context.valueWeights(posting.at), reviewShared)
  }

  /** Where a cash transaction goes: it, and a sales tax on it. */
  predicate GoesWithCash(entries: seq<Entry>, posting: Posting, row: CashRow, context: Context)
    requires CashRowDate(row) && row.at == Some(posting.at)
  {
    if row.cashType == Deposit then Whole(entries, posting, Unallocated, false)
    else if row.cashType == DividendPaid || (row.cashType == Withholding && row.symbol.Some?) then
      TickersOrShared(entries, posting, row.symbol, if row.exDate.Some? then row.exDate.value else posting.at, context, false, true)
    else if row.cashType == InterestPaid || (row.cashType == Withholding && row.namesInterest) then
      var month := InterestMonthOf(row.month, row.day);
      Shared(entries, posting, context.cashWeights((Day(month, 1), Day(month, DaysIn(month)))), false)
    else if row.cashType == OtherFees || row.cashType == CommissionAdjusted then TickersOrShared(entries, posting, row.symbol, posting.at, context, false, false)
    else TickersOrShared(entries, posting, row.symbol, posting.at, context, true, true)
  }

  predicate HasKindOf(kind: EntryKind, row: CashRow) {
    match row.cashType
    case Deposit => kind == ExternalTransfer
    case DividendPaid => kind == Dividend
    case Withholding => if row.symbol.Some? || row.namesInterest then kind == WithholdingTax else kind == OtherStatementRow
    case InterestPaid => kind == Interest
    case OtherFees => kind == Fee
    case CommissionAdjusted => kind == CommissionAdjustment
    case UnknownType => kind == OtherStatementRow
  }

  /** The cash transaction a sales tax is on: the last of that id that can be read. */
  ghost predicate Taxes(rows: seq<CashRow>, taxedId: string, i: nat) {
    i < |rows| && Readable(rows[i], taxedId) && forall j :: i < j < |rows| ==> !Readable(rows[j], taxedId)
  }

  predicate Readable(row: CashRow, id: string) {
    row.listed && row.id == id && row.amount.Some? && row.at.Some?
  }

  predicate OnAFill(rows: seq<TradeRow>, tax: TaxRow) {
    tax.taxedFill.Some? && exists i :: 0 <= i < |rows| && rows[i].listed && rows[i].fill == tax.taxedFill.value
  }

  predicate OnACashRow(rows: seq<CashRow>, taxedId: string) {
    exists i :: 0 <= i < |rows| && Readable(rows[i], taxedId)
  }

  // ---------------------------------------------------------------------------------------
  // A row's entries

  predicate FillEntries(entries: seq<Entry>, row: TradeRow, context: Context) {
    if row.listed && row.symbol.Some? && row.at.Some? && row.netCash.Some? && row.netCash.value != 0.0 then
      var ofHedge := row.option.Some? && context.isHedge(row.option.value);
      Whole(entries, Posting(TradeKey(row.id), row.netCash.value, row.at.value, Trade, row.symbol), Of(if ofHedge then Manual else context.bookOf(row.symbol.value, row.at.value)), false)
    else entries == []
  }

  predicate MoneyEntries(entries: seq<Entry>, row: CashRow, context: Context)
    requires CashRowDate(row)
  {
    if row.listed && row.at.Some? && row.amount.Some? && row.amount.value != 0.0 then
      entries != [] && HasKindOf(entries[0].kind, row)
      && GoesWithCash(entries, Posting(CashKey(row.id), row.amount.value, row.at.value, entries[0].kind, row.symbol), row, context)
    else entries == []
  }

  ghost predicate TaxEntries(entries: seq<Entry>, row: TaxRow, statement: Statement, context: Context)
    requires CashRowDates(statement.cash)
  {
    if row.salesTax.None? || row.date.None? || row.salesTax.value == 0.0 then entries == []
    else if OnACashRow(statement.cash, row.taxedId) then
      exists i: nat :: Taxes(statement.cash, row.taxedId, i)
        && GoesWithCash(entries, Posting(TaxKey(row.id), row.salesTax.value, statement.cash[i].at.value, SalesTax, row.symbol), statement.cash[i], context)
    else if OnAFill(statement.trades, row) then entries == []
    else Shared(entries, Posting(TaxKey(row.id), row.salesTax.value, row.date.value, SalesTax, row.symbol), context.valueWeights(row.date.value), true)
  }

  predicate MovedEntries(entries: seq<Entry>, row: TransferRow) {
    if row.ofCash && row.amount.Some? && row.direction.Some? && row.at.Some? then
      var size := if row.amount.value < 0.0 then -row.amount.value else row.amount.value;
      var dollars := size * if row.rateToBase.Some? then row.rateToBase.value else 1.0;
      if dollars == 0.0 then entries == []
      else Whole(entries, Posting(TransferKey(row.id), if row.direction.value == In then dollars else -dollars, row.at.value, ExternalTransfer, row.symbol), Unallocated, false)
    else entries == []
  }

  predicate ActionEntries(entries: seq<Entry>, row: CorporateRow, context: Context) {
    var cash := if row.proceeds.Some? then row.proceeds else row.amount;
    if cash.Some? && cash.value != 0.0 && row.at.Some? then
      TickersOrShared(entries, Posting(CorporateKey(row.id), cash.value, row.at.value, CorporateAction, row.symbol), row.symbol, row.at.value, context, true, true)
    else entries == []
  }

  ghost predicate EntriesOf(entries: seq<Entry>, row: StatementRow, statement: Statement, context: Context)
    requires CashRowDates(statement.cash) && (row.MoneyRow? ==> CashRowDate(row.cash))
  {
    match row
    case FillRow(fill) => FillEntries(entries, fill, context)
    case MoneyRow(cash) => MoneyEntries(entries, cash, context)
    case SalesTaxRow(tax) => TaxEntries(entries, tax, statement, context)
    case MovedRow(transfer) => MovedEntries(entries, transfer)
    case ActionRow(action) => ActionEntries(entries, action, context)
  }

  /** The entries are those of the rows, one row after the other. */
  ghost predicate MadeOf(entries: seq<Entry>, rows: seq<StatementRow>, statement: Statement, context: Context)
    requires CashRowDates(statement.cash) && RowDates(rows)
    decreases |rows|
  {
    if rows == [] then entries == [] else
    exists k :: 0 <= k <= |entries| && MadeOf(entries[..k], rows[..|rows| - 1], statement, context) && EntriesOf(entries[k..], rows[|rows| - 1], statement, context)
  }

  lemma {:induction false} MadeOneMore(entries: seq<Entry>, rows: seq<StatementRow>, more: seq<Entry>, row: StatementRow, statement: Statement, context: Context)
    requires CashRowDates(statement.cash) && RowDates(rows + [row]) && RowDates(rows) && (row.MoneyRow? ==> CashRowDate(row.cash))
    requires MadeOf(entries, rows, statement, context) && EntriesOf(more, row, statement, context)
    ensures MadeOf(entries + more, rows + [row], statement, context)
  {
    hide EntriesOf;
    var all := entries + more;
    assert all[..|entries|] == entries && all[|entries|..] == more && (rows + [row])[..|rows|] == rows;
  }

  // ---------------------------------------------------------------------------------------
  // Placing is going there

  lemma ShareTimes(amount: real, pluto: real, total: real, share: real, near: real)
    requires total > 0.0 && share == pluto / total && near == amount * share
    ensures near * total == amount * pluto
  {
    assert share * total == pluto;
    assert near * total == amount * (share * total);
  }

  lemma WithinTimes(near: real, part: real, total: real)
    requires -0.0000005 <= near - part <= 0.0000005 && total > 0.0
    ensures -0.0000005 * total <= near * total - part * total <= 0.0000005 * total
  {
    assert near * total - part * total == (near - part) * total;
    InOrderTimes(near - part, 0.0000005, total);
    InOrderTimes(-0.0000005, near - part, total);
  }

  lemma InOrderTimes(a: real, b: real, factor: real)
    requires a <= b && factor > 0.0
    ensures a * factor <= b * factor
  {
    assert (b - a) * factor >= 0.0;
  }

  lemma SplitIsShared(posting: Posting, weights: Weights, needsReview: bool)
    ensures Shared(Place(posting.key, posting.amount, posting.at, posting.kind, posting.symbol, ByWeights(weights, needsReview)), posting, weights, needsReview)
  {
    assert RoundToLedgerDecimals(posting.amount) * 1000000.0 == Steps(posting.amount) as real;
    hide RoundToLedgerDecimals, IsShare, IsLedgerAmount, SplitAmountByWeights;
    PartsAddUp(posting.amount, weights);
    PartIsShare(posting.amount, weights);
  }

  lemma ShareOfWeights(amount: real, pluto: real, manual: real, part: real, share: real)
    requires pluto + manual > 0.0 && share == pluto / (pluto + manual) && -0.0000005 <= amount * share - part <= 0.0000005
    ensures -0.0000005 * (pluto + manual) <= amount * pluto - part * (pluto + manual) <= 0.0000005 * (pluto + manual)
  {
    var total, near := pluto + manual, amount * share;
    ShareTimes(amount, pluto, total, share, near);
    WithinTimes(near, part, total);
  }

  lemma PartIsShare(amount: real, weights: Weights)
    ensures IsShare(SplitAmountByWeights(amount, weights).pluto, amount, weights)
  {
    hide RoundToLedgerDecimals, IsLedgerAmount;
    var pluto, manual := if weights.pluto > 0.0 then weights.pluto else 0.0, if weights.manual > 0.0 then weights.manual else 0.0;
    PartsAddUp(amount, weights);
    var part := SplitAmountByWeights(amount, weights).pluto;
    hide SplitAmountByWeights;
    assert PlutoPart(amount, weights) == amount * PlutoShare(weights);
    if pluto + manual > 0.0 {
      assert PlutoShare(weights) == pluto / (pluto + manual);
      hide PlutoPart, PlutoShare;
      ShareOfWeights(amount, pluto, manual, part, PlutoShare(weights));
    }
  }

  /** Entries placed one way or the other. */
  lemma PlacedIs(posting: Posting, placement: Placement)
    ensures var entries := Place(posting.key, posting.amount, posting.at, posting.kind, posting.symbol, placement);
            match placement
            case InBook(book, needsReview) => Whole(entries, posting, book, needsReview)
            case ByWeights(weights, needsReview) => Shared(entries, posting, weights, needsReview)
  {
    hide SplitAmountByWeights, Shared;
    if placement.ByWeights? {
      SplitIsShared(posting, placement.weights, placement.needsReview);
    }
  }

  lemma CashIsPlaced(posting: Posting, row: CashRow, context: Context)
    requires CashRowDate(row) && row.at == Some(posting.at)
    ensures GoesWithCash(Place(posting.key, posting.amount, posting.at, posting.kind, posting.symbol, CashPlacement(row, context, posting.at)), posting, row, context)
  {
    hide Place, Whole, Shared;
    PlacedIs(posting, CashPlacement(row, context, posting.at));
  }

  lemma FillsAre(row: TradeRow, context: Context)
    ensures FillEntries(OfTrade(row, context).entries, row, context)
  {}

  lemma MoneyIs(row: CashRow, context: Context)
    requires CashRowDate(row)
    ensures MoneyEntries(OfCash(row, context).entries, row, context)
  {
    hide CashPlacement, GoesWithCash, SplitAmountByWeights;
    if row.at.Some? && row.amount.Some? {
      CashIsPlaced(Posting(CashKey(row.id), row.amount.value, row.at.value, CashKind(row), row.symbol), row, context);
    }
  }

  lemma {:induction false} FillsHave(rows: seq<TradeRow>, tax: TaxRow)
    requires tax.taxedFill.Some?
    ensures tax.taxedFill.value in FillsOf(rows) <==> OnAFill(rows, tax)
  {
    if rows != [] {
      var last := |rows| - 1;
      FillsHave(rows[..last], tax);
      assert forall i :: 0 <= i < last ==> rows[..last][i] == rows[i];
    }
  }

  /** What is placed under an id is the last readable cash transaction of it. */
  lemma {:induction false} PlacedIsLast(rows: seq<CashRow>, context: Context, id: string) returns (i: nat)
    requires CashRowDates(rows)
    ensures id in PlacedOf(rows, context) <==> OnACashRow(rows, id)
    ensures id in PlacedOf(rows, context) ==>
      Taxes(rows, id, i) && PlacedOf(rows, context)[id] == Placed(CashPlacement(rows[i], context, rows[i].at.value), rows[i].at.value)
  {
    i := 0;
    if rows != [] {
      hide CashPlacement, PlacedOf;
      var last := |rows| - 1;
      PlacedOneMore(rows, context, id);
      TaxesOneMore(rows, id);
      i := PlacedIsLast(rows[..last], context, id);
      if Readable(rows[last], id) {
        i := last;
      } else if id in PlacedOf(rows, context) {
        assert rows[..last][i] == rows[i];
      }
    }
  }

  lemma PlacedOneMore(rows: seq<CashRow>, context: Context, id: string)
    requires CashRowDates(rows) && rows != []
    ensures var last, before := rows[|rows| - 1], PlacedOf(rows[..|rows| - 1], context);
            if Readable(last, id) then
              last.at.Some? && CashRowDate(last) && id in PlacedOf(rows, context) && PlacedOf(rows, context)[id] == Placed(CashPlacement(last, context, last.at.value), last.at.value)
            else (id in PlacedOf(rows, context) <==> id in before) && (id in before ==> PlacedOf(rows, context)[id] == before[id])
  {
    hide CashPlacement;
  }

  lemma TaxesOneMore(rows: seq<CashRow>, id: string)
    requires rows != []
    ensures var last, before := |rows| - 1, rows[..|rows| - 1];
            && (Readable(rows[last], id) ==> Taxes(rows, id, last) && OnACashRow(rows, id))
            && (!Readable(rows[last], id) ==> (OnACashRow(rows, id) <==> OnACashRow(before, id)) && forall i: nat :: Taxes(before, id, i) ==> Taxes(rows, id, i))
  {
    hide Readable;
    var last, before := |rows| - 1, rows[..|rows| - 1];
    assert forall i :: 0 <= i < last ==> before[i] == rows[i];
    if OnACashRow(before, id) {
      var i :| 0 <= i < last && Readable(before[i], id);
      assert Readable(rows[i], id);
    }
  }

  lemma TaxIs(row: TaxRow, statement: Statement, context: Context)
    requires CashRowDates(statement.cash)
    ensures TaxEntries(OfTax(row, context, FillsOf(statement.trades), PlacedOf(statement.cash, context)).entries, row, statement, context)
  {
    assert row.taxedFill.None? ==> !OnAFill(statement.trades, row);
    hide CashPlacement, GoesWithCash, Place, Shared, FillsOf, PlacedOf, OnAFill, OnACashRow;
    var placed := PlacedOf(statement.cash, context);
    var i := PlacedIsLast(statement.cash, context, row.taxedId);
    if row.taxedFill.Some? {
      FillsHave(statement.trades, row);
    }
    if row.salesTax.Some? && row.date.Some? {
      if row.taxedId in placed {
        TaxedRow(statement.cash, row.taxedId, i);
        CashIsPlaced(Posting(TaxKey(row.id), row.salesTax.value, statement.cash[i].at.value, SalesTax, row.symbol), statement.cash[i], context);
      } else {
        PlacedIs(Posting(TaxKey(row.id), row.salesTax.value, row.date.value, SalesTax, row.symbol), ByWeights(context.valueWeights(row.date.value), true));
      }
    }
  }

  lemma TaxedRow(rows: seq<CashRow>, id: string, i: nat)
    requires CashRowDates(rows) && Taxes(rows, id, i)
    ensures CashRowDate(rows[i]) && rows[i].at.Some?
  {}

  lemma MovedIs(row: TransferRow)
    ensures MovedEntries(OfTransfer(row).entries, row)
  {
    if row.ofCash && row.amount.Some? && row.direction.Some? && row.at.Some? {
      var size, rate := if row.amount.value < 0.0 then -row.amount.value else row.amount.value, if row.rateToBase.Some? then row.rateToBase.value else 1.0;
      SignTimes(size, rate);
      assert TransferAmount(row) == if row.direction.value == In then size * rate else -(size * rate);
      hide TransferAmount;
    }
  }

  lemma SignTimes(size: real, rate: real)
    ensures 1.0 * size * rate == size * rate && -1.0 * size * rate == -(size * rate)
  {}

  lemma ActionIs(row: CorporateRow, context: Context)
    ensures ActionEntries(OfCorporate(row, context).entries, row, context)
  {
    hide Shared, Whole, Place;
    if CorporateAmount(row) != 0.0 && row.at.Some? {
      PlacedIs(Posting(CorporateKey(row.id), CorporateAmount(row), row.at.value, CorporateAction, row.symbol),
               if row.symbol.None? then ByWeights(context.valueWeights(row.at.value), true) else InBook(Of(context.bookOf(row.symbol.value, row.at.value)), true));
    }
  }

  // ---------------------------------------------------------------------------------------
  // A whole statement

  lemma {:induction false} MadeConcatenated(a: seq<Entry>, b: seq<Entry>, rowsOfA: seq<StatementRow>, rowsOfB: seq<StatementRow>, statement: Statement, context: Context)
    requires CashRowDates(statement.cash) && RowDates(rowsOfA) && RowDates(rowsOfB)
    requires MadeOf(a, rowsOfA, statement, context) && MadeOf(b, rowsOfB, statement, context)
    ensures RowDates(rowsOfA + rowsOfB) && MadeOf(a + b, rowsOfA + rowsOfB, statement, context)
    decreases |rowsOfB|
  {
    hide EntriesOf;
    var rows := rowsOfA + rowsOfB;
    if rowsOfB == [] {
      assert rows == rowsOfA && a + b == a;
    } else {
      var last := |rowsOfB| - 1;
      var k :| 0 <= k <= |b| && MadeOf(b[..k], rowsOfB[..last], statement, context) && EntriesOf(b[k..], rowsOfB[last], statement, context);
      MadeConcatenated(a, b[..k], rowsOfA, rowsOfB[..last], statement, context);
      MadeOneMore(a + b[..k], rowsOfA + rowsOfB[..last], b[k..], rowsOfB[last], statement, context);
      assert rows == (rowsOfA + rowsOfB[..last]) + [rowsOfB[last]] && a + b == (a + b[..k]) + b[k..];
    }
  }

  lemma {:induction false} FillsMade(rows: seq<TradeRow>, statement: Statement, context: Context)
    requires CashRowDates(statement.cash)
    ensures MadeOf(OfTrades(rows, context).entries, FillRows(rows), statement, context)
  {
    hide OfTrade, FillEntries;
    if rows != [] {
      var last := |rows| - 1;
      FillsMade(rows[..last], statement, context);
      FillsAre(rows[last], context);
      MadeOneMore(OfTrades(rows[..last], context).entries, FillRows(rows[..last]), OfTrade(rows[last], context).entries, FillRow(rows[last]), statement, context);
      assert FillRows(rows) == FillRows(rows[..last]) + [FillRow(rows[last])];
    }
  }

  lemma {:induction false} MoneyMade(rows: seq<CashRow>, statement: Statement, context: Context)
    requires CashRowDates(statement.cash) && CashRowDates(rows)
    ensures MadeOf(OfCashRows(rows, context).entries, MoneyRows(rows), statement, context)
  {
    hide OfCash, MoneyEntries;
    if rows != [] {
      var last := |rows| - 1;
      MoneyMade(rows[..last], statement, context);
      MoneyIs(rows[last], context);
      MadeOneMore(OfCashRows(rows[..last], context).entries, MoneyRows(rows[..last]), OfCash(rows[last], context).entries, MoneyRow(rows[last]), statement, context);
      assert MoneyRows(rows) == MoneyRows(rows[..last]) + [MoneyRow(rows[last])];
    }
  }

  lemma {:induction false} TaxesMade(rows: seq<TaxRow>, statement: Statement, context: Context)
    requires CashRowDates(statement.cash)
    ensures MadeOf(OfTaxes(rows, context, FillsOf(statement.trades), PlacedOf(statement.cash, context)).entries, TaxRows(rows), statement, context)
  {
    hide OfTax, TaxEntries, FillsOf, PlacedOf;
    if rows != [] {
      var last, fills, placed := |rows| - 1, FillsOf(statement.trades), PlacedOf(statement.cash, context);
      TaxesMade(rows[..last], statement, context);
      TaxIs(rows[last], statement, context);
      MadeOneMore(OfTaxes(rows[..last], context, fills, placed).entries, TaxRows(rows[..last]), OfTax(rows[last], context, fills, placed).entries, SalesTaxRow(rows[last]), statement, context);
      assert TaxRows(rows) == TaxRows(rows[..last]) + [SalesTaxRow(rows[last])];
    }
  }

  lemma {:induction false} TransfersMade(rows: seq<TransferRow>, statement: Statement, context: Context)
    requires CashRowDates(statement.cash)
    ensures MadeOf(OfTransfers(rows).entries, MovedRows(rows), statement, context)
  {
    hide OfTransfer, MovedEntries;
    if rows != [] {
      var last := |rows| - 1;
      TransfersMade(rows[..last], statement, context);
      MovedIs(rows[last]);
      MadeOneMore(OfTransfers(rows[..last]).entries, MovedRows(rows[..last]), OfTransfer(rows[last]).entries, MovedRow(rows[last]), statement, context);
      assert MovedRows(rows) == MovedRows(rows[..last]) + [MovedRow(rows[last])];
    }
  }

  lemma {:induction false} ActionsMade(rows: seq<CorporateRow>, statement: Statement, context: Context)
    requires CashRowDates(statement.cash)
    ensures MadeOf(OfCorporateRows(rows, context).entries, ActionRows(rows), statement, context)
  {
    hide OfCorporate, ActionEntries;
    if rows != [] {
      var last := |rows| - 1;
      ActionsMade(rows[..last], statement, context);
      ActionIs(rows[last], context);
      MadeOneMore(OfCorporateRows(rows[..last], context).entries, ActionRows(rows[..last]), OfCorporate(rows[last], context).entries, ActionRow(rows[last]), statement, context);
      assert ActionRows(rows) == ActionRows(rows[..last]) + [ActionRow(rows[last])];
    }
  }

  /**
   For every statement: its entries are those of its rows, section after section, each in the book, of
   the kind, at the moment and with the review flag that the row and the books' lookups say.
   */
  lemma EveryRowGoesToItsBook(statement: Statement, context: Context)
    requires CashRowDates(statement.cash)
    ensures MadeOf(Attributed(statement, context).entries, RowsOf(statement), statement, context)
  {
    hide MadeOf, OfTrades, OfCashRows, OfTaxes, OfTransfers, OfCorporateRows, FillsOf, PlacedOf;
    var trades, cash, taxes, transfers, actions := OfTrades(statement.trades, context).entries, OfCashRows(statement.cash, context).entries,
      OfTaxes(statement.taxes, context, FillsOf(statement.trades), PlacedOf(statement.cash, context)).entries, OfTransfers(statement.transfers).entries, OfCorporateRows(statement.corporate, context).entries;
    var fillRows, moneyRows, taxRows, movedRows, actionRows := FillRows(statement.trades), MoneyRows(statement.cash), TaxRows(statement.taxes), MovedRows(statement.transfers), ActionRows(statement.corporate);
    FillsMade(statement.trades, statement, context);
    MoneyMade(statement.cash, statement, context);
    TaxesMade(statement.taxes, statement, context);
    TransfersMade(statement.transfers, statement, context);
    ActionsMade(statement.corporate, statement, context);
    MadeConcatenated(trades, cash, fillRows, moneyRows, statement, context);
    MadeConcatenated(trades + cash, taxes, fillRows + moneyRows, taxRows, statement, context);
    MadeConcatenated(trades + cash + taxes, transfers, fillRows + moneyRows + taxRows, movedRows, statement, context);
    MadeConcatenated(trades + cash + taxes + transfers, actions, fillRows + moneyRows + taxRows + movedRows, actionRows, statement, context);
    assert Attributed(statement, context).entries == trades + cash + taxes + transfers + actions;
  }
}
