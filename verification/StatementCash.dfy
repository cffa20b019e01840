/** What the attribution of a statement keeps of its cash: every row is posted in full, listed as a problem, or part of a trade. */
module StatementCash {
  import opened Wrappers
  import opened BookKeys
  import opened ProRataSplit
  import opened StatementAttribution

  /** A statement row as cash: its amount (None when it cannot be read), whether it is `usable`, already `inTrade`, and posted by `split`, and its moment. */
  datatype Line = Line(key: RowKey, amount: Option<real>, usable: bool, inTrade: bool, split: bool, at: Option<int>)

  /** What a row has to bring to the ledger. */
  function Due(line: Line): real {
    if line.inTrade || !IsPosted(line) then 0.0
    else if line.split then RoundToLedgerDecimals(line.amount.value)
    else line.amount.value
  }

  predicate IsPosted(line: Line) {
    !line.inTrade && line.usable && line.amount.Some? && line.amount.value != 0.0
  }

  predicate IsProblem(line: Line) {
    !line.inTrade && (!line.usable || line.amount.None?)
  }

  // ---------------------------------------------------------------------------------------
  // The lines of a statement

  function TradeLines(rows: seq<TradeRow>): seq<Line> {
    if rows == [] then [] else
    var row := rows[|rows| - 1];
    TradeLines(rows[..|rows| - 1]) + if row.listed then [Line(TradeKey(row.id), row.netCash, row.symbol.Some? && row.at.Some?, false, false, row.at)] else []
  }

  /** Cash split between the books: interest, and whatever names no ticker, deposits aside. */
  predicate SplitCash(row: CashRow) {
    row.cashType != Deposit && if ByTicker(row) then row.symbol.None? else ByDailyCash(row) || row.symbol.None?
  }

  function CashLines(rows: seq<CashRow>): seq<Line> {
    if rows == [] then [] else
    var row := rows[|rows| - 1];
    CashLines(rows[..|rows| - 1]) + if row.listed then [Line(CashKey(row.id), row.amount, row.at.Some?, false, SplitCash(row), row.at)] else []
  }

  function TaxLines(rows: seq<TaxRow>, fills: set<Fill>, placed: map<string, Placed>): seq<Line> {
    if rows == [] then [] else
    var row := rows[|rows| - 1];
    TaxLines(rows[..|rows| - 1], fills, placed)
    + [Line(TaxKey(row.id), row.salesTax, row.date.Some?, InTrade(row, fills, placed), row.taxedId !in placed || placed[row.taxedId].placement.ByWeights?,
            if row.taxedId in placed then Some(placed[row.taxedId].at) else row.date)]
  }

  function TransferLines(rows: seq<TransferRow>): seq<Line> {
    if rows == [] then [] else
    var row := rows[|rows| - 1];
    var amount := if row.amount.Some? && row.direction.Some? then Some(TransferAmount(row)) else None;
    TransferLines(rows[..|rows| - 1]) + [Line(TransferKey(row.id), amount, row.ofCash && row.at.Some?, false, false, row.at)]
  }

  /** A corporate action that moves no cash needs no time. */
  function CorporateLines(rows: seq<CorporateRow>): seq<Line> {
    if rows == [] then [] else
    var row := rows[|rows| - 1];
    CorporateLines(rows[..|rows| - 1])
    + [Line(CorporateKey(row.id), Some(CorporateAmount(row)), row.at.Some? || CorporateAmount(row) == 0.0, false, row.symbol.None?, row.at)]
  }

  function LinesOf(statement: Statement, context: Context): seq<Line>
    requires CashRowDates(statement.cash)
  {
    TradeLines(statement.trades) + CashLines(statement.cash)
    + TaxLines(statement.taxes, FillsOf(statement.trades), PlacedOf(statement.cash, context))
    + TransferLines(statement.transfers) + CorporateLines(statement.corporate)
  }

  // ---------------------------------------------------------------------------------------
  // Sums

  function KeysOf(lines: seq<Line>): seq<RowKey> {
    seq(|lines|, i requires 0 <= i < |lines| => lines[i].key)
  }

  function ProblemsOf(lines: seq<Line>): seq<RowKey> {
    if lines == [] then [] else
    ProblemsOf(lines[..|lines| - 1]) + if IsProblem(lines[|lines| - 1]) then [lines[|lines| - 1].key] else []
  }

  /** What a key's entries add up to. */
  function KeySum(entries: seq<Entry>, key: RowKey): real {
    if entries == [] then 0.0 else
    KeySum(entries[..|entries| - 1], key) + if entries[|entries| - 1].key == key then entries[|entries| - 1].amount else 0.0
  }

  /** What a key's entries add up to as the ledger keeps them. */
  function StoredSum(entries: seq<Entry>, key: RowKey): real {
    if entries == [] then 0.0 else
    StoredSum(entries[..|entries| - 1], key) + if entries[|entries| - 1].key == key then StoredAmount(entries[|entries| - 1].amount) else 0.0
  }

  /** What a key's rows have to bring. */
  function KeyDue(lines: seq<Line>, key: RowKey): real {
    if lines == [] then 0.0 else
    KeyDue(lines[..|lines| - 1], key) + if lines[|lines| - 1].key == key then Due(lines[|lines| - 1]) else 0.0
  }

  lemma {:induction false} KeySumConcatenated(a: seq<Entry>, b: seq<Entry>, key: RowKey)
    ensures KeySum(a + b, key) == KeySum(a, key) + KeySum(b, key)
  {
    if b == [] {
      assert a + b == a;
    } else {
      assert (a + b)[..|a + b| - 1] == a + b[..|b| - 1];
      KeySumConcatenated(a, b[..|b| - 1], key);
    }
  }

  lemma {:induction false} StoredSumConcatenated(a: seq<Entry>, b: seq<Entry>, key: RowKey)
    ensures StoredSum(a + b, key) == StoredSum(a, key) + StoredSum(b, key)
  {
    hide StoredAmount;
    if b == [] {
      assert a + b == a;
    } else {
      assert (a + b)[..|a + b| - 1] == a + b[..|b| - 1];
      StoredSumConcatenated(a, b[..|b| - 1], key);
    }
  }

  lemma StoredSumOne(entry: Entry, key: RowKey)
    ensures StoredSum([entry], key) == if entry.key == key then StoredAmount(entry.amount) else 0.0
  {
    hide StoredAmount;
    assert [entry][..0] == [];
  }

  lemma {:induction false} KeyDueConcatenated(a: seq<Line>, b: seq<Line>, key: RowKey)
    ensures KeyDue(a + b, key) == KeyDue(a, key) + KeyDue(b, key)
  {
    hide Due;
    if b == [] {
      assert a + b == a;
    } else {
      assert (a + b)[..|a + b| - 1] == a + b[..|b| - 1];
      KeyDueConcatenated(a, b[..|b| - 1], key);
    }
  }

  lemma {:induction false} ProblemsConcatenated(a: seq<Line>, b: seq<Line>)
    ensures ProblemsOf(a + b) == ProblemsOf(a) + ProblemsOf(b)
  {
    if b == [] {
      assert a + b == a;
    } else {
      assert (a + b)[..|a + b| - 1] == a + b[..|b| - 1];
      ProblemsConcatenated(a, b[..|b| - 1]);
    }
  }

  // ---------------------------------------------------------------------------------------
  // Accounted for

  /** The entries a line comes to: none, its amount, or its parts in the two books. */
  predicate EntriesFit(entries: seq<Entry>, line: Line) {
    if !IsPosted(line) then entries == [] else
    && line.at.Some? && (forall i :: 0 <= i < |entries| ==> entries[i].key == line.key && entries[i].at == line.at.value)
    && if line.split then
         && |entries| == 2 && entries[0].book == Of(Pluto) && entries[1].book == Of(Manual)
         && IsLedgerAmount(entries[0].amount) && IsLedgerAmount(entries[1].amount)
         && entries[0].amount + entries[1].amount == RoundToLedgerDecimals(line.amount.value)
       else |entries| == 1 && entries[0].amount == line.amount.value
  }

  /** The entries are those of the lines, one line after the other. */
  ghost predicate Composed(entries: seq<Entry>, lines: seq<Line>)
    decreases |lines|
  {
    if lines == [] then entries == [] else
    exists k :: 0 <= k <= |entries| && Composed(entries[..k], lines[..|lines| - 1]) && EntriesFit(entries[k..], lines[|lines| - 1])
  }

  lemma {:induction false} ComposedConcatenated(a: seq<Entry>, b: seq<Entry>, linesOfA: seq<Line>, linesOfB: seq<Line>)
    requires Composed(a, linesOfA) && Composed(b, linesOfB)
    ensures Composed(a + b, linesOfA + linesOfB)
    decreases |linesOfB|
  {
    hide EntriesFit;
    var lines := linesOfA + linesOfB;
    if linesOfB == [] {
      assert lines == linesOfA && a + b == a;
    } else {
      var k :| 0 <= k <= |b| && Composed(b[..k], linesOfB[..|linesOfB| - 1]) && EntriesFit(b[k..], linesOfB[|linesOfB| - 1]);
      ComposedConcatenated(a, b[..k], linesOfA, linesOfB[..|linesOfB| - 1]);
      assert lines[..|lines| - 1] == linesOfA + linesOfB[..|linesOfB| - 1];
      assert (a + b)[..|a| + k] == a + b[..k] && (a + b)[|a| + k..] == b[k..];
    }
  }

  lemma OneLineComposed(entries: seq<Entry>, line: Line)
    requires EntriesFit(entries, line)
    ensures Composed(entries, [line])
  {
    hide EntriesFit;
    assert entries[..0] == [] && entries[0..] == entries && [line][..0] == [];
  }

  /** An entry of one of the lines' rows, at its moment and on the same side of zero as the row. */
  predicate EntryOf(entry: Entry, line: Line) {
    && entry.key == line.key && IsPosted(line) && line.at == Some(entry.at)
    && (line.amount.value >= 0.0 ==> entry.amount >= 0.0) && (line.amount.value <= 0.0 ==> entry.amount <= 0.0)
  }

  predicate OfSomeLine(entry: Entry, lines: seq<Line>) {
    exists j :: 0 <= j < |lines| && EntryOf(entry, lines[j])
  }

  predicate HasEntry(line: Line, entries: seq<Entry>) {
    exists i :: 0 <= i < |entries| && entries[i].key == line.key
  }

  /** The parsed rows account for the lines: every key once in order, every problem listed, every key's entries what its rows have to bring. */
  ghost predicate AccountsFor(parsed: Parsed, lines: seq<Line>) {
    && parsed.rowKeys == KeysOf(lines)
    && parsed.problems == ProblemsOf(lines)
    && Composed(parsed.entries, lines)
    && (forall key :: KeySum(parsed.entries, key) == KeyDue(lines, key))
    && (forall i :: 0 <= i < |parsed.entries| ==> OfSomeLine(parsed.entries[i], lines))
    && (forall j :: 0 <= j < |lines| && IsPosted(lines[j]) ==> HasEntry(lines[j], parsed.entries))
  }

  lemma ThenAccounts(a: Parsed, b: Parsed, linesOfA: seq<Line>, linesOfB: seq<Line>)
    requires AccountsFor(a, linesOfA) && AccountsFor(b, linesOfB)
    ensures AccountsFor(a.Then(b), linesOfA + linesOfB)
  {
    hide KeySum, KeyDue, OfSomeLine, HasEntry, IsPosted, Composed;
    var parsed, lines := a.Then(b), linesOfA + linesOfB;
    ComposedConcatenated(a.entries, b.entries, linesOfA, linesOfB);
    ProblemsConcatenated(linesOfA, linesOfB);
    assert KeysOf(lines) == KeysOf(linesOfA) + KeysOf(linesOfB);
    forall key
      ensures KeySum(parsed.entries, key) == KeyDue(lines, key)
    {
      KeySumConcatenated(a.entries, b.entries, key);
      KeyDueConcatenated(linesOfA, linesOfB, key);
    }
    forall i | 0 <= i < |parsed.entries|
      ensures OfSomeLine(parsed.entries[i], lines)
    {
      OfSomeLineOfBoth(parsed.entries[i], linesOfA, linesOfB);
      assert parsed.entries[i] == if i < |a.entries| then a.entries[i] else b.entries[i - |a.entries|];
    }
    forall j | 0 <= j < |lines| && IsPosted(lines[j])
      ensures HasEntry(lines[j], parsed.entries)
    {
      HasEntryOfBoth(lines[j], a.entries, b.entries);
      assert lines[j] == if j < |linesOfA| then linesOfA[j] else linesOfB[j - |linesOfA|];
    }
  }

  lemma OfSomeLineOfBoth(entry: Entry, a: seq<Line>, b: seq<Line>)
    ensures OfSomeLine(entry, a) || OfSomeLine(entry, b) ==> OfSomeLine(entry, a + b)
  {
    hide EntryOf;
    if OfSomeLine(entry, a) {
      var j :| 0 <= j < |a| && EntryOf(entry, a[j]);
      assert (a + b)[j] == a[j];
    } else if OfSomeLine(entry, b) {
      var j :| 0 <= j < |b| && EntryOf(entry, b[j]);
      assert (a + b)[|a| + j] == b[j];
    }
  }

  lemma HasEntryOfBoth(line: Line, a: seq<Entry>, b: seq<Entry>)
    ensures HasEntry(line, a) || HasEntry(line, b) ==> HasEntry(line, a + b)
  {
    if HasEntry(line, a) {
      var i :| 0 <= i < |a| && a[i].key == line.key;
      assert (a + b)[i] == a[i];
    } else if HasEntry(line, b) {
      var i :| 0 <= i < |b| && b[i].key == line.key;
      assert (a + b)[|a| + i] == b[i];
    }
  }

  lemma NothingAccounts()
    ensures AccountsFor(NOTHING, [])
  {}

  lemma KeySumOne(entry: Entry, key: RowKey)
    ensures KeySum([entry], key) == if entry.key == key then entry.amount else 0.0
  {
    assert [entry][..0] == [];
  }

  lemma KeyDueOne(line: Line, key: RowKey)
    ensures KeyDue([line], key) == if line.key == key then Due(line) else 0.0
  {
    hide Due;
    assert [line][..0] == [];
  }

  lemma ProblemsOfOne(line: Line)
    ensures ProblemsOf([line]) == if IsProblem(line) then [line.key] else []
  {
    assert [line][..0] == [];
  }

  /** One row alone: what its parsing has to be. */
  lemma OneRowAccounts(parsed: Parsed, line: Line, amount: real)
    requires parsed.rowKeys == [line.key] && parsed.problems == (if IsProblem(line) then [line.key] else [])
    requires amount == Due(line) && forall key :: KeySum(parsed.entries, key) == if key == line.key then amount else 0.0
    requires forall i :: 0 <= i < |parsed.entries| ==> EntryOf(parsed.entries[i], line)
    requires EntriesFit(parsed.entries, line) && (IsPosted(line) ==> parsed.entries != [])
    ensures AccountsFor(parsed, [line])
  {
    hide Due, KeySum, KeyDue, EntryOf, IsPosted, IsProblem, ProblemsOf, EntriesFit, Composed;
    OneLineComposed(parsed.entries, line);
    ProblemsOfOne(line);
    forall key
      ensures KeySum(parsed.entries, key) == KeyDue([line], key)
    {
      KeyDueOne(line, key);
    }
    forall i | 0 <= i < |parsed.entries|
      ensures OfSomeLine(parsed.entries[i], [line])
    {
      assert EntryOf(parsed.entries[i], [line][0]);
    }
    if IsPosted(line) {
      EntryHasKey(parsed.entries[0], line);
      assert HasEntry(line, parsed.entries);
    }
  }

  lemma EntryHasKey(entry: Entry, line: Line)
    requires EntryOf(entry, line)
    ensures entry.key == line.key
  {}

  /** What a posted row's entries add up to. */
  lemma PostedSum(row: RowKey, amount: real, at: int, kind: EntryKind, symbol: Option<string>, placement: Placement, key: RowKey)
    ensures KeySum(Posted(row, amount, at, kind, symbol, placement).entries, key)
            == if key != row then 0.0 else if placement.ByWeights? then RoundToLedgerDecimals(amount) else amount
  {
    hide RoundToLedgerDecimals, SplitAmountByWeights, KeySum, IsLedgerAmount;
    var entries := Posted(row, amount, at, kind, symbol, placement).entries;
    if amount == 0.0 {
      KeySumNone(key);
      ZeroIsZero();
    } else if placement.ByWeights? {
      PartsAddUp(amount, placement.weights);
      assert entries == [entries[0]] + [entries[1]];
      KeySumConcatenated([entries[0]], [entries[1]], key);
      KeySumOne(entries[0], key);
      KeySumOne(entries[1], key);
    } else {
      KeySumOne(entries[0], key);
    }
  }

  /** A row that posts: its entries are its amount, or the amount rounded when it is split. */
  lemma PostedAccounts(line: Line, at: int, kind: EntryKind, symbol: Option<string>, placement: Placement)
    requires !line.inTrade && line.usable && line.amount.Some? && line.split == placement.ByWeights? && line.at == Some(at)
    ensures AccountsFor(Posted(line.key, line.amount.value, at, kind, symbol, placement), [line])
  {
    hide RoundToLedgerDecimals, SplitAmountByWeights, AccountsFor, KeySum, IsLedgerAmount;
    var amount := line.amount.value;
    var parsed := Posted(line.key, amount, at, kind, symbol, placement);
    forall key
      ensures KeySum(parsed.entries, key) == if key == line.key then Due(line) else 0.0
    {
      PostedSum(line.key, amount, at, kind, symbol, placement, key);
      ZeroIsZero();
    }
    if placement.ByWeights? {
      PartsAddUp(amount, placement.weights);
    }
    OneRowAccounts(parsed, line, Due(line));
  }

  lemma KeySumNone(key: RowKey)
    ensures KeySum([], key) == 0.0
  {}

  lemma FaultyAccounts(line: Line)
    requires IsProblem(line)
    ensures AccountsFor(Faulty(line.key), [line])
  {
    hide AccountsFor;
    OneRowAccounts(Faulty(line.key), line, 0.0);
  }

  /** A row that brings nothing. */
  lemma IdleAccounts(line: Line)
    requires line.inTrade || (line.usable && line.amount == Some(0.0))
    ensures AccountsFor(Parsed([line.key], [], []), [line])
  {
    hide AccountsFor;
    OneRowAccounts(Parsed([line.key], [], []), line, 0.0);
  }

  lemma {:induction false} TradesAccount(rows: seq<TradeRow>, context: Context)
    ensures AccountsFor(OfTrades(rows, context), TradeLines(rows))
  {
    hide AccountsFor, Posted, Faulty, Parsed.Then;
    if rows == [] {
      NothingAccounts();
    } else {
      var before, row := rows[..|rows| - 1], rows[|rows| - 1];
      TradesAccount(before, context);
      var line := Line(TradeKey(row.id), row.netCash, row.symbol.Some? && row.at.Some?, false, false, row.at);
      if !row.listed {
        NothingAccounts();
        ThenAccounts(OfTrades(before, context), NOTHING, TradeLines(before), []);
      } else {
        if IsProblem(line) {
          FaultyAccounts(line);
        } else {
          var book := if row.option.Some? && context.isHedge(row.option.value) then Manual else context.bookOf(row.symbol.value, row.at.value);
          PostedAccounts(line, row.at.value, Trade, row.symbol, InBook(Of(book), false));
        }
        ThenAccounts(OfTrades(before, context), OfTrade(row, context), TradeLines(before), [line]);
      }
    }
  }

  lemma {:induction false} CashAccounts(rows: seq<CashRow>, context: Context)
    requires CashRowDates(rows)
    ensures AccountsFor(OfCashRows(rows, context), CashLines(rows))
  {
    hide AccountsFor, Posted, Faulty, Parsed.Then, CashKind;
    if rows == [] {
      NothingAccounts();
    } else {
      var before, row := rows[..|rows| - 1], rows[|rows| - 1];
      CashAccounts(before, context);
      var line := Line(CashKey(row.id), row.amount, row.at.Some?, false, SplitCash(row), row.at);
      if !row.listed {
        NothingAccounts();
        ThenAccounts(OfCashRows(before, context), NOTHING, CashLines(before), []);
      } else {
        if IsProblem(line) {
          FaultyAccounts(line);
        } else {
          PostedAccounts(line, row.at.value, CashKind(row), row.symbol, CashPlacement(row, context, row.at.value));
        }
        ThenAccounts(OfCashRows(before, context), OfCash(row, context), CashLines(before), [line]);
      }
    }
  }

  lemma {:induction false} TaxesAccount(rows: seq<TaxRow>, context: Context, fills: set<Fill>, placed: map<string, Placed>)
    ensures AccountsFor(OfTaxes(rows, context, fills, placed), TaxLines(rows, fills, placed))
  {
    hide AccountsFor, Posted, Faulty, Parsed.Then;
    if rows == [] {
      NothingAccounts();
    } else {
      var before, row := rows[..|rows| - 1], rows[|rows| - 1];
      TaxesAccount(before, context, fills, placed);
      var line := Line(TaxKey(row.id), row.salesTax, row.date.Some?, InTrade(row, fills, placed), row.taxedId !in placed || placed[row.taxedId].placement.ByWeights?,
            if row.taxedId in placed then Some(placed[row.taxedId].at) else row.date);
      if line.inTrade {
        IdleAccounts(line);
      } else if IsProblem(line) {
        FaultyAccounts(line);
      } else {
        var at := if row.taxedId in placed then placed[row.taxedId].at else row.date.value;
        var placement := if row.taxedId in placed then placed[row.taxedId].placement else ByWeights(context.valueWeights(at), true);
        PostedAccounts(line, at, SalesTax, row.symbol, placement);
      }
      ThenAccounts(OfTaxes(before, context, fills, placed), OfTax(row, context, fills, placed), TaxLines(before, fills, placed), [line]);
    }
  }

  lemma {:induction false} TransfersAccount(rows: seq<TransferRow>)
    ensures AccountsFor(OfTransfers(rows), TransferLines(rows))
  {
    hide AccountsFor, Posted, Faulty, Parsed.Then, TransferAmount;
    if rows == [] {
      NothingAccounts();
    } else {
      var before, row := rows[..|rows| - 1], rows[|rows| - 1];
      TransfersAccount(before);
      var amount := if row.amount.Some? && row.direction.Some? then Some(TransferAmount(row)) else None;
      var line := Line(TransferKey(row.id), amount, row.ofCash && row.at.Some?, false, false, row.at);
      if IsProblem(line) {
        FaultyAccounts(line);
      } else {
        PostedAccounts(line, row.at.value, ExternalTransfer, row.symbol, InBook(Unallocated, false));
      }
      ThenAccounts(OfTransfers(before), OfTransfer(row), TransferLines(before), [line]);
    }
  }

  lemma {:induction false} CorporateAccounts(rows: seq<CorporateRow>, context: Context)
    ensures AccountsFor(OfCorporateRows(rows, context), CorporateLines(rows))
  {
    hide AccountsFor, Posted, Faulty, Parsed.Then, CorporateAmount;
    if rows == [] {
      NothingAccounts();
    } else {
      var before, row := rows[..|rows| - 1], rows[|rows| - 1];
      CorporateAccounts(before, context);
      var line := Line(CorporateKey(row.id), Some(CorporateAmount(row)), row.at.Some? || CorporateAmount(row) == 0.0, false, row.symbol.None?, row.at);
      if CorporateAmount(row) == 0.0 {
        IdleAccounts(line);
      } else if row.at.None? {
        FaultyAccounts(line);
      } else {
        PostedAccounts(line, row.at.value, CorporateAction, row.symbol,
                       if row.symbol.None? then ByWeights(context.valueWeights(row.at.value), true) else InBook(Of(context.bookOf(row.symbol.value, row.at.value)), true));
      }
      ThenAccounts(OfCorporateRows(before, context), OfCorporate(row, context), CorporateLines(before), [line]);
    }
  }

  /** For every statement: the entries, problems and keys read account for all its cash-moving rows. */
  lemma StatementAccounts(statement: Statement, context: Context)
    requires CashRowDates(statement.cash)
    ensures AccountsFor(Attributed(statement, context), LinesOf(statement, context))
  {
    hide AccountsFor, Parsed.Then, OfTrades, OfCashRows, OfTaxes, OfTransfers, OfCorporateRows, FillsOf, PlacedOf, TradeLines, CashLines, TaxLines, TransferLines, CorporateLines;
    var fills, placed := FillsOf(statement.trades), PlacedOf(statement.cash, context);
    var trades, cash, taxes, transfers := OfTrades(statement.trades, context), OfCashRows(statement.cash, context),
      OfTaxes(statement.taxes, context, fills, placed), OfTransfers(statement.transfers);
    var tradeLines, cashLines, taxLines, transferLines := TradeLines(statement.trades), CashLines(statement.cash), TaxLines(statement.taxes, fills, placed), TransferLines(statement.transfers);
    TradesAccount(statement.trades, context);
    CashAccounts(statement.cash, context);
    TaxesAccount(statement.taxes, context, fills, placed);
    TransfersAccount(statement.transfers);
    CorporateAccounts(statement.corporate, context);
    ThenAccounts(trades, cash, tradeLines, cashLines);
    ThenAccounts(trades.Then(cash), taxes, tradeLines + cashLines, taxLines);
    ThenAccounts(trades.Then(cash).Then(taxes), transfers, tradeLines + cashLines + taxLines, transferLines);
    ThenAccounts(trades.Then(cash).Then(taxes).Then(transfers), OfCorporateRows(statement.corporate, context),
                 tradeLines + cashLines + taxLines + transferLines, CorporateLines(statement.corporate));
  }

  // ---------------------------------------------------------------------------------------
  // A single row, a whole statement

  predicate DistinctKeys(lines: seq<Line>) {
    forall i, j :: 0 <= i < j < |lines| ==> lines[i].key != lines[j].key
  }

  lemma {:induction false} OneLineOfKey(lines: seq<Line>, i: nat)
    requires DistinctKeys(lines) && i < |lines|
    ensures KeyDue(lines, lines[i].key) == Due(lines[i])
  {
    hide Due;
    var last := |lines| - 1;
    if i < last {
      OneLineOfKey(lines[..last], i);
    } else {
      NoLineOfKey(lines[..last], lines[i].key);
    }
  }

  lemma {:induction false} NoLineOfKey(lines: seq<Line>, key: RowKey)
    requires forall i :: 0 <= i < |lines| ==> lines[i].key != key
    ensures KeyDue(lines, key) == 0.0
  {
    if lines != [] {
      NoLineOfKey(lines[..|lines| - 1], key);
    }
  }

  /** With distinct row keys: a row's entries add up to its amount, or its amount rounded when it is split; any other non-zero row is listed, or inside a trade. */
  lemma EveryRowIsPostedOrListed(statement: Statement, context: Context, i: nat)
    requires CashRowDates(statement.cash) && DistinctKeys(LinesOf(statement, context)) && i < |LinesOf(statement, context)|
    ensures var line, parsed := LinesOf(statement, context)[i], Attributed(statement, context);
            && KeySum(parsed.entries, line.key) == Due(line)
            && (line.amount != Some(0.0) && !line.inTrade ==> IsPosted(line) || line.key in parsed.problems)
  {
    hide LinesOf, Attributed, Due, KeySum, KeyDue;
    StatementAccounts(statement, context);
    var lines := LinesOf(statement, context);
    OneLineOfKey(lines, i);
    if IsProblem(lines[i]) {
      ProblemIsListed(lines, i);
    }
  }

  lemma {:induction false} ProblemIsListed(lines: seq<Line>, i: nat)
    requires i < |lines| && IsProblem(lines[i])
    ensures lines[i].key in ProblemsOf(lines)
  {
    if i < |lines| - 1 {
      ProblemIsListed(lines[..|lines| - 1], i);
    }
  }

  // ---------------------------------------------------------------------------------------
  // What waits in Unallocated

  /** Deposits, withdrawals and transfers wait in Unallocated, and nothing else does but a sales tax on one of them. */
  predicate Waits(entry: Entry) {
    (entry.kind == ExternalTransfer ==> entry.book == Unallocated) && (entry.book == Unallocated ==> entry.kind == ExternalTransfer || entry.kind == SalesTax)
  }

  predicate AllWait(entries: seq<Entry>) {
    forall i :: 0 <= i < |entries| ==> Waits(entries[i])
  }

  lemma ThenWaits(a: Parsed, b: Parsed)
    requires AllWait(a.entries) && AllWait(b.entries)
    ensures AllWait(a.Then(b).entries)
  {}

  lemma PostedWaits(key: RowKey, amount: real, at: int, kind: EntryKind, symbol: Option<string>, placement: Placement)
    requires if placement == InBook(Unallocated, placement.needsReview) then kind == ExternalTransfer || kind == SalesTax else kind != ExternalTransfer
    ensures AllWait(Posted(key, amount, at, kind, symbol, placement).entries)
  {
    hide SplitAmountByWeights;
  }

  lemma {:induction false} TradesWait(rows: seq<TradeRow>, context: Context)
    ensures AllWait(OfTrades(rows, context).entries)
  {
    hide Place, AllWait, Parsed.Then;
    if rows == [] {
      NothingWaits();
    } else {
      var row := rows[|rows| - 1];
      TradesWait(rows[..|rows| - 1], context);
      NothingWaits();
      if row.listed && row.netCash.Some? && row.symbol.Some? && row.at.Some? {
        var book := if row.option.Some? && context.isHedge(row.option.value) then Manual else context.bookOf(row.symbol.value, row.at.value);
        PostedWaits(TradeKey(row.id), row.netCash.value, row.at.value, Trade, row.symbol, InBook(Of(book), false));
      }
      ThenWaits(OfTrades(rows[..|rows| - 1], context), OfTrade(row, context));
    }
  }

  lemma {:induction false} CashWaits(rows: seq<CashRow>, context: Context)
    requires CashRowDates(rows)
    ensures AllWait(OfCashRows(rows, context).entries)
  {
    hide Place, AllWait, Parsed.Then;
    if rows == [] {
      NothingWaits();
    } else {
      var row := rows[|rows| - 1];
      CashWaits(rows[..|rows| - 1], context);
      NothingWaits();
      if row.listed && row.amount.Some? && row.at.Some? {
        PostedWaits(CashKey(row.id), row.amount.value, row.at.value, CashKind(row), row.symbol, CashPlacement(row, context, row.at.value));
      }
      ThenWaits(OfCashRows(rows[..|rows| - 1], context), OfCash(row, context));
    }
  }

  lemma {:induction false} TaxesWait(rows: seq<TaxRow>, context: Context, fills: set<Fill>, placed: map<string, Placed>)
    ensures AllWait(OfTaxes(rows, context, fills, placed).entries)
  {
    hide Place, AllWait, Parsed.Then, InTrade;
    if rows == [] {
      NothingWaits();
    } else {
      var row := rows[|rows| - 1];
      TaxesWait(rows[..|rows| - 1], context, fills, placed);
      NothingWaits();
      if !InTrade(row, fills, placed) && row.salesTax.Some? && row.date.Some? {
        var at := if row.taxedId in placed then placed[row.taxedId].at else row.date.value;
        var placement := if row.taxedId in placed then placed[row.taxedId].placement else ByWeights(context.valueWeights(at), true);
        PostedWaits(TaxKey(row.id), row.salesTax.value, at, SalesTax, row.symbol, placement);
      }
      ThenWaits(OfTaxes(rows[..|rows| - 1], context, fills, placed), OfTax(row, context, fills, placed));
    }
  }

  lemma {:induction false} TransfersWait(rows: seq<TransferRow>)
    ensures AllWait(OfTransfers(rows).entries)
  {
    hide Place, AllWait, Parsed.Then, TransferAmount;
    if rows == [] {
      NothingWaits();
    } else {
      var row := rows[|rows| - 1];
      TransfersWait(rows[..|rows| - 1]);
      NothingWaits();
      if row.ofCash && row.amount.Some? && row.direction.Some? && row.at.Some? {
        PostedWaits(TransferKey(row.id), TransferAmount(row), row.at.value, ExternalTransfer, row.symbol, InBook(Unallocated, false));
      }
      ThenWaits(OfTransfers(rows[..|rows| - 1]), OfTransfer(row));
    }
  }

  lemma {:induction false} CorporateActionsWait(rows: seq<CorporateRow>, context: Context)
    ensures AllWait(OfCorporateRows(rows, context).entries)
  {
    hide Place, AllWait, Parsed.Then, CorporateAmount;
    if rows == [] {
      NothingWaits();
    } else {
      var row := rows[|rows| - 1];
      CorporateActionsWait(rows[..|rows| - 1], context);
      NothingWaits();
      if CorporateAmount(row) != 0.0 && row.at.Some? {
        PostedWaits(CorporateKey(row.id), CorporateAmount(row), row.at.value, CorporateAction, row.symbol,
                    if row.symbol.None? then ByWeights(context.valueWeights(row.at.value), true) else InBook(Of(context.bookOf(row.symbol.value, row.at.value)), true));
      }
      ThenWaits(OfCorporateRows(rows[..|rows| - 1], context), OfCorporate(row, context));
    }
  }

  lemma NothingWaits()
    ensures AllWait([])
  {}

  /** For every statement: what is neither Pluto's nor Manual's is exactly the cash moved in and out of the account, and taxes on it. */
  lemma OnlyTransfersWait(statement: Statement, context: Context)
    requires CashRowDates(statement.cash)
    ensures AllWait(Attributed(statement, context).entries)
  {
    hide AllWait, Parsed.Then, OfTrades, OfCashRows, OfTaxes, OfTransfers, OfCorporateRows, FillsOf, PlacedOf;
    var fills, placed := FillsOf(statement.trades), PlacedOf(statement.cash, context);
    var trades, cash, taxes, transfers := OfTrades(statement.trades, context), OfCashRows(statement.cash, context),
      OfTaxes(statement.taxes, context, fills, placed), OfTransfers(statement.transfers);
    TradesWait(statement.trades, context);
    CashWaits(statement.cash, context);
    TaxesWait(statement.taxes, context, fills, placed);
    TransfersWait(statement.transfers);
    CorporateActionsWait(statement.corporate, context);
    ThenWaits(trades, cash);
    ThenWaits(trades.Then(cash), taxes);
    ThenWaits(trades.Then(cash).Then(taxes), transfers);
    ThenWaits(trades.Then(cash).Then(taxes).Then(transfers), OfCorporateRows(statement.corporate, context));
  }
}
