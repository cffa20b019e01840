/**
 IBKR's stock bars in a symbol's data file (src/backtest/backtestFileStockBars.ts). A bar's key is a day's
 number since 1 January 1970, or 1440 times the day and the minutes after midnight for a 30-minute bar.
 A split adjustment is a factor on every price before it: IBKR's answers at one time are all on one.
 */
module StockBars {
  import opened Wrappers
  import opened SliceKeys

  datatype Bar = Bar(key: int, first: real, high: real, low: real, close: Option<real>, volume: Option<real>, impliedVolatility: Option<real>)

  /** A table with its keys in the order it is read. */
  datatype Table = Table(bars: map<int, Bar>, keys: seq<int>)

  const NO_BARS := Table(map[], [])

  /** The two tables and the version of their bars. */
  datatype File = File(daily: Table, intraday: Table, version: Option<string>)

  const FILE_STOCK_BARS_VERSION := "1"

  datatype WriteError = NoBarsToWrite | NoStoredBars | Duplicate

  function DayOf(intradayKey: int): int {
    intradayKey / 1440
  }

  /** A 30-minute bar's key is of its day, whatever its minute. */
  lemma DayOfMinute(day: int, minute: int)
    ensures DayOf(1440 * day + minute) == day <==> 0 <= minute < 1440
  {}

  ghost predicate IsTable(table: Table) {
    Ascending(table.keys) && (forall key :: key in table.keys <==> key in table.bars) && forall key :: key in table.bars ==> table.bars[key].key == key
  }

  ghost predicate IsFile(file: File) {
    IsTable(file.daily) && IsTable(file.intraday)
  }

  // ---------------------------------------------------------------------------------------
  // Writing bars

  /** A bar written over the stored one of its key: a stored implied volatility stays when the new bar has none. */
  function Over(bar: Bar, stored: Bar): Bar {
    if bar.impliedVolatility.None? then bar.(impliedVolatility := stored.impliedVolatility) else bar
  }

  function Upserted(table: Table, bar: Bar): (after: Table)
    requires IsTable(table)
    ensures IsTable(after)
  {
    Table(table.bars[bar.key := if bar.key in table.bars then Over(bar, table.bars[bar.key]) else bar], WithKey(table.keys, bar.key))
  }

  /** The first `n` bars written, each over the stored one of its key. */
  function UpsertedAll(table: Table, bars: seq<Bar>, n: nat): (after: Table)
    requires IsTable(table) && n <= |bars|
    ensures IsTable(after)
  {
    if n == 0 then table else Upserted(UpsertedAll(table, bars, n - 1), bars[n - 1])
  }

  /** The first `n` bars written as new ones; None when a key is there already. */
  function InsertedAll(table: Table, bars: seq<Bar>, n: nat): (after: Option<Table>)
    requires IsTable(table) && n <= |bars|
    ensures after.Some? ==> IsTable(after.value)
  {
    if n == 0 then Some(table) else
    var before := InsertedAll(table, bars, n - 1);
    if before.None? || bars[n - 1].key in before.value.bars then None
    else Some(Table(before.value.bars[bars[n - 1].key := bars[n - 1]], WithKey(before.value.keys, bars[n - 1].key)))
  }

  /** writeFileStockBars: every stored bar replaced. */
  function Replaced(file: File, daily: seq<Bar>, intraday: seq<Bar>): (r: Result<File, WriteError>)
    ensures r.Ok? ==> IsFile(r.value)
  {
    if daily == [] || intraday == [] then Err(NoBarsToWrite)
    else
      match InsertedAll(NO_BARS, daily, |daily|)
      case None => Err(Duplicate)
      case Some(table) => Ok(File(table, UpsertedAll(NO_BARS, intraday, |intraday|), Some(FILE_STOCK_BARS_VERSION)))
  }

  /** addFileStockBars: written over the bars of the same days and minutes, the others kept. */
  function Added(file: File, daily: seq<Bar>, intraday: seq<Bar>): (r: Result<File, WriteError>)
    requires IsFile(file)
    ensures r.Ok? ==> IsFile(r.value)
  {
    if daily == [] || intraday == [] then Err(NoBarsToWrite)
    else Ok(File(UpsertedAll(file.daily, daily, |daily|), UpsertedAll(file.intraday, intraday, |intraday|), Some(FILE_STOCK_BARS_VERSION)))
  }

  /** The bars of days before one. */
  function DaysBefore(bars: seq<Bar>, day: int, intraday: bool): (older: seq<Bar>)
    ensures forall bar :: bar in older ==> bar in bars && (if intraday then DayOf(bar.key) else bar.key) < day
  {
    if bars == [] then [] else
    var last := bars[|bars| - 1];
    DaysBefore(bars[..|bars| - 1], day, intraday) + if (if intraday then DayOf(last.key) else last.key) < day then [last] else []
  }

  /** addOlderFileDailyBars: the bars before the first stored day. */
  function OlderDailyAdded(file: File, daily: seq<Bar>): (r: Result<File, WriteError>)
    requires IsFile(file)
    ensures r.Ok? ==> IsFile(r.value)
  {
    if file.daily.keys == [] then Err(NoStoredBars)
    else
      var older := DaysBefore(daily, file.daily.keys[0], false);
      match InsertedAll(file.daily, older, |older|)
      case None => Err(Duplicate)
      case Some(table) => Ok(file.(daily := table))
  }

  /** addOlderFileIntradayBars */
  function OlderIntradayAdded(file: File, intraday: seq<Bar>): (r: Result<File, WriteError>)
    requires IsFile(file)
    ensures r.Ok? ==> IsFile(r.value)
  {
    if file.intraday.keys == [] then Err(NoStoredBars)
    else
      var older := DaysBefore(intraday, DayOf(file.intraday.keys[0]), true);
      match InsertedAll(file.intraday, older, |older|)
      case None => Err(Duplicate)
      case Some(table) => Ok(file.(intraday := table))
  }

  class BarFile {
    var daily: Table
    var intraday: Table
    var version: Option<string>

    function Now(): File
      reads this
    {
      File(daily, intraday, version)
    }

    constructor ()
      ensures Now() == File(NO_BARS, NO_BARS, None)
    {
      daily, intraday, version := NO_BARS, NO_BARS, None;
    }

    /** storeFileStockBars: all of it, or nothing when it fails. */
    method StoreBars(newDaily: seq<Bar>, newIntraday: seq<Bar>, replace: bool) returns (r: Result<(), WriteError>)
      requires IsFile(Now())
      modifies this
      ensures IsFile(Now())
      ensures var stored := if replace then Replaced(old(Now()), newDaily, newIntraday) else Added(old(Now()), newDaily, newIntraday);
              if stored.Ok? then r.Ok? && Now() == stored.value else r == Err(stored.error) && Now() == old(Now())
    {
      hide Upserted, IsTable;
      if newDaily == [] || newIntraday == [] {
        return Err(NoBarsToWrite);
      }
      ghost var before := Now();
      var dailyTable, intradayTable := daily, intraday;
      if replace {
        dailyTable, intradayTable := NO_BARS, NO_BARS;
        NoBarsIsTable();
      }
      ghost var start := dailyTable;
      for n := 0 to |newDaily|
        invariant IsTable(dailyTable) && Now() == before
        invariant if replace then InsertedAll(start, newDaily, n) == Some(dailyTable) else dailyTable == UpsertedAll(start, newDaily, n)
      {
        if replace && newDaily[n].key in dailyTable.bars {
          assert InsertedAll(start, newDaily, n + 1) == None;
          DuplicateStays(start, newDaily, n + 1);
          return Err(Duplicate);
        }
        if replace {
          assert InsertedAll(start, newDaily, n + 1).Some?;
          dailyTable := Table(dailyTable.bars[newDaily[n].key := newDaily[n]], WithKey(dailyTable.keys, newDaily[n].key));
        } else {
          dailyTable := Upserted(dailyTable, newDaily[n]);
        }
      }
      start := intradayTable;
      for n := 0 to |newIntraday|
        invariant IsTable(intradayTable) && Now() == before && intradayTable == UpsertedAll(start, newIntraday, n)
      {
        intradayTable := Upserted(intradayTable, newIntraday[n]);
      }
      daily, intraday, version := dailyTable, intradayTable, Some(FILE_STOCK_BARS_VERSION);
      return Ok(());
    }

    method AddOlderDailyBars(bars: seq<Bar>) returns (r: Result<nat, WriteError>)
      requires IsFile(Now())
      modifies this
      ensures IsFile(Now())
      ensures var stored := OlderDailyAdded(old(Now()), bars);
              if stored.Ok? then r.Ok? && Now() == stored.value else r == Err(stored.error) && Now() == old(Now())
    {
      hide IsTable;
      if daily.keys == [] {
        return Err(NoStoredBars);
      }
      var older := DaysBefore(bars, daily.keys[0], false);
      var table := InsertNew(daily, older);
      if table.None? {
        return Err(Duplicate);
      }
      daily := table.value;
      return Ok(|older|);
    }

    method AddOlderIntradayBars(bars: seq<Bar>) returns (r: Result<nat, WriteError>)
      requires IsFile(Now())
      modifies this
      ensures IsFile(Now())
      ensures var stored := OlderIntradayAdded(old(Now()), bars);
              if stored.Ok? then r.Ok? && Now() == stored.value else r == Err(stored.error) && Now() == old(Now())
    {
      hide IsTable;
      if intraday.keys == [] {
        return Err(NoStoredBars);
      }
      var older := DaysBefore(bars, DayOf(intraday.keys[0]), true);
      var table := InsertNew(intraday, older);
      if table.None? {
        return Err(Duplicate);
      }
      intraday := table.value;
      return Ok(|older|);
    }

    /** Plain inserts, one by one, in a transaction. */
    static method InsertNew(table: Table, bars: seq<Bar>) returns (r: Option<Table>)
      requires IsTable(table)
      ensures r == InsertedAll(table, bars, |bars|)
    {
      hide IsTable, Ascending, WithKey;
      var current := table;
      for n := 0 to |bars|
        invariant IsTable(current) && InsertedAll(table, bars, n) == Some(current)
      {
        KeysAscend(current);
        if bars[n].key in current.bars {
          assert InsertedAll(table, bars, n + 1) == None;
          DuplicateStays(table, bars, n + 1);
          return None;
        }
        assert InsertedAll(table, bars, n + 1).Some?;
        current := Table(current.bars[bars[n].key := bars[n]], WithKey(current.keys, bars[n].key));
      }
      return Some(current);
    }
  }

  lemma KeysAscend(table: Table)
    requires IsTable(table)
    ensures Ascending(table.keys)
  {}

  lemma NoBarsIsTable()
    ensures IsTable(NO_BARS)
  {}

  lemma {:induction false} DuplicateStays(table: Table, bars: seq<Bar>, n: nat)
    requires IsTable(table) && n <= |bars| && InsertedAll(table, bars, n) == None
    ensures InsertedAll(table, bars, |bars|) == None
    decreases |bars| - n
  {
    if n < |bars| {
      assert InsertedAll(table, bars, n + 1) == None;
      DuplicateStays(table, bars, n + 1);
    }
  }

  // ---------------------------------------------------------------------------------------
  // What writing keeps

  /** What a bar's prices are before any split adjustment. */
  datatype Quote = Quote(first: real, high: real, low: real, close: real)

  function Scaled(quote: Quote, factor: real): Quote {
    Quote(quote.first * factor, quote.high * factor, quote.low * factor, quote.close * factor)
  }

  /** The bar's prices are on the factor; a missing close is on any. */
  predicate BarOn(bar: Bar, quotes: int -> Quote, factor: real) {
    var scaled := Scaled(quotes(bar.key), factor);
    bar.first == scaled.first && bar.high == scaled.high && bar.low == scaled.low && (bar.close.Some? ==> bar.close.value == scaled.close)
  }

  /** Every bar of the table is on the factor. */
  predicate On(table: Table, quotes: int -> Quote, factor: real) {
    forall key :: key in table.bars ==> BarOn(table.bars[key], quotes, factor)
  }

  predicate AllOn(bars: seq<Bar>, quotes: int -> Quote, factor: real) {
    forall i :: 0 <= i < |bars| ==> BarOn(bars[i], quotes, factor)
  }

  lemma OverOn(bar: Bar, stored: Bar, quotes: int -> Quote, factor: real)
    requires BarOn(bar, quotes, factor)
    ensures BarOn(Over(bar, stored), quotes, factor) && Over(bar, stored).key == bar.key
  {}

  predicate Writes(bars: seq<Bar>, n: nat, key: int)
    requires n <= |bars|
  {
    exists i :: 0 <= i < n && bars[i].key == key
  }

  lemma NothingWritten(bars: seq<Bar>, key: int)
    ensures !Writes(bars, 0, key)
  {}

  lemma WritesOneMore(bars: seq<Bar>, n: nat, key: int)
    requires 0 < n <= |bars|
    ensures Writes(bars, n, key) <==> Writes(bars, n - 1, key) || bars[n - 1].key == key
  {}

  /** After bars are written over: each written key's bar is on theirs, and any other is the stored one. */
  lemma {:induction false} UpsertedBar(table: Table, bars: seq<Bar>, n: nat, quotes: int -> Quote, factor: real, key: int)
    requires IsTable(table) && n <= |bars| && AllOn(bars, quotes, factor)
    ensures var after := UpsertedAll(table, bars, n).bars;
            && (key in after <==> key in table.bars || Writes(bars, n, key))
            && (key in after && Writes(bars, n, key) ==> BarOn(after[key], quotes, factor))
            && (key in after && !Writes(bars, n, key) ==> after[key] == table.bars[key])
  {
    hide IsTable, BarOn, Over, Writes;
    if n == 0 {
      assert !Writes(bars, 0, key) by {
        NothingWritten(bars, key);
      }
    } else {
      WritesOneMore(bars, n, key);
      UpsertedBar(table, bars, n - 1, quotes, factor, key);
      var before := UpsertedAll(table, bars, n - 1);
      if bars[n - 1].key in before.bars {
        OverOn(bars[n - 1], before.bars[bars[n - 1].key], quotes, factor);
      }
    }
  }

  lemma {:induction false} UpsertedKeepsKeys(table: Table, bars: seq<Bar>, n: nat)
    requires IsTable(table) && n <= |bars|
    ensures table.bars.Keys <= UpsertedAll(table, bars, n).bars.Keys
  {
    hide IsTable;
    if n > 0 {
      UpsertedKeepsKeys(table, bars, n - 1);
    }
  }

  lemma UpsertedStaysOn(table: Table, bars: seq<Bar>, quotes: int -> Quote, factor: real)
    requires IsTable(table) && On(table, quotes, factor) && AllOn(bars, quotes, factor)
    ensures On(UpsertedAll(table, bars, |bars|), quotes, factor)
  {
    hide IsTable, UpsertedAll, BarOn, AllOn, Writes;
    forall key | key in UpsertedAll(table, bars, |bars|).bars
      ensures BarOn(UpsertedAll(table, bars, |bars|).bars[key], quotes, factor)
    {
      UpsertedBar(table, bars, |bars|, quotes, factor, key);
    }
  }

  /** After plain inserts: the stored bars as they were, and the new ones. */
  lemma {:induction false} InsertedBars(table: Table, bars: seq<Bar>, n: nat)
    requires IsTable(table) && n <= |bars| && InsertedAll(table, bars, n).Some?
    ensures var after := InsertedAll(table, bars, n).value.bars;
            && (forall key :: key in table.bars ==> key in after && after[key] == table.bars[key])
            && (forall i :: 0 <= i < n ==> bars[i].key in after && after[bars[i].key] == bars[i])
            && (forall key :: key in after ==> key in table.bars || Writes(bars, n, key))
  {
    hide IsTable;
    if n > 0 {
      InsertedBars(table, bars, n - 1);
    }
  }

  lemma InsertedStaysOn(table: Table, bars: seq<Bar>, quotes: int -> Quote, factor: real)
    requires IsTable(table) && InsertedAll(table, bars, |bars|).Some? && On(table, quotes, factor) && AllOn(bars, quotes, factor)
    ensures On(InsertedAll(table, bars, |bars|).value, quotes, factor)
  {
    hide IsTable, BarOn;
    InsertedBars(table, bars, |bars|);
  }
}
