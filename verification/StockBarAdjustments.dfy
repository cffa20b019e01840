/** What any sequence of refreshes keeps: one split adjustment in both tables, and the stored days; and exactly when a refresh would mix two. */
module StockBarAdjustments {
  import opened Wrappers
  import opened StockBars
  import opened StockBarRefresh

  /** The prices of both tables' bars before any split adjustment. */
  datatype Prices = Prices(daily: int -> Quote, intraday: int -> Quote) {
    ghost predicate Positive() {
      (forall key :: daily(key).first > 0.0) && forall key :: intraday(key).first > 0.0
    }
  }

  /** Every stored bar, daily or of 30 minutes, is on the factor. */
  predicate FileOn(file: File, prices: Prices, factor: real) {
    On(file.daily, prices.daily, factor) && On(file.intraday, prices.intraday, factor)
  }

  /** IBKR's answers in one refresh are all on its adjustment then. */
  ghost predicate AnswersOn(answers: Answers, prices: Prices, factor: real) {
    && (answers.tailDaily.Some? ==> AllOn(answers.tailDaily.value, prices.daily, factor))
    && (answers.tailIntraday.Some? ==> AllOn(answers.tailIntraday.value, prices.intraday, factor))
    && (answers.everyDaily.Some? ==> AllOn(answers.everyDaily.value, prices.daily, factor))
    && forall year: int :: answers.intradayOfYear(year).Some? ==> AllOn(answers.intradayOfYear(year).value, prices.intraday, factor)
  }

  // ---------------------------------------------------------------------------------------
  // A factor that moves a price by a cent

  /** What a change of factor does to a price. */
  function Moved(price: real, from: real, to: real): real {
    price * to - price * from
  }

  predicate MovesACent(quotes: int -> Quote, key: int, from: real, to: real) {
    var moved := Moved(quotes(key).close, from, to);
    moved >= 0.01 || moved <= -0.01
  }

  /** Some bar both have, its close known in both, is one whose price the change of factor moves by a cent. */
  predicate SharesAMovedClose(stored: map<int, Bar>, bars: seq<Bar>, quotes: int -> Quote, from: real, to: real) {
    exists i :: 0 <= i < |bars| && bars[i].key in stored && bars[i].close.Some? && stored[bars[i].key].close.Some? && MovesACent(quotes, bars[i].key, from, to)
  }

  lemma CentsApart(a: real, b: real)
    requires b - a >= 0.01
    ensures Cents(a) < Cents(b)
  {
    assert b * 100.0 + 0.5 >= a * 100.0 + 0.5 + 1.0;
  }

  /** Then the two do not agree. */
  lemma MovedCloseDiffers(stored: map<int, Bar>, bars: seq<Bar>, quotes: int -> Quote, from: real, to: real)
    requires SharesAMovedClose(stored, bars, quotes, from, to) && AllOn(bars, quotes, to)
    requires forall key :: key in stored ==> stored[key].key == key && BarOn(stored[key], quotes, from)
    ensures !Agrees(stored, bars)
  {
    hide Cents;
    var i :| 0 <= i < |bars| && bars[i].key in stored && bars[i].close.Some? && stored[bars[i].key].close.Some? && MovesACent(quotes, bars[i].key, from, to);
    var before, after := stored[bars[i].key].close.value, bars[i].close.value;
    ClosesAre(bars[i], quotes, to);
    ClosesAre(stored[bars[i].key], quotes, from);
    if after - before >= 0.01 {
      CentsApart(before, after);
    } else {
      CentsApart(after, before);
    }
    assert !SameToTheCent(bars[i].close, stored[bars[i].key].close);
  }

  lemma ClosesAre(bar: Bar, quotes: int -> Quote, factor: real)
    requires BarOn(bar, quotes, factor) && bar.close.Some?
    ensures bar.close.value == quotes(bar.key).close * factor
  {}

  /** A change of factor moves by a cent the price of some bar that the refresh compares. */
  ghost predicate AChangeShows(file: File, options: Options, answers: Answers, prices: Prices, stored: real, fetched: real)
    requires IsFile(file) && TakesBars(file, options)
  {
    if options.extendIntraday then
      var year := options.yearOf(FirstIntradayDay(file));
      FetchedYear(options, answers, year).Some? ==>
        SharesAMovedClose(IntradayOfYear(file.intraday, year, options), FetchedYear(options, answers, year).value, prices.intraday, stored, fetched)
    else if options.extendDaily then
      answers.everyDaily.Some? ==>
        SharesAMovedClose(file.daily.bars, KeptDaily(options, answers.everyDaily.value, answers.everyVolatilityFailed), prices.daily, stored, fetched)
    else
      answers.tailDaily.Some? && answers.tailIntraday.Some? ==>
        || SharesAMovedClose(DailyFrom(file.daily, options.lastDay - TAIL_COMPARISON_DAYS), KeptDaily(options, answers.tailDaily.value, answers.tailVolatilityFailed),
                             prices.daily, stored, fetched)
        || SharesAMovedClose(IntradayFrom(file.intraday, options.lastDay - TAIL_COMPARISON_DAYS), KeptIntraday(options, answers.tailIntraday.value, None),
                             prices.intraday, stored, fetched)
  }

  // ---------------------------------------------------------------------------------------
  // Fetched bars are on the answers' factor

  lemma {:induction false} KeptDailyOn(options: Options, bars: seq<Bar>, noVolatility: bool, quotes: int -> Quote, factor: real)
    requires AllOn(bars, quotes, factor)
    ensures AllOn(KeptDaily(options, bars, noVolatility), quotes, factor)
  {
    hide Scaled;
    if bars != [] {
      KeptDailyOn(options, bars[..|bars| - 1], noVolatility, quotes, factor);
      assert BarOn(bars[|bars| - 1], quotes, factor);
    }
  }

  lemma {:induction false} KeptIntradayOn(options: Options, bars: seq<Bar>, year: Option<int>, quotes: int -> Quote, factor: real)
    requires AllOn(bars, quotes, factor)
    ensures AllOn(KeptIntraday(options, bars, year), quotes, factor)
  {
    hide Scaled;
    if bars != [] {
      KeptIntradayOn(options, bars[..|bars| - 1], year, quotes, factor);
      assert BarOn(bars[|bars| - 1], quotes, factor);
    }
  }

  lemma {:induction false} FetchedYearsOn(options: Options, answers: Answers, first: int, last: int, prices: Prices, factor: real)
    requires AnswersOn(answers, prices, factor) && FetchedYears(options, answers, first, last).Some?
    ensures AllOn(FetchedYears(options, answers, first, last).value, prices.intraday, factor)
    decreases last - first
  {
    hide KeptIntraday, BarOn;
    if first <= last {
      FetchedYearsOn(options, answers, first, last - 1, prices, factor);
      KeptIntradayOn(options, answers.intradayOfYear(last).value, Some(last), prices.intraday, factor);
    }
  }

  lemma FetchedYearOn(options: Options, answers: Answers, year: int, prices: Prices, factor: real)
    requires AnswersOn(answers, prices, factor) && FetchedYear(options, answers, year).Some?
    ensures AllOn(FetchedYear(options, answers, year).value, prices.intraday, factor)
  {
    hide KeptIntraday, BarOn;
    KeptIntradayOn(options, answers.intradayOfYear(year).value, Some(year), prices.intraday, factor);
  }

  lemma DaysBeforeOn(bars: seq<Bar>, day: int, intraday: bool, quotes: int -> Quote, factor: real)
    requires AllOn(bars, quotes, factor)
    ensures AllOn(DaysBefore(bars, day, intraday), quotes, factor)
  {
    hide DaysBefore, BarOn;
    var older := DaysBefore(bars, day, intraday);
    forall i | 0 <= i < |older|
      ensures BarOn(older[i], quotes, factor)
    {
      assert older[i] in bars;
    }
  }

  /** The bars of days before one are exactly those. */
  lemma {:induction false} DaysBeforeAre(bars: seq<Bar>, day: int, intraday: bool, i: nat)
    requires i < |bars| && (if intraday then DayOf(bars[i].key) else bars[i].key) < day
    ensures bars[i] in DaysBefore(bars, day, intraday)
  {
    if i < |bars| - 1 {
      DaysBeforeAre(bars[..|bars| - 1], day, intraday, i);
    }
  }

  // ---------------------------------------------------------------------------------------
  // Writing keeps one adjustment

  lemma NoBarsOn(quotes: int -> Quote, factor: real)
    ensures On(NO_BARS, quotes, factor) && IsTable(NO_BARS)
  {}

  lemma ReplacedOn(file: File, daily: seq<Bar>, intraday: seq<Bar>, prices: Prices, factor: real)
    requires AllOn(daily, prices.daily, factor) && AllOn(intraday, prices.intraday, factor) && Replaced(file, daily, intraday).Ok?
    ensures FileOn(Replaced(file, daily, intraday).value, prices, factor)
  {
    hide On, UpsertedAll, InsertedAll, AllOn;
    NoBarsOn(prices.daily, factor);
    NoBarsOn(prices.intraday, factor);
    InsertedStaysOn(NO_BARS, daily, prices.daily, factor);
    UpsertedStaysOn(NO_BARS, intraday, prices.intraday, factor);
  }

  lemma FullRefreshOn(file: File, options: Options, answers: Answers, prices: Prices, factor: real)
    requires AnswersOn(answers, prices, factor) && FullRefresh(file, options, answers).Ok?
    ensures FileOn(FullRefresh(file, options, answers).value.0, prices, factor) && FullRefresh(file, options, answers).value.1 == Full
  {
    hide AllOn, FetchedYears, Replaced, FileOn;
    FullIsFull(file, options, answers);
    var daily := FetchedDaily(options, answers.everyDaily, answers.everyVolatilityFailed).value;
    KeptDailyOn(options, answers.everyDaily.value, answers.everyVolatilityFailed, prices.daily, factor);
    var first := FirstYear(options, EarliestDay(daily));
    FetchedYearsOn(options, answers, first, options.yearOf(options.lastDay), prices, factor);
    ReplacedOn(file, daily, FetchedYears(options, answers, first, options.yearOf(options.lastDay)).value, prices, factor);
  }

  /** The stored keys stay; older modes change no stored bar. */
  ghost predicate KeepsKeys(before: File, after: File) {
    before.daily.bars.Keys <= after.daily.bars.Keys && before.intraday.bars.Keys <= after.intraday.bars.Keys
  }

  ghost predicate KeepsBars(before: File, after: File) {
    && (forall key :: key in before.daily.bars ==> key in after.daily.bars && after.daily.bars[key] == before.daily.bars[key])
    && (forall key :: key in before.intraday.bars ==> key in after.intraday.bars && after.intraday.bars[key] == before.intraday.bars[key])
  }

  lemma AddedKeeps(file: File, daily: seq<Bar>, intraday: seq<Bar>, prices: Prices, factor: real)
    requires IsFile(file) && Added(file, daily, intraday).Ok?
    ensures KeepsKeys(file, Added(file, daily, intraday).value)
    ensures FileOn(file, prices, factor) && AllOn(daily, prices.daily, factor) && AllOn(intraday, prices.intraday, factor) ==>
              FileOn(Added(file, daily, intraday).value, prices, factor)
  {
    hide On, UpsertedAll, AllOn, IsTable;
    UpsertedKeepsKeys(file.daily, daily, |daily|);
    UpsertedKeepsKeys(file.intraday, intraday, |intraday|);
    if FileOn(file, prices, factor) && AllOn(daily, prices.daily, factor) && AllOn(intraday, prices.intraday, factor) {
      UpsertedStaysOn(file.daily, daily, prices.daily, factor);
      UpsertedStaysOn(file.intraday, intraday, prices.intraday, factor);
    }
  }

  lemma OlderDailyKeeps(file: File, bars: seq<Bar>, prices: Prices, factor: real)
    requires IsFile(file) && OlderDailyAdded(file, bars).Ok?
    ensures KeepsBars(file, OlderDailyAdded(file, bars).value)
    ensures FileOn(file, prices, factor) && AllOn(bars, prices.daily, factor) ==> FileOn(OlderDailyAdded(file, bars).value, prices, factor)
  {
    hide On, InsertedAll, AllOn, IsTable, DaysBefore;
    var older := DaysBefore(bars, file.daily.keys[0], false);
    InsertedBars(file.daily, older, |older|);
    if FileOn(file, prices, factor) && AllOn(bars, prices.daily, factor) {
      DaysBeforeOn(bars, file.daily.keys[0], false, prices.daily, factor);
      InsertedStaysOn(file.daily, older, prices.daily, factor);
    }
  }

  lemma OlderIntradayKeeps(file: File, bars: seq<Bar>, prices: Prices, factor: real)
    requires IsFile(file) && OlderIntradayAdded(file, bars).Ok?
    ensures KeepsBars(file, OlderIntradayAdded(file, bars).value)
    ensures FileOn(file, prices, factor) && AllOn(bars, prices.intraday, factor) ==> FileOn(OlderIntradayAdded(file, bars).value, prices, factor)
  {
    hide On, InsertedAll, AllOn, IsTable, DaysBefore;
    var older := DaysBefore(bars, DayOf(file.intraday.keys[0]), true);
    InsertedBars(file.intraday, older, |older|);
    if FileOn(file, prices, factor) && AllOn(bars, prices.intraday, factor) {
      DaysBeforeOn(bars, DayOf(file.intraday.keys[0]), true, prices.intraday, factor);
      InsertedStaysOn(file.intraday, older, prices.intraday, factor);
    }
  }

  // ---------------------------------------------------------------------------------------
  // When a refresh mixes two adjustments

  /** No factor fits every bar. */
  ghost predicate Mixed(file: File, prices: Prices) {
    forall factor :: !FileOn(file, prices, factor)
  }

  /** A positive price tells its factor. */
  lemma FactorOfBar(bar: Bar, quotes: int -> Quote, a: real, b: real)
    requires BarOn(bar, quotes, a) && BarOn(bar, quotes, b) && quotes(bar.key).first > 0.0
    ensures a == b
  {
    var price := quotes(bar.key).first;
    assert price * a == price * b;
    assert a == price * a / price && b == price * b / price;
  }

  /** Two of a table's bars on two factors: no factor fits it. */
  lemma TwoFactors(table: Table, quotes: int -> Quote, i: int, j: int, a: real, b: real, factor: real)
    requires IsTable(table) && i in table.bars && j in table.bars && BarOn(table.bars[i], quotes, a) && BarOn(table.bars[j], quotes, b) && a != b
    requires forall key :: quotes(key).first > 0.0
    ensures !On(table, quotes, factor)
  {
    hide BarOn;
    if On(table, quotes, factor) {
      FactorOfBar(table.bars[i], quotes, a, factor);
      FactorOfBar(table.bars[j], quotes, b, factor);
    }
  }

  /** A stored bar that the written ones do not replace. */
  predicate KeepsOne(table: Table, bars: seq<Bar>) {
    exists key :: key in table.bars && !Writes(bars, |bars|, key)
  }

  /** Bars on another factor written over a table on one: no factor fits it exactly when a stored bar is not replaced. */
  lemma UpsertedFactor(table: Table, bars: seq<Bar>, quotes: int -> Quote, stored: real, fetched: real, factor: real)
    requires IsTable(table) && On(table, quotes, stored) && AllOn(bars, quotes, fetched) && bars != [] && stored != fetched
    requires forall key :: quotes(key).first > 0.0
    ensures KeepsOne(table, bars) ==> !On(UpsertedAll(table, bars, |bars|), quotes, factor)
    ensures !KeepsOne(table, bars) ==> On(UpsertedAll(table, bars, |bars|), quotes, fetched)
    ensures On(UpsertedAll(table, bars, |bars|), quotes, factor) ==> factor == fetched
  {
    hide BarOn, AllOn, IsTable, UpsertedAll;
    var after := UpsertedAll(table, bars, |bars|);
    var written := bars[0].key;
    assert Writes(bars, |bars|, written);
    UpsertedBar(table, bars, |bars|, quotes, fetched, written);
    KeyOfBar(after, written);
    if On(after, quotes, factor) {
      FactorOfBar(after.bars[written], quotes, fetched, factor);
    }
    if KeepsOne(table, bars) {
      var key :| key in table.bars && !Writes(bars, |bars|, key);
      UpsertedBar(table, bars, |bars|, quotes, fetched, key);
      TwoFactors(after, quotes, key, written, stored, fetched, factor);
    } else {
      forall key | key in after.bars
        ensures BarOn(after.bars[key], quotes, fetched)
      {
        UpsertedBar(table, bars, |bars|, quotes, fetched, key);
      }
    }
  }

  lemma KeyOfBar(table: Table, key: int)
    requires IsTable(table) && key in table.bars
    ensures table.bars[key].key == key
  {}

  lemma AddedMixes(file: File, daily: seq<Bar>, intraday: seq<Bar>, prices: Prices, stored: real, fetched: real)
    requires IsFile(file) && FileOn(file, prices, stored) && prices.Positive() && stored != fetched && Added(file, daily, intraday).Ok?
    requires AllOn(daily, prices.daily, fetched) && AllOn(intraday, prices.intraday, fetched)
    ensures Mixed(Added(file, daily, intraday).value, prices) <==> KeepsOne(file.daily, daily) || KeepsOne(file.intraday, intraday)
  {
    hide On, AllOn, IsTable, UpsertedAll, KeepsOne;
    var after := Added(file, daily, intraday).value;
    forall factor
      ensures FileOn(after, prices, factor) ==> !KeepsOne(file.daily, daily) && !KeepsOne(file.intraday, intraday)
    {
      UpsertedFactor(file.daily, daily, prices.daily, stored, fetched, factor);
      UpsertedFactor(file.intraday, intraday, prices.intraday, stored, fetched, factor);
    }
    UpsertedFactor(file.daily, daily, prices.daily, stored, fetched, fetched);
    UpsertedFactor(file.intraday, intraday, prices.intraday, stored, fetched, fetched);
    assert !KeepsOne(file.daily, daily) && !KeepsOne(file.intraday, intraday) ==> FileOn(after, prices, fetched);
  }

  /** A last month on another adjustment leaves the file on two exactly when it fits the stored bars to the cent and does not replace them all. */
  lemma TailMixesExactlyWhen(file: File, options: Options, answers: Answers, prices: Prices, stored: real, fetched: real)
    requires IsFile(file) && TakesBars(file, options) && !options.extendIntraday && !options.extendDaily && prices.Positive()
    requires FileOn(file, prices, stored) && AnswersOn(answers, prices, fetched) && stored != fetched && Refreshed(file, options, answers).Ok?
    ensures answers.tailDaily.Some? && answers.tailIntraday.Some?
    ensures var daily, intraday := KeptDaily(options, answers.tailDaily.value, answers.tailVolatilityFailed), KeptIntraday(options, answers.tailIntraday.value, None);
            Mixed(Refreshed(file, options, answers).value.0, prices)
            <==> TailFits(file, options, daily, intraday) && (KeepsOne(file.daily, daily) || KeepsOne(file.intraday, intraday))
  {
    hide FileOn, AllOn, KeptDaily, KeptIntraday, FullRefresh, Added, TailFits, KeepsOne, TakesBars, IsFile, Mixed;
    var daily, intraday := KeptDaily(options, answers.tailDaily.value, answers.tailVolatilityFailed), KeptIntraday(options, answers.tailIntraday.value, None);
    if TailFits(file, options, daily, intraday) {
      KeptDailyOn(options, answers.tailDaily.value, answers.tailVolatilityFailed, prices.daily, fetched);
      KeptIntradayOn(options, answers.tailIntraday.value, None, prices.intraday, fetched);
      AddedMixes(file, daily, intraday, prices, stored, fetched);
    } else {
      FullRefreshOn(file, options, answers, prices, fetched);
      NotMixed(FullRefresh(file, options, answers).value.0, prices, fetched);
    }
  }

  lemma NotMixed(file: File, prices: Prices, factor: real)
    requires FileOn(file, prices, factor)
    ensures !Mixed(file, prices)
  {}

  /** Older bars on another factor put before a table's: no factor fits it exactly when there is one. */
  lemma InsertedFactor(table: Table, bars: seq<Bar>, quotes: int -> Quote, stored: real, fetched: real, factor: real)
    requires IsTable(table) && table.keys != [] && On(table, quotes, stored) && AllOn(bars, quotes, fetched) && stored != fetched
    requires InsertedAll(table, bars, |bars|).Some? && forall key :: quotes(key).first > 0.0
    ensures bars != [] ==> !On(InsertedAll(table, bars, |bars|).value, quotes, factor)
  {
    hide BarOn;
    InsertedBars(table, bars, |bars|);
    hide IsTable, InsertedAll;
    var after := InsertedAll(table, bars, |bars|).value;
    var kept := HasKey(table);
    if bars != [] {
      TwoFactors(after, quotes, kept, bars[0].key, stored, fetched, factor);
    }
  }

  lemma HasKey(table: Table) returns (key: int)
    requires IsTable(table) && table.keys != []
    ensures key in table.bars
  {
    key := table.keys[0];
    assert key in table.keys;
  }

  predicate HasDayBefore(bars: seq<Bar>, day: int, intraday: bool) {
    exists i :: 0 <= i < |bars| && (if intraday then DayOf(bars[i].key) else bars[i].key) < day
  }

  lemma DaysBeforeNone(bars: seq<Bar>, day: int, intraday: bool)
    ensures DaysBefore(bars, day, intraday) != [] <==> HasDayBefore(bars, day, intraday)
  {
    hide DaysBefore;
    var older := DaysBefore(bars, day, intraday);
    if HasDayBefore(bars, day, intraday) {
      var i :| 0 <= i < |bars| && (if intraday then DayOf(bars[i].key) else bars[i].key) < day;
      DaysBeforeAre(bars, day, intraday, i);
    }
    if older != [] {
      assert older[0] in older && older[0] in bars;
    }
  }

  lemma OlderDailyMixes(file: File, bars: seq<Bar>, prices: Prices, stored: real, fetched: real)
    requires IsFile(file) && FileOn(file, prices, stored) && prices.Positive() && stored != fetched && OlderDailyAdded(file, bars).Ok?
    requires AllOn(bars, prices.daily, fetched)
    ensures Mixed(OlderDailyAdded(file, bars).value, prices) <==> HasDayBefore(bars, file.daily.keys[0], false)
  {
    hide On, AllOn, IsTable, InsertedAll, DaysBefore, HasDayBefore;
    var older, after := DaysBefore(bars, file.daily.keys[0], false), OlderDailyAdded(file, bars).value;
    DaysBeforeNone(bars, file.daily.keys[0], false);
    DaysBeforeOn(bars, file.daily.keys[0], false, prices.daily, fetched);
    if older == [] {
      InsertedNothing(file.daily);
      NotMixed(after, prices, stored);
    } else {
      forall factor
        ensures !FileOn(after, prices, factor)
      {
        InsertedFactor(file.daily, older, prices.daily, stored, fetched, factor);
      }
    }
  }

  lemma OlderIntradayMixes(file: File, bars: seq<Bar>, prices: Prices, stored: real, fetched: real)
    requires IsFile(file) && FileOn(file, prices, stored) && prices.Positive() && stored != fetched && OlderIntradayAdded(file, bars).Ok?
    requires AllOn(bars, prices.intraday, fetched)
    ensures Mixed(OlderIntradayAdded(file, bars).value, prices) <==> HasDayBefore(bars, DayOf(file.intraday.keys[0]), true)
  {
    hide On, AllOn, IsTable, InsertedAll, DaysBefore, HasDayBefore;
    var older, after := DaysBefore(bars, DayOf(file.intraday.keys[0]), true), OlderIntradayAdded(file, bars).value;
    DaysBeforeNone(bars, DayOf(file.intraday.keys[0]), true);
    DaysBeforeOn(bars, DayOf(file.intraday.keys[0]), true, prices.intraday, fetched);
    if older == [] {
      InsertedNothing(file.intraday);
      NotMixed(after, prices, stored);
    } else {
      forall factor
        ensures !FileOn(after, prices, factor)
      {
        InsertedFactor(file.intraday, older, prices.intraday, stored, fetched, factor);
      }
    }
  }

  lemma InsertedNothing(table: Table)
    requires IsTable(table)
    ensures InsertedAll(table, [], 0) == Some(table)
  {}

  /** Every daily bar on another adjustment leaves the file on two exactly when they agree with the stored ones to the cent and one is older. */
  lemma OlderDailyMixesExactlyWhen(file: File, options: Options, answers: Answers, prices: Prices, stored: real, fetched: real)
    requires IsFile(file) && TakesBars(file, options) && !options.extendIntraday && options.extendDaily && prices.Positive()
    requires FileOn(file, prices, stored) && AnswersOn(answers, prices, fetched) && stored != fetched && Refreshed(file, options, answers).Ok?
    ensures answers.everyDaily.Some?
    ensures var daily := KeptDaily(options, answers.everyDaily.value, answers.everyVolatilityFailed);
            Mixed(Refreshed(file, options, answers).value.0, prices)
            <==> Shares(file.daily.bars, daily) && Agrees(file.daily.bars, daily) && HasDayBefore(daily, FirstDay(file), false)
  {
    hide FileOn, AllOn, KeptDaily, FullRefresh, OlderDailyAdded, Shares, Agrees, HasDayBefore, IsFile, Mixed;
    var daily := KeptDaily(options, answers.everyDaily.value, answers.everyVolatilityFailed);
    if Shares(file.daily.bars, daily) && Agrees(file.daily.bars, daily) {
      KeptDailyOn(options, answers.everyDaily.value, answers.everyVolatilityFailed, prices.daily, fetched);
      OlderDailyMixes(file, daily, prices, stored, fetched);
    } else {
      FullRefreshOn(file, options, answers, prices, fetched);
      NotMixed(FullRefresh(file, options, answers).value.0, prices, fetched);
    }
  }

  /** Older 30-minute bars on another adjustment leave the file on two exactly when those of the first stored year agree to the cent and one is older. */
  lemma OlderIntradayMixesExactlyWhen(file: File, options: Options, answers: Answers, prices: Prices, stored: real, fetched: real)
    requires IsFile(file) && TakesBars(file, options) && options.extendIntraday && prices.Positive()
    requires FileOn(file, prices, stored) && AnswersOn(answers, prices, fetched) && stored != fetched && Refreshed(file, options, answers).Ok?
    ensures var first, storedFirst := FirstYear(options, FirstDay(file)), options.yearOf(FirstIntradayDay(file));
            Mixed(Refreshed(file, options, answers).value.0, prices)
            <==> first < storedFirst && FetchedYears(options, answers, first, storedFirst).Some? && FetchedYear(options, answers, storedFirst).Some?
                 && (var compared, sameYear := FetchedYear(options, answers, storedFirst).value, IntradayOfYear(file.intraday, storedFirst, options);
                     Shares(sameYear, compared) && Agrees(sameYear, compared))
                 && HasDayBefore(FetchedYears(options, answers, first, storedFirst).value, FirstIntradayDay(file), true)
  {
    hide FileOn, AllOn, FullRefresh, OlderIntradayAdded, Shares, Agrees, IntradayOfYear, FetchedYear, HasDayBefore, IsFile, Mixed;
    var first, storedFirst := FirstYear(options, FirstDay(file)), options.yearOf(FirstIntradayDay(file));
    if storedFirst <= first {
      NotMixed(file, prices, stored);
    } else {
      var bars, compared := FetchedYears(options, answers, first, storedFirst).value, FetchedYear(options, answers, storedFirst).value;
      if Shares(IntradayOfYear(file.intraday, storedFirst, options), compared) && Agrees(IntradayOfYear(file.intraday, storedFirst, options), compared) {
        FetchedYearsOn(options, answers, first, storedFirst, prices, fetched);
        OlderIntradayMixes(file, bars, prices, stored, fetched);
      } else {
        FullRefreshOn(file, options, answers, prices, fetched);
        NotMixed(FullRefresh(file, options, answers).value.0, prices, fetched);
      }
    }
  }

  // ---------------------------------------------------------------------------------------
  // One refresh

  /** What a refresh that did not fetch every bar keeps, and on which factor. */
  ghost predicate RefreshedWell(file: File, after: File, kind: Kind, prices: Prices, stored: real, fetched: real) {
    match kind
    case Full => FileOn(after, prices, fetched)
    case Tail => FileOn(after, prices, stored) && KeepsKeys(file, after)
    case OlderDaily => FileOn(after, prices, stored) && KeepsBars(file, after)
    case OlderIntraday => FileOn(after, prices, stored) && KeepsBars(file, after)
  }

  lemma StoredOn(table: Table, quotes: int -> Quote, factor: real)
    requires IsTable(table) && On(table, quotes, factor)
    ensures forall key :: key in table.bars ==> table.bars[key].key == key && BarOn(table.bars[key], quotes, factor)
  {}

  lemma TailRefreshWell(file: File, options: Options, answers: Answers, prices: Prices, stored: real, fetched: real)
    requires IsFile(file) && TakesBars(file, options) && !options.extendIntraday && !options.extendDaily && FileOn(file, prices, stored) && AnswersOn(answers, prices, fetched)
    requires stored != fetched ==> AChangeShows(file, options, answers, prices, stored, fetched)
    requires TailRefresh(file, options, answers).Ok?
    ensures var (after, kind) := TailRefresh(file, options, answers).value; RefreshedWell(file, after, kind, prices, stored, fetched)
  {
    hide AllOn, BarOn, On, KeptDaily, KeptIntraday, FullRefresh, Added, Shares, Agrees, KeepsKeys, KeepsBars, TakesBars, IsTable, SharesAMovedClose;
    var daily, intraday := KeptDaily(options, answers.tailDaily.value, answers.tailVolatilityFailed), KeptIntraday(options, answers.tailIntraday.value, None);
    if TailFits(file, options, daily, intraday) {
      KeptDailyOn(options, answers.tailDaily.value, answers.tailVolatilityFailed, prices.daily, fetched);
      KeptIntradayOn(options, answers.tailIntraday.value, None, prices.intraday, fetched);
      StoredOn(file.daily, prices.daily, stored);
      StoredOn(file.intraday, prices.intraday, stored);
      var day := options.lastDay - TAIL_COMPARISON_DAYS;
      if SharesAMovedClose(DailyFrom(file.daily, day), daily, prices.daily, stored, fetched) {
        MovedCloseDiffers(DailyFrom(file.daily, day), daily, prices.daily, stored, fetched);
      }
      if SharesAMovedClose(IntradayFrom(file.intraday, day), intraday, prices.intraday, stored, fetched) {
        MovedCloseDiffers(IntradayFrom(file.intraday, day), intraday, prices.intraday, stored, fetched);
      }
      AddedKeeps(file, daily, intraday, prices, stored);
    } else {
      FullRefreshOn(file, options, answers, prices, fetched);
    }
  }

  lemma OlderDailyRefreshWell(file: File, options: Options, answers: Answers, prices: Prices, stored: real, fetched: real)
    requires IsFile(file) && TakesBars(file, options) && !options.extendIntraday && options.extendDaily && FileOn(file, prices, stored) && AnswersOn(answers, prices, fetched)
    requires stored != fetched ==> AChangeShows(file, options, answers, prices, stored, fetched)
    requires OlderDailyRefresh(file, options, answers).Ok?
    ensures var (after, kind) := OlderDailyRefresh(file, options, answers).value; RefreshedWell(file, after, kind, prices, stored, fetched)
  {
    hide AllOn, BarOn, On, KeptDaily, FullRefresh, OlderDailyAdded, Shares, Agrees, KeepsKeys, KeepsBars, TakesBars, IsTable, SharesAMovedClose;
    var daily := KeptDaily(options, answers.everyDaily.value, answers.everyVolatilityFailed);
    if Shares(file.daily.bars, daily) && Agrees(file.daily.bars, daily) {
      KeptDailyOn(options, answers.everyDaily.value, answers.everyVolatilityFailed, prices.daily, fetched);
      StoredOn(file.daily, prices.daily, stored);
      if stored != fetched {
        MovedCloseDiffers(file.daily.bars, daily, prices.daily, stored, fetched);
      }
      OlderDailyKeeps(file, daily, prices, stored);
    } else {
      FullRefreshOn(file, options, answers, prices, fetched);
    }
  }

  lemma OlderIntradayRefreshWell(file: File, options: Options, answers: Answers, prices: Prices, stored: real, fetched: real)
    requires IsFile(file) && TakesBars(file, options) && options.extendIntraday && FileOn(file, prices, stored) && AnswersOn(answers, prices, fetched)
    requires stored != fetched ==> AChangeShows(file, options, answers, prices, stored, fetched)
    requires OlderIntradayRefresh(file, options, answers).Ok?
    ensures var (after, kind) := OlderIntradayRefresh(file, options, answers).value; RefreshedWell(file, after, kind, prices, stored, fetched)
  {
    hide AllOn, BarOn, On, FullRefresh, OlderIntradayAdded, Shares, Agrees, KeepsKeys, IsTable, AnswersOn, FetchedYear, SharesAMovedClose;
    var first, storedFirst := FirstYear(options, FirstDay(file)), options.yearOf(FirstIntradayDay(file));
    if storedFirst > first {
      var bars, compared, sameYear := FetchedYears(options, answers, first, storedFirst).value, FetchedYear(options, answers, storedFirst).value,
        IntradayOfYear(file.intraday, storedFirst, options);
      if Shares(sameYear, compared) && Agrees(sameYear, compared) {
        FetchedYearsOn(options, answers, first, storedFirst, prices, fetched);
        FetchedYearOn(options, answers, storedFirst, prices, fetched);
        StoredOn(file.intraday, prices.intraday, stored);
        if stored != fetched {
          MovedCloseDiffers(sameYear, compared, prices.intraday, stored, fetched);
        }
        OlderIntradayKeeps(file, bars, prices, stored);
      } else {
        FullRefreshOn(file, options, answers, prices, fetched);
      }
    }
  }

  /** One refresh of a file on one adjustment leaves it on one: its own, or for a full refresh IBKR's of now. No other refresh drops a stored bar, and the older modes change none. */
  lemma RefreshKeepsOneAdjustment(file: File, options: Options, answers: Answers, prices: Prices, stored: real, fetched: real)
    requires IsFile(file) && FileOn(file, prices, stored) && AnswersOn(answers, prices, fetched) && Refreshed(file, options, answers).Ok?
    requires TakesBars(file, options) && stored != fetched ==> AChangeShows(file, options, answers, prices, stored, fetched)
    ensures var (after, kind) := Refreshed(file, options, answers).value;
            IsFile(after) && RefreshedWell(file, after, kind, prices, stored, fetched)
  {
    hide FileOn, AnswersOn, FullRefresh, TailRefresh, OlderDailyRefresh, OlderIntradayRefresh, TakesBars, AChangeShows, RefreshedWell, IsTable;
    RefreshedIsFile(file, options, answers);
    if !TakesBars(file, options) {
      FullRefreshOn(file, options, answers, prices, fetched);
      FullIsWell(file, FullRefresh(file, options, answers).value.0, prices, stored, fetched);
    } else if options.extendIntraday {
      OlderIntradayRefreshWell(file, options, answers, prices, stored, fetched);
    } else if options.extendDaily {
      OlderDailyRefreshWell(file, options, answers, prices, stored, fetched);
    } else {
      TailRefreshWell(file, options, answers, prices, stored, fetched);
    }
  }

  lemma FullIsWell(file: File, after: File, prices: Prices, stored: real, fetched: real)
    requires FileOn(after, prices, fetched)
    ensures RefreshedWell(file, after, Full, prices, stored, fetched)
  {}

  lemma RefreshedIsFile(file: File, options: Options, answers: Answers)
    requires IsFile(file) && Refreshed(file, options, answers).Ok?
    ensures IsFile(Refreshed(file, options, answers).value.0)
  {
    hide IsTable, Replaced, Added, OlderDailyAdded, OlderIntradayAdded, FetchedYears, KeptDaily, KeptIntraday, Shares, Agrees, TakesBars, IntradayOfYear, TailFits;
  }

  // ---------------------------------------------------------------------------------------
  // Any sequence of refreshes

  /** A refresh as it happens: what is asked for, IBKR's answers, and the factor they are all on. */
  datatype Event = Event(options: Options, answers: Answers, factor: real)

  /** The file after refreshes; one that fails leaves it as it was. */
  ghost function AfterRefreshes(file: File, events: seq<Event>): (after: File)
    requires IsFile(file)
    ensures IsFile(after)
  {
    if events == [] then file else
    var before, last := AfterRefreshes(file, events[..|events| - 1]), events[|events| - 1];
    match Refreshed(before, last.options, last.answers)
    case Ok(done) =>
      RefreshedIsFile(before, last.options, last.answers);
      done.0
    case Err(_) => before
  }

  /** Each refresh's answers are on one factor, and a change from the stored bars' moves by a cent the price of a compared bar. */
  ghost predicate ChangesShow(file: File, prices: Prices, events: seq<Event>)
    requires IsFile(file)
  {
    events != [] ==>
      var before, last := AfterRefreshes(file, events[..|events| - 1]), events[|events| - 1];
      && ChangesShow(file, prices, events[..|events| - 1])
      && AnswersOn(last.answers, prices, last.factor)
      && (TakesBars(before, last.options) ==>
            forall stored :: FileOn(before, prices, stored) && stored != last.factor ==> AChangeShows(before, last.options, last.answers, prices, stored, last.factor))
  }

  const NO_FILE := File(NO_BARS, NO_BARS, None)

  /** Over any sequence of refreshes of a file without bars, all its bars are on one adjustment. */
  lemma {:induction false} OneAdjustmentAlways(prices: Prices, events: seq<Event>)
    requires ChangesShow(NO_FILE, prices, events)
    ensures exists factor :: FileOn(AfterRefreshes(NO_FILE, events), prices, factor)
  {
    hide FileOn, Refreshed, TakesBars, AChangeShows, AnswersOn, IsTable;
    NoBarsIsTable();
    if events == [] {
      NoBarsOn(prices.daily, 0.0);
      NoBarsOn(prices.intraday, 0.0);
      FilesOnByTable(NO_FILE, prices, 0.0);
      assert FileOn(AfterRefreshes(NO_FILE, events), prices, 0.0);
    } else {
      var last := events[|events| - 1];
      OneAdjustmentAlways(prices, events[..|events| - 1]);
      var before := AfterRefreshes(NO_FILE, events[..|events| - 1]);
      var stored :| FileOn(before, prices, stored);
      var refreshed := Refreshed(before, last.options, last.answers);
      if refreshed.Ok? {
        RefreshKeepsOneAdjustment(before, last.options, last.answers, prices, stored, last.factor);
        assert AfterRefreshes(NO_FILE, events) == refreshed.value.0;
        assert FileOn(refreshed.value.0, prices, stored) || FileOn(refreshed.value.0, prices, last.factor);
      } else {
        assert FileOn(AfterRefreshes(NO_FILE, events), prices, stored);
      }
    }
  }

  lemma FilesOnByTable(file: File, prices: Prices, factor: real)
    requires On(file.daily, prices.daily, factor) && On(file.intraday, prices.intraday, factor)
    ensures FileOn(file, prices, factor)
  {}

  // ---------------------------------------------------------------------------------------
  // A change too small to show

  const TEN := Quote(10.0, 10.0, 10.0, 10.0)
  const TEN_THROUGHOUT := Prices((key: int) => TEN, (key: int) => TEN)

  function TenOn(key: int, factor: real): Bar {
    Bar(key, 10.0 * factor, 10.0 * factor, 10.0 * factor, Some(10.0 * factor), None, None)
  }

  /** Days 18000 and 18001 and a 30-minute bar of each, all on the factor 1. */
  const DAY: int := 18000
  const STORED_TEN := File(Table(map[DAY := TenOn(DAY, 1.0), DAY + 1 := TenOn(DAY + 1, 1.0)], [DAY, DAY + 1]),
                           Table(map[DAY * 1440 := TenOn(DAY * 1440, 1.0), (DAY + 1) * 1440 := TenOn((DAY + 1) * 1440, 1.0)], [DAY * 1440, (DAY + 1) * 1440]),
                           Some(FILE_STOCK_BARS_VERSION))

  const LAST_MONTH := Options(DAY, DAY + 1, false, false, (day: int) => 2019)

  /** The second day and its 30-minute bar, after an adjustment of a hundred-thousandth. */
  const SLIGHTLY_ADJUSTED := Answers(Some([TenOn(DAY + 1, 1.00001)]), false, Some([TenOn((DAY + 1) * 1440, 1.00001)]), None, false, (year: int) => None)

  /** A hundredth of a cent on a $10 stock: the last month fits to the cent, is written over the stored bars, and the file is on two adjustments. */
  lemma UnseenAdjustmentMixes()
    ensures IsFile(STORED_TEN) && TEN_THROUGHOUT.Positive() && FileOn(STORED_TEN, TEN_THROUGHOUT, 1.0) && AnswersOn(SLIGHTLY_ADJUSTED, TEN_THROUGHOUT, 1.00001)
    ensures Refreshed(STORED_TEN, LAST_MONTH, SLIGHTLY_ADJUSTED).Ok? && Refreshed(STORED_TEN, LAST_MONTH, SLIGHTLY_ADJUSTED).value.1 == Tail
    ensures Mixed(Refreshed(STORED_TEN, LAST_MONTH, SLIGHTLY_ADJUSTED).value.0, TEN_THROUGHOUT)
  {
    hide FileOn, On, AllOn, BarOn, KeptDaily, KeptIntraday, TailFits, IsTable, Mixed, KeepsOne, TakesBars, AnswersOn, Added, FullRefresh;
    TenIsAFile();
    TenIsAnswered();
    TenIsKept();
    TenFits();
    FirstDayStays();
    TenIsWritten();
    TailMixesExactlyWhen(STORED_TEN, LAST_MONTH, SLIGHTLY_ADJUSTED, TEN_THROUGHOUT, 1.0, 1.00001);
  }

  lemma TenIsAnswered()
    ensures AnswersOn(SLIGHTLY_ADJUSTED, TEN_THROUGHOUT, 1.00001) && TEN_THROUGHOUT.Positive()
  {
    TenIsOn(DAY + 1, 1.00001);
    TenIsOn((DAY + 1) * 1440, 1.00001);
  }

  lemma TenIsWritten()
    requires IsFile(STORED_TEN)
    ensures Refreshed(STORED_TEN, LAST_MONTH, SLIGHTLY_ADJUSTED).Ok? && Refreshed(STORED_TEN, LAST_MONTH, SLIGHTLY_ADJUSTED).value.1 == Tail
  {
    hide KeptDaily, KeptIntraday, TailFits, TakesBars, FullRefresh, UpsertedAll, IsTable;
    TenIsAFile();
    TenIsKept();
    TenFits();
  }

  lemma TenIsOn(key: int, factor: real)
    ensures BarOn(TenOn(key, factor), TEN_THROUGHOUT.daily, factor) && BarOn(TenOn(key, factor), TEN_THROUGHOUT.intraday, factor)
  {}

  lemma TenIsAFile()
    ensures IsFile(STORED_TEN) && FileOn(STORED_TEN, TEN_THROUGHOUT, 1.0) && TakesBars(STORED_TEN, LAST_MONTH)
  {
    TenIsOn(DAY, 1.0);
    TenIsOn(DAY + 1, 1.0);
    TenIsOn(DAY * 1440, 1.0);
    TenIsOn((DAY + 1) * 1440, 1.0);
  }

  lemma TenIsKept()
    ensures KeptDaily(LAST_MONTH, SLIGHTLY_ADJUSTED.tailDaily.value, false) == [TenOn(DAY + 1, 1.00001)]
    ensures KeptIntraday(LAST_MONTH, SLIGHTLY_ADJUSTED.tailIntraday.value, None) == [TenOn((DAY + 1) * 1440, 1.00001)]
  {
    assert [TenOn(DAY + 1, 1.00001)][..0] == [] && [TenOn((DAY + 1) * 1440, 1.00001)][..0] == [];
  }

  lemma TenFits()
    ensures TailFits(STORED_TEN, LAST_MONTH, [TenOn(DAY + 1, 1.00001)], [TenOn((DAY + 1) * 1440, 1.00001)])
  {
    var day := LAST_MONTH.lastDay - TAIL_COMPARISON_DAYS;
    assert Cents(10.0) == 1000 && Cents(10.0001) == 1000;
    assert DAY + 1 in DailyFrom(STORED_TEN.daily, day) && (DAY + 1) * 1440 in IntradayFrom(STORED_TEN.intraday, day);
    assert [TenOn(DAY + 1, 1.00001)][0].key == DAY + 1 && [TenOn((DAY + 1) * 1440, 1.00001)][0].key == (DAY + 1) * 1440;
  }

  lemma FirstDayStays()
    ensures KeepsOne(STORED_TEN.daily, [TenOn(DAY + 1, 1.00001)])
  {
    assert DAY in STORED_TEN.daily.bars && !Writes([TenOn(DAY + 1, 1.00001)], 1, DAY);
  }
}
