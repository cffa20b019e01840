/**
 The refresh of a file's stock bars (src/backtest/refreshFileStockBars.ts): the last month written over
 the stored bars, or older bars added before them, when prices agree to the cent on what they share, and
 every bar fetched again otherwise. IBKR's answers in one refresh are an input, all on its adjustment then.
 */
module StockBarRefresh {
  import opened Wrappers
  import opened StockBars

  const DAILY_BARS_START_DAY := 10957
  const INTRADAY_BARS_START_YEAR := 2006
  const TAIL_MAX_DAYS_BEHIND := 14
  const TAIL_COMPARISON_DAYS := 45
  const OPTIONS_BEFORE_STOCK_TOLERANCE_DAYS := 14

  /** What is refreshed; `yearOf` is a day's year. */
  datatype Options = Options(firstOptionDay: int, lastDay: int, extendDaily: bool, extendIntraday: bool, yearOf: int -> int)

  /** IBKR's answers; None for a request that fails. A failed implied-volatility request, the last month's or every day's, leaves its days without one. */
  datatype Answers = Answers(tailDaily: Option<seq<Bar>>, tailVolatilityFailed: bool, tailIntraday: Option<seq<Bar>>,
                             everyDaily: Option<seq<Bar>>, everyVolatilityFailed: bool, intradayOfYear: int -> Option<seq<Bar>>)

  datatype Kind = Tail | OlderDaily | OlderIntraday | Full

  datatype RefreshError = RequestFailed | NoDailyBars | NoIntradayBars | OptionsPredateStock | NoImpliedVolatility | WriteFailed

  // ---------------------------------------------------------------------------------------
  // Comparing

  function Cents(price: real): int {
    (price * 100.0 + 0.5).Floor
  }

  predicate SameToTheCent(first: Option<real>, second: Option<real>) {
    first.Some? && second.Some? && Cents(first.value) == Cents(second.value)
  }

  predicate Shares(stored: map<int, Bar>, bars: seq<Bar>) {
    exists i :: 0 <= i < |bars| && bars[i].key in stored
  }

  /** Every bar the two have has one close, to the cent. */
  predicate Agrees(stored: map<int, Bar>, bars: seq<Bar>) {
    forall i :: 0 <= i < |bars| && bars[i].key in stored ==> SameToTheCent(bars[i].close, stored[bars[i].key].close)
  }

  /** reasonDailyBarsDiffer, reasonIntradayBarsDiffer: no reason against adding. */
  method FindsNoReason(stored: map<int, Bar>, bars: seq<Bar>) returns (ok: bool)
    ensures ok <==> Shares(stored, bars) && Agrees(stored, bars)
  {
    var shared, differing := 0, 0;
    for i := 0 to |bars|
      invariant shared >= 0 && differing >= 0
      invariant shared > 0 <==> exists k :: 0 <= k < i && bars[k].key in stored
      invariant differing == 0 <==> forall k :: 0 <= k < i && bars[k].key in stored ==> SameToTheCent(bars[k].close, stored[bars[k].key].close)
    {
      if bars[i].key in stored {
        shared := shared + 1;
        if !SameToTheCent(bars[i].close, stored[bars[i].key].close) {
          differing := differing + 1;
        }
      }
    }
    ok := shared > 0 && differing == 0;
  }

  function DailyFrom(table: Table, day: int): map<int, Bar> {
    map key | key in table.bars && key >= day :: table.bars[key]
  }

  function IntradayFrom(table: Table, day: int): map<int, Bar> {
    map key | key in table.bars && DayOf(key) >= day :: table.bars[key]
  }

  /** The stored 30-minute bars of a year. */
  function IntradayOfYear(table: Table, year: int, options: Options): map<int, Bar> {
    map key | key in table.bars && options.yearOf(DayOf(key)) == year :: table.bars[key]
  }

  // ---------------------------------------------------------------------------------------
  // What can be written on

  predicate HasBars(file: File) {
    file.daily.keys != [] && file.intraday.keys != []
  }

  function FirstDay(file: File): int
    requires HasBars(file)
  {
    file.daily.keys[0]
  }

  function FirstIntradayDay(file: File): int
    requires HasBars(file)
  {
    DayOf(file.intraday.keys[0])
  }

  function Min(a: int, b: int): int {
    if a <= b then a else b
  }

  function Max(a: int, b: int): int {
    if a >= b then a else b
  }

  /** reasonToFetchEveryBar is null: the stored bars can take others. */
  predicate TakesBars(file: File, options: Options) {
    HasBars(file) &&
    var last := Min(file.daily.keys[|file.daily.keys| - 1], DayOf(file.intraday.keys[|file.intraday.keys| - 1]));
    && file.version == Some(FILE_STOCK_BARS_VERSION)
    && options.yearOf(FirstIntradayDay(file)) <= options.yearOf(options.firstOptionDay)
    && options.lastDay - last <= TAIL_MAX_DAYS_BEHIND
  }

  predicate OptionsPredate(options: Options, firstDailyDay: int) {
    firstDailyDay - options.firstOptionDay > OPTIONS_BEFORE_STOCK_TOLERANCE_DAYS
  }

  function FirstYear(options: Options, firstDailyDay: int): int {
    Max(INTRADAY_BARS_START_YEAR, options.yearOf(firstDailyDay))
  }

  // ---------------------------------------------------------------------------------------
  // Fetching

  predicate IsStoredDay(options: Options, day: int) {
    DAILY_BARS_START_DAY <= day <= options.lastDay
  }

  /** The bars of an answer that are kept, daily ones without implied volatility when it failed. */
  function KeptDaily(options: Options, bars: seq<Bar>, noVolatility: bool): (kept: seq<Bar>)
    ensures forall i :: 0 <= i < |kept| ==> IsStoredDay(options, kept[i].key)
  {
    if bars == [] then [] else
    var last := bars[|bars| - 1];
    KeptDaily(options, bars[..|bars| - 1], noVolatility)
    + if IsStoredDay(options, last.key) then [if noVolatility then last.(impliedVolatility := None) else last] else []
  }

  function KeptIntraday(options: Options, bars: seq<Bar>, year: Option<int>): (kept: seq<Bar>)
    ensures forall i :: 0 <= i < |kept| ==> IsStoredDay(options, DayOf(kept[i].key))
  {
    if bars == [] then [] else
    var last := bars[|bars| - 1];
    KeptIntraday(options, bars[..|bars| - 1], year)
    + if IsStoredDay(options, DayOf(last.key)) && (year.Some? ==> options.yearOf(DayOf(last.key)) == year.value) then [last.(impliedVolatility := None)] else []
  }

  /** The first day of some bars. */
  function EarliestDay(bars: seq<Bar>): (day: int)
    requires bars != []
    ensures forall i :: 0 <= i < |bars| ==> day <= bars[i].key
    ensures exists i :: 0 <= i < |bars| && bars[i].key == day
  {
    if |bars| == 1 then bars[0].key else
    var before, last := EarliestDay(bars[..|bars| - 1]), bars[|bars| - 1].key;
    assert forall i :: 0 <= i < |bars| - 1 ==> bars[..|bars| - 1][i] == bars[i];
    if before <= last then before else last
  }

  function FetchedDaily(options: Options, answer: Option<seq<Bar>>, noVolatility: bool): (r: Result<seq<Bar>, RefreshError>)
    ensures r.Ok? ==> r.value != []
  {
    if answer.None? then Err(RequestFailed)
    else if KeptDaily(options, answer.value, noVolatility) == [] then Err(NoDailyBars)
    else Ok(KeptDaily(options, answer.value, noVolatility))
  }

  function FetchedYear(options: Options, answers: Answers, year: int): Option<seq<Bar>> {
    match answers.intradayOfYear(year)
    case None => None
    case Some(bars) => Some(KeptIntraday(options, bars, Some(year)))
  }

  /** The 30-minute bars of the years from one to another, both included; None when a request fails. */
  function FetchedYears(options: Options, answers: Answers, first: int, last: int): Option<seq<Bar>>
    decreases last - first
  {
    if last < first then Some([]) else
    match (FetchedYears(options, answers, first, last - 1), FetchedYear(options, answers, last))
    case (Some(before), Some(bars)) => Some(before + bars)
    case _ => None
  }

  // ---------------------------------------------------------------------------------------
  // The refresh

  function Written(r: Result<File, WriteError>, kind: Kind): Result<(File, Kind), RefreshError> {
    match r
    case Ok(file) => Ok((file, kind))
    case Err(_) => Err(WriteFailed)
  }

  /** Every bar fetched again, the daily ones perhaps fetched already. */
  function FullRefresh(file: File, options: Options, answers: Answers): Result<(File, Kind), RefreshError> {
    var daily :- FetchedDaily(options, answers.everyDaily, answers.everyVolatilityFailed);
    if OptionsPredate(options, EarliestDay(daily)) then Err(OptionsPredateStock) else
    match FetchedYears(options, answers, FirstYear(options, EarliestDay(daily)), options.yearOf(options.lastDay))
    case None => Err(RequestFailed)
    case Some(intraday) => if intraday == [] then Err(NoIntradayBars) else Written(Replaced(file, daily, intraday), Full)
  }

  ghost function OlderIntradayRefresh(file: File, options: Options, answers: Answers): Result<(File, Kind), RefreshError>
    requires IsFile(file) && HasBars(file)
  {
    var first, storedFirst := FirstYear(options, FirstDay(file)), options.yearOf(FirstIntradayDay(file));
    if storedFirst <= first then Ok((file, OlderIntraday)) else
    match FetchedYears(options, answers, first, storedFirst)
    case None => Err(RequestFailed)
    case Some(bars) =>
      var compared := FetchedYear(options, answers, storedFirst).value;
      if Shares(IntradayOfYear(file.intraday, storedFirst, options), compared) && Agrees(IntradayOfYear(file.intraday, storedFirst, options), compared)
      then Written(OlderIntradayAdded(file, bars), OlderIntraday)
      else FullRefresh(file, options, answers)
  }

  ghost function OlderDailyRefresh(file: File, options: Options, answers: Answers): Result<(File, Kind), RefreshError>
    requires IsFile(file) && HasBars(file)
  {
    var daily :- FetchedDaily(options, answers.everyDaily, answers.everyVolatilityFailed);
    if OptionsPredate(options, EarliestDay(daily)) then Err(OptionsPredateStock)
    else if answers.everyVolatilityFailed then Err(NoImpliedVolatility)
    else if Shares(file.daily.bars, daily) && Agrees(file.daily.bars, daily) then Written(OlderDailyAdded(file, daily), OlderDaily)
    else FullRefresh(file, options, answers)
  }

  /** The tail shares a day and a 30-minute bar with the stored bars, and all it shares agree. */
  predicate TailFits(file: File, options: Options, daily: seq<Bar>, intraday: seq<Bar>) {
    var storedDaily, storedIntraday := DailyFrom(file.daily, options.lastDay - TAIL_COMPARISON_DAYS), IntradayFrom(file.intraday, options.lastDay - TAIL_COMPARISON_DAYS);
    Shares(storedDaily, daily) && Shares(storedIntraday, intraday) && Agrees(storedDaily, daily) && Agrees(storedIntraday, intraday)
  }

  ghost function TailRefresh(file: File, options: Options, answers: Answers): Result<(File, Kind), RefreshError>
    requires IsFile(file) && HasBars(file)
  {
    var daily :- FetchedDaily(options, answers.tailDaily, answers.tailVolatilityFailed);
    if answers.tailIntraday.None? then Err(RequestFailed) else
    var intraday := KeptIntraday(options, answers.tailIntraday.value, None);
    if intraday == [] then Err(NoIntradayBars)
    else if TailFits(file, options, daily, intraday) then Written(Added(file, daily, intraday), Tail)
    else FullRefresh(file, options, answers)
  }

  /** refreshFileStockBars */
  ghost function Refreshed(file: File, options: Options, answers: Answers): Result<(File, Kind), RefreshError>
    requires IsFile(file)
  {
    if !TakesBars(file, options) then FullRefresh(file, options, answers)
    else if OptionsPredate(options, FirstDay(file)) then Err(OptionsPredateStock)
    else if options.extendIntraday then OlderIntradayRefresh(file, options, answers)
    else if options.extendDaily then OlderDailyRefresh(file, options, answers)
    else TailRefresh(file, options, answers)
  }

  // ---------------------------------------------------------------------------------------
  // The refresh as it is done

  class Refresher {
    const file: BarFile
    const options: Options
    const answers: Answers
    var intradayYears: map<int, seq<Bar>>
    ghost var asked: seq<int>

    ghost predicate Valid()
      reads this, file
    {
      IsFile(file.Now()) && YearsAreFetched() && AskedOnce() && forall i :: 0 <= i < |asked| ==> asked[i] in intradayYears
    }

    /** No year's bars have been asked for twice. */
    ghost predicate AskedOnce()
      reads this
    {
      forall i, j :: 0 <= i < j < |asked| ==> asked[i] != asked[j]
    }

    ghost predicate YearsAreFetched()
      reads this
    {
      forall year :: year in intradayYears ==> FetchedYear(options, answers, year) == Some(intradayYears[year])
    }

    constructor (file: BarFile, options: Options, answers: Answers)
      requires IsFile(file.Now())
      ensures Valid() && this.file == file && this.options == options && this.answers == answers
    {
      this.file, this.options, this.answers, intradayYears, asked := file, options, answers, map[], [];
    }

    /** The years' 30-minute bars, each asked for once. */
    method FetchYears(first: int, last: int) returns (bars: Option<seq<Bar>>)
      requires Valid()
      modifies this`intradayYears, this`asked
      ensures AskedOnce() && bars == FetchedYears(options, answers, first, last)
      ensures bars.Some? ==> Valid()
      ensures bars.Some? ==> forall year :: first <= year <= last ==> year in intradayYears
    {
      hide FetchedYear, IsFile;
      var all := [];
      var year := first;
      while year <= last
        invariant Valid() && first <= year && (year <= last + 1 || year == first)
        invariant FetchedYears(options, answers, first, year - 1) == Some(all)
        invariant forall y :: first <= y < year ==> y in intradayYears
        decreases last - year
      {
        if year !in intradayYears {
          asked := asked + [year];
          var fetched := Fetch(year);
          if fetched.None? {
            FailedYearFails(options, answers, first, year, last);
            return None;
          }
          intradayYears := intradayYears[year := fetched.value];
        }
        all := all + intradayYears[year];
        year := year + 1;
      }
      return Some(all);
    }

    method Fetch(year: int) returns (bars: Option<seq<Bar>>)
      ensures bars == FetchedYear(options, answers, year)
    {
      var answer := answers.intradayOfYear(year);
      if answer.None? {
        return None;
      }
      return Some(KeptIntraday(options, answer.value, Some(year)));
    }

    method FetchDaily(answer: Option<seq<Bar>>, volatilityFailed: bool) returns (r: Result<seq<Bar>, RefreshError>)
      ensures r == FetchedDaily(options, answer, volatilityFailed)
    {
      if answer.None? {
        return Err(RequestFailed);
      }
      var daily := KeptDaily(options, answer.value, volatilityFailed);
      if daily == [] {
        return Err(NoDailyBars);
      }
      return Ok(daily);
    }

    method RefreshEveryBar(fetchedDaily: Option<seq<Bar>>) returns (r: Result<Kind, RefreshError>)
      requires Valid()
      requires fetchedDaily.Some? ==> FetchedDaily(options, answers.everyDaily, answers.everyVolatilityFailed) == Ok(fetchedDaily.value)
      modifies file, this`intradayYears, this`asked
      ensures IsFile(file.Now()) && AskedOnce()
      ensures var full := FullRefresh(old(file.Now()), options, answers);
              if full.Ok? then r == Ok(Full) && file.Now() == full.value.0 else r == Err(full.error) && file.Now() == old(file.Now())
    {
      hide IsFile, Replaced, FetchedYears, KeptDaily;
      var daily: seq<Bar>;
      if fetchedDaily.Some? {
        daily := fetchedDaily.value;
      } else {
        daily :- FetchDaily(answers.everyDaily, answers.everyVolatilityFailed);
      }
      if OptionsPredate(options, EarliestDay(daily)) {
        return Err(OptionsPredateStock);
      }
      var intraday := FetchYears(FirstYear(options, EarliestDay(daily)), options.yearOf(options.lastDay));
      if intraday.None? {
        return Err(RequestFailed);
      }
      if intraday.value == [] {
        return Err(NoIntradayBars);
      }
      var stored := file.StoreBars(daily, intraday.value, true);
      if stored.Err? {
        return Err(WriteFailed);
      }
      return Ok(Full);
    }

    method RefreshOlderIntraday() returns (r: Result<Kind, RefreshError>)
      requires Valid() && HasBars(file.Now())
      modifies file, this`intradayYears, this`asked
      ensures IsFile(file.Now()) && AskedOnce()
      ensures var done := OlderIntradayRefresh(old(file.Now()), options, answers);
              if done.Ok? then r == Ok(done.value.1) && file.Now() == done.value.0 else r == Err(done.error) && file.Now() == old(file.Now())
    {
      hide IsFile, Replaced, FullRefresh, OlderIntradayAdded, FetchedYears, Shares, Agrees, IntradayOfYear;
      var first, storedFirst := FirstYear(options, FirstDay(file.Now())), options.yearOf(FirstIntradayDay(file.Now()));
      if storedFirst <= first {
        return Ok(OlderIntraday);
      }
      var bars := FetchYears(first, storedFirst);
      if bars.None? {
        return Err(RequestFailed);
      }
      var fits := FindsNoReason(IntradayOfYear(file.intraday, storedFirst, options), intradayYears[storedFirst]);
      if !fits {
        r := RefreshEveryBar(None);
        FullIsFull(old(file.Now()), options, answers);
        return;
      }
      var added := file.AddOlderIntradayBars(bars.value);
      if added.Err? {
        return Err(WriteFailed);
      }
      return Ok(OlderIntraday);
    }

    method RefreshOlderDaily() returns (r: Result<Kind, RefreshError>)
      requires Valid() && HasBars(file.Now())
      modifies file, this`intradayYears, this`asked
      ensures IsFile(file.Now()) && AskedOnce()
      ensures var done := OlderDailyRefresh(old(file.Now()), options, answers);
              if done.Ok? then r == Ok(done.value.1) && file.Now() == done.value.0 else r == Err(done.error) && file.Now() == old(file.Now())
    {
      hide IsFile, FullRefresh, OlderDailyAdded, Shares, Agrees, KeptDaily;
      var daily :- FetchDaily(answers.everyDaily, answers.everyVolatilityFailed);
      if OptionsPredate(options, EarliestDay(daily)) {
        return Err(OptionsPredateStock);
      }
      if answers.everyVolatilityFailed {
        return Err(NoImpliedVolatility);
      }
      var fits := FindsNoReason(file.daily.bars, daily);
      if !fits {
        r := RefreshEveryBar(Some(daily));
        FullIsFull(old(file.Now()), options, answers);
        return;
      }
      var added := file.AddOlderDailyBars(daily);
      if added.Err? {
        return Err(WriteFailed);
      }
      return Ok(OlderDaily);
    }

    method RefreshTail() returns (r: Result<Kind, RefreshError>)
      requires Valid() && HasBars(file.Now())
      modifies file, this`intradayYears, this`asked
      ensures IsFile(file.Now()) && AskedOnce()
      ensures var done := TailRefresh(old(file.Now()), options, answers);
              if done.Ok? then r == Ok(done.value.1) && file.Now() == done.value.0 else r == Err(done.error) && file.Now() == old(file.Now())
    {
      hide IsFile, FullRefresh, Added, Shares, Agrees, KeptDaily, KeptIntraday, DailyFrom, IntradayFrom;
      var daily :- FetchDaily(answers.tailDaily, answers.tailVolatilityFailed);
      if answers.tailIntraday.None? {
        return Err(RequestFailed);
      }
      var intraday := KeptIntraday(options, answers.tailIntraday.value, None);
      if intraday == [] {
        return Err(NoIntradayBars);
      }
      var dailyFits := FindsNoReason(DailyFrom(file.daily, options.lastDay - TAIL_COMPARISON_DAYS), daily);
      var intradayFits := FindsNoReason(IntradayFrom(file.intraday, options.lastDay - TAIL_COMPARISON_DAYS), intraday);
      if !dailyFits || !intradayFits {
        r := RefreshEveryBar(None);
        FullIsFull(old(file.Now()), options, answers);
        return;
      }
      var added := file.StoreBars(daily, intraday, false);
      if added.Err? {
        return Err(WriteFailed);
      }
      return Ok(Tail);
    }

    /** refreshFileStockBars: what is fetched and written, or the error that leaves the file as it was. */
    method Refresh() returns (r: Result<Kind, RefreshError>)
      requires Valid()
      modifies file, this`intradayYears, this`asked
      ensures IsFile(file.Now()) && AskedOnce()
      ensures var done := Refreshed(old(file.Now()), options, answers);
              if done.Ok? then r == Ok(done.value.1) && file.Now() == done.value.0 else r == Err(done.error) && file.Now() == old(file.Now())
    {
      hide IsFile, FullRefresh, OlderIntradayRefresh, OlderDailyRefresh, TailRefresh;
      if !TakesBars(file.Now(), options) {
        r := RefreshEveryBar(None);
        FullIsFull(old(file.Now()), options, answers);
        return;
      }
      if OptionsPredate(options, FirstDay(file.Now())) {
        return Err(OptionsPredateStock);
      }
      if options.extendIntraday {
        r := RefreshOlderIntraday();
      } else if options.extendDaily {
        r := RefreshOlderDaily();
      } else {
        r := RefreshTail();
      }
    }
  }

  lemma FullIsFull(file: File, options: Options, answers: Answers)
    ensures FullRefresh(file, options, answers).Ok? ==> FullRefresh(file, options, answers).value.1 == Full
  {
    hide FetchedYears, Replaced, KeptDaily;
  }

  lemma {:induction false} FailedYearFails(options: Options, answers: Answers, first: int, failed: int, last: int)
    requires first <= failed <= last && FetchedYear(options, answers, failed) == None
    ensures FetchedYears(options, answers, first, last) == None
    decreases last - failed
  {
    if failed < last {
      FailedYearFails(options, answers, first, failed, last - 1);
    }
  }
}
