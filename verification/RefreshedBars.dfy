/**
 Which bars a refresh leaves in the file, and when it takes which way (src/backtest/refreshFileStockBars.ts),
 said of IBKR's answers and the tables alone.
 */
module RefreshedBars {
  import opened Wrappers
  import opened StockBars
  import opened StockBarRefresh

  // ---------------------------------------------------------------------------------------
  // The bars taken from an answer

  /** A day from 1 January 2000 to the last day to store. */
  predicate DayToStore(options: Options, day: int) {
    10957 <= day && day <= options.lastDay
  }

  function DaysToStore(options: Options): int -> bool {
    (key: int) => DayToStore(options, key)
  }

  /** The answer's bars that are wanted, in order, each as it came or without its implied volatility. */
  ghost predicate Picks(answer: seq<Bar>, picked: seq<Bar>, at: seq<nat>, wanted: int -> bool, stripped: bool) {
    && |at| == |picked|
    && (forall k :: 0 <= k < |at| ==> at[k] < |answer| && picked[k] == if stripped then answer[at[k]].(impliedVolatility := None) else answer[at[k]])
    && (forall k, m :: 0 <= k < m < |at| ==> at[k] < at[m])
    && (forall i :: 0 <= i < |answer| ==> (i in at <==> wanted(answer[i].key)))
  }

  lemma PicksOneMore(answer: seq<Bar>, picked: seq<Bar>, at: seq<nat>, wanted: int -> bool, stripped: bool)
    requires answer != [] && Picks(answer[..|answer| - 1], picked, at, wanted, stripped)
    ensures var last := |answer| - 1;
            if wanted(answer[last].key) then
              Picks(answer, picked + [if stripped then answer[last].(impliedVolatility := None) else answer[last]], at + [last], wanted, stripped)
            else Picks(answer, picked, at, wanted, stripped)
  {
    var last := |answer| - 1;
    assert forall i :: 0 <= i < last ==> answer[..last][i] == answer[i];
    if wanted(answer[last].key) {
      var all := at + [last];
      assert all[|at|] == last;
      assert forall i :: 0 <= i < last ==> (i in all <==> i in at);
    }
  }

  lemma {:induction false} DailyPicks(options: Options, answer: seq<Bar>, failed: bool) returns (at: seq<nat>)
    ensures Picks(answer, KeptDaily(options, answer, failed), at, DaysToStore(options), failed)
  {
    at := [];
    if answer != [] {
      hide Picks;
      var last := |answer| - 1;
      at := DailyPicks(options, answer[..last], failed);
      PicksOneMore(answer, KeptDaily(options, answer[..last], failed), at, DaysToStore(options), failed);
      if DayToStore(options, answer[last].key) {
        at := at + [last];
      }
    }
  }

  /** The 30-minute bar is of a day to store, and of the year when one is asked for. */
  predicate IsWanted(options: Options, year: Option<int>, key: int) {
    DayToStore(options, DayOf(key)) && (year.Some? ==> options.yearOf(DayOf(key)) == year.value)
  }

  function Wanted(options: Options, year: Option<int>): int -> bool {
    (key: int) => IsWanted(options, year, key)
  }

  lemma {:induction false} IntradayPicks(options: Options, answer: seq<Bar>, year: Option<int>) returns (at: seq<nat>)
    ensures Picks(answer, KeptIntraday(options, answer, year), at, Wanted(options, year), true)
  {
    at := [];
    if answer != [] {
      hide Picks;
      var last := |answer| - 1;
      at := IntradayPicks(options, answer[..last], year);
      PicksOneMore(answer, KeptIntraday(options, answer[..last], year), at, Wanted(options, year), true);
      if IsWanted(options, year, answer[last].key) {
        at := at + [last];
      }
    }
  }

  /** The years' bars, one year's picks after the other's. */
  ghost predicate YearsPicked(options: Options, answers: Answers, first: int, last: int, bars: seq<Bar>)
    decreases last - first
  {
    if last < first then bars == [] else
    exists k, at: seq<nat> :: 0 <= k <= |bars| && YearsPicked(options, answers, first, last - 1, bars[..k])
      && answers.intradayOfYear(last).Some? && Picks(answers.intradayOfYear(last).value, bars[k..], at, Wanted(options, Some(last)), true)
  }

  lemma {:induction false} YearsAre(options: Options, answers: Answers, first: int, last: int)
    requires FetchedYears(options, answers, first, last).Some?
    ensures YearsPicked(options, answers, first, last, FetchedYears(options, answers, first, last).value)
    decreases last - first
  {
    hide Picks, KeptIntraday;
    if first <= last {
      YearsAre(options, answers, first, last - 1);
      var before, own := FetchedYears(options, answers, first, last - 1).value, FetchedYear(options, answers, last).value;
      var at := IntradayPicks(options, answers.intradayOfYear(last).value, Some(last));
      var bars := before + own;
      assert bars[..|before|] == before && bars[|before|..] == own;
    }
  }

  // ---------------------------------------------------------------------------------------
  // The tables after

  predicate HasKey(bars: seq<Bar>, key: int) {
    exists i :: 0 <= i < |bars| && bars[i].key == key
  }

  predicate LastOfKey(bars: seq<Bar>, i: nat) {
    i < |bars| && forall j :: i < j < |bars| ==> bars[j].key != bars[i].key
  }

  /** A day's implied volatility: the last one written, or the stored one. */
  function VolatilityAfter(before: map<int, Bar>, bars: seq<Bar>, key: int): Option<real> {
    if bars == [] then (if key in before then before[key].impliedVolatility else None) else
    var last := bars[|bars| - 1];
    if last.key == key && last.impliedVolatility.Some? then last.impliedVolatility else VolatilityAfter(before, bars[..|bars| - 1], key)
  }

  /** The bars are written over those of their keys, the last one of a key counting; the others stay. */
  ghost predicate WrittenOver(before: map<int, Bar>, after: map<int, Bar>, bars: seq<Bar>) {
    && (forall key :: key in after <==> key in before || HasKey(bars, key))
    && (forall key :: key in before && !HasKey(bars, key) ==> key in after && after[key] == before[key])
    && (forall i :: 0 <= i < |bars| && LastOfKey(bars, i) ==>
          bars[i].key in after && after[bars[i].key] == bars[i].(impliedVolatility := VolatilityAfter(before, bars, bars[i].key)))
  }

  /** The bars are new, each once, and the others stay. */
  ghost predicate WrittenNew(before: map<int, Bar>, after: map<int, Bar>, bars: seq<Bar>) {
    && (forall key :: key in after <==> key in before || HasKey(bars, key))
    && (forall key :: key in before ==> key in after && after[key] == before[key])
    && (forall i :: 0 <= i < |bars| ==> bars[i].key !in before && bars[i].key in after && after[bars[i].key] == bars[i])
  }

  lemma HasKeyOneMore(bars: seq<Bar>, key: int)
    requires bars != []
    ensures HasKey(bars, key) <==> HasKey(bars[..|bars| - 1], key) || bars[|bars| - 1].key == key
  {
    assert forall i :: 0 <= i < |bars| - 1 ==> bars[..|bars| - 1][i] == bars[i];
    if HasKey(bars[..|bars| - 1], key) {
      var i :| 0 <= i < |bars| - 1 && bars[..|bars| - 1][i].key == key;
      assert bars[i].key == key;
    }
  }

  /** One key's bar after the writes. */
  lemma {:induction false} UpsertedKey(table: Table, bars: seq<Bar>, key: int)
    requires IsTable(table)
    ensures var after := UpsertedAll(table, bars, |bars|).bars;
            && (key in after <==> key in table.bars || HasKey(bars, key))
            && (key in after && !HasKey(bars, key) ==> key in table.bars && after[key] == table.bars[key])
            && (key in after ==> after[key].impliedVolatility == VolatilityAfter(table.bars, bars, key))
            && (key !in after ==> VolatilityAfter(table.bars, bars, key) == None)
  {
    assert bars == [] ==> !HasKey(bars, key);
    hide IsTable, HasKey;
    if bars != [] {
      var last := |bars| - 1;
      UpsertedPrefix(table, bars, bars[..last], last);
      UpsertedKey(table, bars[..last], key);
      HasKeyOneMore(bars, key);
    }
  }

  lemma {:induction false} UpsertedPrefix(table: Table, bars: seq<Bar>, others: seq<Bar>, n: nat)
    requires IsTable(table) && n <= |bars| && n <= |others| && bars[..n] == others[..n]
    ensures UpsertedAll(table, bars, n) == UpsertedAll(table, others, n)
  {
    hide IsTable;
    if n > 0 {
      assert bars[..n - 1] == bars[..n][..n - 1] && others[..n - 1] == others[..n][..n - 1];
      assert bars[..n][n - 1] == others[..n][n - 1];
      UpsertedPrefix(table, bars, others, n - 1);
    }
  }

  /** The last bar of a key gives its prices. */
  lemma {:induction false} LastPrices(table: Table, bars: seq<Bar>, i: nat)
    requires IsTable(table) && LastOfKey(bars, i)
    ensures var key, after := bars[i].key, UpsertedAll(table, bars, |bars|).bars; key in after && after[key] == bars[i].(impliedVolatility := after[key].impliedVolatility)
  {
    hide IsTable;
    var last := |bars| - 1;
    if i < last {
      UpsertedPrefix(table, bars, bars[..last], last);
      assert LastOfKey(bars[..last], i);
      LastPrices(table, bars[..last], i);
      assert bars[last].key != bars[i].key;
    }
  }

  lemma {:induction false} UpsertedIsWritten(table: Table, bars: seq<Bar>)
    requires IsTable(table)
    ensures WrittenOver(table.bars, UpsertedAll(table, bars, |bars|).bars, bars)
  {
    hide IsTable, UpsertedAll, HasKey, LastOfKey, VolatilityAfter;
    var after := UpsertedAll(table, bars, |bars|).bars;
    forall key
      ensures key in after <==> key in table.bars || HasKey(bars, key)
      ensures key in after && !HasKey(bars, key) ==> key in table.bars && after[key] == table.bars[key]
    {
      UpsertedKey(table, bars, key);
    }
    forall i | 0 <= i < |bars| && LastOfKey(bars, i)
      ensures bars[i].key in after && after[bars[i].key] == bars[i].(impliedVolatility := VolatilityAfter(table.bars, bars, bars[i].key))
    {
      LastPrices(table, bars, i);
      UpsertedKey(table, bars, bars[i].key);
    }
  }

  lemma {:induction false} InsertedIsWritten(table: Table, bars: seq<Bar>)
    requires IsTable(table) && InsertedAll(table, bars, |bars|).Some?
    ensures WrittenNew(table.bars, InsertedAll(table, bars, |bars|).value.bars, bars)
  {
    hide IsTable, InsertedAll;
    InsertedBars(table, bars, |bars|);
    forall i | 0 <= i < |bars|
      ensures bars[i].key !in table.bars
    {
      InsertedIsNew(table, bars, |bars|, i);
    }
  }

  lemma {:induction false} InsertedIsNew(table: Table, bars: seq<Bar>, n: nat, i: nat)
    requires IsTable(table) && i < n <= |bars| && InsertedAll(table, bars, n).Some?
    ensures bars[i].key !in table.bars
  {
    hide IsTable;
    if i < n - 1 {
      InsertedIsNew(table, bars, n - 1, i);
    } else {
      InsertedBars(table, bars, n - 1);
    }
  }

  // ---------------------------------------------------------------------------------------
  // What each way leaves

  ghost predicate DailyTaken(options: Options, answer: Option<seq<Bar>>, failed: bool, bars: seq<Bar>) {
    answer.Some? && exists at: seq<nat> :: Picks(answer.value, bars, at, DaysToStore(options), failed)
  }

  ghost predicate MonthTaken(options: Options, answer: Option<seq<Bar>>, bars: seq<Bar>) {
    answer.Some? && exists at: seq<nat> :: Picks(answer.value, bars, at, Wanted(options, None), true)
  }

  /** The bars of days before one, in order. */
  ghost predicate OlderThan(bars: seq<Bar>, older: seq<Bar>, day: int, intraday: bool) {
    exists at: seq<nat> :: Picks(bars, older, at, Before(day, intraday), false)
  }

  function Before(day: int, intraday: bool): int -> bool {
    (key: int) => (if intraday then DayOf(key) else key) < day
  }

  lemma {:induction false} DaysBeforePicks(bars: seq<Bar>, day: int, intraday: bool) returns (at: seq<nat>)
    ensures Picks(bars, DaysBefore(bars, day, intraday), at, Before(day, intraday), false)
  {
    at := [];
    if bars != [] {
      hide Picks, DayOf;
      var last := |bars| - 1;
      at := DaysBeforePicks(bars[..last], day, intraday);
      PicksOneMore(bars, DaysBefore(bars[..last], day, intraday), at, Before(day, intraday), false);
      if Before(day, intraday)(bars[last].key) {
        at := at + [last];
      }
    }
  }

  lemma DailyAreTaken(options: Options, answer: Option<seq<Bar>>, failed: bool)
    requires FetchedDaily(options, answer, failed).Ok?
    ensures DailyTaken(options, answer, failed, FetchedDaily(options, answer, failed).value)
  {
    hide Picks, KeptDaily;
    var at := DailyPicks(options, answer.value, failed);
  }

  // ---------------------------------------------------------------------------------------
  // The closes compared

  predicate NearTo(price: real, cents: int) {
    cents as real - 0.5 <= price * 100.0 < cents as real + 0.5
  }

  lemma {:induction false} NearestCent(price: real, cents: int)
    ensures Cents(price) == cents <==> NearTo(price, cents)
  {
    var scaled := price * 100.0 + 0.5;
    assert scaled.Floor as real <= scaled < scaled.Floor as real + 1.0;
  }

  /** Two closes agree when both are known and nearest to one cent, halves counting up. */
  lemma {:induction false} AgreeToTheCent(a: Option<real>, b: Option<real>)
    ensures SameToTheCent(a, b) <==> a.Some? && b.Some? && exists cents: int :: NearTo(a.value, cents) && NearTo(b.value, cents)
  {
    hide Cents, NearTo;
    if a.Some? && b.Some? {
      NearestCent(a.value, Cents(a.value));
      NearestCent(b.value, Cents(a.value));
      forall cents: int | NearTo(a.value, cents) && NearTo(b.value, cents)
        ensures cents == Cents(a.value) == Cents(b.value)
      {
        NearestCent(a.value, cents);
        NearestCent(b.value, cents);
      }
    }
  }

  ghost predicate Alike(a: Option<real>, b: Option<real>) {
    a.Some? && b.Some? && exists cents: int :: NearTo(a.value, cents) && NearTo(b.value, cents)
  }

  /** Of the stored bars that count, some is among the bars, and every one that is has its close, to the cent. */
  ghost predicate Compared(stored: map<int, Bar>, bars: seq<Bar>, counts: int -> bool) {
    && (exists i :: 0 <= i < |bars| && bars[i].key in stored && counts(bars[i].key))
    && forall i :: 0 <= i < |bars| && bars[i].key in stored && counts(bars[i].key) ==> Alike(bars[i].close, stored[bars[i].key].close)
  }

  function FromDay(day: int, intraday: bool): int -> bool {
    (key: int) => (if intraday then DayOf(key) else key) >= day
  }

  function InYear(options: Options, year: int): int -> bool {
    (key: int) => options.yearOf(DayOf(key)) == year
  }

  lemma ComparedIs(counted: map<int, Bar>, stored: map<int, Bar>, bars: seq<Bar>, counts: int -> bool)
    requires forall key :: key in counted <==> key in stored && counts(key)
    requires forall key :: key in counted ==> counted[key] == stored[key]
    ensures Compared(stored, bars, counts) <==> Shares(counted, bars) && Agrees(counted, bars)
  {
    forall i | 0 <= i < |bars| && bars[i].key in counted
      ensures Alike(bars[i].close, stored[bars[i].key].close) <==> SameToTheCent(bars[i].close, counted[bars[i].key].close)
    {
      AgreeToTheCent(bars[i].close, stored[bars[i].key].close);
    }
    hide Alike, SameToTheCent;
    if Compared(stored, bars, counts) {
      var i :| 0 <= i < |bars| && bars[i].key in stored && counts(bars[i].key);
      assert bars[i].key in counted;
    }
  }

  /** The last month agrees with the stored bars of the 45 days before the last day to store, daily and 30-minute. */
  ghost predicate MonthAgrees(file: File, options: Options, daily: seq<Bar>, intraday: seq<Bar>) {
    Compared(file.daily.bars, daily, FromDay(options.lastDay - 45, false)) && Compared(file.intraday.bars, intraday, FromDay(options.lastDay - 45, true))
  }

  lemma TailFitsIs(file: File, options: Options, daily: seq<Bar>, intraday: seq<Bar>)
    ensures TailFits(file, options, daily, intraday) <==> MonthAgrees(file, options, daily, intraday)
  {
    hide Shares, Agrees, Compared, DayOf;
    ComparedIs(DailyFrom(file.daily, options.lastDay - TAIL_COMPARISON_DAYS), file.daily.bars, daily, FromDay(options.lastDay - 45, false));
    ComparedIs(IntradayFrom(file.intraday, options.lastDay - TAIL_COMPARISON_DAYS), file.intraday.bars, intraday, FromDay(options.lastDay - 45, true));
  }

  function AnyKey(): int -> bool {
    (key: int) => true
  }

  /** The bars of the year agree with the stored ones of that year. */
  ghost predicate YearAgrees(file: File, options: Options, answers: Answers, year: int) {
    answers.intradayOfYear(year).Some?
    && exists bars, at: seq<nat> :: Picks(answers.intradayOfYear(year).value, bars, at, Wanted(options, Some(year)), true) && Compared(file.intraday.bars, bars, InYear(options, year))
  }

  lemma {:induction false} PicksAreOne(answer: seq<Bar>, a: seq<Bar>, atA: seq<nat>, b: seq<Bar>, atB: seq<nat>, wanted: int -> bool, stripped: bool)
    requires Picks(answer, a, atA, wanted, stripped) && Picks(answer, b, atB, wanted, stripped)
    ensures a == b
    decreases |answer|
  {
    hide Picks;
    if answer == [] {
      NothingToPick(a, atA, wanted, stripped);
      NothingToPick(b, atB, wanted, stripped);
    } else {
      var last := |answer| - 1;
      PicksOneLess(answer, a, atA, wanted, stripped);
      PicksOneLess(answer, b, atB, wanted, stripped);
      PicksSize(answer, a, atA, wanted, stripped);
      PicksSize(answer, b, atB, wanted, stripped);
      if wanted(answer[last].key) {
        PicksAreOne(answer[..last], a[..|a| - 1], atA[..|a| - 1], b[..|b| - 1], atB[..|b| - 1], wanted, stripped);
        assert a == a[..|a| - 1] + [a[|a| - 1]] && b == b[..|b| - 1] + [b[|b| - 1]];
      } else {
        PicksAreOne(answer[..last], a, atA, b, atB, wanted, stripped);
      }
    }
  }

  lemma NothingToPick(picked: seq<Bar>, at: seq<nat>, wanted: int -> bool, stripped: bool)
    requires Picks([], picked, at, wanted, stripped)
    ensures picked == []
  {
    hide Picks;
    PicksSize([], picked, at, wanted, stripped);
    if at != [] {
      PickIsOf([], picked, at, wanted, stripped, 0);
      assert false;
    }
  }

  lemma PickIsOf(answer: seq<Bar>, picked: seq<Bar>, at: seq<nat>, wanted: int -> bool, stripped: bool, k: nat)
    requires Picks(answer, picked, at, wanted, stripped) && k < |at|
    ensures at[k] < |answer|
  {}

  lemma PicksSize(answer: seq<Bar>, picked: seq<Bar>, at: seq<nat>, wanted: int -> bool, stripped: bool)
    requires Picks(answer, picked, at, wanted, stripped)
    ensures |at| == |picked|
  {}

  lemma PicksOneLess(answer: seq<Bar>, picked: seq<Bar>, at: seq<nat>, wanted: int -> bool, stripped: bool)
    requires answer != [] && Picks(answer, picked, at, wanted, stripped)
    ensures var last := |answer| - 1;
            if wanted(answer[last].key) then
              && picked != [] && picked[|picked| - 1] == (if stripped then answer[last].(impliedVolatility := None) else answer[last])
              && Picks(answer[..last], picked[..|picked| - 1], at[..|picked| - 1], wanted, stripped)
            else Picks(answer[..last], picked, at, wanted, stripped)
  {
    var last := |answer| - 1;
    if wanted(answer[last].key) {
      var k :| 0 <= k < |at| && at[k] == last;
      assert k == |at| - 1 by {
        assert at[|at| - 1] < |answer|;
      }
      forall i | 0 <= i < last
        ensures i in at[..|at| - 1] <==> i in at
      {
        if i in at {
          var m :| 0 <= m < |at| && at[m] == i;
          assert at[..|at| - 1][m] == i;
        }
      }
    } else {
      forall k | 0 <= k < |at|
        ensures at[k] < last
      {
        assert at[k] in at;
      }
    }
  }

  lemma YearAgreesIs(file: File, options: Options, answers: Answers, year: int)
    requires answers.intradayOfYear(year).Some?
    ensures var compared := FetchedYear(options, answers, year).value;
            YearAgrees(file, options, answers, year)
            <==> Shares(IntradayOfYear(file.intraday, year, options), compared) && Agrees(IntradayOfYear(file.intraday, year, options), compared)
  {
    hide Shares, Agrees, Compared, DayOf, Picks, KeptIntraday;
    var answer, compared := answers.intradayOfYear(year).value, FetchedYear(options, answers, year).value;
    ComparedIs(IntradayOfYear(file.intraday, year, options), file.intraday.bars, compared, InYear(options, year));
    var at := IntradayPicks(options, answer, Some(year));
    if YearAgrees(file, options, answers, year) {
      var bars, other: seq<nat> :| Picks(answer, bars, other, Wanted(options, Some(year)), true) && Compared(file.intraday.bars, bars, InYear(options, year));
      PicksAreOne(answer, compared, at, bars, other, Wanted(options, Some(year)), true);
    }
  }

  // ---------------------------------------------------------------------------------------
  // What each way leaves

  predicate IsEarliest(bars: seq<Bar>, day: int) {
    (exists i :: 0 <= i < |bars| && bars[i].key == day) && forall i :: 0 <= i < |bars| ==> day <= bars[i].key
  }

  function FirstYearFrom(options: Options, day: int): int {
    if options.yearOf(day) < 2006 then 2006 else options.yearOf(day)
  }

  /** Every bar fetched again: the tables are the bars taken and nothing else, the options starting no more than 14 days before. */
  lemma FullRefreshLeaves(file: File, options: Options, answers: Answers) returns (daily: seq<Bar>, intraday: seq<Bar>, earliest: int)
    requires FullRefresh(file, options, answers).Ok?
    ensures var after := FullRefresh(file, options, answers).value.0;
            && DailyTaken(options, answers.everyDaily, answers.everyVolatilityFailed, daily) && WrittenNew(map[], after.daily.bars, daily) && daily != []
            && IsEarliest(daily, earliest) && earliest - options.firstOptionDay <= 14
            && YearsPicked(options, answers, FirstYearFrom(options, earliest), options.yearOf(options.lastDay), intraday)
            && WrittenOver(map[], after.intraday.bars, intraday) && intraday != [] && after.version == Some("1")
  {
    hide DailyTaken, YearsPicked, WrittenOver, WrittenNew, KeptDaily, FetchedYears, UpsertedAll, InsertedAll, IsTable, EarliestDay;
    daily := FetchedDaily(options, answers.everyDaily, answers.everyVolatilityFailed).value;
    earliest := EarliestDay(daily);
    intraday := FetchedYears(options, answers, FirstYear(options, earliest), options.yearOf(options.lastDay)).value;
    DailyAreTaken(options, answers.everyDaily, answers.everyVolatilityFailed);
    YearsAre(options, answers, FirstYear(options, earliest), options.yearOf(options.lastDay));
    NoBarsIsTable();
    InsertedIsWritten(NO_BARS, daily);
    UpsertedIsWritten(NO_BARS, intraday);
  }

  lemma {:induction false} YearMissing(options: Options, answers: Answers, first: int, last: int)
    ensures FetchedYears(options, answers, first, last).None? <==> exists year :: first <= year <= last && answers.intradayOfYear(year).None?
    decreases last - first
  {
    hide KeptIntraday;
    if first <= last {
      YearMissing(options, answers, first, last - 1);
    }
  }

  /** Why a full refresh goes no further: no answer, or none of a day to store; options from more than 14 days before the stock; a year without an answer; and at the end no 30-minute bar, or a day given twice. */
  lemma FullRefreshFails(file: File, options: Options, answers: Answers) returns (daily: seq<Bar>, earliest: int)
    requires FullRefresh(file, options, answers).Err?
    ensures var error := FullRefresh(file, options, answers).error;
            if answers.everyDaily.None? then error == RequestFailed else
              && DailyTaken(options, answers.everyDaily, answers.everyVolatilityFailed, daily)
              && if daily == [] then error == NoDailyBars else
                   && IsEarliest(daily, earliest)
                   && if earliest - options.firstOptionDay > 14 then error == OptionsPredateStock else
                        var first := FirstYearFrom(options, earliest);
                        if exists year :: first <= year <= options.yearOf(options.lastDay) && answers.intradayOfYear(year).None? then error == RequestFailed
                        else if YearsPicked(options, answers, first, options.yearOf(options.lastDay), []) then error == NoIntradayBars else error == WriteFailed
  {
    hide Picks, YearsPicked, KeptDaily, FetchedYears, InsertedAll, UpsertedAll, IsTable, EarliestDay;
    daily, earliest := [], 0;
    if answers.everyDaily.Some? {
      daily := KeptDaily(options, answers.everyDaily.value, answers.everyVolatilityFailed);
      var at := DailyPicks(options, answers.everyDaily.value, answers.everyVolatilityFailed);
      if daily != [] {
        earliest := EarliestDay(daily);
        var first, last := FirstYearFrom(options, earliest), options.yearOf(options.lastDay);
        YearMissing(options, answers, first, last);
        if earliest - options.firstOptionDay <= 14 && FetchedYears(options, answers, first, last).Some? {
          YearsAre(options, answers, first, last);
          if YearsPicked(options, answers, first, last, []) {
            YearsAreOne(options, answers, first, last, [], FetchedYears(options, answers, first, last).value);
          }
        }
      }
    }
  }

  lemma {:induction false} YearsAreOne(options: Options, answers: Answers, first: int, last: int, a: seq<Bar>, b: seq<Bar>)
    requires YearsPicked(options, answers, first, last, a) && YearsPicked(options, answers, first, last, b)
    ensures a == b
    decreases last - first
  {
    hide Picks;
    if first <= last {
      var k, at: seq<nat> :| 0 <= k <= |a| && YearsPicked(options, answers, first, last - 1, a[..k])
        && answers.intradayOfYear(last).Some? && Picks(answers.intradayOfYear(last).value, a[k..], at, Wanted(options, Some(last)), true);
      var m, other: seq<nat> :| 0 <= m <= |b| && YearsPicked(options, answers, first, last - 1, b[..m])
        && Picks(answers.intradayOfYear(last).value, b[m..], other, Wanted(options, Some(last)), true);
      YearsAreOne(options, answers, first, last - 1, a[..k], b[..m]);
      PicksAreOne(answers.intradayOfYear(last).value, a[k..], at, b[m..], other, Wanted(options, Some(last)), true);
      assert a == a[..k] + a[k..] && b == b[..m] + b[m..];
    }
  }

  /** The last month: written over the stored bars, whose other days stay. */
  lemma TailRefreshLeaves(file: File, options: Options, answers: Answers) returns (daily: seq<Bar>, intraday: seq<Bar>)
    requires IsFile(file) && HasBars(file) && TailRefresh(file, options, answers).Ok? && TailRefresh(file, options, answers).value.1 == Tail
    ensures var after := TailRefresh(file, options, answers).value.0;
            && DailyTaken(options, answers.tailDaily, answers.tailVolatilityFailed, daily) && WrittenOver(file.daily.bars, after.daily.bars, daily) && daily != []
            && MonthTaken(options, answers.tailIntraday, intraday) && WrittenOver(file.intraday.bars, after.intraday.bars, intraday) && intraday != []
            && MonthAgrees(file, options, daily, intraday) && after.version == Some("1")
  {
    hide DailyTaken, Picks, WrittenOver, KeptDaily, KeptIntraday, UpsertedAll, IsTable, TailFits, MonthAgrees, FullRefresh;
    daily := FetchedDaily(options, answers.tailDaily, answers.tailVolatilityFailed).value;
    intraday := KeptIntraday(options, answers.tailIntraday.value, None);
    TailFitsIs(file, options, daily, intraday);
    FullIsFull(file, options, answers);
    DailyAreTaken(options, answers.tailDaily, answers.tailVolatilityFailed);
    var at := IntradayPicks(options, answers.tailIntraday.value, None);
    UpsertedIsWritten(file.daily, daily);
    UpsertedIsWritten(file.intraday, intraday);
  }

  /** Older days: those before the first stored day are added, and every stored bar stays. */
  lemma OlderDailyRefreshLeaves(file: File, options: Options, answers: Answers) returns (daily: seq<Bar>, older: seq<Bar>)
    requires IsFile(file) && HasBars(file) && OlderDailyRefresh(file, options, answers).Ok? && OlderDailyRefresh(file, options, answers).value.1 == OlderDaily
    ensures var after := OlderDailyRefresh(file, options, answers).value.0;
            && DailyTaken(options, answers.everyDaily, answers.everyVolatilityFailed, daily) && !answers.everyVolatilityFailed
            && OlderThan(daily, older, FirstDay(file), false) && WrittenNew(file.daily.bars, after.daily.bars, older)
            && after.intraday == file.intraday && after.version == file.version && Compared(file.daily.bars, daily, AnyKey())
  {
    hide DailyTaken, Picks, WrittenNew, KeptDaily, InsertedAll, IsTable, Shares, Agrees, Compared, FullRefresh, DaysBefore, EarliestDay;
    daily := FetchedDaily(options, answers.everyDaily, answers.everyVolatilityFailed).value;
    older := DaysBefore(daily, FirstDay(file), false);
    ComparedIs(file.daily.bars, file.daily.bars, daily, AnyKey());
    FullIsFull(file, options, answers);
    DailyAreTaken(options, answers.everyDaily, answers.everyVolatilityFailed);
    var at := DaysBeforePicks(daily, FirstDay(file), false);
    InsertedIsWritten(file.daily, older);
  }

  /** Older 30-minute bars: those of days before the first stored one, from 2006 or the first daily bar's year on; nothing when they reach back so far. */
  lemma OlderIntradayRefreshLeaves(file: File, options: Options, answers: Answers) returns (bars: seq<Bar>, older: seq<Bar>)
    requires IsFile(file) && HasBars(file) && OlderIntradayRefresh(file, options, answers).Ok? && OlderIntradayRefresh(file, options, answers).value.1 == OlderIntraday
    ensures var after := OlderIntradayRefresh(file, options, answers).value.0;
            var stored, daily := options.yearOf(FirstIntradayDay(file)), options.yearOf(FirstDay(file));
            var first := if daily < 2006 then 2006 else daily;
            && after.daily == file.daily && after.version == file.version
            && (stored <= first ==> after == file)
            && (stored > first ==>
                  && YearAgrees(file, options, answers, stored)
                  && YearsPicked(options, answers, first, stored, bars)
                  && OlderThan(bars, older, FirstIntradayDay(file), true) && WrittenNew(file.intraday.bars, after.intraday.bars, older))
  {
    hide YearsPicked, Picks, WrittenNew, InsertedAll, IsTable, Shares, Agrees, YearAgrees, FullRefresh, DaysBefore, FetchedYears, DayOf;
    bars, older := [], [];
    var first, stored := FirstYear(options, FirstDay(file)), options.yearOf(FirstIntradayDay(file));
    FullIsFull(file, options, answers);
    if stored > first {
      YearMissing(options, answers, first, stored);
      YearAgreesIs(file, options, answers, stored);
      bars := FetchedYears(options, answers, first, stored).value;
      older := DaysBefore(bars, FirstIntradayDay(file), true);
      YearsAre(options, answers, first, stored);
      var at := DaysBeforePicks(bars, FirstIntradayDay(file), true);
      InsertedIsWritten(file.intraday, older);
    }
  }

  // ---------------------------------------------------------------------------------------
  // Which way it takes

  /** The stored bars are of this version, reach back to the options' first year, and end no more than 14 days before the last day to store. */
  predicate CanTakeBars(file: File, options: Options) {
    && file.daily.keys != [] && file.intraday.keys != [] && file.version == Some("1")
    && options.yearOf(DayOf(file.intraday.keys[0])) <= options.yearOf(options.firstOptionDay)
    && options.lastDay - 14 <= file.daily.keys[|file.daily.keys| - 1] && options.lastDay - 14 <= DayOf(file.intraday.keys[|file.intraday.keys| - 1])
  }

  /** Bars are added only to a file that can take them, whose options start no more than 14 days before its stock, the way asked for; every other refresh that goes through fetches every bar. */
  lemma RefreshTakesTheWay(file: File, options: Options, answers: Answers)
    requires IsFile(file) && Refreshed(file, options, answers).Ok?
    ensures var kind := Refreshed(file, options, answers).value.1;
            && (CanTakeBars(file, options) ==> file.daily.keys[0] - options.firstOptionDay <= 14)
            && (kind == OlderIntraday ==> CanTakeBars(file, options) && options.extendIntraday)
            && (kind == OlderDaily ==> CanTakeBars(file, options) && options.extendDaily && !options.extendIntraday)
            && (kind == Tail ==> CanTakeBars(file, options) && !options.extendDaily && !options.extendIntraday)
  {
    hide Replaced, FetchedYears, KeptDaily, KeptIntraday, Added, OlderDailyAdded, OlderIntradayAdded, Shares, Agrees, TailFits, FullRefresh, IsTable, EarliestDay;
    FullIsFull(file, options, answers);
    assert TakesBars(file, options) <==> CanTakeBars(file, options);
  }

  /** And a file that can take bars is fetched whole only when the stored closes it shares with what was fetched do not agree, or it shares none. */
  lemma FullOnlyWhenDifferent(file: File, options: Options, answers: Answers) returns (daily: seq<Bar>, intraday: seq<Bar>)
    requires IsFile(file) && Refreshed(file, options, answers).Ok? && Refreshed(file, options, answers).value.1 == Full && CanTakeBars(file, options)
    ensures if options.extendIntraday then !YearAgrees(file, options, answers, options.yearOf(DayOf(file.intraday.keys[0])))
            else if options.extendDaily then DailyTaken(options, answers.everyDaily, answers.everyVolatilityFailed, daily) && !Compared(file.daily.bars, daily, AnyKey())
            else DailyTaken(options, answers.tailDaily, answers.tailVolatilityFailed, daily) && MonthTaken(options, answers.tailIntraday, intraday)
                 && !MonthAgrees(file, options, daily, intraday)
  {
    hide DailyTaken, Picks, KeptDaily, KeptIntraday, IsTable, TailFits, MonthAgrees, YearAgrees, Compared, Shares, Agrees, FullRefresh, DayOf, FetchedYears,
         Added, OlderDailyAdded, OlderIntradayAdded;
    assert TakesBars(file, options) <==> CanTakeBars(file, options);
    daily, intraday := [], [];
    if options.extendIntraday {
      var year := options.yearOf(FirstIntradayDay(file));
      YearMissing(options, answers, FirstYear(options, FirstDay(file)), year);
      if answers.intradayOfYear(year).Some? {
        YearAgreesIs(file, options, answers, year);
      }
    } else if options.extendDaily {
      daily := FetchedDaily(options, answers.everyDaily, answers.everyVolatilityFailed).value;
      DailyAreTaken(options, answers.everyDaily, answers.everyVolatilityFailed);
      ComparedIs(file.daily.bars, file.daily.bars, daily, AnyKey());
    } else {
      daily := FetchedDaily(options, answers.tailDaily, answers.tailVolatilityFailed).value;
      intraday := KeptIntraday(options, answers.tailIntraday.value, None);
      DailyAreTaken(options, answers.tailDaily, answers.tailVolatilityFailed);
      var at := IntradayPicks(options, answers.tailIntraday.value, None);
      TailFitsIs(file, options, daily, intraday);
    }
  }
}
