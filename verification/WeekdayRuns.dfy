/** The weekdays a data file does not hold, in runs (weekdayRuns and readBacktestDataFileIssues in src/backtest/dataFileSummary.ts). */
module WeekdayRuns {
  import opened Weekdays

  datatype Run = Run(first: int, last: int, weekdays: nat)

  predicate AscendingWeekdays(dates: seq<int>) {
    (forall i, j :: 0 <= i < j < |dates| ==> dates[i] < dates[j]) && forall i :: 0 <= i < |dates| ==> Weekday(dates[i])
  }

  /** A date joins the last run when it is the weekday after it, and starts a run of its own otherwise. */
  function WithDate(runs: seq<Run>, date: int): (after: seq<Run>)
    ensures after != [] && after[|after| - 1].last == date
  {
    if runs != [] && NextWeekday(runs[|runs| - 1].last) == date
    then runs[..|runs| - 1] + [Run(runs[|runs| - 1].first, date, runs[|runs| - 1].weekdays + 1)]
    else runs + [Run(date, date, 1)]
  }

  function RunsOf(dates: seq<int>): seq<Run> {
    if dates == [] then [] else WithDate(RunsOf(dates[..|dates| - 1]), dates[|dates| - 1])
  }

  method FindWeekdayRuns(dates: seq<int>) returns (runs: seq<Run>)
    ensures runs == RunsOf(dates)
  {
    hide NextWeekday, WithDate;
    runs := [];
    assert dates[..0] == [];
    for i := 0 to |dates|
      invariant runs == RunsOf(dates[..i])
    {
      assert dates[..i + 1][..i] == dates[..i];
      runs := Joined(runs, dates[i]);
    }
    assert dates[..|dates|] == dates;
  }

  method Joined(runs: seq<Run>, date: int) returns (after: seq<Run>)
    ensures after == WithDate(runs, date)
  {
    var joins := false;
    if |runs| > 0 {
      var lastDate := runs[|runs| - 1].last;
      NextWeekdayIsFirst(lastDate);
      hide NextWeekday, Weekday;
      var nextWeekday := lastDate + 1;
      while !Weekday(nextWeekday)
        invariant lastDate < nextWeekday <= NextWeekday(lastDate)
        decreases NextWeekday(lastDate) - nextWeekday
      {
        nextWeekday := nextWeekday + 1;
      }
      joins := nextWeekday == date;
    }
    if joins {
      var last := runs[|runs| - 1];
      after := runs[|runs| - 1 := Run(last.first, date, last.weekdays + 1)];
    } else {
      after := runs + [Run(date, date, 1)];
    }
  }

  // ---------------------------------------------------------------------------------------
  // What the runs are

  predicate InRun(run: Run, date: int) {
    run.first <= date <= run.last
  }

  function WeekdaysOf(runs: seq<Run>): nat {
    if runs == [] then 0 else WeekdaysOf(runs[..|runs| - 1]) + runs[|runs| - 1].weekdays
  }

  predicate InSomeRun(runs: seq<Run>, date: int) {
    exists k :: 0 <= k < |runs| && InRun(runs[k], date)
  }

  /** Runs of weekdays in order, a weekday missing between any two neighbours. */
  predicate ApartInOrder(runs: seq<Run>) {
    && (forall k :: 0 <= k < |runs| ==> runs[k].first <= runs[k].last && Weekday(runs[k].first) && Weekday(runs[k].last))
    && (forall k, m :: 0 <= k < m < |runs| ==> NextWeekday(runs[k].last) < runs[m].first)
  }

  lemma ApartAppended(runs: seq<Run>, run: Run)
    requires ApartInOrder(runs) && run.first <= run.last && Weekday(run.first) && Weekday(run.last)
    requires runs != [] ==> NextWeekday(runs[|runs| - 1].last) < run.first
    ensures ApartInOrder(runs + [run])
  {
    forall k | 0 <= k < |runs|
      ensures NextWeekday(runs[k].last) < run.first
    {
      assert k < |runs| - 1 ==> NextWeekday(runs[k].last) < runs[|runs| - 1].first;
    }
  }

  lemma ApartWithDate(runs: seq<Run>, date: int)
    requires ApartInOrder(runs) && Weekday(date) && (runs != [] ==> runs[|runs| - 1].last < date)
    ensures ApartInOrder(WithDate(runs, date))
  {
    hide NextWeekday, Weekday;
    if runs != [] && NextWeekday(runs[|runs| - 1].last) == date {
      var before, last := runs[..|runs| - 1], runs[|runs| - 1];
      assert before != [] ==> NextWeekday(before[|before| - 1].last) < last.first;
      ApartAppended(before, Run(last.first, date, last.weekdays + 1));
    } else {
      if runs != [] {
        NextWeekdayIsFirst(runs[|runs| - 1].last);
      }
      ApartAppended(runs, Run(date, date, 1));
    }
  }

  lemma {:induction false} RunsAreApart(dates: seq<int>)
    requires AscendingWeekdays(dates)
    ensures ApartInOrder(RunsOf(dates))
    ensures dates != [] ==> RunsOf(dates) != [] && RunsOf(dates)[|RunsOf(dates)| - 1].last == dates[|dates| - 1]
  {
    hide ApartInOrder, AscendingWeekdays, WithDate, Weekday;
    if dates == [] {
      NoRunsApart();
    } else {
      AscendingBefore(dates);
      var before := dates[..|dates| - 1];
      RunsAreApart(before);
      ApartWithDate(RunsOf(before), dates[|dates| - 1]);
    }
  }

  lemma AscendingBefore(dates: seq<int>)
    requires AscendingWeekdays(dates) && dates != []
    ensures var before, date := dates[..|dates| - 1], dates[|dates| - 1];
            AscendingWeekdays(before) && Weekday(date) && (before != [] ==> before[|before| - 1] < date) && (before == [] ==> RunsOf(before) == [])
  {}

  lemma NoRunsApart()
    ensures ApartInOrder([])
  {}

  lemma CoverWithDate(runs: seq<Run>, date: int, day: int)
    requires ApartInOrder(runs) && Weekday(day)
    ensures InSomeRun(WithDate(runs, date), day) <==> InSomeRun(runs, day) || day == date
  {
    hide InSomeRun, NextWeekday, Weekday;
    if runs != [] && NextWeekday(runs[|runs| - 1].last) == date {
      var before, last := runs[..|runs| - 1], runs[|runs| - 1];
      AppendedRun(before, Run(last.first, date, last.weekdays + 1), day);
      AppendedRun(before, last, day);
      assert before + [last] == runs;
      NextWeekdayIsFirst(last.last);
    } else {
      AppendedRun(runs, Run(date, date, 1), day);
    }
  }

  /** The runs cover exactly the dates: a weekday is in some run exactly when it is one of them. */
  lemma {:induction false} RunsCoverTheDates(dates: seq<int>, day: int)
    requires AscendingWeekdays(dates) && Weekday(day)
    ensures InSomeRun(RunsOf(dates), day) <==> day in dates
  {
    hide ApartInOrder, AscendingWeekdays, WithDate, Weekday, InSomeRun, InRun;
    if dates == [] {
      NotInNoRun(day);
    } else {
      var before, date := dates[..|dates| - 1], dates[|dates| - 1];
      AscendingBefore(dates);
      RunsCoverTheDates(before, day);
      RunsAreApart(before);
      CoverWithDate(RunsOf(before), date, day);
      InAppended(dates, day);
    }
  }

  lemma NotInNoRun(day: int)
    ensures !InSomeRun([], day)
  {}

  lemma InAppended(dates: seq<int>, day: int)
    requires dates != []
    ensures day in dates <==> day in dates[..|dates| - 1] || day == dates[|dates| - 1]
  {
    assert dates == dates[..|dates| - 1] + [dates[|dates| - 1]];
  }

  lemma AppendedRun(runs: seq<Run>, run: Run, day: int)
    ensures InSomeRun(runs + [run], day) <==> InSomeRun(runs, day) || InRun(run, day)
  {
    var all := runs + [run];
    if InSomeRun(runs, day) {
      var k :| 0 <= k < |runs| && InRun(runs[k], day);
      assert all[k] == runs[k];
    }
    if InRun(run, day) {
      assert all[|runs|] == run;
    }
  }

  lemma WeekdaysAppended(runs: seq<Run>, run: Run)
    ensures WeekdaysOf(runs + [run]) == WeekdaysOf(runs) + run.weekdays
  {
    assert (runs + [run])[..|runs|] == runs;
  }

  /** The runs' weekdays add up to the dates. */
  lemma {:induction false} RunsCountTheDates(dates: seq<int>)
    ensures WeekdaysOf(RunsOf(dates)) == |dates|
  {
    if dates != [] {
      var before, date := dates[..|dates| - 1], dates[|dates| - 1];
      RunsCountTheDates(before);
      CountWithDate(RunsOf(before), date);
    }
  }

  lemma CountWithDate(runs: seq<Run>, date: int)
    ensures WeekdaysOf(WithDate(runs, date)) == WeekdaysOf(runs) + 1
  {
    hide NextWeekday, WeekdaysOf;
    if runs != [] && NextWeekday(runs[|runs| - 1].last) == date {
      var before, last := runs[..|runs| - 1], runs[|runs| - 1];
      WeekdaysAppended(before, Run(last.first, date, last.weekdays + 1));
      WeekdaysAppended(before, last);
      assert before + [last] == runs;
    } else {
      WeekdaysAppended(runs, Run(date, date, 1));
    }
  }

  /** Two dates share a run exactly when every weekday between them is a date too. */
  lemma SharingIsBetween(dates: seq<int>, first: int, last: int)
    requires AscendingWeekdays(dates) && first in dates && last in dates && first <= last
    ensures (exists k :: 0 <= k < |RunsOf(dates)| && InRun(RunsOf(dates)[k], first) && InRun(RunsOf(dates)[k], last))
            <==> forall day :: first <= day <= last && Weekday(day) ==> day in dates
  {
    hide NextWeekday, Weekday, RunsOf, AscendingWeekdays;
    var runs := RunsOf(dates);
    DateIsWeekday(dates, first);
    DateIsWeekday(dates, last);
    RunsAreApart(dates);
    RunsCoverTheDates(dates, first);
    RunsCoverTheDates(dates, last);
    var k :| 0 <= k < |runs| && InRun(runs[k], first);
    var m :| 0 <= m < |runs| && InRun(runs[m], last);
    if k == m {
      forall day | first <= day <= last && Weekday(day)
        ensures day in dates
      {
        RunsCoverTheDates(dates, day);
        assert InRun(runs[k], day);
      }
    } else {
      NextBetween(runs, k, m, first, last);
      var missing := NextWeekday(runs[k].last);
      RunsCoverTheDates(dates, missing);
      OneRunEach(runs, k, first);
    }
  }

  lemma DateIsWeekday(dates: seq<int>, date: int)
    requires AscendingWeekdays(dates) && date in dates
    ensures Weekday(date)
  {}

  lemma NextBetween(runs: seq<Run>, k: nat, m: nat, first: int, last: int)
    requires ApartInOrder(runs) && k < |runs| && m < |runs| && k != m && InRun(runs[k], first) && InRun(runs[m], last) && first <= last
    ensures k < m && first < NextWeekday(runs[k].last) < last && Weekday(NextWeekday(runs[k].last)) && !InSomeRun(runs, NextWeekday(runs[k].last))
  {
    var missing := NextWeekday(runs[k].last);
    NextWeekdayIsFirst(runs[k].last);
    forall j | 0 <= j < |runs|
      ensures !InRun(runs[j], missing)
    {
      if j < k {
        assert NextWeekday(runs[j].last) < runs[k].first;
      } else if j > k {
        assert missing < runs[j].first;
      }
    }
  }

  lemma OneRunEach(runs: seq<Run>, k: nat, date: int)
    requires ApartInOrder(runs) && k < |runs| && InRun(runs[k], date)
    ensures forall j :: 0 <= j < |runs| && InRun(runs[j], date) ==> j == k
  {}

  // ---------------------------------------------------------------------------------------
  // The weekdays not stored

  /** The weekdays of a file's range it neither stores nor lists as unavailable. */
  method NotStored(firstDay: int, lastDay: int, stored: set<int>, unavailable: set<int>) returns (dates: seq<int>)
    ensures AscendingWeekdays(dates)
    ensures forall day :: day in dates <==> firstDay <= day <= lastDay && Weekday(day) && day !in stored && day !in unavailable
  {
    hide Weekday;
    dates := [];
    var day := firstDay;
    while day <= lastDay
      invariant firstDay <= day && (day <= lastDay + 1 || day == firstDay)
      invariant AscendingWeekdays(dates) && forall i :: 0 <= i < |dates| ==> dates[i] < day
      invariant forall d :: d in dates <==> firstDay <= d < day && Weekday(d) && d !in stored && d !in unavailable
      decreases lastDay - day
    {
      if Weekday(day) && day !in stored && day !in unavailable {
        dates := dates + [day];
      }
      day := day + 1;
    }
  }

  // ---------------------------------------------------------------------------------------
  // Full weeks

  /** JavaScript's remainder by 7: of the sign of the dividend. */
  function JavaScriptMod7(n: int): int {
    if n >= 0 then n % 7 else -((-n) % 7)
  }

  /** lastFullWeekMondays */
  function LastFullWeekMondays(lastDay: int, count: nat): (mondays: seq<int>)
    ensures |mondays| == count
  {
    var weekday := JavaScriptMod7(lastDay + 3);
    var newest := if weekday >= 4 then lastDay - weekday else lastDay - weekday - 7;
    seq(count, weeksBack => newest - 7 * weeksBack)
  }

  /** The Mondays of the last full weeks, newest first: each week's Friday is not after the last day, and no later week's is. */
  lemma FullWeeksAreTheLast(lastDay: int, count: nat, k: nat)
    requires lastDay >= -3 && k < count
    ensures var monday := LastFullWeekMondays(lastDay, count)[k];
            && (monday + 3) % 7 == 0
            && monday + 4 <= lastDay - 7 * k < monday + 11
  {
    var weekday := (lastDay + 3) % 7;
    assert (lastDay + 3 - weekday) % 7 == 0;
    assert (lastDay + 3 - weekday - 7 * k) % 7 == 0;
    assert (lastDay + 3 - weekday - 7 - 7 * k) % 7 == 0;
  }
}
