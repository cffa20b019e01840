/**
 Session days covered by legs and runs of days that are not: a cycle's no-Call days
 (src/backtest/cycleNoCallDays.ts) and a session's days with no options (src/backtest/sessionAnalytics.ts).
 */
module SessionRuns {
  import opened Wrappers

  /** A leg by its entry's and exit's days; `afterClose` for shares that arrive at or after the close. */
  datatype Leg = Leg(stock: bool, shortCall: bool, shortOption: bool, hedgePut: bool, entryDay: int, afterClose: bool, exitDay: Option<int>)

  predicate Ascending(days: seq<int>) {
    forall i, j :: 0 <= i < j < |days| ==> days[i] < days[j]
  }

  /** The leg was held on the day: from its entry's day, or the day after for shares in after the close, to its exit's. */
  predicate Spans(leg: Leg, day: int) {
    && (if leg.stock && leg.afterClose then leg.entryDay < day else leg.entryDay <= day)
    && (leg.exitDay.Some? ==> day <= leg.exitDay.value)
  }

  predicate SomeSpans(legs: seq<Leg>, day: int) {
    exists k :: 0 <= k < |legs| && Spans(legs[k], day)
  }

  // ---------------------------------------------------------------------------------------
  // Binary search

  /** firstIndexFrom: the first of the ascending days on or after one. */
  method FirstIndexFrom(days: seq<int>, day: int) returns (index: nat)
    requires Ascending(days)
    ensures index <= |days|
    ensures forall i :: 0 <= i < index ==> days[i] < day
    ensures forall i :: index <= i < |days| ==> days[i] >= day
  {
    var low, high := 0, |days|;
    while low < high
      invariant 0 <= low <= high <= |days|
      invariant forall i :: 0 <= i < low ==> days[i] < day
      invariant forall i :: high <= i < |days| ==> days[i] >= day
    {
      var middle := (low + high) / 2;
      if days[middle] < day {
        low := middle + 1;
      } else {
        high := middle;
      }
    }
    index := low;
  }

  /** firstIndexAfter */
  method FirstIndexAfter(days: seq<int>, day: int) returns (index: nat)
    requires Ascending(days)
    ensures index <= |days|
    ensures forall i :: 0 <= i < index ==> days[i] <= day
    ensures forall i :: index <= i < |days| ==> days[i] > day
  {
    index := FirstIndexFrom(days, day);
    if index < |days| && days[index] == day {
      index := index + 1;
    }
  }

  /** daysCoveredBy and heldDayIndexes: a day's index is covered exactly when some leg spans the day. */
  method DaysCoveredBy(days: seq<int>, legs: seq<Leg>) returns (covered: set<int>)
    requires Ascending(days)
    ensures forall i :: i in covered <==> 0 <= i < |days| && SomeSpans(legs, days[i])
  {
    covered := {};
    for k := 0 to |legs|
      invariant forall i :: i in covered <==> 0 <= i < |days| && SomeSpans(legs[..k], days[i])
    {
      SpansOneMore(legs, k);
      var leg := legs[k];
      var index: nat;
      if leg.stock && leg.afterClose {
        index := FirstIndexAfter(days, leg.entryDay);
      } else {
        index := FirstIndexFrom(days, leg.entryDay);
      }
      ghost var start := index;
      ghost var before := covered;
      while index < |days| && (leg.exitDay.None? || days[index] <= leg.exitDay.value)
        invariant start <= index <= |days|
        invariant forall i :: i in covered <==> i in before || (start <= i < index)
        invariant forall i :: start <= i < index ==> Spans(leg, days[i])
      {
        covered := covered + {index};
        index := index + 1;
      }
      assert forall i :: index <= i < |days| ==> !Spans(leg, days[i]);
      assert forall i :: 0 <= i < start ==> !Spans(leg, days[i]);
    }
    assert legs[..|legs|] == legs;
  }

  lemma SpansOneMore(legs: seq<Leg>, k: nat)
    requires k < |legs|
    ensures forall day :: SomeSpans(legs[..k + 1], day) <==> SomeSpans(legs[..k], day) || Spans(legs[k], day)
  {
    hide Spans;
    forall day
      ensures SomeSpans(legs[..k + 1], day) <==> SomeSpans(legs[..k], day) || Spans(legs[k], day)
    {
      if SomeSpans(legs[..k], day) {
        var j :| 0 <= j < k && Spans(legs[..k][j], day);
        assert legs[..k + 1][j] == legs[j];
      }
      if Spans(legs[k], day) {
        assert legs[..k + 1][k] == legs[k];
      }
    }
  }

  // ---------------------------------------------------------------------------------------
  // Runs

  /** A run of days by index: its first, and the one after its last. */
  datatype Run = Run(first: nat, end: nat)

  /** All days of the run are wanted, and it cannot be made longer. */
  predicate IsMaximal(wanted: seq<bool>, run: Run) {
    && run.first < run.end <= |wanted|
    && (forall i :: run.first <= i < run.end ==> wanted[i])
    && (run.first > 0 ==> !wanted[run.first - 1])
    && (run.end < |wanted| ==> !wanted[run.end])
  }

  /** Runs in order, a day between neighbours, holding every wanted day below `n`. */
  predicate AreRuns(wanted: seq<bool>, runs: seq<Run>) {
    && (forall k :: 0 <= k < |runs| ==> IsMaximal(wanted, runs[k]))
    && (forall k, m :: 0 <= k < m < |runs| ==> runs[k].end < runs[m].first)
    && (forall i :: 0 <= i < |wanted| && wanted[i] ==> InSomeRun(runs, i))
  }

  predicate InSomeRun(runs: seq<Run>, i: int) {
    exists k :: 0 <= k < |runs| && runs[k].first <= i < runs[k].end
  }

  /** The days of the runs, one run after the other. */
  function DaysOf(days: seq<int>, runs: seq<Run>): seq<seq<int>>
    requires forall k :: 0 <= k < |runs| ==> runs[k].first <= runs[k].end <= |days|
  {
    seq(|runs|, k requires 0 <= k < |runs| => days[runs[k].first..runs[k].end])
  }

  function Flattened(runs: seq<seq<int>>): seq<int> {
    if runs == [] then [] else Flattened(runs[..|runs| - 1]) + runs[|runs| - 1]
  }

  /** The wanted days, in order. */
  function WantedDays(days: seq<int>, wanted: seq<bool>): seq<int>
    requires |wanted| == |days|
  {
    if days == [] then [] else
    WantedDays(days[..|days| - 1], wanted[..|days| - 1]) + if wanted[|days| - 1] then [days[|days| - 1]] else []
  }

  /** The loop of cycleNoCallDays: a run begins at a wanted day after one that is not, and grows by the next wanted days. */
  method RunsOfDays(days: seq<int>, wanted: seq<bool>) returns (dayRuns: seq<seq<int>>, ghost runs: seq<Run>)
    requires |wanted| == |days|
    ensures AreRuns(wanted, runs)
    ensures (forall k :: 0 <= k < |runs| ==> runs[k].first <= runs[k].end <= |days|) && dayRuns == DaysOf(days, runs)
    ensures Flattened(dayRuns) == WantedDays(days, wanted)
  {
    hide RunsSoFar, AreRuns, Flattened, WantedDays;
    dayRuns, runs := [], [];
    var growing := false;
    NoDaysNoRuns(wanted);
    assert days[..0] == [] && wanted[..0] == [];
    for i := 0 to |days|
      invariant RunsSoFar(wanted, runs, i) && (growing <==> i > 0 && wanted[i - 1])
      invariant (forall k :: 0 <= k < |runs| ==> runs[k].first <= runs[k].end <= i) && dayRuns == DaysOf(days, runs)
      invariant Flattened(dayRuns) == WantedDays(days[..i], wanted[..i])
    {
      WantedOneMore(days, wanted, i);
      RunsOneMore(wanted, runs, i);
      if !wanted[i] {
        growing := false;
        continue;
      }
      if !growing {
        FlattenedOneMore(dayRuns, [days[i]]);
        DaysOfNew(days, runs, i);
        dayRuns, runs := dayRuns + [[days[i]]], runs + [Run(i, i + 1)];
        growing := true;
      } else {
        GrowingRun(wanted, runs, i);
        var last := |dayRuns| - 1;
        FlattenedLonger(dayRuns, days[i]);
        DaysOfLonger(days, runs, i);
        dayRuns, runs := dayRuns[last := dayRuns[last] + [days[i]]], runs[last := Run(runs[last].first, i + 1)];
      }
    }
    assert days[..|days|] == days && wanted[..|days|] == wanted;
    RunsAreDone(wanted, runs);
  }

  lemma DaysOfNew(days: seq<int>, runs: seq<Run>, i: nat)
    requires i < |days| && forall k :: 0 <= k < |runs| ==> runs[k].first <= runs[k].end <= i
    ensures DaysOf(days, runs + [Run(i, i + 1)]) == DaysOf(days, runs) + [[days[i]]]
  {
    assert days[i..i + 1] == [days[i]];
  }

  lemma DaysOfLonger(days: seq<int>, runs: seq<Run>, i: nat)
    requires i < |days| && runs != [] && runs[|runs| - 1].end == i && forall k :: 0 <= k < |runs| ==> runs[k].first <= runs[k].end <= i
    ensures var last := |runs| - 1;
            DaysOf(days, runs[last := Run(runs[last].first, i + 1)]) == DaysOf(days, runs)[last := DaysOf(days, runs)[last] + [days[i]]]
  {
    var last := |runs| - 1;
    assert days[runs[last].first..i + 1] == days[runs[last].first..i] + [days[i]];
  }

  lemma NoDaysNoRuns(wanted: seq<bool>)
    ensures RunsSoFar(wanted, [], 0) && Flattened([]) == WantedDays([], [])
  {}

  lemma WantedOneMore(days: seq<int>, wanted: seq<bool>, i: nat)
    requires |wanted| == |days| && i < |days|
    ensures WantedDays(days[..i + 1], wanted[..i + 1]) == WantedDays(days[..i], wanted[..i]) + if wanted[i] then [days[i]] else []
  {
    assert days[..i + 1][..i] == days[..i] && wanted[..i + 1][..i] == wanted[..i];
  }

  lemma GrowingRun(wanted: seq<bool>, runs: seq<Run>, n: nat)
    requires 0 < n <= |wanted| && RunsSoFar(wanted, runs, n) && wanted[n - 1]
    ensures runs != [] && runs[|runs| - 1].end == n
  {}

  lemma RunsAreDone(wanted: seq<bool>, runs: seq<Run>)
    requires RunsSoFar(wanted, runs, |wanted|)
    ensures AreRuns(wanted, runs)
  {}

  /** The runs of the first `n` days; the last may still grow. */
  predicate RunsSoFar(wanted: seq<bool>, runs: seq<Run>, n: nat)
    requires n <= |wanted|
  {
    && (forall k :: 0 <= k < |runs| ==>
          runs[k].first < runs[k].end <= n && (forall i :: runs[k].first <= i < runs[k].end ==> wanted[i])
          && (runs[k].first > 0 ==> !wanted[runs[k].first - 1]) && (runs[k].end < n ==> !wanted[runs[k].end]))
    && (forall k, m :: 0 <= k < m < |runs| ==> runs[k].end < runs[m].first)
    && (forall i :: 0 <= i < n && wanted[i] ==> InSomeRun(runs, i))
    && (n > 0 && wanted[n - 1] ==> runs != [] && runs[|runs| - 1].end == n)
  }

  lemma RunsOneMore(wanted: seq<bool>, runs: seq<Run>, n: nat)
    requires n < |wanted| && RunsSoFar(wanted, runs, n)
    ensures !wanted[n] ==> RunsSoFar(wanted, runs, n + 1)
    ensures wanted[n] && (n == 0 || !wanted[n - 1]) ==> RunsSoFar(wanted, runs + [Run(n, n + 1)], n + 1)
    ensures wanted[n] && n > 0 && wanted[n - 1] ==> RunsSoFar(wanted, runs[|runs| - 1 := Run(runs[|runs| - 1].first, n + 1)], n + 1)
  {
    if !wanted[n] {
      assert RunsSoFar(wanted, runs, n + 1);
    } else if n == 0 || !wanted[n - 1] {
      NewRun(wanted, runs, n);
    } else {
      LongerRun(wanted, runs, n);
    }
  }

  lemma NewRun(wanted: seq<bool>, runs: seq<Run>, n: nat)
    requires n < |wanted| && RunsSoFar(wanted, runs, n) && wanted[n] && (n == 0 || !wanted[n - 1])
    ensures RunsSoFar(wanted, runs + [Run(n, n + 1)], n + 1)
  {
    hide InSomeRun;
    forall i | 0 <= i < n + 1 && wanted[i]
      ensures InSomeRun(runs + [Run(n, n + 1)], i)
    {
      AppendedHolds(runs, Run(n, n + 1), i);
    }
  }

  lemma AppendedHolds(runs: seq<Run>, run: Run, i: int)
    requires InSomeRun(runs, i) || run.first <= i < run.end
    ensures InSomeRun(runs + [run], i)
  {
    var after := runs + [run];
    if InSomeRun(runs, i) {
      var k :| 0 <= k < |runs| && runs[k].first <= i < runs[k].end;
      assert after[k] == runs[k];
    } else {
      assert after[|runs|] == run;
    }
  }

  lemma LongerHolds(runs: seq<Run>, end: nat, i: int)
    requires runs != [] && runs[|runs| - 1].end <= end
    ensures InSomeRun(runs, i) || runs[|runs| - 1].first <= i < end ==> InSomeRun(runs[|runs| - 1 := Run(runs[|runs| - 1].first, end)], i)
  {
    var after := runs[|runs| - 1 := Run(runs[|runs| - 1].first, end)];
    if InSomeRun(runs, i) {
      var k :| 0 <= k < |runs| && runs[k].first <= i < runs[k].end;
      assert after[k].first <= i < after[k].end;
    } else if runs[|runs| - 1].first <= i < end {
      assert after[|runs| - 1].first <= i < after[|runs| - 1].end;
    }
  }

  lemma LongerRun(wanted: seq<bool>, runs: seq<Run>, n: nat)
    requires 0 < n < |wanted| && RunsSoFar(wanted, runs, n) && wanted[n] && wanted[n - 1]
    ensures RunsSoFar(wanted, runs[|runs| - 1 := Run(runs[|runs| - 1].first, n + 1)], n + 1)
  {
    hide InSomeRun;
    var last := |runs| - 1;
    var after := runs[last := Run(runs[last].first, n + 1)];
    forall i | 0 <= i < n + 1 && wanted[i]
      ensures InSomeRun(after, i)
    {
      LongerHolds(runs, n + 1, i);
    }
  }

  lemma FlattenedOneMore(runs: seq<seq<int>>, run: seq<int>)
    ensures Flattened(runs + [run]) == Flattened(runs) + run
  {
    assert (runs + [run])[..|runs|] == runs;
  }

  lemma FlattenedLonger(runs: seq<seq<int>>, day: int)
    requires runs != []
    ensures Flattened(runs[|runs| - 1 := runs[|runs| - 1] + [day]]) == Flattened(runs) + [day]
  {
    var last := |runs| - 1;
    assert runs[last := runs[last] + [day]][..last] == runs[..last];
  }

  /** Two wanted days share a run exactly when every day between them is wanted. */
  lemma SharingIsBetween(wanted: seq<bool>, runs: seq<Run>, i: nat, j: nat)
    requires AreRuns(wanted, runs) && i <= j < |wanted| && wanted[i] && wanted[j]
    ensures (exists k :: 0 <= k < |runs| && runs[k].first <= i && j < runs[k].end) <==> forall m :: i <= m <= j ==> wanted[m]
  {
    if forall m :: i <= m <= j ==> wanted[m] {
      var k :| 0 <= k < |runs| && runs[k].first <= i < runs[k].end;
      MaximalReaches(wanted, runs[k], i, j);
    }
  }

  lemma MaximalReaches(wanted: seq<bool>, run: Run, i: nat, j: nat)
    requires IsMaximal(wanted, run) && run.first <= i < run.end && i <= j < |wanted| && forall m :: i <= m <= j ==> wanted[m]
    ensures j < run.end
  {}

  // ---------------------------------------------------------------------------------------
  // A cycle's no-Call days

  datatype NoCallDays = NoCallDays(shareDays: nat, runs: seq<seq<int>>, hedgePutDays: set<int>)

  function LegsWhere(legs: seq<Leg>, keep: Leg -> bool): seq<Leg> {
    if legs == [] then [] else LegsWhere(legs[..|legs| - 1], keep) + if keep(legs[|legs| - 1]) then [legs[|legs| - 1]] else []
  }

  lemma {:induction false} LegsWhereSpan(legs: seq<Leg>, keep: Leg -> bool, day: int)
    ensures SomeSpans(LegsWhere(legs, keep), day) <==> exists k :: 0 <= k < |legs| && keep(legs[k]) && Spans(legs[k], day)
  {
    hide Spans;
    if legs != [] {
      var last := |legs| - 1;
      LegsWhereSpan(legs[..last], keep, day);
      var before := LegsWhere(legs[..last], keep);
      if keep(legs[last]) {
        SpansAppended(before, legs[last], day);
      } else {
        assert before + [] == before;
      }
      if exists k :: 0 <= k < last && keep(legs[k]) && Spans(legs[k], day) {
        var k :| 0 <= k < last && keep(legs[k]) && Spans(legs[k], day);
        assert legs[..last][k] == legs[k];
      }
    }
  }

  lemma SpansAppended(legs: seq<Leg>, leg: Leg, day: int)
    ensures SomeSpans(legs + [leg], day) <==> SomeSpans(legs, day) || Spans(leg, day)
  {
    hide Spans;
    var all := legs + [leg];
    if SomeSpans(legs, day) {
      var k :| 0 <= k < |legs| && Spans(legs[k], day);
      assert all[k] == legs[k];
    }
    if Spans(leg, day) {
      assert all[|legs|] == leg;
    }
  }

  predicate IsNoCallDay(legs: seq<Leg>, day: int) {
    SomeSpans(LegsWhere(legs, (leg: Leg) => leg.stock), day) && !SomeSpans(LegsWhere(legs, (leg: Leg) => leg.shortCall), day)
  }

  /** The days of a cycle: from its opening to its closing, both included, or to the last when it is open. */
  predicate InCycle(openedOn: int, closedOn: Option<int>, day: int) {
    openedOn <= day && (closedOn.Some? ==> day <= closedOn.value)
  }

  /** The session's days in a cycle. */
  function CycleDaysOf(sessionDays: seq<int>, openedOn: int, closedOn: Option<int>): seq<int> {
    if sessionDays == [] then [] else
    var last := sessionDays[|sessionDays| - 1];
    CycleDaysOf(sessionDays[..|sessionDays| - 1], openedOn, closedOn) + if InCycle(openedOn, closedOn, last) then [last] else []
  }

  function NoCallFlags(legs: seq<Leg>, days: seq<int>): (wanted: seq<bool>)
    ensures |wanted| == |days| && forall i :: 0 <= i < |days| ==> (wanted[i] <==> IsNoCallDay(legs, days[i]))
  {
    seq(|days|, i requires 0 <= i < |days| => IsNoCallDay(legs, days[i]))
  }

  predicate RunsGive(days: seq<int>, wanted: seq<bool>, runs: seq<Run>, dayRuns: seq<seq<int>>) {
    AreRuns(wanted, runs) && (forall k :: 0 <= k < |runs| ==> runs[k].first <= runs[k].end <= |days|) && dayRuns == DaysOf(days, runs)
  }

  /** cycleNoCallDays: the cycle's session days with shares and no Call, in maximal runs of consecutive session days. */
  method CycleNoCallDays(sessionDays: seq<int>, openedOn: int, closedOn: Option<int>, legs: seq<Leg>) returns (result: NoCallDays)
    requires Ascending(sessionDays) && (closedOn.Some? ==> openedOn <= closedOn.value)
    ensures var days := CycleDaysOf(sessionDays, openedOn, closedOn);
            var wanted := NoCallFlags(legs, days);
            && (exists runs :: RunsGive(days, wanted, runs, result.runs))
            && Flattened(result.runs) == WantedDays(days, wanted)
            && (forall day :: day in result.hedgePutDays <==> day in days && SomeSpans(LegsWhere(legs, (leg: Leg) => leg.hedgePut), day))
            && result.shareDays == |set i | 0 <= i < |days| && SomeSpans(LegsWhere(legs, (leg: Leg) => leg.stock), days[i])|
  {
    hide SomeSpans, AreRuns, CycleDaysOf;
    var from := FirstIndexFrom(sessionDays, openedOn);
    var to := |sessionDays|;
    if closedOn.Some? {
      to := FirstIndexAfter(sessionDays, closedOn.value);
      ghost var afterClosing := if to < |sessionDays| then sessionDays[to] else closedOn.value;
      assert from <= to;
    }
    var days := sessionDays[from..to];
    SlicedDays(sessionDays, from, to, openedOn, closedOn);
    var shares := DaysCoveredBy(days, LegsWhere(legs, (leg: Leg) => leg.stock));
    var calls := DaysCoveredBy(days, LegsWhere(legs, (leg: Leg) => leg.shortCall));
    var wanted := seq(|days|, i requires 0 <= i < |days| => i in shares && i !in calls);
    assert wanted == NoCallFlags(legs, days);
    var dayRuns;
    ghost var runs;
    dayRuns, runs := RunsOfDays(days, wanted);
    assert RunsGive(days, wanted, runs, dayRuns);
    assert shares == set i | 0 <= i < |days| && SomeSpans(LegsWhere(legs, (leg: Leg) => leg.stock), days[i]);
    var puts := DaysCoveredBy(days, LegsWhere(legs, (leg: Leg) => leg.hedgePut));
    var putDays := set i | i in puts :: days[i];
    forall day
      ensures day in putDays <==> day in days && SomeSpans(LegsWhere(legs, (leg: Leg) => leg.hedgePut), day)
    {
      if day in days {
        var i :| 0 <= i < |days| && days[i] == day;
        assert i in puts <==> SomeSpans(LegsWhere(legs, (leg: Leg) => leg.hedgePut), day);
      }
    }
    result := NoCallDays(|shares|, dayRuns, putDays);
  }

  /** They are those from the opening to the closing. */
  lemma {:induction false} CycleDaysAre(sessionDays: seq<int>, openedOn: int, closedOn: Option<int>, day: int)
    ensures day in CycleDaysOf(sessionDays, openedOn, closedOn) <==> day in sessionDays && InCycle(openedOn, closedOn, day)
  {
    if sessionDays != [] {
      var last := |sessionDays| - 1;
      CycleDaysAre(sessionDays[..last], openedOn, closedOn, day);
      assert sessionDays == sessionDays[..last] + [sessionDays[last]];
    }
  }

  lemma {:induction false} NoCycleDays(days: seq<int>, openedOn: int, closedOn: Option<int>)
    requires forall i :: 0 <= i < |days| ==> !InCycle(openedOn, closedOn, days[i])
    ensures CycleDaysOf(days, openedOn, closedOn) == []
  {
    if days != [] {
      NoCycleDays(days[..|days| - 1], openedOn, closedOn);
    }
  }

  lemma {:induction false} AllCycleDays(days: seq<int>, openedOn: int, closedOn: Option<int>)
    requires forall i :: 0 <= i < |days| ==> InCycle(openedOn, closedOn, days[i])
    ensures CycleDaysOf(days, openedOn, closedOn) == days
  {
    if days != [] {
      AllCycleDays(days[..|days| - 1], openedOn, closedOn);
      assert days == days[..|days| - 1] + [days[|days| - 1]];
    }
  }

  lemma {:induction false} CycleDaysConcatenated(a: seq<int>, b: seq<int>, openedOn: int, closedOn: Option<int>)
    ensures CycleDaysOf(a + b, openedOn, closedOn) == CycleDaysOf(a, openedOn, closedOn) + CycleDaysOf(b, openedOn, closedOn)
  {
    if b == [] {
      assert a + b == a;
    } else {
      assert (a + b)[..|a + b| - 1] == a + b[..|b| - 1];
      CycleDaysConcatenated(a, b[..|b| - 1], openedOn, closedOn);
    }
  }

  /** The days between the two binary searches are the cycle's. */
  lemma SlicedDays(days: seq<int>, from: nat, to: nat, openedOn: int, closedOn: Option<int>)
    requires Ascending(days) && from <= to <= |days|
    requires (forall i :: 0 <= i < from ==> days[i] < openedOn) && forall i :: from <= i < |days| ==> days[i] >= openedOn
    requires closedOn.None? ==> to == |days|
    requires closedOn.Some? ==> (forall i :: 0 <= i < to ==> days[i] <= closedOn.value) && forall i :: to <= i < |days| ==> days[i] > closedOn.value
    ensures Ascending(days[from..to]) && CycleDaysOf(days, openedOn, closedOn) == days[from..to]
  {
    hide CycleDaysOf;
    assert days == days[..from] + (days[from..to] + days[to..]);
    CycleDaysConcatenated(days[..from], days[from..to] + days[to..], openedOn, closedOn);
    CycleDaysConcatenated(days[from..to], days[to..], openedOn, closedOn);
    NoCycleDays(days[..from], openedOn, closedOn);
    AllCycleDays(days[from..to], openedOn, closedOn);
    NoCycleDays(days[to..], openedOn, closedOn);
  }

  // ---------------------------------------------------------------------------------------
  // A session's days with no options

  datatype LongestRun = LongestRun(days: nat, from: int, to: int)

  datatype DaysWithNoOptions = DaysWithNoOptions(dayCount: nat, tradingDayCount: nat, longestRun: Option<LongestRun>)

  /** The earliest of the longest maximal runs. */
  ghost predicate IsLongest(wanted: seq<bool>, run: Run)
    ensures IsLongest(wanted, run) ==> run.first < run.end <= |wanted|
  {
    && IsMaximal(wanted, run)
    && (forall other :: IsMaximal(wanted, other) ==>
          other.end - other.first < run.end - run.first || (other.end - other.first == run.end - run.first && run.first <= other.first))
  }

  /** The trading days with no short option open. */
  function FreeFlags(legs: seq<Leg>, days: seq<int>): (wanted: seq<bool>)
    ensures |wanted| == |days|
    ensures forall i :: 0 <= i < |days| ==> (wanted[i] <==> !SomeSpans(LegsWhere(legs, (leg: Leg) => leg.shortOption), days[i]))
  {
    seq(|days|, i requires 0 <= i < |days| => !SomeSpans(LegsWhere(legs, (leg: Leg) => leg.shortOption), days[i]))
  }

  ghost predicate IsLongestOf(days: seq<int>, wanted: seq<bool>, found: LongestRun) {
    exists run: Run :: IsLongest(wanted, run) && run.end <= |days| && found == LongestRun(run.end - run.first, days[run.first], days[run.end - 1])
  }

  /** computeDaysWithNoOptions: None without a trading day. */
  method ComputeDaysWithNoOptions(tradingDays: seq<int>, legs: seq<Leg>) returns (result: Option<DaysWithNoOptions>)
    requires Ascending(tradingDays)
    ensures result.None? <==> tradingDays == []
    ensures result.Some? ==>
      var found, wanted := result.value, FreeFlags(legs, tradingDays);
      && found.tradingDayCount == |tradingDays| && found.dayCount == Wanted(wanted)
      && (found.longestRun.None? <==> forall i :: 0 <= i < |wanted| ==> !wanted[i])
      && (found.longestRun.Some? ==> IsLongestOf(tradingDays, wanted, found.longestRun.value))
  {
    hide SomeSpans, Wanted, StartIs, LongestSoFar, IsLongest, IsMaximal;
    if |tradingDays| == 0 {
      return None;
    }
    var held := DaysCoveredBy(tradingDays, LegsWhere(legs, (leg: Leg) => leg.shortOption));
    ghost var wanted := FreeFlags(legs, tradingDays);
    var longestRun: Option<(nat, nat)> := None;
    var runStart: Option<nat> := None;
    NothingSoFar(wanted);
    for index := 0 to |tradingDays| + 1
      invariant index <= |tradingDays| ==> StartIs(wanted, runStart, index)
      invariant LongestSoFar(wanted, longestRun, index)
    {
      if index < |tradingDays| && index !in held {
        LongestUnlessEnding(wanted, longestRun, runStart, index);
        StartOneMore(wanted, runStart, index);
        if runStart.None? {
          runStart := Some(index);
        }
        continue;
      }
      LongestOneMore(wanted, longestRun, runStart, index);
      if index < |tradingDays| {
        StartOneMore(wanted, runStart, index);
      }
      if runStart.Some? && (longestRun.None? || index - runStart.value > longestRun.value.1 - longestRun.value.0) {
        longestRun := Some((runStart.value, index));
      }
      runStart := None;
    }
    UncoveredCount(held, wanted);
    LongestIs(wanted, longestRun);
    if longestRun.Some? {
      var longest := Run(longestRun.value.0, longestRun.value.1);
      var found := LongestRun(longest.end - longest.first, tradingDays[longest.first], tradingDays[longest.end - 1]);
      assert IsLongestOf(tradingDays, wanted, found) by {
        assert IsLongest(wanted, longest);
      }
      result := Some(DaysWithNoOptions(|tradingDays| - |held|, |tradingDays|, Some(found)));
    } else {
      result := Some(DaysWithNoOptions(|tradingDays| - |held|, |tradingDays|, None));
    }
  }

  /** Where the run that reaches `index` began; None when the day before is not wanted. */
  predicate StartIs(wanted: seq<bool>, start: Option<nat>, index: nat)
    requires index <= |wanted|
  {
    && (start.Some? <==> index > 0 && wanted[index - 1])
    && (start.Some? ==> start.value < index && (forall i :: start.value <= i < index ==> wanted[i]) && (start.value > 0 ==> !wanted[start.value - 1]))
  }

  /** The earliest longest of the maximal runs that end before `index`. */
  ghost predicate LongestSoFar(wanted: seq<bool>, longest: Option<(nat, nat)>, index: nat) {
    && (longest.Some? ==> IsMaximal(wanted, Run(longest.value.0, longest.value.1)) && longest.value.1 < index)
    && (forall other :: IsMaximal(wanted, other) && other.end < index ==>
          longest.Some?
          && (other.end - other.first < longest.value.1 - longest.value.0
              || (other.end - other.first == longest.value.1 - longest.value.0 && longest.value.0 <= other.first)))
  }

  lemma NothingSoFar(wanted: seq<bool>)
    ensures StartIs(wanted, None, 0) && LongestSoFar(wanted, None, 0)
  {}

  lemma StartOneMore(wanted: seq<bool>, start: Option<nat>, index: nat)
    requires index < |wanted| && StartIs(wanted, start, index)
    ensures StartIs(wanted, if !wanted[index] then None else if start.None? then Some(index) else start, index + 1)
  {}

  lemma MaximalByEnd(wanted: seq<bool>, a: Run, b: Run)
    requires IsMaximal(wanted, a) && IsMaximal(wanted, b) && a.end == b.end
    ensures a == b
  {
  }

  /** At a wanted day no run ends. */
  lemma LongestUnlessEnding(wanted: seq<bool>, longest: Option<(nat, nat)>, start: Option<nat>, index: nat)
    requires index < |wanted| && wanted[index] && LongestSoFar(wanted, longest, index)
    ensures LongestSoFar(wanted, longest, index + 1)
  {}

  /** At a day not wanted, or past the last, the run that reaches it ends. */
  lemma LongestOneMore(wanted: seq<bool>, longest: Option<(nat, nat)>, start: Option<nat>, index: nat)
    requires index <= |wanted| && (index < |wanted| ==> !wanted[index]) && StartIs(wanted, start, index) && LongestSoFar(wanted, longest, index)
    ensures LongestSoFar(wanted, if start.Some? && (longest.None? || index - start.value > longest.value.1 - longest.value.0) then Some((start.value, index)) else longest, index + 1)
  {
    hide IsMaximal;
    if start.Some? {
      var run := Run(start.value, index);
      EndingIsMaximal(wanted, run);
      var after := if longest.None? || index - start.value > longest.value.1 - longest.value.0 then Some((start.value, index)) else longest;
      forall other | IsMaximal(wanted, other) && other.end < index + 1
        ensures other.end - other.first < after.value.1 - after.value.0
                || (other.end - other.first == after.value.1 - after.value.0 && after.value.0 <= other.first)
      {
        if other.end == index {
          MaximalByEnd(wanted, run, other);
          if longest.Some? {
            EarlierStarts(wanted, Run(longest.value.0, longest.value.1), run);
          }
        }
      }
    } else {
      forall other | IsMaximal(wanted, other) && other.end < index + 1
        ensures other.end < index
      {
        NoneEnds(wanted, other, index);
      }
    }
  }

  lemma EndingIsMaximal(wanted: seq<bool>, run: Run)
    requires run.end <= |wanted| && (run.end < |wanted| ==> !wanted[run.end]) && StartIs(wanted, Some(run.first), run.end)
    ensures IsMaximal(wanted, run)
  {}

  lemma NoneEnds(wanted: seq<bool>, other: Run, index: nat)
    requires IsMaximal(wanted, other) && index <= |wanted| && StartIs(wanted, None, index)
    ensures other.end != index
  {}

  lemma EarlierStarts(wanted: seq<bool>, a: Run, b: Run)
    requires IsMaximal(wanted, a) && IsMaximal(wanted, b) && a.end < b.end
    ensures a.first < b.first
  {
  }

  lemma LongestIs(wanted: seq<bool>, longest: Option<(nat, nat)>)
    requires LongestSoFar(wanted, longest, |wanted| + 1)
    ensures longest.None? <==> forall i :: 0 <= i < |wanted| ==> !wanted[i]
    ensures longest.Some? ==> IsLongest(wanted, Run(longest.value.0, longest.value.1)) && longest.value.0 < longest.value.1 <= |wanted|
  {
    if longest.Some? {
      assert wanted[longest.value.0];
    } else if exists i :: 0 <= i < |wanted| && wanted[i] {
      var i :| 0 <= i < |wanted| && wanted[i];
      var run := SomeMaximal(wanted, i);
    }
  }

  /** Every wanted day is in a maximal run. */
  lemma SomeMaximal(wanted: seq<bool>, i: nat) returns (run: Run)
    requires i < |wanted| && wanted[i]
    ensures IsMaximal(wanted, run) && run.first <= i < run.end
  {
    var first, end := i, i + 1;
    while first > 0 && wanted[first - 1]
      invariant 0 <= first <= i && forall k :: first <= k <= i ==> wanted[k]
    {
      first := first - 1;
    }
    while end < |wanted| && wanted[end]
      invariant i < end <= |wanted| && forall k :: i <= k < end ==> wanted[k]
    {
      end := end + 1;
    }
    run := Run(first, end);
  }

  /** How many are wanted. */
  function Wanted(wanted: seq<bool>): nat {
    if wanted == [] then 0 else Wanted(wanted[..|wanted| - 1]) + if wanted[|wanted| - 1] then 1 else 0
  }

  /** The days not held are as many as all less the held ones. */
  lemma {:induction false} UncoveredCount(held: set<int>, wanted: seq<bool>)
    requires (forall i :: i in held ==> 0 <= i < |wanted|) && forall i :: 0 <= i < |wanted| ==> (wanted[i] <==> i !in held)
    ensures |wanted| - |held| == Wanted(wanted)
  {
    if wanted == [] {
      assert forall i: int :: i !in held;
      assert held == {};
    } else {
      UncoveredCount(held - {|wanted| - 1}, wanted[..|wanted| - 1]);
    }
  }
}
