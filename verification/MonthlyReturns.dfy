/** A day series' monthly returns and drawdowns (computeMonthlyReturnsOf, computeDrawdowns in src/backtest/sessionAnalytics.ts). */
module MonthlyReturns {
  import opened Wrappers

  datatype Day = Day(month: int, value: real)

  datatype MonthlyReturn = MonthlyReturn(month: int, monthlyReturn: real)

  predicate IsMonthEnd(days: seq<Day>, i: nat)
    requires i < |days|
  {
    i + 1 == |days| || days[i + 1].month != days[i].month
  }

  /** What a return is divided by is not zero: the start and every month's end but the last. */
  predicate NoZeroes(days: seq<Day>, startValue: real) {
    startValue != 0.0 && forall i :: 0 <= i < |days| - 1 && IsMonthEnd(days, i) ==> days[i].value != 0.0
  }

  /** The value the month of the `n`th day starts from: the last month's end among the first `n` days, or the start. */
  function MonthStart(days: seq<Day>, startValue: real, n: nat): real
    requires n <= |days|
  {
    if n == 0 then startValue
    else if IsMonthEnd(days, n - 1) then days[n - 1].value
    else MonthStart(days, startValue, n - 1)
  }

  lemma {:induction false} MonthStartNotZero(days: seq<Day>, startValue: real, n: nat)
    requires NoZeroes(days, startValue) && n < |days|
    ensures MonthStart(days, startValue, n) != 0.0
  {
    if n > 0 {
      MonthStartNotZero(days, startValue, n - 1);
    }
  }

  function MonthsOf(days: seq<Day>, startValue: real, n: nat): seq<MonthlyReturn>
    requires NoZeroes(days, startValue) && n <= |days|
  {
    if n == 0 then [] else
    MonthStartNotZero(days, startValue, n - 1);
    MonthsOf(days, startValue, n - 1)
    + if IsMonthEnd(days, n - 1) then [MonthlyReturn(days[n - 1].month, days[n - 1].value / MonthStart(days, startValue, n - 1) - 1.0)] else []
  }

  /** computeMonthlyReturnsOf */
  method ComputeMonthlyReturns(days: seq<Day>, startValue: real) returns (months: seq<MonthlyReturn>)
    requires NoZeroes(days, startValue)
    ensures months == MonthsOf(days, startValue, |days|)
  {
    months := [];
    var previousMonthEnd := startValue;
    for index := 0 to |days|
      invariant months == MonthsOf(days, startValue, index) && previousMonthEnd == MonthStart(days, startValue, index)
    {
      MonthStartNotZero(days, startValue, index);
      var isMonthEnd := index == |days| - 1 || days[index + 1].month != days[index].month;
      if isMonthEnd {
        months := months + [MonthlyReturn(days[index].month, days[index].value / previousMonthEnd - 1.0)];
        previousMonthEnd := days[index].value;
      }
    }
  }

  /** Π (1 + return). */
  function Growth(months: seq<MonthlyReturn>): real {
    if months == [] then 1.0 else Growth(months[..|months| - 1]) * (1.0 + months[|months| - 1].monthlyReturn)
  }

  lemma GrowthOneMore(months: seq<MonthlyReturn>, month: MonthlyReturn)
    ensures Growth(months + [month]) == Growth(months) * (1.0 + month.monthlyReturn)
  {
    assert (months + [month])[..|months|] == months;
  }

  lemma Chained(start: real, before: real, after: real)
    requires start != 0.0 && before != 0.0
    ensures before / start * (1.0 + (after / before - 1.0)) == after / start
  {
    assert before / start * (after / before) == after / start by {
      assert (after / before) * before == after;
      assert before / start * (after / before) * start == after;
    }
  }

  /** The months compound to the last month's end over the start. */
  lemma {:induction false} MonthsCompound(days: seq<Day>, startValue: real, n: nat)
    requires NoZeroes(days, startValue) && n <= |days|
    ensures Growth(MonthsOf(days, startValue, n)) == MonthStart(days, startValue, n) / startValue
  {
    hide Growth, NoZeroes, IsMonthEnd;
    StartIsNotZero(days, startValue);
    if n == 0 {
      NoGrowth();
      OverItself(startValue);
    } else {
      MonthsCompound(days, startValue, n - 1);
      MonthStartNotZero(days, startValue, n - 1);
      if IsMonthEnd(days, n - 1) {
        var before, value := MonthStart(days, startValue, n - 1), days[n - 1].value;
        GrowthOneMore(MonthsOf(days, startValue, n - 1), MonthlyReturn(days[n - 1].month, value / before - 1.0));
        Chained(startValue, before, value);
      } else {
        assert MonthsOf(days, startValue, n - 1) + [] == MonthsOf(days, startValue, n - 1);
      }
    }
  }

  lemma StartIsNotZero(days: seq<Day>, startValue: real)
    requires NoZeroes(days, startValue)
    ensures startValue != 0.0
  {}

  lemma OverItself(x: real)
    requires x != 0.0
    ensures x / x == 1.0
  {}

  lemma NoGrowth()
    ensures Growth([]) == 1.0
  {}

  /** For any day series: Π (1 + monthly return) = last value ÷ start value. */
  lemma ReturnsTelescope(days: seq<Day>, startValue: real)
    requires NoZeroes(days, startValue) && days != []
    ensures Growth(MonthsOf(days, startValue, |days|)) == days[|days| - 1].value / startValue
  {
    MonthsCompound(days, startValue, |days|);
  }

  // ---------------------------------------------------------------------------------------
  // Month by month

  predicate HasMonth(months: seq<MonthlyReturn>, month: int) {
    exists k :: 0 <= k < |months| && months[k].month == month
  }

  predicate InMonthOrder(days: seq<Day>) {
    forall i, j :: 0 <= i < j < |days| ==> days[i].month <= days[j].month
  }

  predicate LastOfMonth(days: seq<Day>, i: nat)
    requires i < |days|
  {
    forall j :: i < j < |days| ==> days[j].month != days[i].month
  }

  /** The return takes one value to the other. */
  predicate Takes(monthlyReturn: real, before: real, after: real) {
    (1.0 + monthlyReturn) * before == after
  }

  /** The days the months end with, in order. */
  predicate EndWith(days: seq<Day>, months: seq<MonthlyReturn>, at: seq<nat>, n: nat)
    requires n <= |days|
  {
    && |at| == |months|
    && (forall k :: 0 <= k < |at| ==> at[k] < n && IsMonthEnd(days, at[k]) && months[k].month == days[at[k]].month)
    && (forall k, m :: 0 <= k < m < |at| ==> at[k] < at[m])
    && (forall i :: 0 <= i < n && IsMonthEnd(days, i) ==> i in at)
  }

  /** Each return takes the value of the month's end before to its own. */
  predicate TakeOn(days: seq<Day>, startValue: real, months: seq<MonthlyReturn>, at: seq<nat>)
    requires |at| == |months| && forall k :: 0 <= k < |at| ==> at[k] < |days|
  {
    forall k :: 0 <= k < |at| ==> Takes(months[k].monthlyReturn, ValueBefore(days, startValue, at, k), days[at[k]].value)
  }

  function ValueBefore(days: seq<Day>, startValue: real, at: seq<nat>, k: nat): real
    requires k <= |at| && forall k :: 0 <= k < |at| ==> at[k] < |days|
  {
    if k == 0 then startValue else days[at[k - 1]].value
  }

  lemma ReturnTimes(value: real, before: real)
    requires before != 0.0
    ensures Takes(value / before - 1.0, before, value)
  {}

  lemma {:induction false} MonthsEndWith(days: seq<Day>, startValue: real, n: nat) returns (at: seq<nat>)
    requires NoZeroes(days, startValue) && n <= |days|
    ensures EndWith(days, MonthsOf(days, startValue, n), at, n) && TakeOn(days, startValue, MonthsOf(days, startValue, n), at)
    ensures MonthStart(days, startValue, n) == ValueBefore(days, startValue, at, |at|)
  {
    hide IsMonthEnd, NoZeroes, MonthsOf, TakeOn, EndWith;
    at := [];
    if n == 0 {
      NoMonths(days, startValue);
    } else {
      var before := MonthsEndWith(days, startValue, n - 1);
      at := before;
      MonthsOneMore(days, startValue, n);
      var months := MonthsOf(days, startValue, n - 1);
      if IsMonthEnd(days, n - 1) {
        at := before + [n - 1];
        var month := MonthsOf(days, startValue, n)[|months|];
        OneMoreEnd(days, months, before, n - 1, month);
        EndsAreDays(days, months, before, n - 1);
        OneMoreTaken(days, startValue, months, before, n - 1, month);
      } else {
        NoMoreEnds(days, months, before, n - 1);
      }
    }
  }

  lemma NoMonths(days: seq<Day>, startValue: real)
    requires NoZeroes(days, startValue)
    ensures MonthsOf(days, startValue, 0) == [] && EndWith(days, [], [], 0) && TakeOn(days, startValue, [], [])
  {}

  lemma MonthsOneMore(days: seq<Day>, startValue: real, n: nat)
    requires NoZeroes(days, startValue) && 0 < n <= |days|
    ensures var before, months := MonthsOf(days, startValue, n - 1), MonthsOf(days, startValue, n);
            if IsMonthEnd(days, n - 1) then
              && |months| == |before| + 1 && months == before + [months[|before|]]
              && months[|before|].month == days[n - 1].month && Takes(months[|before|].monthlyReturn, MonthStart(days, startValue, n - 1), days[n - 1].value)
            else months == before
  {
    hide IsMonthEnd, NoZeroes, Takes;
    MonthStartNotZero(days, startValue, n - 1);
    ReturnTimes(days[n - 1].value, MonthStart(days, startValue, n - 1));
    assert MonthsOf(days, startValue, n - 1) + [] == MonthsOf(days, startValue, n - 1);
  }

  lemma EndsAreDays(days: seq<Day>, months: seq<MonthlyReturn>, at: seq<nat>, n: nat)
    requires n <= |days| && EndWith(days, months, at, n)
    ensures |at| == |months| && forall k :: 0 <= k < |at| ==> at[k] < n
  {}

  lemma NoMoreEnds(days: seq<Day>, months: seq<MonthlyReturn>, at: seq<nat>, n: nat)
    requires n < |days| && EndWith(days, months, at, n) && !IsMonthEnd(days, n)
    ensures EndWith(days, months, at, n + 1)
  {
    hide IsMonthEnd;
  }

  lemma OneMoreEnd(days: seq<Day>, months: seq<MonthlyReturn>, at: seq<nat>, n: nat, month: MonthlyReturn)
    requires n < |days| && EndWith(days, months, at, n) && IsMonthEnd(days, n) && month.month == days[n].month
    ensures EndWith(days, months + [month], at + [n], n + 1)
  {
    hide IsMonthEnd;
    forall i | 0 <= i < n + 1 && IsMonthEnd(days, i)
      ensures i in at + [n]
    {
      assert i == n || i in at;
    }
  }

  lemma OneMoreTaken(days: seq<Day>, startValue: real, months: seq<MonthlyReturn>, at: seq<nat>, n: nat, month: MonthlyReturn)
    requires n < |days| && |at| == |months| && (forall k :: 0 <= k < |at| ==> at[k] < n) && TakeOn(days, startValue, months, at)
    requires Takes(month.monthlyReturn, ValueBefore(days, startValue, at, |at|), days[n].value)
    ensures TakeOn(days, startValue, months + [month], at + [n])
  {
    hide Takes;
    forall k | 0 <= k <= |at|
      ensures ValueBefore(days, startValue, at + [n], k) == ValueBefore(days, startValue, at, k)
    {}
  }

  lemma EndsAreLast(days: seq<Day>, i: nat)
    requires InMonthOrder(days) && i < |days|
    ensures IsMonthEnd(days, i) <==> LastOfMonth(days, i)
  {
    if IsMonthEnd(days, i) && i + 1 < |days| {
      assert forall j :: i < j < |days| ==> days[i + 1].month <= days[j].month;
    }
  }

  lemma {:induction false} LastDayOf(days: seq<Day>, i: nat) returns (last: nat)
    requires InMonthOrder(days) && i < |days|
    ensures last < |days| && LastOfMonth(days, last) && days[last].month == days[i].month
    decreases |days| - i
  {
    if LastOfMonth(days, i) {
      last := i;
    } else {
      var j :| i < j < |days| && days[j].month == days[i].month;
      last := LastDayOf(days, j);
    }
  }

  /** The kth return is what takes the value at the last day of the month before, or the start, to the value at its own last day. */
  predicate IsItsReturn(days: seq<Day>, startValue: real, months: seq<MonthlyReturn>, k: nat)
    requires k < |months|
  {
    forall i :: 0 <= i < |days| && LastOfMonth(days, i) && days[i].month == months[k].month ==>
      if k == 0 then Takes(months[k].monthlyReturn, startValue, days[i].value)
      else forall j :: 0 <= j < |days| && LastOfMonth(days, j) && days[j].month == months[k - 1].month ==> Takes(months[k].monthlyReturn, days[j].value, days[i].value)
  }

  /** Of days in order: each of their months once, in order, and its return is its own. */
  lemma EachMonthOnce(days: seq<Day>, startValue: real)
    requires NoZeroes(days, startValue) && InMonthOrder(days)
    ensures var months := MonthsOf(days, startValue, |days|);
            && (forall k, m :: 0 <= k < m < |months| ==> months[k].month < months[m].month)
            && (forall i :: 0 <= i < |days| ==> HasMonth(months, days[i].month))
            && (forall k :: 0 <= k < |months| ==> IsItsReturn(days, startValue, months, k))
  {
    hide MonthsOf, NoZeroes, InMonthOrder, TakeOn, EndWith, HasMonth, AreLastDays, HasAllLastDays, IsItsReturn;
    var months := MonthsOf(days, startValue, |days|);
    var at := MonthsEndWith(days, startValue, |days|);
    EndsAreTheLastDays(days, months, at);
    EveryMonthIsThere(days, months, at);
    forall k, m | 0 <= k < m < |months|
      ensures months[k].month < months[m].month
    {
      MonthsAscend(days, months, at, k, m);
    }
    forall k | 0 <= k < |months|
      ensures IsItsReturn(days, startValue, months, k)
    {
      ReturnIs(days, startValue, months, at, k);
    }
  }

  lemma ReturnIs(days: seq<Day>, startValue: real, months: seq<MonthlyReturn>, at: seq<nat>, k: nat)
    requires AreLastDays(days, months, at) && TakeOn(days, startValue, months, at) && k < |months|
    ensures IsItsReturn(days, startValue, months, k)
  {
    hide LastOfMonth, Takes, TakeOn, AreLastDays;
    forall i | 0 <= i < |days| && LastOfMonth(days, i) && days[i].month == months[k].month
      ensures if k == 0 then Takes(months[k].monthlyReturn, startValue, days[i].value)
              else forall j :: 0 <= j < |days| && LastOfMonth(days, j) && days[j].month == months[k - 1].month ==> Takes(months[k].monthlyReturn, days[j].value, days[i].value)
    {
      if k == 0 {
        FirstTakes(days, startValue, months, at, i);
      } else {
        forall j | 0 <= j < |days| && LastOfMonth(days, j) && days[j].month == months[k - 1].month
          ensures Takes(months[k].monthlyReturn, days[j].value, days[i].value)
        {
          LaterTakes(days, startValue, months, at, k, i, j);
        }
      }
    }
  }

  lemma FirstTakes(days: seq<Day>, startValue: real, months: seq<MonthlyReturn>, at: seq<nat>, i: nat)
    requires AreLastDays(days, months, at) && TakeOn(days, startValue, months, at) && months != []
    requires i < |days| && LastOfMonth(days, i) && days[i].month == months[0].month
    ensures Takes(months[0].monthlyReturn, startValue, days[i].value)
  {
    TheLastDay(days, months, at, 0, i);
    hide LastOfMonth, Takes;
    assert Takes(months[0].monthlyReturn, ValueBefore(days, startValue, at, 0), days[at[0]].value);
  }

  lemma LaterTakes(days: seq<Day>, startValue: real, months: seq<MonthlyReturn>, at: seq<nat>, k: nat, i: nat, j: nat)
    requires AreLastDays(days, months, at) && TakeOn(days, startValue, months, at) && 0 < k < |months|
    requires i < |days| && LastOfMonth(days, i) && days[i].month == months[k].month
    requires j < |days| && LastOfMonth(days, j) && days[j].month == months[k - 1].month
    ensures Takes(months[k].monthlyReturn, days[j].value, days[i].value)
  {
    hide TakeOn, Takes, LastOfMonth;
    TheLastDay(days, months, at, k, i);
    TheLastDay(days, months, at, k - 1, j);
    TakesAt(days, startValue, months, at, k);
  }

  lemma TakesAt(days: seq<Day>, startValue: real, months: seq<MonthlyReturn>, at: seq<nat>, k: nat)
    requires |at| == |months| && (forall k :: 0 <= k < |at| ==> at[k] < |days|) && TakeOn(days, startValue, months, at) && 0 < k < |at|
    ensures Takes(months[k].monthlyReturn, days[at[k - 1]].value, days[at[k]].value)
  {
    hide Takes;
    assert Takes(months[k].monthlyReturn, ValueBefore(days, startValue, at, k), days[at[k]].value);
  }

  predicate HasAllLastDays(days: seq<Day>, at: seq<nat>) {
    forall i :: 0 <= i < |days| && LastOfMonth(days, i) ==> i in at
  }

  /** The days are the last ones of the months, in order. */
  predicate AreLastDays(days: seq<Day>, months: seq<MonthlyReturn>, at: seq<nat>) {
    && |at| == |months| && (forall k :: 0 <= k < |at| ==> at[k] < |days| && LastOfMonth(days, at[k]) && months[k].month == days[at[k]].month)
    && forall k, m :: 0 <= k < m < |at| ==> at[k] < at[m]
  }

  lemma TheLastDay(days: seq<Day>, months: seq<MonthlyReturn>, at: seq<nat>, k: nat, i: nat)
    requires AreLastDays(days, months, at) && k < |months| && i < |days| && LastOfMonth(days, i) && days[i].month == months[k].month
    ensures at[k] == i
  {}

  lemma MonthsAscend(days: seq<Day>, months: seq<MonthlyReturn>, at: seq<nat>, k: nat, m: nat)
    requires InMonthOrder(days) && AreLastDays(days, months, at) && k < m < |months|
    ensures months[k].month < months[m].month
  {
    assert at[k] < at[m] && LastOfMonth(days, at[k]);
  }

  lemma EveryMonthIsThere(days: seq<Day>, months: seq<MonthlyReturn>, at: seq<nat>)
    requires InMonthOrder(days) && AreLastDays(days, months, at) && HasAllLastDays(days, at)
    ensures forall i :: 0 <= i < |days| ==> HasMonth(months, days[i].month)
  {
    hide LastOfMonth, InMonthOrder;
    forall i | 0 <= i < |days|
      ensures HasMonth(months, days[i].month)
    {
      var last := LastDayOf(days, i);
      assert last in at;
      var k :| 0 <= k < |at| && at[k] == last;
      assert months[k].month == days[i].month;
    }
  }

  lemma EndsAreTheLastDays(days: seq<Day>, months: seq<MonthlyReturn>, at: seq<nat>)
    requires InMonthOrder(days) && EndWith(days, months, at, |days|)
    ensures AreLastDays(days, months, at) && HasAllLastDays(days, at)
  {
    hide IsMonthEnd, LastOfMonth, InMonthOrder;
    forall i | 0 <= i < |days|
      ensures IsMonthEnd(days, i) <==> LastOfMonth(days, i)
    {
      EndsAreLast(days, i);
    }
  }

  // ---------------------------------------------------------------------------------------
  // Drawdowns

  /** The highest of the first values. */
  function Peak(values: seq<real>): (peak: real)
    requires values != []
    ensures peak in values && forall i :: 0 <= i < |values| ==> values[i] <= peak
  {
    var last := values[|values| - 1];
    if |values| == 1 then last else
    var before := Peak(values[..|values| - 1]);
    assert forall i :: 0 <= i < |values| - 1 ==> values[..|values| - 1][i] == values[i];
    if before >= last then before else last
  }

  /** A value's fall from a peak. */
  function Fall(value: real, peak: real): real
    requires peak != 0.0
  {
    value / peak - 1.0
  }

  function PeakAt(values: seq<real>, i: nat): real
    requires i < |values|
  {
    Peak(values[..i + 1])
  }

  /** No highest value so far is zero, so that every fall is a number. */
  predicate PeaksAreNotZero(values: seq<real>) {
    forall i :: 0 <= i < |values| ==> PeakAt(values, i) != 0.0
  }

  /** computeDrawdowns: each day's fall from the highest value so far. */
  method ComputeDrawdowns(values: seq<real>) returns (falls: seq<real>)
    requires PeaksAreNotZero(values)
    ensures |falls| == |values| && forall i :: 0 <= i < |values| ==> FallIs(values, i, falls[i])
  {
    hide Fall, FallIs, Peak;
    falls := [];
    var peak: Option<real> := None;
    for i := 0 to |values|
      invariant |falls| == i && peak == if i == 0 then None else Some(Peak(values[..i]))
      invariant forall k :: 0 <= k < i ==> FallIs(values, k, falls[k])
    {
      PeakOneMore(values, i, peak);
      peak := if peak.Some? && peak.value >= values[i] then peak else Some(values[i]);
      assert PeakAt(values, i) != 0.0;
      FallAt(values, i);
      falls := falls + [Fall(values[i], peak.value)];
    }
  }

  lemma PeakOneMore(values: seq<real>, i: nat, peak: Option<real>)
    requires i < |values| && peak == if i == 0 then None else Some(Peak(values[..i]))
    ensures Peak(values[..i + 1]) == if peak.Some? && peak.value >= values[i] then peak.value else values[i]
  {
    assert values[..i + 1][..i] == values[..i];
  }

  /**
   The day's fall is from the highest value so far. It is none exactly when no earlier value is higher; from
   a positive highest it is never above 0, and more than all of it exactly when nothing is left, and from a
   negative one it is never below 0.
   */
  predicate FallIs(values: seq<real>, k: nat, fall: real)
    requires k < |values|
  {
    var peak := Peak(values[..k + 1]);
    && peak != 0.0 && fall == Fall(values[k], peak)
    && (fall == 0.0 <==> forall j :: 0 <= j < k ==> values[j] <= values[k])
    && (peak > 0.0 ==> fall <= 0.0 && (fall > -1.0 <==> values[k] > 0.0))
    && (peak < 0.0 ==> fall >= 0.0)
  }

  lemma FallAt(values: seq<real>, k: nat)
    requires k < |values| && Peak(values[..k + 1]) != 0.0
    ensures FallIs(values, k, Fall(values[k], Peak(values[..k + 1])))
  {
    hide Fall, Peak;
    AtThePeak(values, k);
    FallFrom(values[k], Peak(values[..k + 1]));
  }

  lemma FallFrom(value: real, peak: real)
    requires peak != 0.0 && value <= peak
    ensures Fall(value, peak) == 0.0 <==> value == peak
    ensures peak > 0.0 ==> Fall(value, peak) <= 0.0 && (Fall(value, peak) > -1.0 <==> value > 0.0)
    ensures peak < 0.0 ==> Fall(value, peak) >= 0.0
  {
    var ratio := value / peak;
    assert ratio * peak == value;
    if peak > 0.0 {
      RatioTo(ratio, value, peak);
    } else {
      assert ratio * (-peak) == -value;
      RatioTo(ratio, -value, -peak);
    }
  }

  lemma RatioTo(ratio: real, value: real, size: real)
    requires size > 0.0 && ratio * size == value
    ensures (ratio > 1.0 <==> value > size) && (ratio < 1.0 <==> value < size) && (ratio > 0.0 <==> value > 0.0)
  {
    assert (ratio - 1.0) * size == value - size && (1.0 - ratio) * size == size - value;
    SignOfProduct(ratio - 1.0, size);
    SignOfProduct(1.0 - ratio, size);
    SignOfProduct(ratio, size);
  }

  lemma SignOfProduct(a: real, b: real)
    requires b > 0.0
    ensures a * b > 0.0 <==> a > 0.0
  {
    if a > 0.0 {
      PositiveProduct(a, b);
    } else if a < 0.0 {
      PositiveProduct(-a, b);
      assert (-a) * b == -(a * b);
    }
  }

  lemma PositiveProduct(ratio: real, peak: real)
    requires ratio > 0.0 && peak > 0.0
    ensures ratio * peak > 0.0
  {}

  lemma AtThePeak(values: seq<real>, i: nat)
    requires i < |values|
    ensures values[i] <= Peak(values[..i + 1])
    ensures values[i] == Peak(values[..i + 1]) <==> forall j :: 0 <= j < i ==> values[j] <= values[i]
  {
    var sofar := values[..i + 1];
    assert sofar[i] == values[i];
    assert forall j :: 0 <= j < i ==> sofar[j] == values[j];
  }
}
