/**
 Which retrieved rows a stored day, or a retried piece, leaves in the file
 (scripts/backtest/download_thetadata_symbol.py), said of the rows and the tables alone.
 */
module StoredContents {
  import opened Wrappers
  import opened SliceKeys
  import opened FlatPart
  import opened SliceTables
  import opened FileState

  // ---------------------------------------------------------------------------------------
  // What the tables hold of some rows

  /** The row's strike is within the percentage of the at-the-money strike; every strike is, without a window or without such a strike. */
  predicate InWindow(row: KeyedRow, window: Option<real>, atTheMoney: Option<real>)
    requires ContractRow(row.row)
  {
    window.Some? && atTheMoney.Some? ==>
      var strike, lowest, highest := row.row[0].value, atTheMoney.value * (1.0 - window.value / 100.0), atTheMoney.value * (1.0 + window.value / 100.0);
      lowest <= strike && strike <= highest
  }

  /** A row in the window given for the contract. */
  predicate GivenAt(rows: seq<KeyedRow>, window: Option<real>, atTheMoney: Option<real>, rowKey: RowKey, i: nat)
    requires ContractRows(rows) && i < |rows|
  {
    InWindow(rows[i], window, atTheMoney) && rows[i].key == rowKey.key && ContractOf(rows[i].row) == rowKey.contract
  }

  predicate Given(rows: seq<KeyedRow>, window: Option<real>, atTheMoney: Option<real>, rowKey: RowKey)
    requires ContractRows(rows)
  {
    exists i :: 0 <= i < |rows| && GivenAt(rows, window, atTheMoney, rowKey, i)
  }

  predicate FirstGivenAt(rows: seq<KeyedRow>, window: Option<real>, atTheMoney: Option<real>, rowKey: RowKey, i: nat)
    requires ContractRows(rows) && i < |rows|
  {
    GivenAt(rows, window, atTheMoney, rowKey, i) && forall j :: 0 <= j < i ==> !GivenAt(rows, window, atTheMoney, rowKey, j)
  }

  predicate LastGivenAt(rows: seq<KeyedRow>, window: Option<real>, atTheMoney: Option<real>, rowKey: RowKey, i: nat)
    requires ContractRows(rows) && i < |rows|
  {
    GivenAt(rows, window, atTheMoney, rowKey, i) && forall j :: i < j < |rows| ==> !GivenAt(rows, window, atTheMoney, rowKey, j)
  }

  /** The rows in the window are the day's rows, each given once. */
  ghost predicate HoldsJust(flat: FlatRows, day: int, rows: seq<KeyedRow>, window: Option<real>, atTheMoney: Option<real>)
    requires ContractRows(rows)
  {
    && (forall rowKey :: rowKey in DayKeys(flat, day) <==> Given(rows, window, atTheMoney, rowKey))
    && (forall i, rowKey :: 0 <= i < |rows| && GivenAt(rows, window, atTheMoney, rowKey, i) ==> rowKey in flat && flat[rowKey] == rows[i].row)
  }

  /** The rows in the window are added where there was none: the first given for a contract. */
  ghost predicate HoldsMissing(before: FlatRows, flat: FlatRows, rows: seq<KeyedRow>, window: Option<real>, atTheMoney: Option<real>)
    requires ContractRows(rows)
  {
    && (forall rowKey :: rowKey in flat <==> rowKey in before || Given(rows, window, atTheMoney, rowKey))
    && (forall rowKey :: rowKey in before ==> rowKey in flat && flat[rowKey] == before[rowKey])
    && (forall i, rowKey :: 0 <= i < |rows| && FirstGivenAt(rows, window, atTheMoney, rowKey, i) && rowKey !in before ==> rowKey in flat && flat[rowKey] == rows[i].row)
  }

  /** The rows in the window are stored, over those there were: the last given for a contract. */
  ghost predicate HoldsOver(before: FlatRows, flat: FlatRows, rows: seq<KeyedRow>, window: Option<real>, atTheMoney: Option<real>)
    requires ContractRows(rows)
  {
    && (forall rowKey :: rowKey in flat <==> rowKey in before || Given(rows, window, atTheMoney, rowKey))
    && (forall rowKey :: rowKey in before && !Given(rows, window, atTheMoney, rowKey) ==> rowKey in flat && flat[rowKey] == before[rowKey])
    && (forall i, rowKey :: 0 <= i < |rows| && LastGivenAt(rows, window, atTheMoney, rowKey, i) ==> rowKey in flat && flat[rowKey] == rows[i].row)
  }

  /** Nothing of another day changed. */
  ghost predicate OtherDaysStay(before: FlatRows, flat: FlatRows, day: int) {
    forall rowKey: RowKey :: DayNumberOfKey(rowKey.key) != day ==> Lookup(flat, rowKey) == Lookup(before, rowKey)
  }

  // ---------------------------------------------------------------------------------------
  // The rows kept

  /** The indexes of the rows kept, in order. */
  ghost predicate Keeps(rows: seq<KeyedRow>, kept: seq<KeyedRow>, at: seq<nat>, window: Option<real>, atTheMoney: Option<real>)
    requires ContractRows(rows)
  {
    && |at| == |kept|
    && (forall k :: 0 <= k < |at| ==> at[k] < |rows| && kept[k] == rows[at[k]] && InWindow(rows[at[k]], window, atTheMoney))
    && (forall k, m :: 0 <= k < m < |at| ==> at[k] < at[m])
    && (forall i :: 0 <= i < |rows| && InWindow(rows[i], window, atTheMoney) ==> i in at)
  }

  lemma KeepsOneMore(rows: seq<KeyedRow>, kept: seq<KeyedRow>, at: seq<nat>, window: Option<real>, atTheMoney: Option<real>)
    requires ContractRows(rows) && rows != [] && Keeps(rows[..|rows| - 1], kept, at, window, atTheMoney)
    ensures var last := |rows| - 1;
            if InWindow(rows[last], window, atTheMoney) then Keeps(rows, kept + [rows[last]], at + [last], window, atTheMoney)
            else Keeps(rows, kept, at, window, atTheMoney)
  {
    hide InWindow;
    var last := |rows| - 1;
    assert forall i :: 0 <= i < last ==> rows[..last][i] == rows[i];
    if InWindow(rows[last], window, atTheMoney) {
      var all := at + [last];
      forall i | 0 <= i < |rows| && InWindow(rows[i], window, atTheMoney)
        ensures i in all
      {
        assert i < last ==> i in at;
        assert all[|at|] == last;
      }
    }
  }

  lemma {:induction false} WithinOneMore(rows: seq<KeyedRow>, atTheMoney: real, percent: real)
    requires ContractRows(rows) && rows != []
    ensures var last := |rows| - 1;
            WithinWindow(rows, atTheMoney, percent)
            == WithinWindow(rows[..last], atTheMoney, percent) + if InWindow(rows[last], Some(percent), Some(atTheMoney)) then [rows[last]] else []
  {
    InWindowIs(rows[|rows| - 1], atTheMoney, percent);
    hide InWindow;
    var before := WithinWindow(rows[..|rows| - 1], atTheMoney, percent);
    assert before + [] == before;
  }

  lemma {:induction false} InWindowIs(row: KeyedRow, atTheMoney: real, percent: real)
    requires ContractRow(row.row)
    ensures InWindow(row, Some(percent), Some(atTheMoney))
            <==> atTheMoney * (1.0 - percent / 100.0) <= ContractOf(row.row).strike <= atTheMoney * (1.0 + percent / 100.0)
  {}

  lemma NothingKept(window: Option<real>, atTheMoney: Option<real>)
    ensures Keeps([], [], [], window, atTheMoney)
  {}

  lemma {:induction false} WithinWindowKeeps(rows: seq<KeyedRow>, atTheMoney: real, percent: real) returns (at: seq<nat>)
    requires ContractRows(rows)
    ensures Keeps(rows, WithinWindow(rows, atTheMoney, percent), at, Some(percent), Some(atTheMoney))
  {
    at := [];
    NothingKept(Some(percent), Some(atTheMoney));
    if rows != [] {
      WithinOneMore(rows, atTheMoney, percent);
      hide Keeps, InWindow, WithinWindow;
      var last := |rows| - 1;
      at := WithinWindowKeeps(rows[..last], atTheMoney, percent);
      KeepsOneMore(rows, WithinWindow(rows[..last], atTheMoney, percent), at, Some(percent), Some(atTheMoney));
      if InWindow(rows[last], Some(percent), Some(atTheMoney)) {
        at := at + [last];
      }
    }
  }

  lemma KeptKeeps(rows: seq<KeyedRow>, window: Option<real>, atTheMoney: Option<real>) returns (at: seq<nat>)
    requires ContractRows(rows)
    ensures Keeps(rows, KeptInWindow(rows, window, atTheMoney).0, at, window, atTheMoney)
    ensures KeptInWindow(rows, window, atTheMoney).1 == if rows == [] || atTheMoney.None? then None else window
  {
    if window.None? || rows == [] || atTheMoney.None? {
      at := seq(|rows|, i => i);
      assert forall i :: 0 <= i < |rows| ==> at[i] == i;
    } else {
      at := WithinWindowKeeps(rows, atTheMoney.value, window.value);
    }
  }

  lemma KeptAmong(rows: seq<KeyedRow>, kept: seq<KeyedRow>, at: seq<nat>, window: Option<real>, atTheMoney: Option<real>, rowKey: RowKey)
    requires ContractRows(rows) && ContractRows(kept) && Keeps(rows, kept, at, window, atTheMoney)
    ensures Among(kept, rowKey) <==> Given(rows, window, atTheMoney, rowKey)
  {
    hide InWindow;
    if Among(kept, rowKey) {
      var k :| 0 <= k < |kept| && RowKeyOf(kept[k]) == rowKey;
      assert GivenAt(rows, window, atTheMoney, rowKey, at[k]);
    }
    if i :| 0 <= i < |rows| && GivenAt(rows, window, atTheMoney, rowKey, i) {
      var k :| 0 <= k < |at| && at[k] == i;
      assert RowKeyOf(kept[k]) == rowKey;
    }
  }

  lemma {:induction false} FirstIs(rows: seq<KeyedRow>, rowKey: RowKey) returns (i: nat)
    requires ContractRows(rows) && Among(rows, rowKey)
    ensures i < |rows| && RowKeyOf(rows[i]) == rowKey && rows[i].row == FirstOf(rows, rowKey)
    ensures forall j :: 0 <= j < i ==> RowKeyOf(rows[j]) != rowKey
  {
    i := |rows| - 1;
    if Among(rows[..i], rowKey) {
      i := FirstIs(rows[..i], rowKey);
    } else {
      assert forall j :: 0 <= j < i ==> rows[..i][j] == rows[j];
    }
  }

  lemma {:induction false} LastIs(rows: seq<KeyedRow>, rowKey: RowKey) returns (i: nat)
    requires ContractRows(rows) && Among(rows, rowKey)
    ensures i < |rows| && RowKeyOf(rows[i]) == rowKey && rows[i].row == LastOf(rows, rowKey)
    ensures forall j :: i < j < |rows| ==> RowKeyOf(rows[j]) != rowKey
  {
    i := |rows| - 1;
    if RowKeyOf(rows[i]) != rowKey {
      AmongButLast(rows, rowKey);
      i := LastIs(rows[..i], rowKey);
    }
  }

  lemma FirstKept(rows: seq<KeyedRow>, kept: seq<KeyedRow>, at: seq<nat>, window: Option<real>, atTheMoney: Option<real>, rowKey: RowKey, i: nat)
    requires ContractRows(rows) && ContractRows(kept) && Keeps(rows, kept, at, window, atTheMoney)
    requires i < |rows| && FirstGivenAt(rows, window, atTheMoney, rowKey, i)
    ensures Among(kept, rowKey) && FirstOf(kept, rowKey) == rows[i].row
  {
    hide InWindow, FirstOf;
    KeptAmong(rows, kept, at, window, atTheMoney, rowKey);
    var k := FirstIs(kept, rowKey);
    var m :| 0 <= m < |at| && at[m] == i;
    assert RowKeyOf(kept[m]) == rowKey;
    assert GivenAt(rows, window, atTheMoney, rowKey, at[k]);
  }

  lemma LastKept(rows: seq<KeyedRow>, kept: seq<KeyedRow>, at: seq<nat>, window: Option<real>, atTheMoney: Option<real>, rowKey: RowKey, i: nat)
    requires ContractRows(rows) && ContractRows(kept) && Keeps(rows, kept, at, window, atTheMoney)
    requires i < |rows| && LastGivenAt(rows, window, atTheMoney, rowKey, i)
    ensures Among(kept, rowKey) && LastOf(kept, rowKey) == rows[i].row
  {
    hide InWindow, LastOf;
    KeptAmong(rows, kept, at, window, atTheMoney, rowKey);
    var k := LastIs(kept, rowKey);
    var m :| 0 <= m < |at| && at[m] == i;
    assert RowKeyOf(kept[m]) == rowKey;
    assert GivenAt(rows, window, atTheMoney, rowKey, at[k]);
  }

  // ---------------------------------------------------------------------------------------
  // The three ways of storing

  lemma MergedMissing(flat: FlatRows, rows: seq<KeyedRow>, kept: seq<KeyedRow>, at: seq<nat>, window: Option<real>, atTheMoney: Option<real>)
    requires ContractRows(rows) && ContractRows(kept) && Keeps(rows, kept, at, window, atTheMoney)
    ensures HoldsMissing(flat, Merged(flat, kept, FlatPart.Keep), rows, window, atTheMoney)
  {
    hide FirstGivenAt, LastGivenAt, Given, Keeps, Among, FirstOf, LastOf;
    var merged := Merged(flat, kept, FlatPart.Keep);
    forall rowKey
      ensures Among(kept, rowKey) <==> Given(rows, window, atTheMoney, rowKey)
    {
      KeptAmong(rows, kept, at, window, atTheMoney, rowKey);
    }
    forall i, rowKey | 0 <= i < |rows| && FirstGivenAt(rows, window, atTheMoney, rowKey, i) && rowKey !in flat
      ensures rowKey in merged && merged[rowKey] == rows[i].row
    {
      FirstKept(rows, kept, at, window, atTheMoney, rowKey, i);
    }
  }

  lemma MergedOver(flat: FlatRows, rows: seq<KeyedRow>, kept: seq<KeyedRow>, at: seq<nat>, window: Option<real>, atTheMoney: Option<real>)
    requires ContractRows(rows) && ContractRows(kept) && Keeps(rows, kept, at, window, atTheMoney)
    ensures HoldsOver(flat, Merged(flat, kept, Replace), rows, window, atTheMoney)
  {
    hide FirstGivenAt, LastGivenAt, Given, Keeps, Among, FirstOf, LastOf;
    var merged := Merged(flat, kept, Replace);
    forall rowKey
      ensures Among(kept, rowKey) <==> Given(rows, window, atTheMoney, rowKey)
    {
      KeptAmong(rows, kept, at, window, atTheMoney, rowKey);
    }
    forall i, rowKey | 0 <= i < |rows| && LastGivenAt(rows, window, atTheMoney, rowKey, i)
      ensures rowKey in merged && merged[rowKey] == rows[i].row
    {
      LastKept(rows, kept, at, window, atTheMoney, rowKey, i);
    }
  }

  lemma RefilledIs(flat: FlatRows, day: int, kept: seq<KeyedRow>, rowKey: RowKey)
    requires RowsOfDay(kept, day) && Refilled(flat, day, kept).Ok?
    ensures var after := Refilled(flat, day, kept).value;
            && (DayNumberOfKey(rowKey.key) != day ==> Lookup(after, rowKey) == Lookup(flat, rowKey) && !Among(kept, rowKey))
            && (DayNumberOfKey(rowKey.key) == day ==> (rowKey in after <==> Among(kept, rowKey)) && (rowKey in after ==> after[rowKey] == FirstOf(kept, rowKey)))
  {
    hide FirstOf, LastOf, DayNumberOfKey, Clashes;
  }

  lemma NoneTwice(flat: FlatRows, kept: seq<KeyedRow>, k: nat)
    requires ContractRows(kept) && !Clashes(flat, kept) && k < |kept|
    ensures Among(kept, RowKeyOf(kept[k])) && FirstOf(kept, RowKeyOf(kept[k])) == kept[k].row
  {
    hide FirstOf;
    assert Among(kept, RowKeyOf(kept[k]));
    var i := FirstIs(kept, RowKeyOf(kept[k]));
  }

  lemma RefilledHolds(flat: FlatRows, day: int, rows: seq<KeyedRow>, kept: seq<KeyedRow>, at: seq<nat>, window: Option<real>, atTheMoney: Option<real>)
    requires RowsOfDay(kept, day) && ContractRows(rows) && Keeps(rows, kept, at, window, atTheMoney) && Refilled(flat, day, kept).Ok?
    ensures HoldsJust(Refilled(flat, day, kept).value, day, rows, window, atTheMoney)
    ensures OtherDaysStay(flat, Refilled(flat, day, kept).value, day)
  {
    hide InWindow, FirstOf, Refilled, Among, DayNumberOfKey, Given;
    var after := Refilled(flat, day, kept).value;
    forall rowKey
      ensures rowKey in DayKeys(after, day) <==> Given(rows, window, atTheMoney, rowKey)
      ensures DayNumberOfKey(rowKey.key) != day ==> Lookup(after, rowKey) == Lookup(flat, rowKey)
    {
      KeptAmong(rows, kept, at, window, atTheMoney, rowKey);
      RefilledIs(flat, day, kept, rowKey);
    }
    forall i, rowKey | 0 <= i < |rows| && GivenAt(rows, window, atTheMoney, rowKey, i)
      ensures rowKey in after && after[rowKey] == rows[i].row
    {
      var m :| 0 <= m < |at| && at[m] == i;
      assert RowKeyOf(kept[m]) == rowKey;
      RefilledNoneTwice(flat, day, kept, m);
      RefilledIs(flat, day, kept, rowKey);
    }
  }

  lemma RefilledNoneTwice(flat: FlatRows, day: int, kept: seq<KeyedRow>, k: nat)
    requires ContractRows(kept) && Refilled(flat, day, kept).Ok? && k < |kept|
    ensures Among(kept, RowKeyOf(kept[k])) && FirstOf(kept, RowKeyOf(kept[k])) == kept[k].row
  {
    NoneTwice(WithoutDay(flat, day), kept, k);
  }

  // ---------------------------------------------------------------------------------------
  // A stored day

  /** A part as retrieved has rows, or nothing of it was left out. */
  predicate CameBack(result: PartResult) {
    result.rows != [] || result.issues == []
  }

  /** The morning parts of a day being fetched came back, and any rows, or none for good. */
  predicate MorningCameBack(day: int, results: DayResults, options: StoreOptions) {
    && CameBack(results.quotes) && CameBack(results.endOfDay) && CameBack(results.openInterest)
    && (AnyMorningRow(results) || day <= options.noDataIsFinalThrough)
  }

  predicate AnyMorningRow(results: DayResults) {
    results.quotes.rows != [] || results.endOfDay.rows != [] || results.openInterest.rows != []
  }

  /** The day has data: its morning parts say so now, or its `days` row did. */
  predicate HasData(file: File, plan: DayPlan, results: DayResults, options: StoreOptions) {
    if plan.fetchMorning then MorningCameBack(plan.day, results, options) && AnyMorningRow(results)
    else plan.day in file.days && file.days[plan.day].complete
  }

  ghost predicate MorningPartStored(before: FlatRows, after: FlatRows, result: PartResult, file: File, plan: DayPlan, results: DayResults, options: StoreOptions)
    requires RowsOfDay(result.rows, plan.day)
  {
    if plan.fetchMorning && MorningCameBack(plan.day, results, options) then
      HoldsJust(after, plan.day, result.rows, None, None) && OtherDaysStay(before, after, plan.day)
    else if !plan.fetchMorning && plan.completeMorning && HasData(file, plan, results, options)
         && CameBack(results.quotes) && CameBack(results.endOfDay) && CameBack(results.openInterest) then
      HoldsMissing(before, after, result.rows, None, None)
    else after == before
  }

  ghost predicate IntradayStored(file: File, after: File, plan: DayPlan, results: DayResults, options: StoreOptions)
    requires ResultsOfDay(results, plan.day)
  {
    var rows, has := results.intraday.rows, HasData(file, plan, results, options);
    if plan.fetchMorning && MorningCameBack(plan.day, results, options) && !has then
      DayKeys(after.intraday, plan.day) == {} && OtherDaysStay(file.intraday, after.intraday, plan.day)
    else if has && plan.fetchIntraday && CameBack(results.intraday) then
      && HoldsJust(after.intraday, plan.day, rows, options.window, options.atTheMoney) && OtherDaysStay(file.intraday, after.intraday, plan.day)
      && plan.day in after.intradayDays && after.intradayDays[plan.day].window == if rows == [] || options.atTheMoney.None? then None else options.window
    else if has && plan.completeIntraday && !plan.fetchIntraday && CameBack(results.intraday) then
      && plan.day in file.intradayDays && HoldsMissing(file.intraday, after.intraday, rows, file.intradayDays[plan.day].window, options.atTheMoney)
      && plan.day in after.intradayDays && after.intradayDays[plan.day].window == file.intradayDays[plan.day].window
    else after.intraday == file.intraday
  }

  ghost predicate SameOptionRows(a: File, b: File) {
    a.quotes == b.quotes && a.endOfDay == b.endOfDay && a.openInterest == b.openInterest && a.intraday == b.intraday
  }

  lemma AllKept(rows: seq<KeyedRow>) returns (at: seq<nat>)
    requires ContractRows(rows)
    ensures Keeps(rows, rows, at, None, None)
  {
    at := KeptKeeps(rows, None, None);
  }

  lemma AllRefilled(flat: FlatRows, day: int, rows: seq<KeyedRow>)
    requires RowsOfDay(rows, day) && Refilled(flat, day, rows).Ok?
    ensures HoldsJust(Refilled(flat, day, rows).value, day, rows, None, None) && OtherDaysStay(flat, Refilled(flat, day, rows).value, day)
  {
    assert ContractRows(rows);
    hide HoldsJust, OtherDaysStay, Refilled, Keeps, ContractRows;
    var at := AllKept(rows);
    RefilledHolds(flat, day, rows, rows, at, None, None);
  }

  lemma AllMissing(flat: FlatRows, rows: seq<KeyedRow>)
    requires ContractRows(rows)
    ensures HoldsMissing(flat, Merged(flat, rows, FlatPart.Keep), rows, None, None)
  {
    hide *;
    var at := AllKept(rows);
    MergedMissing(flat, rows, rows, at, None, None);
  }

  ghost predicate PartFetched(before: FlatRows, after: FlatRows, day: int, rows: seq<KeyedRow>)
    requires RowsOfDay(rows, day)
  {
    HoldsJust(after, day, rows, None, None) && OtherDaysStay(before, after, day)
  }

  lemma MorningRefilledHolds(file: File, day: int, results: DayResults)
    requires ResultsOfDay(results, day) && MorningRefilled(file, day, results).Ok?
    ensures var stored := MorningRefilled(file, day, results).value;
            && PartFetched(file.quotes, stored.quotes, day, results.quotes.rows) && PartFetched(file.endOfDay, stored.endOfDay, day, results.endOfDay.rows)
            && PartFetched(file.openInterest, stored.openInterest, day, results.openInterest.rows)
            && stored.intraday == file.intraday && stored.intradayDays == file.intradayDays
  {
    hide HoldsJust, OtherDaysStay, Refilled, RowsOfDay;
    AllRefilled(file.quotes, day, results.quotes.rows);
    AllRefilled(file.endOfDay, day, results.endOfDay.rows);
    AllRefilled(file.openInterest, day, results.openInterest.rows);
  }

  lemma MorningFetchedHolds(file: File, day: int, results: DayResults, options: StoreOptions)
    requires ResultsOfDay(results, day) && MorningFetched(file, day, results, options).Ok?
    ensures var phase := MorningFetched(file, day, results, options).value;
            if MorningCameBack(day, results, options) then
              && phase.Go? && (phase.complete <==> AnyMorningRow(results))
              && PartFetched(file.quotes, phase.file.quotes, day, results.quotes.rows) && PartFetched(file.endOfDay, phase.file.endOfDay, day, results.endOfDay.rows)
              && PartFetched(file.openInterest, phase.file.openInterest, day, results.openInterest.rows)
              && phase.file.intraday == (if phase.complete then file.intraday else WithoutDay(file.intraday, day))
              && (phase.complete ==> phase.file.intradayDays == file.intradayDays)
            else phase.Stop? && SameOptionRows(phase.file, file)
  {
    hide PartFetched, MorningRefilled, MorningIssuesReplaced, RowsOfDay, WithoutDay;
    if MorningCameBack(day, results, options) {
      MorningRefilledHolds(file, day, results);
    }
  }

  lemma MorningCompletedHolds(file: File, day: int, results: DayResults)
    requires ResultsOfDay(results, day) && day in file.days
    ensures var after := MorningCompleted(file, day, results);
            && HoldsMissing(file.quotes, after.quotes, results.quotes.rows, None, None) && HoldsMissing(file.endOfDay, after.endOfDay, results.endOfDay.rows, None, None)
            && HoldsMissing(file.openInterest, after.openInterest, results.openInterest.rows, None, None)
            && after.intraday == file.intraday && after.intradayDays == file.intradayDays
  {
    hide HoldsMissing, Merged, IssuesSettled, DayRows;
    AllMissing(file.quotes, results.quotes.rows);
    AllMissing(file.endOfDay, results.endOfDay.rows);
    AllMissing(file.openInterest, results.openInterest.rows);
  }

  /** The morning phase, as far as rows go. */
  lemma MorningHolds(file: File, plan: DayPlan, results: DayResults, options: StoreOptions)
    requires ResultsOfDay(results, plan.day) && MorningPhase(file, plan, results, options).Ok?
    ensures var phase := MorningPhase(file, plan, results, options).value;
            && MorningPartStored(file.quotes, phase.file.quotes, results.quotes, file, plan, results, options)
            && MorningPartStored(file.endOfDay, phase.file.endOfDay, results.endOfDay, file, plan, results, options)
            && MorningPartStored(file.openInterest, phase.file.openInterest, results.openInterest, file, plan, results, options)
            && (phase.Stop? <==> plan.fetchMorning && !MorningCameBack(plan.day, results, options))
            && (HasData(file, plan, results, options) <==> phase.Go? && phase.complete)
            && phase.file.intraday == (if phase.Go? && plan.fetchMorning && !phase.complete then WithoutDay(file.intraday, plan.day) else file.intraday)
            && (phase.Go? && phase.complete ==> phase.file.intradayDays == file.intradayDays)
  {
    hide HoldsJust, HoldsMissing, OtherDaysStay, RowsOfDay, WithoutDay, MorningFetched, MorningCompleted, MorningCameBack, AnyMorningRow;
    if plan.fetchMorning {
      MorningFetchedHolds(file, plan.day, results, options);
    } else if plan.day in file.days {
      MorningCompletedHolds(file, plan.day, results);
    }
  }

  lemma FetchHolds(file: File, plan: DayPlan, results: DayResults, options: StoreOptions, failures: nat)
    requires ResultsOfDay(results, plan.day) && IntradayFetch(file, plan, results, options, failures).Ok?
    ensures var phase := IntradayFetch(file, plan, results, options, failures).value;
            && phase.file.quotes == file.quotes && phase.file.endOfDay == file.endOfDay && phase.file.openInterest == file.openInterest
            && if CameBack(results.intraday) then
                 var rows := results.intraday.rows;
                 && phase.Go? && HoldsJust(phase.file.intraday, plan.day, rows, options.window, options.atTheMoney) && OtherDaysStay(file.intraday, phase.file.intraday, plan.day)
                 && plan.day in phase.file.intradayDays
                 && phase.file.intradayDays[plan.day].window == if rows == [] || options.atTheMoney.None? then None else options.window
               else phase.Stop? && phase.file.intraday == file.intraday
  {
    hide HoldsJust, OtherDaysStay, Refilled, KeptInWindow, IssuesReplaced, RowsOfDay, Keeps;
    if CameBack(results.intraday) {
      var rows := results.intraday.rows;
      KeptIsOfDay(rows, options.window, options.atTheMoney, plan.day);
      var at := KeptKeeps(rows, options.window, options.atTheMoney);
      RefilledHolds(file.intraday, plan.day, rows, KeptInWindow(rows, options.window, options.atTheMoney).0, at, options.window, options.atTheMoney);
    }
  }

  lemma KeptIsOfDay(rows: seq<KeyedRow>, window: Option<real>, atTheMoney: Option<real>, day: int)
    requires RowsOfDay(rows, day)
    ensures ContractRows(rows) && RowsOfDay(KeptInWindow(rows, window, atTheMoney).0, day)
  {
    hide KeptInWindow;
    var kept := KeptInWindow(rows, window, atTheMoney).0;
    forall i | 0 <= i < |kept|
      ensures DayNumberOfKey(kept[i].key) == day
    {
      assert kept[i] in rows;
    }
  }

  lemma CompletionHolds(file: File, plan: DayPlan, results: DayResults, options: StoreOptions, failures: nat)
    requires ResultsOfDay(results, plan.day) && IntradayCompletion(file, plan, results, options, failures).Ok?
    ensures var phase := IntradayCompletion(file, plan, results, options, failures).value;
            && phase.file.quotes == file.quotes && phase.file.endOfDay == file.endOfDay && phase.file.openInterest == file.openInterest
            && if CameBack(results.intraday) then
                 && plan.day in file.intradayDays
                 && HoldsMissing(file.intraday, phase.file.intraday, results.intraday.rows, file.intradayDays[plan.day].window, options.atTheMoney)
                 && plan.day in phase.file.intradayDays && phase.file.intradayDays[plan.day].window == file.intradayDays[plan.day].window
               else phase.file.intraday == file.intraday
  {
    hide HoldsMissing, Merged, KeptInWindow, IssuesSettled, RowsOfDay, Keeps, DayRows, DayLooks;
    if CameBack(results.intraday) {
      var rows, window := results.intraday.rows, file.intradayDays[plan.day].window;
      KeptIsOfDay(rows, window, options.atTheMoney, plan.day);
      var at := KeptKeeps(rows, window, options.atTheMoney);
      MergedMissing(file.intraday, rows, KeptInWindow(rows, window, options.atTheMoney).0, at, window, options.atTheMoney);
    }
  }

  /**
   What a stored day holds of the rows retrieved for it. A fetched part holds each row in the
   window once and nothing else; a completed one what it held and the first of each missing row in
   the window the day was stored with; every other part, and every other day, what it held.
   */
  lemma StoredDayHolds(file: File, plan: DayPlan, results: DayResults, options: StoreOptions)
    requires ResultsOfDay(results, plan.day) && StoreDay(file, plan, results, options).Ok?
    ensures var after := StoreDay(file, plan, results, options).value.0;
            && MorningPartStored(file.quotes, after.quotes, results.quotes, file, plan, results, options)
            && MorningPartStored(file.endOfDay, after.endOfDay, results.endOfDay, file, plan, results, options)
            && MorningPartStored(file.openInterest, after.openInterest, results.openInterest, file, plan, results, options)
            && IntradayStored(file, after, plan, results, options)
  {
    hide MorningPhase, IntradayCompletion, IntradayFetch, MorningPartStored, HoldsJust, HoldsMissing, RowsOfDay, MorningCameBack, HasData, CameBack, WithoutDay, OtherDaysStay;
    MorningHolds(file, plan, results, options);
    var morning := MorningPhase(file, plan, results, options).value;
    if morning.Go? {
      if morning.complete {
        if plan.completeIntraday {
          CompletionHolds(morning.file, plan, results, options, morning.failures);
        }
        var completion := if plan.completeIntraday then IntradayCompletion(morning.file, plan, results, options, morning.failures).value else morning;
        if plan.fetchIntraday {
          FetchHolds(completion.file, plan, results, options, completion.failures);
          CompletedOtherDays(file, completion.file, plan, results, options);
        }
      } else {
        WithoutDayHolds(file.intraday, plan.day);
      }
    }
  }

  lemma WithoutDayHolds(flat: FlatRows, day: int)
    ensures DayKeys(WithoutDay(flat, day), day) == {} && OtherDaysStay(flat, WithoutDay(flat, day), day)
  {}

  /** Completing a day leaves the other days' intraday quotes. */
  lemma CompletedOtherDays(file: File, completed: File, plan: DayPlan, results: DayResults, options: StoreOptions)
    requires RowsOfDay(results.intraday.rows, plan.day)
    requires completed.intraday == file.intraday
             || (plan.day in file.intradayDays && HoldsMissing(file.intraday, completed.intraday, results.intraday.rows, file.intradayDays[plan.day].window, options.atTheMoney))
    ensures OtherDaysStay(file.intraday, completed.intraday, plan.day)
    ensures forall after :: OtherDaysStay(completed.intraday, after, plan.day) ==> OtherDaysStay(file.intraday, after, plan.day)
  {
    hide InWindow, DayNumberOfKey;
  }

  // ---------------------------------------------------------------------------------------
  // A retried piece

  lemma KeptStored(flat: FlatRows, rows: seq<KeyedRow>, window: Option<real>, atTheMoney: Option<real>)
    requires ContractRows(rows)
    ensures HoldsOver(flat, Merged(flat, KeptInWindow(rows, window, atTheMoney).0, Replace), rows, window, atTheMoney)
    ensures window.None? ==> KeptInWindow(rows, window, atTheMoney).0 == rows
  {
    hide HoldsOver, Merged, Keeps;
    var at := KeptKeeps(rows, window, atTheMoney);
    MergedOver(flat, rows, KeptInWindow(rows, window, atTheMoney).0, at, window, atTheMoney);
  }

  lemma RetriedQuotesHold(file: File, piece: Piece, rows: seq<KeyedRow>, atTheMoney: Option<real>)
    requires ContractRows(rows) && piece.part == IntradayQuotes && piece.day in file.intradayDays && RowsOfDay(rows, piece.day)
    requires !(rows == [] && piece.expiry.None?)
    ensures var after := StoreRetry(file, piece, rows, false, atTheMoney).value;
            && HoldsOver(file.intraday, after.intraday, rows, file.intradayDays[piece.day].window, atTheMoney)
            && after.quotes == file.quotes && after.endOfDay == file.endOfDay && after.openInterest == file.openInterest
  {
    hide HoldsOver, Merged, KeptInWindow, RowsOfDay, DayRows, DayLooks, WithoutPiece;
    KeptStored(file.intraday, rows, file.intradayDays[piece.day].window, atTheMoney);
  }

  lemma SameTables(a: File, b: File)
    requires SameOptionRows(a, b)
    ensures forall part :: RowsOf(a, part) == RowsOf(b, part)
  {}

  lemma RetriedMorningHolds(file: File, piece: Piece, rows: seq<KeyedRow>, atTheMoney: Option<real>)
    requires ContractRows(rows) && piece.part != IntradayQuotes && RowsOfDay(rows, piece.day)
    requires !(rows == [] && piece.expiry.None?)
    ensures var after := StoreRetry(file, piece, rows, false, atTheMoney).value;
            && HoldsOver(RowsOf(file, piece.part), RowsOf(after, piece.part), rows, None, atTheMoney)
            && forall other :: other != piece.part ==> RowsOf(after, other) == RowsOf(file, other)
  {
    hide HoldsOver, Merged, KeptInWindow, RowsOfDay, WithoutPiece, DayRows, WithRows, RowsOf;
    KeptStored(RowsOf(file, piece.part), rows, None, atTheMoney);
    var stored := WithRows(file, piece.part, Merged(RowsOf(file, piece.part), rows, Replace));
    var after := StoreRetry(file, piece, rows, false, atTheMoney).value;
    SameTables(after, stored);
  }

  lemma OfDayAreContracts(rows: seq<KeyedRow>, day: int)
    requires RowsOfDay(rows, day)
    ensures ContractRows(rows)
  {}

  /** What a retried piece leaves: its rows in the window the day was stored with over what there was, and nothing else changed; a failed request changes no row. */
  lemma RetriedPieceHolds(file: File, piece: Piece, rows: seq<KeyedRow>, failed: bool, atTheMoney: Option<real>)
    requires RowsOfDay(rows, piece.day) && StoreRetry(file, piece, rows, failed, atTheMoney).Ok?
    ensures var after := StoreRetry(file, piece, rows, failed, atTheMoney).value;
            if failed || (rows == [] && piece.expiry.None?) then SameOptionRows(file, after) else
              && (piece.part == IntradayQuotes ==> piece.day in file.intradayDays)
              && var window := if piece.part == IntradayQuotes then file.intradayDays[piece.day].window else None;
              && HoldsOver(RowsOf(file, piece.part), RowsOf(after, piece.part), rows, window, atTheMoney)
              && forall other :: other != piece.part ==> RowsOf(after, other) == RowsOf(file, other)
  {
    hide HoldsOver, RowsOfDay, KeptInWindow, Merged, Attempted, WithoutPiece, DayRows, DayLooks, ContractRows, WithRows;
    OfDayAreContracts(rows, piece.day);
    if !(failed || (rows == [] && piece.expiry.None?)) {
      if piece.part == IntradayQuotes {
        RetriedQuotesHold(file, piece, rows, atTheMoney);
      } else {
        RetriedMorningHolds(file, piece, rows, atTheMoney);
      }
    }
  }
}
