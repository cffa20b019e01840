/** What every transaction keeps true of a symbol file. */
module FileInvariant {
  import opened Wrappers
  import opened SliceKeys
  import opened FlatPart
  import opened SliceTables
  import opened FileState

  /** The day's tables agree with the slices it holds. */
  ghost predicate DayConsistent(file: File, day: int) {
    if day !in file.days then
      && day !in file.intradayDays
      && (forall part :: DayKeys(RowsOf(file, part), day) == {})
    else
      var row := file.days[day];
      && row.quoteRows == DayRows(file, Quotes, day)
      && row.endOfDayRows == DayRows(file, EndOfDay, day)
      && row.openInterestRows == DayRows(file, OpenInterest, day)
      && (row.complete ==> row.quoteRows + row.endOfDayRows + row.openInterestRows > 0)
      && (!row.complete ==> day !in file.intradayDays && forall part :: DayKeys(RowsOf(file, part), day) == {})
      && (day !in file.intradayDays ==> DayKeys(file.intraday, day) == {})
      && (day in file.intradayDays ==>
            file.intradayDays[day].quoteRows == DayRows(file, IntradayQuotes, day) && file.intradayDays[day].lookCount == |DayLooks(file, day)|)
  }

  ghost predicate Consistent(file: File) {
    forall day :: DayConsistent(file, day)
  }

  /** Two files hold the same of a day, its issues and unavailability aside. */
  ghost predicate SameDay(a: File, b: File, day: int) {
    && (forall part :: SameRows(RowsOf(a, part), RowsOf(b, part), day))
    && (day in a.days <==> day in b.days) && (day in a.days ==> a.days[day] == b.days[day])
    && (day in a.intradayDays <==> day in b.intradayDays) && (day in a.intradayDays ==> a.intradayDays[day] == b.intradayDays[day])
  }

  ghost predicate SameRows(a: FlatRows, b: FlatRows, day: int) {
    DayKeys(a, day) == DayKeys(b, day) && forall rowKey :: rowKey in DayKeys(a, day) ==> a[rowKey] == b[rowKey]
  }

  lemma SameDayConsistent(a: File, b: File, day: int)
    requires SameDay(a, b, day) && DayConsistent(a, day)
    ensures DayConsistent(b, day)
  {
    forall part
      ensures DayKeys(RowsOf(b, part), day) == DayKeys(RowsOf(a, part), day)
    {
      assert SameRows(RowsOf(a, part), RowsOf(b, part), day);
    }
    assert RowsOf(a, IntradayQuotes) == a.intraday && RowsOf(b, IntradayQuotes) == b.intraday;
  }

  // ---------------------------------------------------------------------------------------
  // Rows of one day merged into a part

  lemma MergedDayKeys(flat: FlatRows, rows: seq<KeyedRow>, onStored: OnStored, day: int)
    requires RowsOfDay(rows, day)
    ensures DayKeys(Merged(flat, rows, onStored), day) == DayKeys(flat, day) + RowKeysOf(rows)
    ensures forall other :: other != day ==> SameRows(flat, Merged(flat, rows, onStored), other)
    ensures onStored != Replace ==> forall rowKey :: rowKey in flat ==> rowKey in Merged(flat, rows, onStored) && Merged(flat, rows, onStored)[rowKey] == flat[rowKey]
  {
    hide FirstOf, LastOf;
    var merged := Merged(flat, rows, onStored);
    forall rowKey
      ensures Among(rows, rowKey) ==> DayNumberOfKey(rowKey.key) == day && rowKey in RowKeysOf(rows)
      ensures rowKey in RowKeysOf(rows) ==> Among(rows, rowKey)
    {}
    forall rowKey
      ensures rowKey in merged <==> rowKey in flat || Among(rows, rowKey)
    {
      assert rowKey in merged <==> MergedAt(flat, rows, onStored, rowKey).Some?;
    }
    if onStored == Fail || onStored == Keep {
      forall rowKey | rowKey in flat
        ensures merged[rowKey] == flat[rowKey]
      {
        assert MergedAt(flat, rows, onStored, rowKey) == Some(merged[rowKey]);
      }
    }
    forall other | other != day
      ensures SameRows(flat, merged, other)
    {
      forall rowKey | rowKey in DayKeys(flat, other)
        ensures merged[rowKey] == flat[rowKey]
      {
        assert MergedAt(flat, rows, onStored, rowKey) == Some(merged[rowKey]);
      }
    }
  }

  /** Rows that clash with nothing are as many as their contracts. */
  lemma {:induction false} DistinctRows(flat: FlatRows, rows: seq<KeyedRow>)
    requires ContractRows(rows) && !Clashes(flat, rows)
    ensures |RowKeysOf(rows)| == |rows|
  {
    if rows != [] {
      var last := |rows| - 1;
      assert rows[..last] + [rows[last]] == rows;
      ClashesAppended(flat, rows[..last], rows[last]);
      DistinctRows(flat, rows[..last]);
      assert RowKeysOf(rows) == RowKeysOf(rows[..last]) + {RowKeyOf(rows[last])};
    }
  }

  lemma RefilledDay(flat: FlatRows, day: int, rows: seq<KeyedRow>)
    requires RowsOfDay(rows, day) && Refilled(flat, day, rows).Ok?
    ensures var after := Refilled(flat, day, rows).value;
            && DayKeys(after, day) == RowKeysOf(rows) && |RowKeysOf(rows)| == |rows|
            && (forall other :: other != day ==> SameRows(flat, after, other))
            && (DayKeys(flat, day) == {} ==> forall rowKey :: rowKey in flat ==> rowKey in after && after[rowKey] == flat[rowKey])
  {
    var cleared := WithoutDay(flat, day);
    DistinctRows(cleared, rows);
    MergedDayKeys(cleared, rows, Fail, day);
    assert DayKeys(cleared, day) == {};
    var after := Merged(cleared, rows, Fail);
    forall other | other != day
      ensures SameRows(flat, after, other)
    {
      assert SameRows(cleared, after, other);
      assert SameRows(flat, cleared, other);
    }
    if DayKeys(flat, day) == {} {
      forall rowKey | rowKey in flat
        ensures rowKey in cleared
      {
        assert rowKey !in DayKeys(flat, day);
      }
    }
  }

  // ---------------------------------------------------------------------------------------
  // The morning parts

  lemma MorningRefilledDay(file: File, day: int, results: DayResults)
    requires ResultsOfDay(results, day) && MorningRefilled(file, day, results).Ok?
    ensures var after := MorningRefilled(file, day, results).value;
            && after.days == file.days && after.intradayDays == file.intradayDays && after.intraday == file.intraday
            && after.issues == file.issues && after.unavailable == file.unavailable
            && (forall other :: other != day ==> SameDay(file, after, other))
            && DayRows(after, Quotes, day) == |results.quotes.rows| && DayRows(after, EndOfDay, day) == |results.endOfDay.rows|
            && DayRows(after, OpenInterest, day) == |results.openInterest.rows|
  {
    hide Refilled, SameRows;
    RefilledDay(file.quotes, day, results.quotes.rows);
    RefilledDay(file.endOfDay, day, results.endOfDay.rows);
    RefilledDay(file.openInterest, day, results.openInterest.rows);
    var after := MorningRefilled(file, day, results).value;
    forall other | other != day
      ensures SameDay(file, after, other)
    {
      SameRowsReflexive(file.intraday, other);
      forall part
        ensures SameRows(RowsOf(file, part), RowsOf(after, part), other)
      {}
    }
  }

  lemma SameRowsReflexive(flat: FlatRows, day: int)
    ensures SameRows(flat, flat, day)
  {}

  lemma EmptyRowsEmptyDay(file: File, part: Part, day: int)
    ensures DayRows(file, part, day) == 0 <==> DayKeys(RowsOf(file, part), day) == {}
  {}

  lemma MorningFetchedConsistent(file: File, day: int, results: DayResults, options: StoreOptions)
    requires Consistent(file) && ResultsOfDay(results, day) && MorningFetched(file, day, results, options).Ok?
    ensures var phase := MorningFetched(file, day, results, options).value;
            && Consistent(phase.file)
            && (phase.Go? ==> (day !in file.days && day in phase.file.days && phase.file.days[day].complete == phase.complete
                               && phase.file.days[day].allExpiries && day !in phase.file.intradayDays))
            && (phase.Stop? ==> phase.file == RecordedUnavailable(file, day) && !phase.outcome.dayDone && phase.outcome.unavailable)
  {
    hide MorningRefilled, MorningIssuesReplaced, DayConsistent, SameDay;
    var phase := MorningFetched(file, day, results, options).value;
    if phase.Stop? {
      RecordedConsistent(file, day);
    } else {
      var stored := MorningRefilled(file, day, results).value;
      MorningRefilledDay(file, day, results);
      assert DayConsistent(file, day);
      AbsentDay(file, day);
      forall other
        ensures DayConsistent(phase.file, other)
      {
        if other != day {
          assert DayConsistent(file, other) && SameDay(file, stored, other);
          SameDayConsistent(file, stored, other);
          WithoutEmptyDay(stored.intraday, day, other);
          SameRowsReflexive(stored.intraday, other);
          SameMorning(stored, phase.file, other);
          SameDayConsistent(stored, phase.file, other);
        } else {
          FetchedDayConsistent(file, stored, day, results, phase);
        }
      }
    }
  }

  lemma AbsentDay(file: File, day: int)
    requires DayConsistent(file, day) && day !in file.days
    ensures day !in file.intradayDays && forall part :: DayKeys(RowsOf(file, part), day) == {}
  {}

  lemma StaysSame(a: File, b: File, day: int)
    requires a.quotes == b.quotes && a.endOfDay == b.endOfDay && a.openInterest == b.openInterest && a.intraday == b.intraday
    requires a.days == b.days && a.intradayDays == b.intradayDays
    ensures SameDay(a, b, day)
  {
    forall part
      ensures SameRows(RowsOf(a, part), RowsOf(b, part), day)
    {}
  }

  lemma WithoutEmptyDay(flat: FlatRows, day: int, other: int)
    requires other != day
    ensures SameRows(flat, WithoutDay(flat, day), other)
  {}

  lemma SameMorning(a: File, b: File, day: int)
    requires a.quotes == b.quotes && a.endOfDay == b.endOfDay && a.openInterest == b.openInterest && SameRows(a.intraday, b.intraday, day)
    requires (day in a.days <==> day in b.days) && (day in a.days ==> a.days[day] == b.days[day])
    requires (day in a.intradayDays <==> day in b.intradayDays) && (day in a.intradayDays ==> a.intradayDays[day] == b.intradayDays[day])
    ensures SameDay(a, b, day)
  {
    forall part
      ensures SameRows(RowsOf(a, part), RowsOf(b, part), day)
    {
      if part != IntradayQuotes {
        SameRowsReflexive(RowsOf(a, part), day);
      }
    }
  }

  lemma FetchedDayConsistent(file: File, stored: File, day: int, results: DayResults, phase: Phase)
    requires phase.Go? && day !in file.days && DayConsistent(file, day)
    requires stored.days == file.days && stored.intradayDays == file.intradayDays && stored.intraday == file.intraday
    requires DayRows(stored, Quotes, day) == |results.quotes.rows| && DayRows(stored, EndOfDay, day) == |results.endOfDay.rows|
             && DayRows(stored, OpenInterest, day) == |results.openInterest.rows|
    requires phase.complete <==> results.quotes.rows != [] || results.endOfDay.rows != [] || results.openInterest.rows != []
    requires phase.file.quotes == stored.quotes && phase.file.endOfDay == stored.endOfDay && phase.file.openInterest == stored.openInterest
    requires phase.file.days == stored.days[day := DayRow(phase.complete, |results.quotes.rows|, |results.endOfDay.rows|, |results.openInterest.rows|, true)]
    requires phase.file.intraday == (if phase.complete then stored.intraday else WithoutDay(stored.intraday, day))
    requires phase.file.intradayDays == (if phase.complete then stored.intradayDays else stored.intradayDays - {day})
    ensures DayConsistent(phase.file, day)
  {
    assert RowsOf(file, IntradayQuotes) == file.intraday;
    assert DayKeys(phase.file.intraday, day) == {};
    forall part
      ensures DayRows(phase.file, part, day) == if part == IntradayQuotes then 0 else DayRows(stored, part, day)
    {}
    forall part
      ensures !phase.complete ==> DayKeys(RowsOf(phase.file, part), day) == {}
    {
      EmptyRowsEmptyDay(phase.file, part, day);
    }
  }

  // ---------------------------------------------------------------------------------------
  // Completing the morning parts

  lemma IssuesAside(a: File, issues: seq<IssueRow>)
    requires Consistent(a)
    ensures Consistent(a.(issues := issues))
  {
    forall day
      ensures DayConsistent(a.(issues := issues), day)
    {
      assert DayConsistent(a, day);
      StaysSame(a, a.(issues := issues), day);
      SameDayConsistent(a, a.(issues := issues), day);
    }
  }

  lemma MorningCompletedConsistent(file: File, day: int, results: DayResults)
    requires Consistent(file) && ResultsOfDay(results, day) && day in file.days && file.days[day].complete
    ensures var after := MorningCompleted(file, day, results);
            && Consistent(after) && after.intradayDays == file.intradayDays && after.unavailable == file.unavailable
            && after.days.Keys == file.days.Keys && after.days[day].complete && after.days[day].allExpiries
  {
    hide Merged, IssuesSettled, DayConsistent, SameRows, DayKeys, SameDay, RowsOfDay;
    var kept := MorningKept(file, results, day);
    var after := MorningCompleted(file, day, results);
    var counted := after.(issues := file.issues);
    MergedDayKeys(file.quotes, results.quotes.rows, Keep, day);
    MergedDayKeys(file.endOfDay, results.endOfDay.rows, Keep, day);
    MergedDayKeys(file.openInterest, results.openInterest.rows, Keep, day);
    forall other
      ensures DayConsistent(counted, other)
    {
      assert DayConsistent(file, other);
      if other != day {
        MergedOtherDay(file, kept, counted, day, other);
        SameDayConsistent(file, counted, other);
      } else {
        CompletedDayConsistent(file, counted, day);
      }
    }
    IssuesAside(counted, after.issues);
  }

  lemma MergedOtherDay(file: File, kept: File, counted: File, day: int, other: int)
    requires other != day && kept.intraday == file.intraday == counted.intraday && counted.intradayDays == file.intradayDays
    requires kept.quotes == counted.quotes && kept.endOfDay == counted.endOfDay && kept.openInterest == counted.openInterest
    requires SameRows(file.quotes, kept.quotes, other) && SameRows(file.endOfDay, kept.endOfDay, other) && SameRows(file.openInterest, kept.openInterest, other)
    requires day in file.days && day in counted.days && counted.days == file.days[day := counted.days[day]]
    ensures SameDay(file, counted, other)
  {
    hide SameRows;
    SameRowsReflexive(file.intraday, other);
    forall part
      ensures SameRows(RowsOf(file, part), RowsOf(counted, part), other)
    {}
  }

  lemma CompletedDayConsistent(file: File, counted: File, day: int)
    requires day in file.days && file.days[day].complete && DayConsistent(file, day)
    requires counted.intraday == file.intraday && counted.intradayDays == file.intradayDays
    requires DayKeys(file.quotes, day) <= DayKeys(counted.quotes, day) && DayKeys(file.endOfDay, day) <= DayKeys(counted.endOfDay, day)
             && DayKeys(file.openInterest, day) <= DayKeys(counted.openInterest, day)
    requires day in counted.days && counted.days[day] == file.days[day].(quoteRows := DayRows(counted, Quotes, day), endOfDayRows := DayRows(counted, EndOfDay, day),
                                                                          openInterestRows := DayRows(counted, OpenInterest, day), allExpiries := true)
    ensures DayConsistent(counted, day)
  {
    SubsetSize(DayKeys(file.quotes, day), DayKeys(counted.quotes, day));
    SubsetSize(DayKeys(file.endOfDay, day), DayKeys(counted.endOfDay, day));
    SubsetSize(DayKeys(file.openInterest, day), DayKeys(counted.openInterest, day));
    assert RowsOf(file, Quotes) == file.quotes && RowsOf(file, EndOfDay) == file.endOfDay && RowsOf(file, OpenInterest) == file.openInterest;
  }

  lemma SubsetSize(a: set<RowKey>, b: set<RowKey>)
    requires a <= b
    ensures |a| <= |b|
  {
    assert a + (b - a) == b;
  }

  lemma MorningPhaseConsistent(file: File, plan: DayPlan, results: DayResults, options: StoreOptions)
    requires Consistent(file) && ResultsOfDay(results, plan.day) && MorningPhase(file, plan, results, options).Ok?
    ensures var phase := MorningPhase(file, plan, results, options).value;
            && Consistent(phase.file)
            && (phase.Go? ==> (plan.day in phase.file.days && phase.file.days[plan.day].complete == phase.complete))
            && (phase.Go? && !plan.fetchMorning ==> phase.file.intradayDays == file.intradayDays)
            && (phase.Go? && plan.fetchMorning ==> plan.day !in phase.file.intradayDays)
  {
    hide MorningFetched, MorningCompleted, DayConsistent;
    if plan.fetchMorning {
      MorningFetchedConsistent(file, plan.day, results, options);
    } else if plan.day in file.days && file.days[plan.day].complete {
      MorningCompletedConsistent(file, plan.day, results);
    }
  }

  // ---------------------------------------------------------------------------------------
  // The intraday quotes

  lemma KeptOfDay(rows: seq<KeyedRow>, window: Option<real>, atTheMoney: Option<real>, day: int)
    requires RowsOfDay(rows, day)
    ensures RowsOfDay(KeptInWindow(rows, window, atTheMoney).0, day)
  {
    var kept := KeptInWindow(rows, window, atTheMoney).0;
    forall i | 0 <= i < |kept|
      ensures DayNumberOfKey(kept[i].key) == day
    {
      assert kept[i] in rows;
    }
  }

  /** Files that differ in the intraday quotes of one day alone. */
  ghost predicate IntradayChange(file: File, after: File, day: int) {
    && after.quotes == file.quotes && after.endOfDay == file.endOfDay && after.openInterest == file.openInterest && after.days == file.days
    && (forall other :: other != day ==> SameRows(file.intraday, after.intraday, other))
    && day in after.intradayDays && after.intradayDays - {day} == file.intradayDays - {day}
  }

  ghost predicate IntradayRowCounts(file: File, day: int) {
    && day in file.intradayDays
    && file.intradayDays[day].quoteRows == DayRows(file, IntradayQuotes, day)
    && file.intradayDays[day].lookCount == |DayLooks(file, day)|
  }

  lemma IntradayOtherDay(file: File, after: File, day: int, other: int)
    requires IntradayChange(file, after, day) && other != day
    ensures SameDay(file, after, other)
  {
    assert other in after.intradayDays <==> other in after.intradayDays - {day};
    assert other in file.intradayDays <==> other in file.intradayDays - {day};
    assert other in file.intradayDays ==> (after.intradayDays - {day})[other] == (file.intradayDays - {day})[other];
    SameMorning(file, after, other);
  }

  lemma IntradaySameDay(file: File, after: File, day: int)
    requires DayConsistent(file, day) && IntradayChange(file, after, day) && IntradayRowCounts(after, day)
    requires day in file.days && file.days[day].complete
    ensures DayConsistent(after, day)
  {
    assert RowsOf(file, Quotes) == RowsOf(after, Quotes) && RowsOf(file, EndOfDay) == RowsOf(after, EndOfDay) && RowsOf(file, OpenInterest) == RowsOf(after, OpenInterest);
  }

  /** An intraday part changed on one complete day, and its day row counting what it now holds. */
  lemma IntradayChangeConsistent(file: File, after: File, day: int)
    requires Consistent(file) && day in file.days && file.days[day].complete
    requires IntradayChange(file, after, day) && IntradayRowCounts(after, day)
    ensures Consistent(after)
  {
    hide DayConsistent, IntradayChange, IntradayRowCounts, SameDay;
    forall other
      ensures DayConsistent(after, other)
    {
      assert DayConsistent(file, other);
      if other != day {
        IntradayOtherDay(file, after, day, other);
        SameDayConsistent(file, after, other);
      } else {
        IntradaySameDay(file, after, day);
      }
    }
  }

  /** The day's intraday quotes merged with more rows, and its row counted again. */
  lemma IntradayMerged(file: File, rows: seq<KeyedRow>, onStored: OnStored, day: int, completing: bool)
    requires Consistent(file) && RowsOfDay(rows, day) && day in file.days && file.days[day].complete && day in file.intradayDays
    ensures var after := IntradayCounted(file.(intraday := Merged(file.intraday, rows, onStored)), day, completing);
            && Consistent(after) && after.days == file.days && after.unavailable == file.unavailable && after.issues == file.issues
            && after.quotes == file.quotes && after.endOfDay == file.endOfDay && after.openInterest == file.openInterest
            && after.intraday == Merged(file.intraday, rows, onStored)
            && after.intradayDays == file.intradayDays[day := after.intradayDays[day]]
            && after.intradayDays[day].allExpiries == (completing || file.intradayDays[day].allExpiries)
  {
    hide Merged, Consistent, SameRows, DayKeys, LooksOf;
    MergedDayKeys(file.intraday, rows, onStored, day);
    var after := IntradayCounted(file.(intraday := Merged(file.intraday, rows, onStored)), day, completing);
    assert after.intradayDays - {day} == file.intradayDays - {day};
    IntradayChangeConsistent(file, after, day);
  }

  lemma IntradayCompletionConsistent(file: File, plan: DayPlan, results: DayResults, options: StoreOptions, failures: nat)
    requires Consistent(file) && ResultsOfDay(results, plan.day) && plan.day in file.days && file.days[plan.day].complete
    requires IntradayCompletion(file, plan, results, options, failures).Ok?
    ensures var phase := IntradayCompletion(file, plan, results, options, failures).value;
            && phase.Go? && phase.complete && Consistent(phase.file) && phase.file.days == file.days && phase.file.unavailable == file.unavailable
            && phase.file.intradayDays.Keys == file.intradayDays.Keys
            && phase.file.quotes == file.quotes && phase.file.endOfDay == file.endOfDay && phase.file.openInterest == file.openInterest
            && (forall rowKey :: rowKey in file.intraday ==> rowKey in phase.file.intraday && phase.file.intraday[rowKey] == file.intraday[rowKey])
  {
    hide Merged, IssuesSettled, Consistent, IntradayCounted, KeptInWindow;
    var phase := IntradayCompletion(file, plan, results, options, failures).value;
    if !results.intraday.NothingRetrieved() {
      var rows := KeptInWindow(results.intraday.rows, file.intradayDays[plan.day].window, options.atTheMoney).0;
      KeptOfDay(results.intraday.rows, file.intradayDays[plan.day].window, options.atTheMoney, plan.day);
      MergedDayKeys(file.intraday, rows, Keep, plan.day);
      IntradayMerged(file, rows, Keep, plan.day, true);
      IssuesAside(IntradayCounted(file.(intraday := Merged(file.intraday, rows, Keep)), plan.day, true), phase.file.issues);
    }
  }

  lemma IntradayFetchConsistent(file: File, plan: DayPlan, results: DayResults, options: StoreOptions, failures: nat)
    requires Consistent(file) && ResultsOfDay(results, plan.day) && plan.day in file.days && file.days[plan.day].complete
    requires IntradayFetch(file, plan, results, options, failures).Ok?
    ensures var phase := IntradayFetch(file, plan, results, options, failures).value;
            && Consistent(phase.file) && phase.file.days == file.days
            && phase.file.quotes == file.quotes && phase.file.endOfDay == file.endOfDay && phase.file.openInterest == file.openInterest
            && (phase.Go? ==> (phase.complete && phase.failures == failures && phase.file.unavailable == file.unavailable && plan.day in phase.file.intradayDays
                               && phase.file.intradayDays == file.intradayDays[plan.day := phase.file.intradayDays[plan.day]]
                               && phase.file.intradayDays[plan.day].allExpiries))
            && (phase.Stop? ==> phase.file == RecordedUnavailable(file, plan.day) && !phase.outcome.dayDone && phase.outcome.unavailable)
            && (plan.day !in file.intradayDays ==>
                  forall rowKey :: rowKey in file.intraday ==> rowKey in phase.file.intraday && phase.file.intraday[rowKey] == file.intraday[rowKey])
  {
    hide Refilled, Consistent, KeptInWindow, IssuesReplaced, LooksOf, DayKeys;
    var phase := IntradayFetch(file, plan, results, options, failures).value;
    if phase.Stop? {
      RecordedConsistent(file, plan.day);
    } else {
      var rows := KeptInWindow(results.intraday.rows, options.window, options.atTheMoney).0;
      KeptOfDay(results.intraday.rows, options.window, options.atTheMoney, plan.day);
      RefilledDay(file.intraday, plan.day, rows);
      if plan.day !in file.intradayDays {
        NoIntradayNoRows(file, plan.day);
      }
      var stored := phase.file.(issues := file.issues);
      assert stored.intradayDays - {plan.day} == file.intradayDays - {plan.day};
      IntradayChangeConsistent(file, stored, plan.day);
      IssuesAside(stored, phase.file.issues);
    }
  }

  lemma NoIntradayNoRows(file: File, day: int)
    requires Consistent(file) && day !in file.intradayDays
    ensures DayKeys(file.intraday, day) == {}
  {
    assert DayConsistent(file, day) && RowsOf(file, IntradayQuotes) == file.intraday;
  }

  lemma RecordedConsistent(file: File, day: int)
    requires Consistent(file)
    ensures Consistent(RecordedUnavailable(file, day))
  {
    UnavailableAside(file, RecordedUnavailable(file, day).unavailable);
  }

  // ---------------------------------------------------------------------------------------
  // The transactions

  /** store_day, whatever the plan, keeps the tables and the slices of every day in agreement. */
  lemma StoreDayConsistent(file: File, plan: DayPlan, results: DayResults, options: StoreOptions)
    requires Consistent(file) && ResultsOfDay(results, plan.day) && StoreDay(file, plan, results, options).Ok?
    ensures Consistent(StoreDay(file, plan, results, options).value.0)
  {
    hide MorningPhase, IntradayCompletion, IntradayFetch, DayConsistent;
    var morning := MorningPhase(file, plan, results, options).value;
    MorningPhaseConsistent(file, plan, results, options);
    if morning.Go? {
      var completion := morning;
      if morning.complete && plan.completeIntraday {
        completion := IntradayCompletion(morning.file, plan, results, options, morning.failures).value;
        IntradayCompletionConsistent(morning.file, plan, results, options, morning.failures);
      }
      var last := completion;
      if completion.complete && plan.fetchIntraday {
        last := IntradayFetch(completion.file, plan, results, options, completion.failures).value;
        IntradayFetchConsistent(completion.file, plan, results, options, completion.failures);
      }
      if last.Go? {
        UnavailableAside(last.file, last.file.unavailable - {plan.day});
      }
    }
  }

  lemma UnavailableAside(a: File, unavailable: map<int, nat>)
    requires Consistent(a)
    ensures Consistent(a.(unavailable := unavailable))
  {
    forall day
      ensures DayConsistent(a.(unavailable := unavailable), day)
    {
      assert DayConsistent(a, day);
      StaysSame(a, a.(unavailable := unavailable), day);
      SameDayConsistent(a, a.(unavailable := unavailable), day);
    }
  }

  /** A retried piece of a complete day keeps them too. */
  lemma StoreRetryConsistent(file: File, piece: Piece, rows: seq<KeyedRow>, failed: bool, atTheMoney: Option<real>)
    requires Consistent(file) && RowsOfDay(rows, piece.day) && piece.day in file.days && file.days[piece.day].complete
    requires StoreRetry(file, piece, rows, failed, atTheMoney).Ok?
    ensures Consistent(StoreRetry(file, piece, rows, failed, atTheMoney).value)
  {
    hide Merged, WithoutPiece, Attempted, Consistent, IntradayCounted, KeptInWindow, SameRows, DayCounted, WithRows;
    var after := StoreRetry(file, piece, rows, failed, atTheMoney).value;
    if failed || (rows == [] && piece.expiry.None?) {
      IssuesAside(file, after.issues);
    } else if piece.part == IntradayQuotes {
      var kept := KeptInWindow(rows, file.intradayDays[piece.day].window, atTheMoney).0;
      KeptOfDay(rows, file.intradayDays[piece.day].window, atTheMoney, piece.day);
      IntradayMerged(file, kept, Replace, piece.day, false);
      IssuesAside(IntradayCounted(file.(intraday := Merged(file.intraday, kept, Replace)), piece.day, false), after.issues);
    } else {
      var merged := Merged(RowsOf(file, piece.part), rows, Replace);
      MergedDayKeys(RowsOf(file, piece.part), rows, Replace, piece.day);
      RetriedMorningConsistent(file, merged, piece);
      IssuesAside(DayCounted(WithRows(file, piece.part, merged), piece.part, piece.day), after.issues);
    }
  }

  lemma RetriedMorningConsistent(file: File, merged: FlatRows, piece: Piece)
    requires Consistent(file) && piece.day in file.days && file.days[piece.day].complete && piece.part != IntradayQuotes
    requires DayKeys(RowsOf(file, piece.part), piece.day) <= DayKeys(merged, piece.day)
    requires forall other :: other != piece.day ==> SameRows(RowsOf(file, piece.part), merged, other)
    ensures Consistent(DayCounted(WithRows(file, piece.part, merged), piece.part, piece.day))
  {
    hide DayConsistent, SameRows, DayKeys;
    var counted := DayCounted(WithRows(file, piece.part, merged), piece.part, piece.day);
    forall day
      ensures DayConsistent(counted, day)
    {
      assert DayConsistent(file, day);
      if day != piece.day {
        forall part
          ensures SameRows(RowsOf(file, part), RowsOf(counted, part), day)
        {
          if part != piece.part {
            SameRowsReflexive(RowsOf(file, part), day);
          }
        }
        SameDayConsistent(file, counted, day);
      } else {
        RetriedDayConsistent(file, merged, piece);
      }
    }
  }

  lemma RetriedDayConsistent(file: File, merged: FlatRows, piece: Piece)
    requires DayConsistent(file, piece.day) && piece.day in file.days && file.days[piece.day].complete && piece.part != IntradayQuotes
    requires DayKeys(RowsOf(file, piece.part), piece.day) <= DayKeys(merged, piece.day)
    ensures DayConsistent(DayCounted(WithRows(file, piece.part, merged), piece.part, piece.day), piece.day)
  {
    hide DayKeys;
    SubsetSize(DayKeys(RowsOf(file, piece.part), piece.day), DayKeys(merged, piece.day));
  }
}
