/**
 Runs of the downloader over one symbol file: which days and pieces it asks for again, and what
 holds after any sequence of stored days and retried pieces.
 */
module FileRuns {
  import opened Wrappers
  import opened FlatPart
  import opened SliceTables
  import opened FileState
  import opened FileInvariant

  const RETRY_RUNS_PER_DAY_ISSUE := 3

  // ---------------------------------------------------------------------------------------
  // Planning

  /** The work left for a weekday; None when it is fully stored. */
  function PlanOf(file: File, day: int): (plan: Option<DayPlan>)
    ensures plan.Some? ==> plan.value.day == day
  {
    if day !in file.days then Some(DayPlan(day, true, true, false, false))
    else if !file.days[day].complete then None
    else
      var completeMorning := !file.days[day].allExpiries;
      var fetchIntraday := day !in file.intradayDays;
      var completeIntraday := day in file.intradayDays && !file.intradayDays[day].allExpiries;
      if completeMorning || fetchIntraday || completeIntraday then Some(DayPlan(day, false, fetchIntraday, completeMorning, completeIntraday)) else None
  }

  /** A day is done with a `days` row and, unless it says no data, an `intraday_days` row, both holding every expiry. */
  predicate Done(file: File, day: int) {
    day in file.days && (file.days[day].complete ==> file.days[day].allExpiries && day in file.intradayDays && file.intradayDays[day].allExpiries)
  }

  /** A day is planned exactly when it is not done. */
  lemma PlannedUnlessDone(file: File, day: int)
    ensures PlanOf(file, day) == None <==> Done(file, day)
  {}

  // ---------------------------------------------------------------------------------------
  // A piece's attempts

  /** max(attempts) of a piece's issue rows; 0 when it has none. */
  function Attempts(issues: seq<IssueRow>, piece: Piece): nat {
    if issues == [] then 0 else
    var last := |issues| - 1;
    var before := Attempts(issues[..last], piece);
    if issues[last].piece == piece && issues[last].attempts > before then issues[last].attempts else before
  }

  /** A listed piece of a complete day that has not used up its later runs. */
  predicate ToRetry(file: File, piece: Piece) {
    && 1 <= Attempts(file.issues, piece) <= RETRY_RUNS_PER_DAY_ISSUE
    && piece.day in file.days && file.days[piece.day].complete
  }

  /** How many more runs may ask for the piece. */
  function Budget(file: File, piece: Piece): nat {
    var attempts := Attempts(file.issues, piece);
    if 1 <= attempts <= RETRY_RUNS_PER_DAY_ISSUE then RETRY_RUNS_PER_DAY_ISSUE + 1 - attempts else 0
  }

  lemma {:induction false} AttemptsConcatenated(first: seq<IssueRow>, second: seq<IssueRow>, piece: Piece)
    ensures Attempts(first + second, piece) == if Attempts(first, piece) >= Attempts(second, piece) then Attempts(first, piece) else Attempts(second, piece)
  {
    if second == [] {
      assert first + second == first;
    } else {
      var last := |second| - 1;
      assert (first + second)[..|first + second| - 1] == first + second[..last];
      AttemptsConcatenated(first, second[..last], piece);
    }
  }

  lemma {:induction false} AttemptsWithoutIssues(issues: seq<IssueRow>, day: int, part: Part, piece: Piece)
    requires piece.day != day
    ensures Attempts(WithoutIssues(issues, day, part), piece) == Attempts(issues, piece)
  {
    if issues != [] {
      var last := |issues| - 1;
      AttemptsWithoutIssues(issues[..last], day, part, piece);
      AttemptsConcatenated(WithoutIssues(issues[..last], day, part), [issues[last]], piece);
      assert [issues[last]][..0] == [];
    }
  }

  lemma {:induction false} NoAttempts(issues: seq<IssueRow>, piece: Piece)
    requires forall i :: 0 <= i < |issues| ==> issues[i].piece != piece
    ensures Attempts(issues, piece) == 0
  {
    if issues != [] {
      NoAttempts(issues[..|issues| - 1], piece);
    }
  }

  lemma ReplacedOtherDay(issues: seq<IssueRow>, day: int, part: Part, result: PartResult, recordPartsWithoutData: bool, piece: Piece)
    requires piece.day != day
    ensures Attempts(IssuesReplaced(issues, day, part, result, recordPartsWithoutData), piece) == Attempts(issues, piece)
  {
    var listed := if recordPartsWithoutData && result.rows == [] && result.issues == [] then [None] else result.issues;
    AttemptsWithoutIssues(issues, day, part, piece);
    NoAttempts(NewIssues(day, part, listed), piece);
    AttemptsConcatenated(WithoutIssues(issues, day, part), NewIssues(day, part, listed), piece);
  }

  lemma {:induction false} SettledOtherDay(file: File, issues: seq<IssueRow>, day: int, part: Part, piece: Piece)
    requires piece.day != day
    ensures Attempts(Settled(file, issues, day, part), piece) == Attempts(issues, piece)
  {
    hide PartHasRows;
    if issues != [] {
      var last := |issues| - 1;
      SettledOtherDay(file, issues[..last], day, part, piece);
      AttemptsConcatenated(Settled(file, issues[..last], day, part), [issues[last]], piece);
      assert [issues[last]][..0] == [];
    }
  }

  lemma {:induction false} LeftOutOtherDay(issues: seq<IssueRow>, day: int, part: Part, expiries: seq<Option<int>>, piece: Piece)
    requires piece.day != day
    ensures Attempts(LeftOut(issues, day, part, expiries), piece) == Attempts(issues, piece)
  {
    if expiries != [] {
      var last := |expiries| - 1;
      LeftOutOtherDay(issues, day, part, expiries[..last], piece);
      var added := [IssueRow(Piece(day, part, expiries[last]), 1)];
      NoAttempts(added, piece);
      AttemptsConcatenated(LeftOut(issues, day, part, expiries[..last]), added, piece);
    }
  }

  lemma IssuesSettledOtherDay(file: File, issues: seq<IssueRow>, day: int, part: Part, result: PartResult, piece: Piece)
    requires piece.day != day
    ensures Attempts(IssuesSettled(file, issues, day, part, result), piece) == Attempts(issues, piece)
  {
    SettledOtherDay(file, issues, day, part, piece);
    LeftOutOtherDay(Settled(file, issues, day, part), day, part, result.issues, piece);
  }

  lemma {:induction false} AttemptedOnce(issues: seq<IssueRow>, retried: Piece, piece: Piece)
    ensures Attempts(Attempted(issues, retried), piece)
            == Attempts(issues, piece) + if piece == retried && Listed(issues, piece) then 1 else 0
  {
    if issues != [] {
      var last := |issues| - 1;
      var after := Attempted(issues, retried);
      assert after[..last] == Attempted(issues[..last], retried);
      AttemptedOnce(issues[..last], retried, piece);
      assert Listed(issues, piece) <==> Listed(issues[..last], piece) || issues[last].piece == piece by {
        if Listed(issues[..last], piece) {
          var i :| 0 <= i < last && issues[..last][i].piece == piece;
          assert issues[i].piece == piece;
        }
      }
      if !Listed(issues[..last], piece) {
        NoAttempts(issues[..last], piece);
        assert forall i :: 0 <= i < last ==> after[..last][i].piece == issues[..last][i].piece;
        NoAttempts(after[..last], piece);
      }
    }
  }

  lemma {:induction false} AttemptsMeanListed(issues: seq<IssueRow>, piece: Piece)
    ensures Attempts(issues, piece) > 0 ==> Listed(issues, piece)
  {
    if issues != [] && Attempts(issues, piece) > 0 {
      var last := |issues| - 1;
      AttemptsMeanListed(issues[..last], piece);
      if Listed(issues[..last], piece) {
        var i :| 0 <= i < last && issues[..last][i].piece == piece;
        assert issues[i].piece == piece;
      }
    }
  }

  lemma {:induction false} WithoutPieceAttempts(issues: seq<IssueRow>, settled: Piece, piece: Piece)
    ensures Attempts(WithoutPiece(issues, settled), piece) == if piece == settled then 0 else Attempts(issues, piece)
  {
    if issues != [] {
      var last := |issues| - 1;
      WithoutPieceAttempts(issues[..last], settled, piece);
      AttemptsConcatenated(WithoutPiece(issues[..last], settled), [issues[last]], piece);
      assert [issues[last]][..0] == [];
    }
  }

  // ---------------------------------------------------------------------------------------
  // What a transaction leaves alone

  /** The two files agree on a day's rows in `days` and `intraday_days`, on its being unavailable, and on its pieces' attempts. */
  ghost predicate SameRecords(a: File, b: File, day: int) {
    && (day in a.days <==> day in b.days) && (day in a.days ==> a.days[day] == b.days[day])
    && (day in a.intradayDays <==> day in b.intradayDays) && (day in a.intradayDays ==> a.intradayDays[day] == b.intradayDays[day])
    && (day in a.unavailable <==> day in b.unavailable)
    && forall piece: Piece :: piece.day == day ==> Attempts(a.issues, piece) == Attempts(b.issues, piece)
  }

  lemma MorningIssuesOtherDay(issues: seq<IssueRow>, day: int, results: DayResults, complete: bool, piece: Piece)
    requires piece.day != day
    ensures Attempts(MorningIssuesReplaced(issues, day, results, complete), piece) == Attempts(issues, piece)
  {
    hide IssuesReplaced, Attempts;
    var first := IssuesReplaced(issues, day, Quotes, results.quotes, complete);
    var second := IssuesReplaced(first, day, EndOfDay, results.endOfDay, complete);
    ReplacedOtherDay(issues, day, Quotes, results.quotes, complete, piece);
    ReplacedOtherDay(first, day, EndOfDay, results.endOfDay, complete, piece);
    ReplacedOtherDay(second, day, OpenInterest, results.openInterest, complete, piece);
  }

  lemma MorningRefilledRecords(file: File, day: int, results: DayResults)
    requires ResultsOfDay(results, day) && MorningRefilled(file, day, results).Ok?
    ensures var after := MorningRefilled(file, day, results).value;
            && after.days == file.days && after.intradayDays == file.intradayDays && after.intraday == file.intraday
            && after.issues == file.issues && after.unavailable == file.unavailable
  {
    hide Refilled;
  }

  lemma MorningRecordedRecords(stored: File, fetched: int, results: DayResults, complete: bool, day: int)
    requires day != fetched
    ensures SameRecords(stored, MorningRecorded(stored, fetched, results, complete), day)
  {
    hide MorningIssuesReplaced, Attempts, WithoutDay;
    var after := MorningRecorded(stored, fetched, results, complete);
    forall piece: Piece | piece.day == day
      ensures Attempts(stored.issues, piece) == Attempts(after.issues, piece)
    {
      MorningIssuesOtherDay(stored.issues, fetched, results, complete, piece);
    }
  }

  lemma SameTablesSameRecords(a: File, b: File, c: File, day: int)
    requires a.days == b.days && a.intradayDays == b.intradayDays && a.issues == b.issues && a.unavailable == b.unavailable
    requires SameRecords(b, c, day)
    ensures SameRecords(a, c, day)
  {}

  /** A morning fetch leaves the day unavailable, or stores its parts and records them. */
  lemma MorningFetchedIs(file: File, day: int, results: DayResults, options: StoreOptions)
    requires ResultsOfDay(results, day) && MorningFetched(file, day, results, options).Ok?
    ensures var phase := MorningFetched(file, day, results, options).value;
            if phase.Stop? then phase == Unavailable(file, day, 0) else
              && day !in file.days && phase.failures == 0 && MorningRefilled(file, day, results).Ok?
              && phase.file == MorningRecorded(MorningRefilled(file, day, results).value, day, results, phase.complete)
  {
    hide MorningRefilled, MorningRecorded, ResultsOfDay, RecordedUnavailable;
  }

  lemma MorningFetchedRecords(file: File, fetched: int, results: DayResults, options: StoreOptions, day: int)
    requires ResultsOfDay(results, fetched) && MorningFetched(file, fetched, results, options).Ok? && day != fetched
    ensures SameRecords(file, MorningFetched(file, fetched, results, options).value.file, day)
  {
    hide MorningRefilled, MorningRecorded, ResultsOfDay, MorningFetched, Attempts;
    var phase := MorningFetched(file, fetched, results, options).value;
    MorningFetchedIs(file, fetched, results, options);
    if phase.Go? {
      var stored := MorningRefilled(file, fetched, results).value;
      MorningRefilledRecords(file, fetched, results);
      MorningRecordedRecords(stored, fetched, results, phase.complete, day);
      SameTablesSameRecords(file, stored, phase.file, day);
    }
  }

  lemma MorningPhaseRecords(file: File, plan: DayPlan, results: DayResults, options: StoreOptions, day: int)
    requires ResultsOfDay(results, plan.day) && MorningPhase(file, plan, results, options).Ok? && day != plan.day
    ensures SameRecords(file, MorningPhase(file, plan, results, options).value.file, day)
  {
    hide MorningFetched, Merged, Attempts, RowsOf, IssuesSettled;
    var after := MorningPhase(file, plan, results, options).value.file;
    if plan.fetchMorning {
      MorningFetchedRecords(file, plan.day, results, options, day);
    } else if plan.completeMorning {
      forall piece: Piece | piece.day == day
        ensures Attempts(file.issues, piece) == Attempts(after.issues, piece)
      {
        MorningCompletedAttempts(file, plan.day, results, piece);
      }
    }
  }

  lemma MorningCompletedAttempts(file: File, day: int, results: DayResults, piece: Piece)
    requires ResultsOfDay(results, day) && day in file.days && piece.day != day
    ensures Attempts(MorningCompleted(file, day, results).issues, piece) == Attempts(file.issues, piece)
  {
    hide IssuesSettled, Merged, Attempts;
    var counted := MorningCompleted(file, day, results).(issues := file.issues);
    var first := IssuesSettled(counted, file.issues, day, Quotes, results.quotes);
    var second := IssuesSettled(counted, first, day, EndOfDay, results.endOfDay);
    IssuesSettledOtherDay(counted, file.issues, day, Quotes, results.quotes, piece);
    IssuesSettledOtherDay(counted, first, day, EndOfDay, results.endOfDay, piece);
    IssuesSettledOtherDay(counted, second, day, OpenInterest, results.openInterest, piece);
  }

  lemma IntradayCompletionRecords(file: File, plan: DayPlan, results: DayResults, options: StoreOptions, failures: nat, day: int)
    requires ResultsOfDay(results, plan.day) && IntradayCompletion(file, plan, results, options, failures).Ok? && day != plan.day
    ensures SameRecords(file, IntradayCompletion(file, plan, results, options, failures).value.file, day)
  {
    hide IssuesSettled, Merged, Attempts, KeptInWindow;
    var after := IntradayCompletion(file, plan, results, options, failures).value.file;
    forall piece: Piece | piece.day == day
      ensures Attempts(file.issues, piece) == Attempts(after.issues, piece)
    {
      IssuesSettledOtherDay(after.(issues := file.issues), file.issues, plan.day, IntradayQuotes, results.intraday, piece);
    }
  }

  lemma IntradayFetchRecords(file: File, plan: DayPlan, results: DayResults, options: StoreOptions, failures: nat, day: int)
    requires ResultsOfDay(results, plan.day) && IntradayFetch(file, plan, results, options, failures).Ok? && day != plan.day
    ensures SameRecords(file, IntradayFetch(file, plan, results, options, failures).value.file, day)
  {
    hide IssuesReplaced, Refilled, Attempts, KeptInWindow;
    var after := IntradayFetch(file, plan, results, options, failures).value.file;
    forall piece: Piece | piece.day == day
      ensures Attempts(file.issues, piece) == Attempts(after.issues, piece)
    {
      ReplacedOtherDay(file.issues, plan.day, IntradayQuotes, results.intraday, true, piece);
    }
  }

  /** Storing one day changes no other day's records. */
  lemma StoreDayRecords(file: File, plan: DayPlan, results: DayResults, options: StoreOptions, day: int)
    requires ResultsOfDay(results, plan.day) && StoreDay(file, plan, results, options).Ok? && day != plan.day
    ensures SameRecords(file, StoreDay(file, plan, results, options).value.0, day)
  {
    hide MorningPhase, IntradayCompletion, IntradayFetch, Attempts;
    var morning := MorningPhase(file, plan, results, options).value;
    MorningPhaseRecords(file, plan, results, options, day);
    if morning.Go? {
      var completion := morning;
      if morning.complete && plan.completeIntraday {
        completion := IntradayCompletion(morning.file, plan, results, options, morning.failures).value;
        IntradayCompletionRecords(morning.file, plan, results, options, morning.failures, day);
      }
      if completion.complete && plan.fetchIntraday {
        IntradayFetchRecords(completion.file, plan, results, options, completion.failures, day);
      }
    }
  }

  // ---------------------------------------------------------------------------------------
  // No stored row is lost

  /** Every stored row is still stored, with its values. */
  ghost predicate Grows(a: File, b: File) {
    forall part, rowKey :: rowKey in RowsOf(a, part) ==> rowKey in RowsOf(b, part) && RowsOf(b, part)[rowKey] == RowsOf(a, part)[rowKey]
  }

  ghost predicate RowsGrow(a: FlatRows, b: FlatRows) {
    forall rowKey :: rowKey in a ==> rowKey in b && b[rowKey] == a[rowKey]
  }

  lemma GrowsByPart(a: File, b: File)
    requires RowsGrow(a.quotes, b.quotes) && RowsGrow(a.endOfDay, b.endOfDay) && RowsGrow(a.openInterest, b.openInterest) && RowsGrow(a.intraday, b.intraday)
    ensures Grows(a, b)
  {
    forall part, rowKey | rowKey in RowsOf(a, part)
      ensures rowKey in RowsOf(b, part) && RowsOf(b, part)[rowKey] == RowsOf(a, part)[rowKey]
    {
      match part
      case Quotes =>
      case EndOfDay =>
      case OpenInterest =>
      case IntradayQuotes =>
    }
  }

  lemma GrowsTransitively(a: File, b: File, c: File)
    requires Grows(a, b) && Grows(b, c)
    ensures Grows(a, c)
  {
    forall part, rowKey | rowKey in RowsOf(a, part)
      ensures rowKey in RowsOf(c, part) && RowsOf(c, part)[rowKey] == RowsOf(a, part)[rowKey]
    {
      assert rowKey in RowsOf(b, part);
    }
  }

  lemma EmptyDayStays(flat: FlatRows, day: int)
    requires DayKeys(flat, day) == {}
    ensures RowsGrow(flat, WithoutDay(flat, day))
  {
    forall rowKey | rowKey in flat
      ensures rowKey in WithoutDay(flat, day)
    {
      assert rowKey !in DayKeys(flat, day);
    }
  }

  lemma MorningRefilledGrows(file: File, day: int, results: DayResults)
    requires ResultsOfDay(results, day) && DayConsistent(file, day) && day !in file.days && MorningRefilled(file, day, results).Ok?
    ensures var after := MorningRefilled(file, day, results).value;
            RowsGrow(file.quotes, after.quotes) && RowsGrow(file.endOfDay, after.endOfDay) && RowsGrow(file.openInterest, after.openInterest)
            && after.intraday == file.intraday && DayKeys(file.intraday, day) == {}
  {
    hide Refilled, DayKeys;
    assert DayKeys(RowsOf(file, Quotes), day) == {} && DayKeys(RowsOf(file, EndOfDay), day) == {} && DayKeys(RowsOf(file, OpenInterest), day) == {}
           && DayKeys(RowsOf(file, IntradayQuotes), day) == {};
    RefilledDay(file.quotes, day, results.quotes.rows);
    RefilledDay(file.endOfDay, day, results.endOfDay.rows);
    RefilledDay(file.openInterest, day, results.openInterest.rows);
  }

  lemma MorningFetchedGrows(file: File, day: int, results: DayResults, options: StoreOptions)
    requires Consistent(file) && ResultsOfDay(results, day) && MorningFetched(file, day, results, options).Ok?
    ensures Grows(file, MorningFetched(file, day, results, options).value.file)
  {
    hide MorningFetched, MorningRefilled, MorningIssuesReplaced, DayConsistent, RowsGrow, DayKeys, Grows, WithoutDay, ResultsOfDay;
    var phase := MorningFetched(file, day, results, options).value;
    MorningFetchedIs(file, day, results, options);
    RowsStay(file);
    if phase.Go? {
      assert DayConsistent(file, day);
      MorningRefilledGrows(file, day, results);
      EmptyDayStays(file.intraday, day);
    }
    GrowsByPart(file, phase.file);
  }

  lemma RowsStay(file: File)
    ensures forall part :: RowsGrow(RowsOf(file, part), RowsOf(file, part))
    ensures RowsGrow(file.quotes, file.quotes) && RowsGrow(file.endOfDay, file.endOfDay) && RowsGrow(file.openInterest, file.openInterest) && RowsGrow(file.intraday, file.intraday)
  {}

  lemma MorningPhaseGrows(file: File, plan: DayPlan, results: DayResults, options: StoreOptions)
    requires Consistent(file) && ResultsOfDay(results, plan.day) && MorningPhase(file, plan, results, options).Ok?
    ensures Grows(file, MorningPhase(file, plan, results, options).value.file)
  {
    hide MorningFetched, Merged, IssuesSettled, Consistent, Grows, RowsGrow;
    RowsStay(file);
    var after := MorningPhase(file, plan, results, options).value.file;
    if plan.fetchMorning {
      MorningFetchedGrows(file, plan.day, results, options);
    } else {
      KeptGrows(file.quotes, results.quotes.rows, plan.day);
      KeptGrows(file.endOfDay, results.endOfDay.rows, plan.day);
      KeptGrows(file.openInterest, results.openInterest.rows, plan.day);
      GrowsByPart(file, after);
    }
  }

  lemma KeptGrows(flat: FlatRows, rows: seq<KeyedRow>, day: int)
    requires RowsOfDay(rows, day)
    ensures RowsGrow(flat, Merged(flat, rows, Keep))
  {
    MergedDayKeys(flat, rows, Keep, day);
  }

  /** Storing a planned day loses no stored row and changes none, although the code deletes and inserts. */
  lemma StoreDayGrows(file: File, plan: DayPlan, results: DayResults, options: StoreOptions)
    requires Consistent(file) && ResultsOfDay(results, plan.day) && PlanOf(file, plan.day) == Some(plan)
    requires StoreDay(file, plan, results, options).Ok?
    ensures Grows(file, StoreDay(file, plan, results, options).value.0)
  {
    hide MorningPhase, IntradayCompletion, IntradayFetch, Consistent, Grows, RowsGrow;
    var morning := MorningPhase(file, plan, results, options).value;
    MorningPhaseGrows(file, plan, results, options);
    MorningPhaseConsistent(file, plan, results, options);
    if morning.Go? {
      var completion := morning;
      RowsStay(morning.file);
      if morning.complete && plan.completeIntraday {
        completion := IntradayCompletion(morning.file, plan, results, options, morning.failures).value;
        IntradayCompletionConsistent(morning.file, plan, results, options, morning.failures);
        RowsGrowMeans(morning.file.intraday, completion.file.intraday);
      }
      GrowsByPart(morning.file, completion.file);
      GrowsTransitively(file, morning.file, completion.file);
      var last := completion;
      RowsStay(completion.file);
      if completion.complete && plan.fetchIntraday {
        last := IntradayFetch(completion.file, plan, results, options, completion.failures).value;
        IntradayFetchConsistent(completion.file, plan, results, options, completion.failures);
        RowsGrowMeans(completion.file.intraday, last.file.intraday);
      }
      GrowsByPart(completion.file, last.file);
      GrowsTransitively(file, completion.file, last.file);
      GrowsByRows(file, last.file, StoreDay(file, plan, results, options).value.0);
    }
  }

  lemma GrowsByRows(a: File, b: File, c: File)
    requires Grows(a, b) && b.quotes == c.quotes && b.endOfDay == c.endOfDay && b.openInterest == c.openInterest && b.intraday == c.intraday
    ensures Grows(a, c)
  {
    forall part
      ensures RowsOf(b, part) == RowsOf(c, part)
    {}
  }

  lemma RowsGrowMeans(a: FlatRows, b: FlatRows)
    requires forall rowKey :: rowKey in a ==> rowKey in b && b[rowKey] == a[rowKey]
    ensures RowsGrow(a, b)
  {}

  // ---------------------------------------------------------------------------------------
  // Done days

  lemma MorningPhaseFlags(file: File, plan: DayPlan, results: DayResults, options: StoreOptions)
    requires Consistent(file) && ResultsOfDay(results, plan.day) && PlanOf(file, plan.day) == Some(plan)
    requires MorningPhase(file, plan, results, options).Ok?
    ensures var phase := MorningPhase(file, plan, results, options).value;
            && (phase.Stop? ==> phase.file == RecordedUnavailable(file, plan.day) && plan.fetchMorning && !phase.outcome.dayDone && phase.outcome.unavailable)
            && (phase.Go? && plan.day in phase.file.days ==> (phase.failures == 0 <==> phase.file.days[plan.day].allExpiries))
            && (phase.Go? && !phase.complete ==> plan.fetchMorning && phase.failures == 0)
  {
    hide MorningFetched, IssuesSettled, MorningKept, DayConsistent, DayRows, ResultsOfDay;
    if plan.fetchMorning {
      MorningFetchedConsistent(file, plan.day, results, options);
      hide Consistent;
      MorningFetchedIs(file, plan.day, results, options);
    }
  }

  lemma IntradayCompletionFlags(file: File, plan: DayPlan, results: DayResults, options: StoreOptions, failures: nat)
    requires ResultsOfDay(results, plan.day) && IntradayCompletion(file, plan, results, options, failures).Ok?
    requires plan.day in file.intradayDays && !file.intradayDays[plan.day].allExpiries
    ensures var phase := IntradayCompletion(file, plan, results, options, failures).value;
            && plan.day in phase.file.intradayDays
            && (phase.failures == 0 <==> failures == 0 && phase.file.intradayDays[plan.day].allExpiries)
  {
    hide Merged, IssuesSettled, KeptInWindow, DayRows, DayLooks, ResultsOfDay;
  }

  /** A planned day reported done is done; any other planned day is not, and stays planned. */
  lemma ReportedDoneIsDone(file: File, plan: DayPlan, results: DayResults, options: StoreOptions)
    requires Consistent(file) && ResultsOfDay(results, plan.day) && PlanOf(file, plan.day) == Some(plan)
    requires StoreDay(file, plan, results, options).Ok?
    ensures var (after, outcome) := StoreDay(file, plan, results, options).value;
            && (outcome.dayDone <==> Done(after, plan.day))
            && (outcome.unavailable <==> plan.day in after.unavailable)
            && (outcome.unavailable ==> !outcome.dayDone)
  {
    hide MorningPhase, IntradayCompletion, IntradayFetch, Consistent, ResultsOfDay;
    var morning := MorningPhase(file, plan, results, options).value;
    MorningPhaseConsistent(file, plan, results, options);
    MorningPhaseFlags(file, plan, results, options);
    assert Consistent(file) && plan.day !in file.days ==> plan.day !in file.intradayDays by {
      AbsentHasNoIntraday(file, plan.day);
    }
    if morning.Go? {
      if morning.complete && plan.completeIntraday {
        IntradayCompletionConsistent(morning.file, plan, results, options, morning.failures);
        IntradayCompletionFlags(morning.file, plan, results, options, morning.failures);
      } else if morning.complete && plan.fetchIntraday {
        IntradayFetchConsistent(morning.file, plan, results, options, morning.failures);
      }
    }
  }

  lemma AbsentHasNoIntraday(file: File, day: int)
    requires Consistent(file)
    ensures day !in file.days ==> day !in file.intradayDays
  {
    assert DayConsistent(file, day);
  }
}
