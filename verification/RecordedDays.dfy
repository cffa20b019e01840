/**
 What a stored day's tables say of it and how it is reported (scripts/backtest/download_thetadata_symbol.py),
 said of the plan, the answers and the tables before alone.
 */
module RecordedDays {
  import opened Wrappers
  import opened FlatPart
  import opened SliceTables
  import opened FileState
  import opened StoredContents

  // ---------------------------------------------------------------------------------------
  // What came back

  predicate MorningRefused(plan: DayPlan, results: DayResults, options: StoreOptions) {
    plan.fetchMorning && !MorningCameBack(plan.day, results, options)
  }

  /** Parts to be fetched did not come back: the day is asked for again. */
  predicate Refused(file: File, plan: DayPlan, results: DayResults, options: StoreOptions) {
    MorningRefused(plan, results, options) || (HasData(file, plan, results, options) && plan.fetchIntraday && !CameBack(results.intraday))
  }

  predicate CompletesMorning(file: File, plan: DayPlan, results: DayResults, options: StoreOptions) {
    HasData(file, plan, results, options) && !plan.fetchMorning && plan.completeMorning
  }

  predicate CompletesIntraday(file: File, plan: DayPlan, results: DayResults, options: StoreOptions) {
    HasData(file, plan, results, options) && plan.completeIntraday
  }

  predicate AllThreeCameBack(results: DayResults) {
    CameBack(results.quotes) && CameBack(results.endOfDay) && CameBack(results.openInterest)
  }

  /** How many completions did not come back. */
  function Failures(file: File, plan: DayPlan, results: DayResults, options: StoreOptions): nat {
    (if CompletesMorning(file, plan, results, options) && !AllThreeCameBack(results) then 1 else 0)
    + if CompletesIntraday(file, plan, results, options) && !CameBack(results.intraday) then 1 else 0
  }

  // ---------------------------------------------------------------------------------------
  // What the tables say then

  /** A refused day is counted once more among the unavailable ones, any other day is not among them; nothing changes for other days. */
  ghost predicate Tallied(file: File, after: File, day: int, refused: bool) {
    && (forall other :: other != day ==> (other in after.unavailable <==> other in file.unavailable))
    && (forall other :: other != day && other in file.unavailable ==> other in after.unavailable && after.unavailable[other] == file.unavailable[other])
    && (day in after.unavailable <==> refused)
    && (refused ==> after.unavailable[day] == if day in file.unavailable then file.unavailable[day] + 1 else 1)
  }

  /** A fetched morning holds every expiry and the rows it came with, and has data when there are any; a completed one holds every expiry. */
  ghost predicate DayRecorded(file: File, after: File, plan: DayPlan, results: DayResults, options: StoreOptions) {
    if plan.fetchMorning && MorningCameBack(plan.day, results, options) then
      && plan.day in after.days
      && after.days[plan.day] == DayRow(AnyMorningRow(results), |results.quotes.rows|, |results.endOfDay.rows|, |results.openInterest.rows|, true)
    else if CompletesMorning(file, plan, results, options) && AllThreeCameBack(results) then
      && plan.day in after.days && after.days[plan.day].complete && after.days[plan.day].allExpiries
      && after.days[plan.day].quoteRows == |DayKeys(after.quotes, plan.day)| && after.days[plan.day].endOfDayRows == |DayKeys(after.endOfDay, plan.day)|
      && after.days[plan.day].openInterestRows == |DayKeys(after.openInterest, plan.day)|
    else (plan.day in after.days <==> plan.day in file.days) && (plan.day in after.days ==> after.days[plan.day] == file.days[plan.day])
  }

  /** Fetched intraday quotes are complete when any came, within a window or not; completed ones when there are any now, or were before. */
  ghost predicate IntradayRecorded(file: File, after: File, plan: DayPlan, results: DayResults, options: StoreOptions) {
    var has, back := HasData(file, plan, results, options), CameBack(results.intraday);
    if has && plan.fetchIntraday && back then
      plan.day in after.intradayDays && after.intradayDays[plan.day].complete == (results.intraday.rows != []) && after.intradayDays[plan.day].allExpiries
    else if has && plan.completeIntraday && back then
      && plan.day in file.intradayDays && plan.day in after.intradayDays && after.intradayDays[plan.day].allExpiries
      && after.intradayDays[plan.day].complete == (file.intradayDays[plan.day].complete || DayKeys(after.intraday, plan.day) != {})
      && after.intradayDays[plan.day].quoteRows == |DayKeys(after.intraday, plan.day)|
    else if plan.fetchMorning && MorningCameBack(plan.day, results, options) && !has then plan.day !in after.intradayDays
    else (plan.day in after.intradayDays <==> plan.day in file.intradayDays)
         && (plan.day in after.intradayDays ==> after.intradayDays[plan.day] == file.intradayDays[plan.day])
  }

  // ---------------------------------------------------------------------------------------
  // The phases

  lemma RefusedIsTallied(file: File, day: int)
    ensures var after := RecordedUnavailable(file, day); after == file.(unavailable := after.unavailable) && Tallied(file, after, day, true)
  {}

  lemma MorningFetchedRecords(file: File, day: int, results: DayResults, options: StoreOptions)
    requires ResultsOfDay(results, day) && MorningFetched(file, day, results, options).Ok?
    ensures var phase := MorningFetched(file, day, results, options).value;
            if MorningCameBack(day, results, options) then
              && phase.Go? && phase.failures == 0 && (phase.complete <==> AnyMorningRow(results)) && phase.file.unavailable == file.unavailable
              && phase.file.days == file.days[day := DayRow(AnyMorningRow(results), |results.quotes.rows|, |results.endOfDay.rows|, |results.openInterest.rows|, true)]
              && phase.file.intradayDays == (if AnyMorningRow(results) then file.intradayDays else file.intradayDays - {day})
            else phase == Stop(file.(unavailable := phase.file.unavailable), Outcome(false, true, 0)) && Tallied(file, phase.file, day, true)
  {
    hide MorningIssuesReplaced, Refilled, RowsOfDay, WithoutDay, RecordedUnavailable, Tallied;
    RefusedIsTallied(file, day);
  }

  lemma MorningCompletedRecords(file: File, day: int, results: DayResults)
    requires ResultsOfDay(results, day) && day in file.days
    ensures var after := MorningCompleted(file, day, results);
            && after.unavailable == file.unavailable && after.intradayDays == file.intradayDays && after.intraday == file.intraday
            && day in after.days && after.days[day].complete == file.days[day].complete && after.days[day].allExpiries
            && after.days[day].quoteRows == |DayKeys(after.quotes, day)| && after.days[day].endOfDayRows == |DayKeys(after.endOfDay, day)|
            && after.days[day].openInterestRows == |DayKeys(after.openInterest, day)|
  {
    hide Merged, IssuesSettled, DayKeys, RowsOfDay;
  }

  lemma MorningRecords(file: File, plan: DayPlan, results: DayResults, options: StoreOptions)
    requires ResultsOfDay(results, plan.day) && MorningPhase(file, plan, results, options).Ok?
    ensures var phase := MorningPhase(file, plan, results, options).value;
            && (phase.Stop? <==> MorningRefused(plan, results, options))
            && (phase.Stop? ==> phase.outcome == Outcome(false, true, 0) && phase.file == file.(unavailable := phase.file.unavailable) && Tallied(file, phase.file, plan.day, true))
            && (phase.Go? ==> phase.file.unavailable == file.unavailable && (phase.complete <==> HasData(file, plan, results, options)))
            && (phase.Go? ==> phase.failures == if CompletesMorning(file, plan, results, options) && !AllThreeCameBack(results) then 1 else 0)
            && DayRecorded(file, phase.file, plan, results, options)
            && (phase.Go? ==> phase.file.intradayDays == if plan.fetchMorning && !HasData(file, plan, results, options) then file.intradayDays - {plan.day} else file.intradayDays)
  {
    hide RowsOfDay, MorningFetched, MorningCompleted, MorningCameBack, AnyMorningRow, Tallied, DayKeys;
    if plan.fetchMorning {
      MorningFetchedRecords(file, plan.day, results, options);
    } else if plan.day in file.days {
      MorningCompletedRecords(file, plan.day, results);
    }
  }

  lemma CompletionRecords(file: File, plan: DayPlan, results: DayResults, options: StoreOptions, failures: nat)
    requires ResultsOfDay(results, plan.day) && IntradayCompletion(file, plan, results, options, failures).Ok?
    ensures var phase := IntradayCompletion(file, plan, results, options, failures).value;
            && phase.Go? && phase.complete && phase.file.unavailable == file.unavailable && phase.file.days == file.days
            && phase.file.quotes == file.quotes && phase.file.endOfDay == file.endOfDay && phase.file.openInterest == file.openInterest
            && if CameBack(results.intraday) then
                 && phase.failures == failures && plan.day in file.intradayDays && plan.day in phase.file.intradayDays && phase.file.intradayDays[plan.day].allExpiries
                 && phase.file.intradayDays[plan.day].complete == (file.intradayDays[plan.day].complete || DayKeys(phase.file.intraday, plan.day) != {})
                 && phase.file.intradayDays[plan.day].quoteRows == |DayKeys(phase.file.intraday, plan.day)|
               else phase.failures == failures + 1 && phase.file == file
  {
    hide Merged, KeptInWindow, IssuesSettled, RowsOfDay, DayLooks, DayKeys;
  }

  lemma FetchRecords(file: File, plan: DayPlan, results: DayResults, options: StoreOptions, failures: nat)
    requires ResultsOfDay(results, plan.day) && IntradayFetch(file, plan, results, options, failures).Ok?
    ensures var phase := IntradayFetch(file, plan, results, options, failures).value;
            && phase.file.days == file.days && phase.file.quotes == file.quotes && phase.file.endOfDay == file.endOfDay && phase.file.openInterest == file.openInterest
            && if CameBack(results.intraday) then
                 && phase.Go? && phase.failures == failures && phase.file.unavailable == file.unavailable && plan.day in phase.file.intradayDays
                 && phase.file.intradayDays[plan.day].complete == (results.intraday.rows != []) && phase.file.intradayDays[plan.day].allExpiries
               else phase == Stop(file.(unavailable := phase.file.unavailable), Outcome(false, true, failures)) && Tallied(file, phase.file, plan.day, true)
  {
    hide Refilled, KeptInWindow, IssuesReplaced, RowsOfDay, LooksOf, RecordedUnavailable, Tallied;
    RefusedIsTallied(file, plan.day);
  }

  // ---------------------------------------------------------------------------------------
  // The day

  lemma SameDayRecorded(file: File, a: File, b: File, plan: DayPlan, results: DayResults, options: StoreOptions)
    requires DayRecorded(file, a, plan, results, options)
    requires a.days == b.days && a.quotes == b.quotes && a.endOfDay == b.endOfDay && a.openInterest == b.openInterest
    ensures DayRecorded(file, b, plan, results, options)
  {
    hide HasData, MorningCameBack, AllThreeCameBack, AnyMorningRow, DayKeys;
  }

  lemma SameTally(a: File, b: File, after: File, day: int)
    requires a.unavailable == b.unavailable
    ensures Tallied(b, after, day, true) ==> Tallied(a, after, day, true)
  {}

  lemma DayEnds(file: File, plan: DayPlan, results: DayResults, options: StoreOptions)
    requires ResultsOfDay(results, plan.day) && StoreDay(file, plan, results, options).Ok?
    ensures var (after, outcome) := StoreDay(file, plan, results, options).value;
            var refused, failures := Refused(file, plan, results, options), Failures(file, plan, results, options);
            Tallied(file, after, plan.day, refused) && outcome == Outcome(!refused && failures == 0, refused, failures)
  {
    hide RowsOfDay, MorningPhase, IntradayCompletion, IntradayFetch, MorningCameBack, AnyMorningRow, HasData, AllThreeCameBack, CameBack, DayKeys, DayRecorded, Tallied;
    MorningRecords(file, plan, results, options);
    NoDataMeans(file, plan, results, options);
    var morning := MorningPhase(file, plan, results, options).value;
    var after := StoreDay(file, plan, results, options).value.0;
    if morning.Go? && morning.complete {
      var completion := if plan.completeIntraday then IntradayCompletion(morning.file, plan, results, options, morning.failures).value else morning;
      if plan.completeIntraday {
        CompletionRecords(morning.file, plan, results, options, morning.failures);
      }
      if plan.fetchIntraday {
        FetchRecords(completion.file, plan, results, options, completion.failures);
        SameTally(file, completion.file, after, plan.day);
      }
    }
    Taken(file, after, plan.day);
  }

  lemma DayRowsAre(file: File, plan: DayPlan, results: DayResults, options: StoreOptions)
    requires ResultsOfDay(results, plan.day) && StoreDay(file, plan, results, options).Ok?
    ensures var after := StoreDay(file, plan, results, options).value.0;
            DayRecorded(file, after, plan, results, options) && IntradayRecorded(file, after, plan, results, options)
  {
    hide RowsOfDay, MorningPhase, IntradayCompletion, IntradayFetch, MorningCameBack, AnyMorningRow, HasData, AllThreeCameBack, CameBack, DayKeys, DayRecorded, Tallied;
    MorningRecords(file, plan, results, options);
    NoDataMeans(file, plan, results, options);
    var morning := MorningPhase(file, plan, results, options).value;
    var after := StoreDay(file, plan, results, options).value.0;
    if morning.Go? && morning.complete {
      var completion := if plan.completeIntraday then IntradayCompletion(morning.file, plan, results, options, morning.failures).value else morning;
      if plan.completeIntraday {
        CompletionRecords(morning.file, plan, results, options, morning.failures);
      }
      if plan.fetchIntraday {
        FetchRecords(completion.file, plan, results, options, completion.failures);
      }
    }
    SameDayRecorded(file, morning.file, after, plan, results, options);
  }

  /**
   Every stored day: it is unavailable exactly when parts to be fetched did not come back, and counted so
   once more; it is done exactly when it is not and every completion came back; and its two rows say what
   was fetched or completed, or what they said.
   */
  lemma StoredDayIsRecorded(file: File, plan: DayPlan, results: DayResults, options: StoreOptions)
    requires ResultsOfDay(results, plan.day) && StoreDay(file, plan, results, options).Ok?
    ensures var (after, outcome) := StoreDay(file, plan, results, options).value;
            var refused, failures := Refused(file, plan, results, options), Failures(file, plan, results, options);
            && Tallied(file, after, plan.day, refused)
            && outcome == Outcome(!refused && failures == 0, refused, failures)
            && DayRecorded(file, after, plan, results, options)
            && IntradayRecorded(file, after, plan, results, options)
  {
    DayEnds(file, plan, results, options);
    DayRowsAre(file, plan, results, options);
    hide StoreDay, Refused, Failures, Tallied, DayRecorded, IntradayRecorded;
  }

  /** A day no longer listed as unavailable, or never. */
  lemma Taken(file: File, after: File, day: int)
    ensures after.unavailable == file.unavailable - {day} ==> Tallied(file, after, day, false)
  {}

  lemma NoDataMeans(file: File, plan: DayPlan, results: DayResults, options: StoreOptions)
    ensures plan.fetchMorning && HasData(file, plan, results, options) ==> MorningCameBack(plan.day, results, options)
  {}

  // ---------------------------------------------------------------------------------------
  // A retried piece

  ghost predicate SameDayFlags(file: File, after: File) {
    && after.unavailable == file.unavailable && after.days.Keys == file.days.Keys
    && forall day :: day in file.days ==> after.days[day].complete == file.days[day].complete && after.days[day].allExpiries == file.days[day].allExpiries
  }

  /** Intraday quotes are complete, as before, or when there are any. */
  ghost predicate QuotesCounted(file: File, after: File, day: int) {
    && day in file.intradayDays && after.intradayDays.Keys == file.intradayDays.Keys
    && (forall other :: other in file.intradayDays && other != day ==> after.intradayDays[other] == file.intradayDays[other])
    && after.intradayDays[day].allExpiries == file.intradayDays[day].allExpiries
    && after.intradayDays[day].complete == (file.intradayDays[day].complete || DayKeys(after.intraday, day) != {})
    && after.intradayDays[day].quoteRows == |DayKeys(after.intraday, day)|
  }

  lemma IntradayCountedIs(file: File, flat: FlatRows, day: int)
    requires day in file.intradayDays
    ensures var after := IntradayCounted(file.(intraday := flat), day, false);
            after.intraday == flat && SameDayFlags(file, after) && QuotesCounted(file, after, day)
  {
    hide DayKeys, DayLooks;
  }

  lemma DayCountedIs(file: File, flat: FlatRows, part: Part, day: int)
    requires part != IntradayQuotes
    ensures var after := DayCounted(WithRows(file, part, flat), part, day); SameDayFlags(file, after) && after.intradayDays == file.intradayDays
  {
    hide DayKeys;
  }

  lemma IssuesAside(file: File, after: File, day: int, issues: seq<IssueRow>)
    ensures SameDayFlags(file, after) ==> SameDayFlags(file, after.(issues := issues))
    ensures QuotesCounted(file, after, day) ==> QuotesCounted(file, after.(issues := issues), day)
  {
    hide DayKeys;
  }

  /** A retried piece changes no flag of any day but that of the intraday quotes it brings. */
  lemma RetriedPieceIsRecorded(file: File, piece: Piece, rows: seq<KeyedRow>, failed: bool, atTheMoney: Option<real>)
    requires RowsOfDay(rows, piece.day) && StoreRetry(file, piece, rows, failed, atTheMoney).Ok?
    ensures var after := StoreRetry(file, piece, rows, failed, atTheMoney).value;
            && SameDayFlags(file, after)
            && if piece.part == IntradayQuotes && !failed && !(rows == [] && piece.expiry.None?) then QuotesCounted(file, after, piece.day)
               else after.intradayDays == file.intradayDays
  {
    hide Merged, KeptInWindow, DayCounted, IntradayCounted, WithRows, RowsOf, WithoutPiece, Attempted, RowsOfDay, ContractRows, QuotesCounted;
    OfDayAreContracts(rows, piece.day);
    if !failed && !(rows == [] && piece.expiry.None?) {
      if piece.part == IntradayQuotes {
        var merged := Merged(file.intraday, KeptInWindow(rows, file.intradayDays[piece.day].window, atTheMoney).0, Replace);
        IntradayCountedIs(file, merged, piece.day);
        var counted := IntradayCounted(file.(intraday := merged), piece.day, false);
        IssuesAside(file, counted, piece.day, WithoutPiece(counted.issues, piece));
      } else {
        DayCountedIs(file, Merged(RowsOf(file, piece.part), rows, Replace), piece.part, piece.day);
      }
    }
  }
}
