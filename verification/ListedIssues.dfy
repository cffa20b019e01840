/**
 Which missing pieces a stored day, or a retried piece, leaves listed and how often they were asked for
 (scripts/backtest/download_thetadata_symbol.py), said of the answers and the tables alone.
 */
module ListedIssues {
  import opened Wrappers
  import opened SliceKeys
  import opened FlatPart
  import opened SliceTables
  import opened FileState
  import opened FileRuns
  import opened StoredContents

  /** How a piece stands: not listed, or listed and asked for so often. */
  function Standing(issues: seq<IssueRow>, piece: Piece): Option<nat> {
    if issues == [] then None else
    var before, last := Standing(issues[..|issues| - 1], piece), issues[|issues| - 1];
    if last.piece != piece then before
    else if before.Some? && before.value >= last.attempts then before else Some(last.attempts)
  }

  /** Listed again: as often as either says. */
  function Either(a: Option<nat>, b: Option<nat>): Option<nat> {
    if a.None? then b else if b.None? then a else if a.value >= b.value then a else b
  }

  lemma {:induction false} StandingConcatenated(a: seq<IssueRow>, b: seq<IssueRow>, piece: Piece)
    ensures Standing(a + b, piece) == Either(Standing(a, piece), Standing(b, piece))
  {
    if b == [] {
      assert a + b == a;
    } else {
      var last := |b| - 1;
      assert (a + b)[..|a + b| - 1] == a + b[..last];
      StandingConcatenated(a, b[..last], piece);
    }
  }

  lemma StandingOne(row: IssueRow, piece: Piece)
    ensures Standing([row], piece) == if row.piece == piece then Some(row.attempts) else None
  {
    assert [row][..0] == [];
  }

  lemma {:induction false} StandingIsListed(issues: seq<IssueRow>, piece: Piece)
    ensures Standing(issues, piece).Some? <==> Listed(issues, piece)
    ensures Attempts(issues, piece) == if Standing(issues, piece).Some? then Standing(issues, piece).value else 0
  {
    if issues != [] {
      var last := |issues| - 1;
      StandingIsListed(issues[..last], piece);
      if Listed(issues[..last], piece) {
        var i :| 0 <= i < last && issues[..last][i].piece == piece;
        assert issues[i].piece == piece;
      }
      assert forall i :: 0 <= i < last ==> issues[..last][i] == issues[i];
    }
  }

  lemma {:induction false} WithoutIssuesStand(issues: seq<IssueRow>, day: int, part: Part, piece: Piece)
    ensures Standing(WithoutIssues(issues, day, part), piece) == if piece.day == day && piece.part == part then None else Standing(issues, piece)
  {
    if issues != [] {
      var last := |issues| - 1;
      WithoutIssuesStand(issues[..last], day, part, piece);
      StandingConcatenated(WithoutIssues(issues[..last], day, part), [issues[last]], piece);
      StandingOne(issues[last], piece);
    }
  }

  lemma {:induction false} NewIssuesStand(day: int, part: Part, expiries: seq<Option<int>>, piece: Piece)
    ensures Standing(NewIssues(day, part, expiries), piece) == if piece.day == day && piece.part == part && piece.expiry in expiries then Some(1) else None
  {
    if expiries != [] {
      var last := |expiries| - 1;
      NewIssuesStand(day, part, expiries[..last], piece);
      assert NewIssues(day, part, expiries)[..last] == NewIssues(day, part, expiries[..last]);
      assert expiries == expiries[..last] + [expiries[last]];
    }
  }

  /** The rows in hand hold something of the piece: of its expiration, or any of the day for a whole part. */
  ghost predicate HoldsPiece(flat: FlatRows, piece: Piece) {
    exists rowKey :: rowKey in flat && DayNumberOfKey(rowKey.key) == piece.day && (piece.expiry.Some? ==> piece.day + DaysToExpiryOfKey(rowKey.key) == piece.expiry.value)
  }

  lemma HoldsIsHas(file: File, piece: Piece)
    ensures PartHasRows(file, piece) <==> HoldsPiece(RowsOf(file, piece.part), piece)
  {
    var flat := RowsOf(file, piece.part);
    hide RowsOf, DayNumberOfKey, DaysToExpiryOfKey;
    if HoldsPiece(flat, piece) {
      var rowKey :| rowKey in flat && DayNumberOfKey(rowKey.key) == piece.day && (piece.expiry.Some? ==> piece.day + DaysToExpiryOfKey(rowKey.key) == piece.expiry.value);
      assert rowKey in DayKeys(flat, piece.day);
    }
    if PartHasRows(file, piece) {
      var rowKey :| rowKey in DayKeys(flat, piece.day) && (DaysToExpiry(piece).Some? ==> DaysToExpiryOfKey(rowKey.key) == DaysToExpiry(piece).value);
      assert rowKey in flat;
    }
  }

  lemma {:induction false} SettledStand(file: File, issues: seq<IssueRow>, day: int, part: Part, piece: Piece)
    ensures Standing(Settled(file, issues, day, part), piece)
            == if piece.day == day && piece.part == part && HoldsPiece(RowsOf(file, part), piece) then None else Standing(issues, piece)
  {
    hide PartHasRows, HoldsPiece, RowsOf;
    if issues != [] {
      var last := |issues| - 1;
      SettledStand(file, issues[..last], day, part, piece);
      StandingConcatenated(Settled(file, issues[..last], day, part), [issues[last]], piece);
      StandingOne(issues[last], piece);
      HoldsIsHas(file, issues[last].piece);
    }
  }

  lemma {:induction false} LeftOutStand(issues: seq<IssueRow>, day: int, part: Part, expiries: seq<Option<int>>, piece: Piece)
    ensures Standing(LeftOut(issues, day, part, expiries), piece)
            == if piece.day == day && piece.part == part && piece.expiry in expiries && Standing(issues, piece).None? then Some(1) else Standing(issues, piece)
  {
    if expiries != [] {
      var last := |expiries| - 1;
      var before := LeftOut(issues, day, part, expiries[..last]);
      LeftOutStand(issues, day, part, expiries[..last], piece);
      var added := Piece(day, part, expiries[last]);
      StandingIsListed(before, added);
      hide Listed;
      StandingConcatenated(before, [IssueRow(added, 1)], piece);
      StandingOne(IssueRow(added, 1), piece);
      assert expiries == expiries[..last] + [expiries[last]];
    }
  }

  // ---------------------------------------------------------------------------------------
  // A part fetched, a part completed

  /** Of a part fetched: just what was left out of it is listed, asked for once; the whole part when it came back with nothing though the day has data. */
  function FetchedStanding(result: PartResult, dayHasData: bool, expiry: Option<int>): Option<nat> {
    if expiry in result.issues || (dayHasData && expiry.None? && result.rows == [] && result.issues == []) then Some(1) else None
  }

  /** Of a part completed: what the day now holds is settled, and what was left out is listed, asked for once if it was not listed. */
  ghost function CompletedStanding(before: Option<nat>, held: bool, result: PartResult, expiry: Option<int>): Option<nat> {
    var left := if held then None else before;
    if left.None? && expiry in result.issues then Some(1) else left
  }

  lemma ReplacedStand(issues: seq<IssueRow>, day: int, part: Part, result: PartResult, hasData: bool, piece: Piece)
    ensures Standing(IssuesReplaced(issues, day, part, result, hasData), piece)
            == if piece.day == day && piece.part == part then FetchedStanding(result, hasData, piece.expiry) else Standing(issues, piece)
  {
    var listed := if hasData && result.rows == [] && result.issues == [] then [None] else result.issues;
    WithoutIssuesStand(issues, day, part, piece);
    NewIssuesStand(day, part, listed, piece);
    StandingConcatenated(WithoutIssues(issues, day, part), NewIssues(day, part, listed), piece);
  }

  lemma CompletedStand(file: File, issues: seq<IssueRow>, day: int, part: Part, result: PartResult, piece: Piece)
    ensures Standing(IssuesSettled(file, issues, day, part, result), piece)
            == if piece.day == day && piece.part == part then CompletedStanding(Standing(issues, piece), HoldsPiece(RowsOf(file, part), piece), result, piece.expiry)
               else Standing(issues, piece)
  {
    hide HoldsPiece;
    SettledStand(file, issues, day, part, piece);
    LeftOutStand(Settled(file, issues, day, part), day, part, result.issues, piece);
  }

  function ResultOf(results: DayResults, part: Part): PartResult {
    match part
    case Quotes => results.quotes
    case EndOfDay => results.endOfDay
    case OpenInterest => results.openInterest
    case IntradayQuotes => results.intraday
  }

  /** How a piece stands after the morning phase. */
  ghost function MorningStanding(file: File, after: File, plan: DayPlan, results: DayResults, options: StoreOptions, piece: Piece): Option<nat> {
    var before := Standing(file.issues, piece);
    if piece.day != plan.day || piece.part == IntradayQuotes then before
    else if plan.fetchMorning && MorningCameBack(plan.day, results, options) then FetchedStanding(ResultOf(results, piece.part), AnyMorningRow(results), piece.expiry)
    else if !plan.fetchMorning && plan.completeMorning && HasData(file, plan, results, options)
         && CameBack(results.quotes) && CameBack(results.endOfDay) && CameBack(results.openInterest) then
      CompletedStanding(before, HoldsPiece(RowsOf(after, piece.part), piece), ResultOf(results, piece.part), piece.expiry)
    else before
  }

  lemma MorningFetchedStand(file: File, day: int, results: DayResults, options: StoreOptions, piece: Piece)
    requires ResultsOfDay(results, day) && MorningFetched(file, day, results, options).Ok?
    ensures Standing(MorningFetched(file, day, results, options).value.file.issues, piece)
            == if piece.day == day && piece.part != IntradayQuotes && MorningCameBack(day, results, options) then
                 FetchedStanding(ResultOf(results, piece.part), AnyMorningRow(results), piece.expiry)
               else Standing(file.issues, piece)
  {
    hide MorningRefilled, RowsOfDay, WithoutDay, Standing, IssuesReplaced, FetchedStanding;
    if MorningCameBack(day, results, options) {
      MorningRefilledIssues(file, day, results);
      var has := AnyMorningRow(results);
      ReplacedStand(file.issues, day, Quotes, results.quotes, has, piece);
      var one := IssuesReplaced(file.issues, day, Quotes, results.quotes, has);
      ReplacedStand(one, day, EndOfDay, results.endOfDay, has, piece);
      ReplacedStand(IssuesReplaced(one, day, EndOfDay, results.endOfDay, has), day, OpenInterest, results.openInterest, has, piece);
    }
  }

  lemma MorningRefilledIssues(file: File, day: int, results: DayResults)
    requires ResultsOfDay(results, day) && MorningRefilled(file, day, results).Ok?
    ensures MorningRefilled(file, day, results).value.issues == file.issues
  {
    hide Refilled, RowsOfDay;
  }

  lemma MorningCompletedStand(file: File, day: int, results: DayResults, piece: Piece)
    requires ResultsOfDay(results, day) && day in file.days
    ensures var after := MorningCompleted(file, day, results);
            Standing(after.issues, piece)
            == if piece.day == day && piece.part != IntradayQuotes then
                 CompletedStanding(Standing(file.issues, piece), HoldsPiece(RowsOf(after, piece.part), piece), ResultOf(results, piece.part), piece.expiry)
               else Standing(file.issues, piece)
  {
    hide Merged, RowsOfDay, Standing, IssuesSettled, HoldsPiece, DayRows, CompletedStanding;
    var after := MorningCompleted(file, day, results);
    var kept := MorningKept(file, results, day);
    var counted := kept.(days := after.days);
    assert after == counted.(issues := after.issues);
    assert forall part :: RowsOf(counted, part) == RowsOf(after, part);
    CompletedStand(counted, counted.issues, day, Quotes, results.quotes, piece);
    var one := IssuesSettled(counted, counted.issues, day, Quotes, results.quotes);
    CompletedStand(counted, one, day, EndOfDay, results.endOfDay, piece);
    CompletedStand(counted, IssuesSettled(counted, one, day, EndOfDay, results.endOfDay), day, OpenInterest, results.openInterest, piece);
  }

  lemma MorningStands(file: File, plan: DayPlan, results: DayResults, options: StoreOptions, piece: Piece)
    requires ResultsOfDay(results, plan.day) && MorningPhase(file, plan, results, options).Ok?
    ensures var after := MorningPhase(file, plan, results, options).value.file;
            Standing(after.issues, piece) == MorningStanding(file, after, plan, results, options, piece)
  {
    hide RowsOfDay, MorningFetched, MorningCompleted, MorningCameBack, AnyMorningRow, Standing, FetchedStanding, CompletedStanding, HoldsPiece;
    if plan.fetchMorning {
      MorningFetchedStand(file, plan.day, results, options, piece);
    } else if plan.day in file.days {
      MorningCompletedStand(file, plan.day, results, piece);
    }
  }

  // ---------------------------------------------------------------------------------------
  // A stored day

  /** How a piece stands once the day is stored. */
  ghost function DayStanding(file: File, after: File, plan: DayPlan, results: DayResults, options: StoreOptions, piece: Piece): Option<nat> {
    if piece.day != plan.day || piece.part != IntradayQuotes then MorningStanding(file, after, plan, results, options, piece)
    else if !HasData(file, plan, results, options) || !CameBack(results.intraday) then Standing(file.issues, piece)
    else if plan.fetchIntraday then FetchedStanding(results.intraday, true, piece.expiry)
    else if plan.completeIntraday then CompletedStanding(Standing(file.issues, piece), HoldsPiece(after.intraday, piece), results.intraday, piece.expiry)
    else Standing(file.issues, piece)
  }

  lemma CompletionStands(file: File, plan: DayPlan, results: DayResults, options: StoreOptions, failures: nat, piece: Piece)
    requires ResultsOfDay(results, plan.day) && IntradayCompletion(file, plan, results, options, failures).Ok?
    ensures var after := IntradayCompletion(file, plan, results, options, failures).value.file;
            && (forall part :: part != IntradayQuotes ==> RowsOf(after, part) == RowsOf(file, part))
            && Standing(after.issues, piece)
               == if piece.day == plan.day && piece.part == IntradayQuotes && CameBack(results.intraday) then
                    CompletedStanding(Standing(file.issues, piece), HoldsPiece(after.intraday, piece), results.intraday, piece.expiry)
                  else Standing(file.issues, piece)
  {
    hide Merged, RowsOfDay, Standing, IssuesSettled, HoldsPiece, DayRows, DayLooks, CompletedStanding, KeptInWindow;
    if CameBack(results.intraday) {
      KeptIsOfDay(results.intraday.rows, file.intradayDays[plan.day].window, options.atTheMoney, plan.day);
      var rows := KeptInWindow(results.intraday.rows, file.intradayDays[plan.day].window, options.atTheMoney).0;
      assert ContractRows(rows);
      var completed := IntradayCounted(file.(intraday := Merged(file.intraday, rows, FlatPart.Keep)), plan.day, true);
      CompletedStand(completed, completed.issues, plan.day, IntradayQuotes, results.intraday, piece);
    }
  }

  lemma FetchStands(file: File, plan: DayPlan, results: DayResults, options: StoreOptions, failures: nat, piece: Piece)
    requires ResultsOfDay(results, plan.day) && IntradayFetch(file, plan, results, options, failures).Ok?
    ensures var after := IntradayFetch(file, plan, results, options, failures).value.file;
            && (forall part :: part != IntradayQuotes ==> RowsOf(after, part) == RowsOf(file, part))
            && Standing(after.issues, piece)
               == if piece.day == plan.day && piece.part == IntradayQuotes && CameBack(results.intraday) then FetchedStanding(results.intraday, true, piece.expiry)
                  else Standing(file.issues, piece)
  {
    hide Refilled, RowsOfDay, Standing, IssuesReplaced, FetchedStanding, KeptInWindow;
    ReplacedStand(file.issues, plan.day, IntradayQuotes, results.intraday, true, piece);
  }

  lemma SameMorningStanding(file: File, a: File, b: File, plan: DayPlan, results: DayResults, options: StoreOptions, piece: Piece)
    requires forall part :: part != IntradayQuotes ==> RowsOf(a, part) == RowsOf(b, part)
    ensures MorningStanding(file, a, plan, results, options, piece) == MorningStanding(file, b, plan, results, options, piece)
  {
    hide HoldsPiece, CompletedStanding, RowsOf, HasData, CameBack, MorningCameBack;
  }

  /**
   For every piece: of a part fetched just what was left out is listed, of a part completed what the day
   now holds is settled and what was left out is listed, and every other piece stands as it did.
   */
  lemma StoredDayLists(file: File, plan: DayPlan, results: DayResults, options: StoreOptions, piece: Piece)
    requires ResultsOfDay(results, plan.day) && StoreDay(file, plan, results, options).Ok?
    ensures var after := StoreDay(file, plan, results, options).value.0;
            Standing(after.issues, piece) == DayStanding(file, after, plan, results, options, piece)
  {
    hide RowsOfDay, MorningPhase, IntradayCompletion, IntradayFetch, MorningStanding, Standing, FetchedStanding, CompletedStanding, HoldsPiece, MorningCameBack, HasData, CameBack;
    MorningHolds(file, plan, results, options);
    MorningStands(file, plan, results, options, piece);
    var after := StoreDay(file, plan, results, options).value.0;
    var morning := MorningPhase(file, plan, results, options).value;
    IntradayAside(file, morning.file, plan, results, options, piece);
    if morning.Go? && morning.complete {
      var completion := if plan.completeIntraday then IntradayCompletion(morning.file, plan, results, options, morning.failures).value else morning;
      if plan.completeIntraday {
        CompletionStands(morning.file, plan, results, options, morning.failures, piece);
      }
      if plan.fetchIntraday {
        FetchStands(completion.file, plan, results, options, completion.failures, piece);
      }
    }
    SameMorningStanding(file, morning.file, after, plan, results, options, piece);
  }

  lemma IntradayAside(file: File, after: File, plan: DayPlan, results: DayResults, options: StoreOptions, piece: Piece)
    ensures piece.part == IntradayQuotes ==> MorningStanding(file, after, plan, results, options, piece) == Standing(file.issues, piece)
  {
    hide HoldsPiece, CompletedStanding, FetchedStanding, HasData, CameBack, MorningCameBack, Standing;
  }

  // ---------------------------------------------------------------------------------------
  // A retried piece

  lemma {:induction false} WithoutPieceStands(issues: seq<IssueRow>, settled: Piece, piece: Piece)
    ensures Standing(WithoutPiece(issues, settled), piece) == if piece == settled then None else Standing(issues, piece)
  {
    if issues != [] {
      var last := |issues| - 1;
      WithoutPieceStands(issues[..last], settled, piece);
      StandingConcatenated(WithoutPiece(issues[..last], settled), [issues[last]], piece);
      StandingOne(issues[last], piece);
    }
  }

  lemma {:induction false} AttemptedStands(issues: seq<IssueRow>, retried: Piece, piece: Piece)
    ensures var before := Standing(issues, piece);
            Standing(Attempted(issues, retried), piece) == if piece == retried && before.Some? then Some(before.value + 1) else before
  {
    if issues != [] {
      var last := |issues| - 1;
      assert Attempted(issues, retried)[..last] == Attempted(issues[..last], retried);
      AttemptedStands(issues[..last], retried, piece);
    }
  }

  lemma CountedIssues(file: File, part: Part, flat: FlatRows, day: int)
    ensures DayCounted(WithRows(file, part, flat), part, day).issues == file.issues
    ensures day in file.intradayDays ==> IntradayCounted(file.(intraday := flat), day, false).issues == file.issues
  {
    hide DayRows, DayLooks;
  }

  lemma RetriedIssues(file: File, retried: Piece, rows: seq<KeyedRow>, failed: bool, atTheMoney: Option<real>)
    requires RowsOfDay(rows, retried.day) && StoreRetry(file, retried, rows, failed, atTheMoney).Ok?
    ensures var issues := StoreRetry(file, retried, rows, failed, atTheMoney).value.issues;
            issues == if failed || (rows == [] && retried.expiry.None?) then Attempted(file.issues, retried) else WithoutPiece(file.issues, retried)
  {
    assert ContractRows(rows);
    hide RowsOfDay, Attempted, WithoutPiece, Merged, KeptInWindow, DayCounted, IntradayCounted, WithRows, RowsOf;
    if !(failed || (rows == [] && retried.expiry.None?)) {
      if retried.part == IntradayQuotes {
        CountedIssues(file, retried.part, Merged(file.intraday, KeptInWindow(rows, file.intradayDays[retried.day].window, atTheMoney).0, Replace), retried.day);
      } else {
        CountedIssues(file, retried.part, Merged(RowsOf(file, retried.part), rows, Replace), retried.day);
      }
    }
  }

  /** A retried piece is settled by its answer, or asked for once more when the request failed or the whole part is still without data; no other piece changes. */
  lemma RetriedPieceStands(file: File, retried: Piece, rows: seq<KeyedRow>, failed: bool, atTheMoney: Option<real>, piece: Piece)
    requires RowsOfDay(rows, retried.day) && StoreRetry(file, retried, rows, failed, atTheMoney).Ok?
    ensures var before, after := Standing(file.issues, piece), Standing(StoreRetry(file, retried, rows, failed, atTheMoney).value.issues, piece);
            if piece != retried then after == before
            else if failed || (rows == [] && retried.expiry.None?) then after == if before.Some? then Some(before.value + 1) else None
            else after == None
  {
    hide RowsOfDay, Standing, Attempted, WithoutPiece, StoreRetry;
    RetriedIssues(file, retried, rows, failed, atTheMoney);
    AttemptedStands(file.issues, retried, piece);
    WithoutPieceStands(file.issues, retried, piece);
  }
}
