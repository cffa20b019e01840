/**
 What a symbol file holds and what storing a day, or a retried piece, makes of it
 (scripts/backtest/download_thetadata_symbol.py). Each function is one transaction: it gives the
 new state, or the error that rolls it back.
 */
module FileState {
  import opened Wrappers
  import opened SliceKeys
  import opened FlatPart
  import opened SliceTables

  // ---------------------------------------------------------------------------------------
  // The tables

  datatype DayRow = DayRow(complete: bool, quoteRows: nat, endOfDayRows: nat, openInterestRows: nat, allExpiries: bool)

  datatype IntradayDayRow = IntradayDayRow(complete: bool, lookCount: nat, quoteRows: nat, window: Option<real>, allExpiries: bool)

  /** A piece a stored day lacks; no expiry for a whole part. */
  datatype Piece = Piece(day: int, part: Part, expiry: Option<int>)

  datatype IssueRow = IssueRow(piece: Piece, attempts: nat)

  datatype File = File(
    quotes: FlatRows, endOfDay: FlatRows, openInterest: FlatRows, intraday: FlatRows,
    days: map<int, DayRow>, intradayDays: map<int, IntradayDayRow>, issues: seq<IssueRow>, unavailable: map<int, nat>)

  const EMPTY_FILE := File(map[], map[], map[], map[], map[], map[], [], map[])

  function RowsOf(file: File, part: Part): FlatRows {
    match part
    case Quotes => file.quotes
    case EndOfDay => file.endOfDay
    case OpenInterest => file.openInterest
    case IntradayQuotes => file.intraday
  }

  function WithRows(file: File, part: Part, flat: FlatRows): (after: File)
    ensures RowsOf(after, part) == flat
    ensures forall other :: other != part ==> RowsOf(after, other) == RowsOf(file, other)
  {
    match part
    case Quotes => file.(quotes := flat)
    case EndOfDay => file.(endOfDay := flat)
    case OpenInterest => file.(openInterest := flat)
    case IntradayQuotes => file.(intraday := flat)
  }

  /** count_part_rows: the day's rows of a part. */
  ghost function DayRows(file: File, part: Part, day: int): nat {
    |DayKeys(RowsOf(file, part), day)|
  }

  /** The looks of the day's stored intraday quotes. */
  ghost function DayLooks(file: File, day: int): set<int> {
    LooksOf(DayKeys(file.intraday, day))
  }

  function DaysToExpiry(piece: Piece): Option<int> {
    if piece.expiry.Some? then Some(piece.expiry.value - piece.day) else None
  }

  /** part_has_rows: whether the day holds rows of the part (of one expiration, when given). */
  ghost predicate PartHasRows(file: File, piece: Piece) {
    DayHolds(RowsOf(file, piece.part), piece.day, DaysToExpiry(piece))
  }

  // ---------------------------------------------------------------------------------------
  // A day as retrieved

  /** One part of one day: its rows, and the expirations (None for the whole part) left out. */
  datatype PartResult = PartResult(rows: seq<KeyedRow>, issues: seq<Option<int>>) {
    predicate NothingRetrieved() {
      issues != [] && rows == []
    }
  }

  datatype DayResults = DayResults(quotes: PartResult, endOfDay: PartResult, openInterest: PartResult, intraday: PartResult)

  /** The rows are contracts' rows of the day, as the downloader maps ThetaData's answers for it. */
  predicate RowsOfDay(rows: seq<KeyedRow>, day: int) {
    ContractRows(rows) && forall i :: 0 <= i < |rows| ==> DayNumberOfKey(rows[i].key) == day
  }

  predicate ResultsOfDay(results: DayResults, day: int) {
    && RowsOfDay(results.quotes.rows, day) && RowsOfDay(results.endOfDay.rows, day)
    && RowsOfDay(results.openInterest.rows, day) && RowsOfDay(results.intraday.rows, day)
  }

  /** What one weekday still needs. */
  datatype DayPlan = DayPlan(day: int, fetchMorning: bool, fetchIntraday: bool, completeMorning: bool, completeIntraday: bool)

  /**
   What storing a day is told beside the plan and the results: the strike window asked for, the
   last day whose lack of data is final, and the at-the-money strike of the day's 10:00 quotes.
   */
  datatype StoreOptions = StoreOptions(window: Option<real>, noDataIsFinalThrough: int, atTheMoney: Option<real>)

  datatype StoreError = IntegrityError | MissingRow | ValueDoesNotPack

  datatype Outcome = Outcome(dayDone: bool, unavailable: bool, failures: nat)

  // ---------------------------------------------------------------------------------------
  // Pieces of the transaction

  function WithinWindow(rows: seq<KeyedRow>, atTheMoney: real, percent: real): (kept: seq<KeyedRow>)
    requires ContractRows(rows)
    ensures ContractRows(kept)
    ensures forall row :: row in kept ==> row in rows
  {
    if rows == [] then [] else
    var last := |rows| - 1;
    var before := WithinWindow(rows[..last], atTheMoney, percent);
    var strike := ContractOf(rows[last].row).strike;
    if atTheMoney * (1.0 - percent / 100.0) <= strike <= atTheMoney * (1.0 + percent / 100.0) then before + [rows[last]] else before
  }

  /** keep_intraday_quotes_within_strike_window: the rows kept, and the window applied. */
  function KeptInWindow(rows: seq<KeyedRow>, window: Option<real>, atTheMoney: Option<real>): (r: (seq<KeyedRow>, Option<real>))
    requires ContractRows(rows)
    ensures ContractRows(r.0)
    ensures forall row :: row in r.0 ==> row in rows
  {
    if window.None? || rows == [] || atTheMoney.None? then (rows, None) else
    (WithinWindow(rows, atTheMoney.value, window.value), window)
  }

  function RecordedUnavailable(file: File, day: int): File {
    file.(unavailable := file.unavailable[day := if day in file.unavailable then file.unavailable[day] + 1 else 1])
  }

  /** The day's rows of a part deleted and these stored in their place: an error when one is given twice. */
  ghost function Refilled(flat: FlatRows, day: int, rows: seq<KeyedRow>): Result<FlatRows, StoreError>
    requires ContractRows(rows)
  {
    if Clashes(WithoutDay(flat, day), rows) then Err(IntegrityError) else Ok(Merged(WithoutDay(flat, day), rows, Fail))
  }

  function WithoutIssues(issues: seq<IssueRow>, day: int, part: Part): seq<IssueRow> {
    if issues == [] then [] else
    var last := |issues| - 1;
    var before := WithoutIssues(issues[..last], day, part);
    if issues[last].piece.day == day && issues[last].piece.part == part then before else before + [issues[last]]
  }

  function WithoutPiece(issues: seq<IssueRow>, piece: Piece): seq<IssueRow> {
    if issues == [] then [] else
    var last := |issues| - 1;
    var before := WithoutPiece(issues[..last], piece);
    if issues[last].piece == piece then before else before + [issues[last]]
  }

  function NewIssues(day: int, part: Part, expiries: seq<Option<int>>): seq<IssueRow> {
    seq(|expiries|, i requires 0 <= i < |expiries| => IssueRow(Piece(day, part, expiries[i]), 1))
  }

  /** replace_day_issues for one part: its left-out pieces, or the whole part when it came back empty. */
  function IssuesReplaced(issues: seq<IssueRow>, day: int, part: Part, result: PartResult, recordPartsWithoutData: bool): seq<IssueRow> {
    var listed := if recordPartsWithoutData && result.rows == [] && result.issues == [] then [None] else result.issues;
    WithoutIssues(issues, day, part) + NewIssues(day, part, listed)
  }

  predicate Listed(issues: seq<IssueRow>, piece: Piece) {
    exists i :: 0 <= i < |issues| && issues[i].piece == piece
  }

  /** The issues of a part without those the file now holds rows for. */
  ghost function Settled(file: File, issues: seq<IssueRow>, day: int, part: Part): seq<IssueRow> {
    if issues == [] then [] else
    var last := |issues| - 1;
    var before := Settled(file, issues[..last], day, part);
    var piece := issues[last].piece;
    if piece.day == day && piece.part == part && PartHasRows(file, piece) then before else before + [issues[last]]
  }

  /** What a completion left out: brought up to date when listed already, else listed. */
  function LeftOut(issues: seq<IssueRow>, day: int, part: Part, expiries: seq<Option<int>>): seq<IssueRow> {
    if expiries == [] then issues else
    var before := LeftOut(issues, day, part, expiries[..|expiries| - 1]);
    var piece := Piece(day, part, expiries[|expiries| - 1]);
    if Listed(before, piece) then before else before + [IssueRow(piece, 1)]
  }

  /** settle_day_issues_after_completion for one part. */
  ghost function IssuesSettled(file: File, issues: seq<IssueRow>, day: int, part: Part, result: PartResult): seq<IssueRow> {
    LeftOut(Settled(file, issues, day, part), day, part, result.issues)
  }

  // ---------------------------------------------------------------------------------------
  // store_day

  /** A phase of store_day_in_open_transaction: it ends the day, or goes on with the day's status. */
  datatype Phase = Stop(file: File, outcome: Outcome) | Go(file: File, complete: bool, failures: nat)

  function Unavailable(file: File, day: int, failures: nat): Phase {
    Stop(RecordedUnavailable(file, day), Outcome(false, true, failures))
  }

  /** The three morning parts deleted and stored, one after the other. */
  ghost function MorningRefilled(file: File, day: int, results: DayResults): Result<File, StoreError>
    requires ResultsOfDay(results, day)
  {
    var quotes :- Refilled(file.quotes, day, results.quotes.rows);
    var endOfDay :- Refilled(file.endOfDay, day, results.endOfDay.rows);
    var openInterest :- Refilled(file.openInterest, day, results.openInterest.rows);
    Ok(file.(quotes := quotes, endOfDay := endOfDay, openInterest := openInterest))
  }

  function MorningIssuesReplaced(issues: seq<IssueRow>, day: int, results: DayResults, complete: bool): seq<IssueRow> {
    IssuesReplaced(IssuesReplaced(IssuesReplaced(issues, day, Quotes, results.quotes, complete),
                                  day, EndOfDay, results.endOfDay, complete), day, OpenInterest, results.openInterest, complete)
  }

  /** The day's `days` row and issues once its morning parts are stored; a day without data keeps no intraday quotes. */
  ghost function MorningRecorded(stored: File, day: int, results: DayResults, complete: bool): File {
    var dayRow := DayRow(complete, |results.quotes.rows|, |results.endOfDay.rows|, |results.openInterest.rows|, true);
    var recorded := stored.(days := stored.days[day := dayRow], issues := MorningIssuesReplaced(stored.issues, day, results, complete));
    if complete then recorded else recorded.(intraday := WithoutDay(recorded.intraday, day), intradayDays := recorded.intradayDays - {day})
  }

  ghost function MorningFetched(file: File, day: int, results: DayResults, options: StoreOptions): Result<Phase, StoreError>
    requires ResultsOfDay(results, day)
  {
    if results.quotes.NothingRetrieved() || results.endOfDay.NothingRetrieved() || results.openInterest.NothingRetrieved() then
      Ok(Unavailable(file, day, 0))
    else
      var complete := results.quotes.rows != [] || results.endOfDay.rows != [] || results.openInterest.rows != [];
      if !complete && day > options.noDataIsFinalThrough then Ok(Unavailable(file, day, 0)) else
      var stored :- MorningRefilled(file, day, results);
      if day in file.days then Err(IntegrityError) else
      Ok(Go(MorningRecorded(stored, day, results, complete), complete, 0))
  }

  ghost function MorningKept(file: File, results: DayResults, day: int): File
    requires ResultsOfDay(results, day)
  {
    file.(quotes := Merged(file.quotes, results.quotes.rows, Keep),
          endOfDay := Merged(file.endOfDay, results.endOfDay.rows, Keep),
          openInterest := Merged(file.openInterest, results.openInterest.rows, Keep))
  }

  ghost function MorningCompleted(file: File, day: int, results: DayResults): File
    requires ResultsOfDay(results, day) && day in file.days
  {
    var kept := MorningKept(file, results, day);
    var dayRow := file.days[day].(quoteRows := DayRows(kept, Quotes, day), endOfDayRows := DayRows(kept, EndOfDay, day),
                                  openInterestRows := DayRows(kept, OpenInterest, day), allExpiries := true);
    var counted := kept.(days := kept.days[day := dayRow]);
    counted.(issues := IssuesSettled(counted, IssuesSettled(counted, IssuesSettled(counted, counted.issues, day, Quotes, results.quotes),
                                                            day, EndOfDay, results.endOfDay), day, OpenInterest, results.openInterest))
  }

  ghost function MorningPhase(file: File, plan: DayPlan, results: DayResults, options: StoreOptions): Result<Phase, StoreError>
    requires ResultsOfDay(results, plan.day)
  {
    if plan.fetchMorning then MorningFetched(file, plan.day, results, options)
    else if plan.day !in file.days then Err(MissingRow)
    else if !file.days[plan.day].complete || !plan.completeMorning then Ok(Go(file, file.days[plan.day].complete, 0))
    else if results.quotes.NothingRetrieved() || results.endOfDay.NothingRetrieved() || results.openInterest.NothingRetrieved() then Ok(Go(file, true, 1))
    else Ok(Go(MorningCompleted(file, plan.day, results), true, 0))
  }

  /** An intraday day row brought up to date with the rows the file holds; completing it marks it as holding every expiry. */
  ghost function IntradayCounted(file: File, day: int, completing: bool): File
    requires day in file.intradayDays
  {
    var count := DayRows(file, IntradayQuotes, day);
    var row := file.intradayDays[day];
    file.(intradayDays := file.intradayDays[day := row.(quoteRows := count, lookCount := |DayLooks(file, day)|, complete := count > 0 || row.complete,
                                                       allExpiries := completing || row.allExpiries)])
  }

  ghost function IntradayCompletion(file: File, plan: DayPlan, results: DayResults, options: StoreOptions, failures: nat): (r: Result<Phase, StoreError>)
    requires ResultsOfDay(results, plan.day)
    ensures r.Ok? ==> r.value.Go? && r.value.complete
  {
    if results.intraday.NothingRetrieved() then Ok(Go(file, true, failures + 1))
    else if plan.day !in file.intradayDays then Err(MissingRow)
    else
      var rows := KeptInWindow(results.intraday.rows, file.intradayDays[plan.day].window, options.atTheMoney).0;
      var completed := IntradayCounted(file.(intraday := Merged(file.intraday, rows, Keep)), plan.day, true);
      Ok(Go(completed.(issues := IssuesSettled(completed, completed.issues, plan.day, IntradayQuotes, results.intraday)), true, failures))
  }

  ghost function IntradayFetch(file: File, plan: DayPlan, results: DayResults, options: StoreOptions, failures: nat): Result<Phase, StoreError>
    requires ResultsOfDay(results, plan.day)
  {
    if results.intraday.NothingRetrieved() then Ok(Unavailable(file, plan.day, failures)) else
    var (rows, applied) := KeptInWindow(results.intraday.rows, options.window, options.atTheMoney);
    var intraday :- Refilled(file.intraday, plan.day, rows);
    var row := IntradayDayRow(results.intraday.rows != [], |LooksOf(RowKeysOf(rows))|, |rows|, applied, true);
    Ok(Go(file.(intraday := intraday, intradayDays := file.intradayDays[plan.day := row],
                issues := IssuesReplaced(file.issues, plan.day, IntradayQuotes, results.intraday, true)), true, failures))
  }

  /** store_day: the new file and what happened, or the error the transaction is rolled back for. */
  ghost function StoreDay(file: File, plan: DayPlan, results: DayResults, options: StoreOptions): Result<(File, Outcome), StoreError>
    requires ResultsOfDay(results, plan.day)
  {
    var morning :- MorningPhase(file, plan, results, options);
    if morning.Stop? then Ok((morning.file, morning.outcome)) else
    var completion :- if morning.complete && plan.completeIntraday then IntradayCompletion(morning.file, plan, results, options, morning.failures) else Ok(morning);
    var last :- if completion.complete && plan.fetchIntraday then IntradayFetch(completion.file, plan, results, options, completion.failures) else Ok(completion);
    if last.Stop? then Ok((last.file, last.outcome)) else
    Ok((last.file.(unavailable := last.file.unavailable - {plan.day}), Outcome(last.failures == 0, false, last.failures)))
  }

  // ---------------------------------------------------------------------------------------
  // store_day_issue_retry

  function Attempted(issues: seq<IssueRow>, piece: Piece): (after: seq<IssueRow>)
    ensures |after| == |issues|
    ensures forall i :: 0 <= i < |issues| ==>
      after[i] == if issues[i].piece == piece then IssueRow(piece, issues[i].attempts + 1) else issues[i]
  {
    seq(|issues|, i requires 0 <= i < |issues| => if issues[i].piece == piece then IssueRow(piece, issues[i].attempts + 1) else issues[i])
  }

  ghost function DayCounted(file: File, part: Part, day: int): File {
    if day !in file.days then file else
    var count := DayRows(file, part, day);
    var row := file.days[day];
    file.(days := file.days[day := match part
                                   case Quotes => row.(quoteRows := count)
                                   case EndOfDay => row.(endOfDayRows := count)
                                   case OpenInterest => row.(openInterestRows := count)
                                   case IntradayQuotes => row])
  }

  /** One retried piece: its rows, or a failed request. */
  ghost function StoreRetry(file: File, piece: Piece, rows: seq<KeyedRow>, failed: bool, atTheMoney: Option<real>): Result<File, StoreError>
    requires RowsOfDay(rows, piece.day)
  {
    if failed || (rows == [] && piece.expiry.None?) then Ok(file.(issues := Attempted(file.issues, piece)))
    else if piece.part == IntradayQuotes then
      if piece.day !in file.intradayDays then Err(MissingRow) else
      var kept := KeptInWindow(rows, file.intradayDays[piece.day].window, atTheMoney).0;
      var counted := IntradayCounted(file.(intraday := Merged(file.intraday, kept, Replace)), piece.day, false);
      Ok(counted.(issues := WithoutPiece(counted.issues, piece)))
    else
      var counted := DayCounted(WithRows(file, piece.part, Merged(RowsOf(file, piece.part), rows, Replace)), piece.part, piece.day);
      Ok(counted.(issues := WithoutPiece(counted.issues, piece)))
  }
}
