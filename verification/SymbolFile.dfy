/**
 The symbol file as the downloader changes it (scripts/backtest/download_thetadata_symbol.py): the
 four slice tables and the day tables, updated in place inside a transaction that is rolled back on
 an error. Each method is proved against the transaction FileState gives for it.
 */
module SymbolFiles {
  import opened Wrappers
  import opened SliceCodec
  import opened SliceKeys
  import opened FlatPart
  import opened SliceTables
  import opened FileState

  /** The numbers are doubles, as the downloader's are. */
  ghost predicate Kept(f64: DoubleCodec, results: DayResults) {
    && KeptKeyedRows(f64, Quotes, results.quotes.rows) && KeptKeyedRows(f64, EndOfDay, results.endOfDay.rows)
    && KeptKeyedRows(f64, OpenInterest, results.openInterest.rows) && KeptKeyedRows(f64, IntradayQuotes, results.intraday.rows)
  }

  /** How far a transaction of store_day got. */
  datatype Progress = Ended(outcome: Outcome) | Going(complete: bool, failures: nat)

  function PhaseOf(file: File, progress: Progress): Phase {
    match progress
    case Ended(outcome) => Stop(file, outcome)
    case Going(complete, failures) => Go(file, complete, failures)
  }

  datatype SavedTable = SavedTable(slices: map<int, StoredSlice>, keys: seq<int>)

  /** What ROLLBACK goes back to. */
  datatype Saved = Saved(quotes: SavedTable, endOfDay: SavedTable, openInterest: SavedTable, intraday: SavedTable,
                         days: map<int, DayRow>, intradayDays: map<int, IntradayDayRow>, issues: seq<IssueRow>, unavailable: map<int, nat>)

  class SymbolFile {
    const f64: DoubleCodec
    const quotes: SliceTable
    const endOfDay: SliceTable
    const openInterest: SliceTable
    const intraday: SliceTable
    var days: map<int, DayRow>
    var intradayDays: map<int, IntradayDayRow>
    var issues: seq<IssueRow>
    var unavailable: map<int, nat>

    ghost predicate Valid()
      reads this, quotes, endOfDay, openInterest, intraday
    {
      && quotes != endOfDay && quotes != openInterest && quotes != intraday && endOfDay != openInterest && endOfDay != intraday && openInterest != intraday
      && quotes.part == Quotes && endOfDay.part == EndOfDay && openInterest.part == OpenInterest && intraday.part == IntradayQuotes
      && quotes.f64 == f64 && endOfDay.f64 == f64 && openInterest.f64 == f64 && intraday.f64 == f64
      && quotes.Valid() && endOfDay.Valid() && openInterest.Valid() && intraday.Valid()
    }

    ghost function State(): File
      requires Valid()
      reads this, quotes, endOfDay, openInterest, intraday
    {
      File(quotes.Rows(), endOfDay.Rows(), openInterest.Rows(), intraday.Rows(), days, intradayDays, issues, unavailable)
    }

    constructor (f64: DoubleCodec)
      requires f64.Valid()
      ensures Valid() && this.f64 == f64 && State() == EMPTY_FILE
      ensures fresh(quotes) && fresh(endOfDay) && fresh(openInterest) && fresh(intraday)
    {
      this.f64 := f64;
      quotes := new SliceTable(f64, Quotes);
      endOfDay := new SliceTable(f64, EndOfDay);
      openInterest := new SliceTable(f64, OpenInterest);
      intraday := new SliceTable(f64, IntradayQuotes);
      days, intradayDays, issues, unavailable := map[], map[], [], map[];
    }

    function TableOf(part: Part): SliceTable {
      match part
      case Quotes => quotes
      case EndOfDay => endOfDay
      case OpenInterest => openInterest
      case IntradayQuotes => intraday
    }

    // -------------------------------------------------------------------------------------
    // One part

    method MergePart(part: Part, rows: seq<KeyedRow>, onStored: OnStored) returns (r: Result<nat, StoreError>)
      requires Valid() && KeptKeyedRows(f64, part, rows) && ContractRows(rows)
      modifies TableOf(part)
      ensures Valid()
      ensures r.Ok? ==> State() == WithRows(old(State()), part, Merged(RowsOf(old(State()), part), rows, onStored))
      ensures r.Ok? && onStored == Fail ==> !Clashes(RowsOf(old(State()), part), rows)
      ensures r.Err? && r.error != ValueDoesNotPack ==> onStored == Fail && r.error == IntegrityError && Clashes(RowsOf(old(State()), part), rows)
    {
      hide Merged, FlatOf, StoredWell, Ascending, Clashes;
      var merged := TableOf(part).MergePartRows(rows, onStored);
      match merged
      case Ok(added) => return Ok(added);
      case Err(AlreadyStored) => return Err(IntegrityError);
      case Err(Unpackable(_)) => return Err(ValueDoesNotPack);
    }

    method ClearPart(part: Part, day: int)
      requires Valid()
      modifies TableOf(part)
      ensures Valid()
      ensures State() == WithRows(old(State()), part, WithoutDay(RowsOf(old(State()), part), day))
    {
      hide FlatOf, StoredWell, Ascending, WithoutDay;
      TableOf(part).DeletePartRowsOfDay(day);
    }

    /** delete_part_rows_of_day, then insert_part_rows. */
    method RefillPart(part: Part, day: int, rows: seq<KeyedRow>) returns (r: Result<nat, StoreError>)
      requires Valid() && KeptKeyedRows(f64, part, rows) && ContractRows(rows)
      modifies TableOf(part)
      ensures Valid()
      ensures r.Ok? ==> Refilled(RowsOf(old(State()), part), day, rows).Ok?
                        && State() == WithRows(old(State()), part, Refilled(RowsOf(old(State()), part), day, rows).value)
      ensures r.Err? && r.error != ValueDoesNotPack ==> Refilled(RowsOf(old(State()), part), day, rows) == Err(r.error)
    {
      hide FlatOf, StoredWell, Ascending, WithoutDay, Merged, Clashes;
      ClearPart(part, day);
      r := MergePart(part, rows, Fail);
    }

    method CountPart(part: Part, day: int) returns (count: nat)
      requires Valid()
      ensures count == DayRows(State(), part, day)
    {
      hide FlatOf, StoredWell, Ascending, DayKeys;
      count := TableOf(part).CountPartRows(day);
    }

    method HasPartRows(piece: Piece) returns (has: bool)
      requires Valid()
      ensures has <==> PartHasRows(State(), piece)
    {
      hide FlatOf, StoredWell, Ascending, DayHolds, SliceTable.Valid;
      has := TableOf(piece.part).HasRows(piece.day, DaysToExpiry(piece));
    }

    // -------------------------------------------------------------------------------------
    // Issues

    /** settle_day_issues_after_completion for one part. */
    method SettleIssues(day: int, part: Part, result: PartResult)
      requires Valid()
      modifies this`issues
      ensures Valid() && State() == old(State()).(issues := IssuesSettled(old(State()), old(issues), day, part, result))
    {
      hide FlatOf, StoredWell, Ascending, PartHasRows;
      ghost var file := State();
      var stored, unsettled := issues, [];
      assert stored[..0] == [];
      for i := 0 to |stored|
        modifies {}
        invariant unsettled == Settled(file, stored[..i], day, part)
      {
        assert stored[..i + 1][..i] == stored[..i];
        var piece := stored[i].piece;
        var has := false;
        if piece.day == day && piece.part == part {
          has := HasPartRows(piece);
        }
        if !has {
          unsettled := unsettled + [stored[i]];
        }
      }
      assert stored[..|stored|] == stored;
      var expiries, listed := result.issues, unsettled;
      assert expiries[..0] == [];
      for i := 0 to |expiries|
        modifies {}
        invariant listed == LeftOut(unsettled, day, part, expiries[..i])
      {
        assert expiries[..i + 1][..i] == expiries[..i];
        if !Listed(listed, Piece(day, part, expiries[i])) {
          listed := listed + [IssueRow(Piece(day, part, expiries[i]), 1)];
        }
      }
      assert expiries[..|expiries|] == expiries;
      issues := listed;
    }

    // -------------------------------------------------------------------------------------
    // store_day

    method RecordUnavailable(day: int, failures: nat) returns (progress: Progress)
      requires Valid()
      modifies this`unavailable
      ensures Valid() && PhaseOf(State(), progress) == Unavailable(old(State()), day, failures)
    {
      hide FlatOf, StoredWell, Ascending;
      unavailable := unavailable[day := if day in unavailable then unavailable[day] + 1 else 1];
      return Ended(Outcome(false, true, failures));
    }

    method RefillMorning(day: int, results: DayResults) returns (r: Result<(), StoreError>)
      requires Valid() && ResultsOfDay(results, day) && Kept(f64, results)
      modifies quotes, endOfDay, openInterest
      ensures Valid()
      ensures r.Ok? ==> MorningRefilled(old(State()), day, results) == Ok(State())
      ensures r.Err? && r.error != ValueDoesNotPack ==> MorningRefilled(old(State()), day, results) == Err(r.error)
    {
      hide FlatOf, StoredWell, Ascending, Refilled, KeptKeyedRows;
      var stored :- RefillPart(Quotes, day, results.quotes.rows);
      stored :- RefillPart(EndOfDay, day, results.endOfDay.rows);
      stored :- RefillPart(OpenInterest, day, results.openInterest.rows);
      return Ok(());
    }

    method FetchMorning(day: int, results: DayResults, options: StoreOptions) returns (r: Result<Progress, StoreError>)
      requires Valid() && ResultsOfDay(results, day) && Kept(f64, results)
      modifies this, quotes, endOfDay, openInterest, intraday
      ensures Valid()
      ensures r.Ok? ==> MorningFetched(old(State()), day, results, options) == Ok(PhaseOf(State(), r.value))
      ensures r.Err? && r.error != ValueDoesNotPack ==> MorningFetched(old(State()), day, results, options) == Err(r.error)
    {
      hide FlatOf, StoredWell, Ascending, MorningRefilled, KeptKeyedRows, RowsOfDay, MorningIssuesReplaced, WithoutDay;
      if results.quotes.NothingRetrieved() || results.endOfDay.NothingRetrieved() || results.openInterest.NothingRetrieved() {
        var ended := RecordUnavailable(day, 0);
        return Ok(ended);
      }
      var complete := results.quotes.rows != [] || results.endOfDay.rows != [] || results.openInterest.rows != [];
      if !complete && day > options.noDataIsFinalThrough {
        var ended := RecordUnavailable(day, 0);
        return Ok(ended);
      }
      var refilled :- RefillMorning(day, results);
      if day in days {
        return Err(IntegrityError);
      }
      days := days[day := DayRow(complete, |results.quotes.rows|, |results.endOfDay.rows|, |results.openInterest.rows|, true)];
      issues := MorningIssuesReplaced(issues, day, results, complete);
      if !complete {
        ClearPart(IntradayQuotes, day);
        intradayDays := intradayDays - {day};
      }
      return Ok(Going(complete, 0));
    }

    method KeepMorning(day: int, results: DayResults) returns (r: Result<(), StoreError>)
      requires Valid() && ResultsOfDay(results, day) && Kept(f64, results)
      modifies quotes, endOfDay, openInterest
      ensures Valid()
      ensures r.Ok? ==> State() == MorningKept(old(State()), results, day)
      ensures r.Err? ==> r.error == ValueDoesNotPack
    {
      hide FlatOf, StoredWell, Ascending, Merged, KeptKeyedRows;
      var added :- MergePart(Quotes, results.quotes.rows, Keep);
      added :- MergePart(EndOfDay, results.endOfDay.rows, Keep);
      added :- MergePart(OpenInterest, results.openInterest.rows, Keep);
      return Ok(());
    }

    method CompleteMorning(day: int, results: DayResults) returns (r: Result<(), StoreError>)
      requires Valid() && ResultsOfDay(results, day) && Kept(f64, results) && day in days
      modifies this, quotes, endOfDay, openInterest
      ensures Valid()
      ensures r.Ok? ==> State() == MorningCompleted(old(State()), day, results)
      ensures r.Err? ==> r.error == ValueDoesNotPack
    {
      hide FlatOf, StoredWell, Ascending, MorningKept, KeptKeyedRows, RowsOfDay, IssuesSettled, DayRows;
      var kept :- KeepMorning(day, results);
      var quoteRows := CountPart(Quotes, day);
      var endOfDayRows := CountPart(EndOfDay, day);
      var openInterestRows := CountPart(OpenInterest, day);
      MorningKeptTables(old(State()), results, day);
      days := days[day := days[day].(quoteRows := quoteRows, endOfDayRows := endOfDayRows, openInterestRows := openInterestRows, allExpiries := true)];
      SettledByRows();
      SettleIssues(day, Quotes, results.quotes);
      SettledByRows();
      SettleIssues(day, EndOfDay, results.endOfDay);
      SettledByRows();
      SettleIssues(day, OpenInterest, results.openInterest);
      return Ok(());
    }

    method StoreMorning(plan: DayPlan, results: DayResults, options: StoreOptions) returns (r: Result<Progress, StoreError>)
      requires Valid() && ResultsOfDay(results, plan.day) && Kept(f64, results)
      modifies this, quotes, endOfDay, openInterest, intraday
      ensures Valid()
      ensures r.Ok? ==> MorningPhase(old(State()), plan, results, options) == Ok(PhaseOf(State(), r.value))
      ensures r.Err? && r.error != ValueDoesNotPack ==> MorningPhase(old(State()), plan, results, options) == Err(r.error)
    {
      hide FlatOf, StoredWell, Ascending, MorningFetched, MorningCompleted, KeptKeyedRows, RowsOfDay;
      if plan.fetchMorning {
        r := FetchMorning(plan.day, results, options);
        return;
      }
      if plan.day !in days {
        return Err(MissingRow);
      }
      if !days[plan.day].complete || !plan.completeMorning {
        return Ok(Going(days[plan.day].complete, 0));
      }
      if results.quotes.NothingRetrieved() || results.endOfDay.NothingRetrieved() || results.openInterest.NothingRetrieved() {
        return Ok(Going(true, 1));
      }
      var completed :- CompleteMorning(plan.day, results);
      return Ok(Going(true, 0));
    }

    /** The day's `intraday_days` row brought up to date with the rows now stored. */
    method CountIntraday(day: int, completing: bool)
      requires Valid() && day in intradayDays
      modifies this`intradayDays
      ensures Valid() && State() == IntradayCounted(old(State()), day, completing)
    {
      hide FlatOf, StoredWell, Ascending, LooksOf, DayKeys;
      var count := intraday.CountPartRows(day);
      var looks := intraday.CountLooks(day);
      var row := intradayDays[day];
      intradayDays := intradayDays[day := row.(quoteRows := count, lookCount := looks, complete := count > 0 || row.complete,
                                               allExpiries := completing || row.allExpiries)];
    }

    method CompleteIntraday(plan: DayPlan, results: DayResults, options: StoreOptions, failures: nat) returns (r: Result<Progress, StoreError>)
      requires Valid() && ResultsOfDay(results, plan.day) && Kept(f64, results)
      modifies this, intraday
      ensures Valid()
      ensures r.Ok? ==> IntradayCompletion(old(State()), plan, results, options, failures) == Ok(PhaseOf(State(), r.value))
      ensures r.Err? && r.error != ValueDoesNotPack ==> IntradayCompletion(old(State()), plan, results, options, failures) == Err(r.error)
    {
      hide FlatOf, StoredWell, Ascending, KeptKeyedRows, Merged, KeptInWindow, IntradayCounted, IssuesSettled, RowsOfDay;
      if results.intraday.NothingRetrieved() {
        return Ok(Going(true, failures + 1));
      }
      if plan.day !in intradayDays {
        return Err(MissingRow);
      }
      ContractRowsOfDay(results.intraday.rows, plan.day);
      var rows := KeptInWindow(results.intraday.rows, intradayDays[plan.day].window, options.atTheMoney).0;
      WindowKeeps(f64, results.intraday.rows, intradayDays[plan.day].window, options.atTheMoney);
      var added :- MergePart(IntradayQuotes, rows, Keep);
      CountIntraday(plan.day, true);
      SettleIssues(plan.day, IntradayQuotes, results.intraday);
      return Ok(Going(true, failures));
    }

    method FetchIntraday(plan: DayPlan, results: DayResults, options: StoreOptions, failures: nat) returns (r: Result<Progress, StoreError>)
      requires Valid() && ResultsOfDay(results, plan.day) && Kept(f64, results)
      modifies this, intraday
      ensures Valid()
      ensures r.Ok? ==> IntradayFetch(old(State()), plan, results, options, failures) == Ok(PhaseOf(State(), r.value))
      ensures r.Err? && r.error != ValueDoesNotPack ==> IntradayFetch(old(State()), plan, results, options, failures) == Err(r.error)
    {
      hide FlatOf, StoredWell, Ascending, KeptKeyedRows, Refilled, KeptInWindow, IssuesReplaced, RowsOfDay;
      if results.intraday.NothingRetrieved() {
        var ended := RecordUnavailable(plan.day, failures);
        return Ok(ended);
      }
      ContractRowsOfDay(results.intraday.rows, plan.day);
      var (rows, applied) := KeptInWindow(results.intraday.rows, options.window, options.atTheMoney);
      WindowKeeps(f64, results.intraday.rows, options.window, options.atTheMoney);
      var stored :- RefillPart(IntradayQuotes, plan.day, rows);
      var looks := set i | 0 <= i < |rows| :: LookMinuteOfKey(rows[i].key);
      LooksOfRows(rows);
      intradayDays := intradayDays[plan.day := IntradayDayRow(results.intraday.rows != [], |looks|, |rows|, applied, true)];
      issues := IssuesReplaced(issues, plan.day, IntradayQuotes, results.intraday, true);
      return Ok(Going(true, failures));
    }

    function Begin(): Saved
      reads this, quotes, endOfDay, openInterest, intraday
    {
      Saved(SavedTable(quotes.slices, quotes.keys), SavedTable(endOfDay.slices, endOfDay.keys), SavedTable(openInterest.slices, openInterest.keys),
            SavedTable(intraday.slices, intraday.keys), days, intradayDays, issues, unavailable)
    }

    method Rollback(saved: Saved)
      requires Valid()
      modifies this, quotes, endOfDay, openInterest, intraday
      ensures Begin() == saved
    {
      quotes.slices, quotes.keys := saved.quotes.slices, saved.quotes.keys;
      endOfDay.slices, endOfDay.keys := saved.endOfDay.slices, saved.endOfDay.keys;
      openInterest.slices, openInterest.keys := saved.openInterest.slices, saved.openInterest.keys;
      intraday.slices, intraday.keys := saved.intraday.slices, saved.intraday.keys;
      days, intradayDays, issues, unavailable := saved.days, saved.intradayDays, saved.issues, saved.unavailable;
    }

    /** store_day_in_open_transaction: on an error the tables are left half-way, for the caller to roll back. */
    method StoreInOpenTransaction(plan: DayPlan, results: DayResults, options: StoreOptions) returns (r: Result<Outcome, StoreError>)
      requires Valid() && ResultsOfDay(results, plan.day) && Kept(f64, results)
      modifies this, quotes, endOfDay, openInterest, intraday
      ensures Valid()
      ensures r.Ok? ==> StoreDay(old(State()), plan, results, options) == Ok((State(), r.value))
      ensures r.Err? && r.error != ValueDoesNotPack ==> StoreDay(old(State()), plan, results, options) == Err(r.error)
    {
      hide FlatOf, StoredWell, Ascending, MorningPhase, IntradayCompletion, IntradayFetch, Kept, ResultsOfDay;
      var progress :- StoreMorning(plan, results, options);
      if progress.Ended? {
        return Ok(progress.outcome);
      }
      if progress.complete && plan.completeIntraday {
        progress :- CompleteIntraday(plan, results, options, progress.failures);
      }
      if progress.complete && plan.fetchIntraday {
        progress :- FetchIntraday(plan, results, options, progress.failures);
        if progress.Ended? {
          return Ok(progress.outcome);
        }
      }
      unavailable := unavailable - {plan.day};
      return Ok(Outcome(progress.failures == 0, false, progress.failures));
    }

    /** store_day: BEGIN, and COMMIT what the transaction made or ROLLBACK to what was there. */
    method Store(plan: DayPlan, results: DayResults, options: StoreOptions) returns (r: Result<Outcome, StoreError>)
      requires Valid() && ResultsOfDay(results, plan.day) && Kept(f64, results)
      modifies this, quotes, endOfDay, openInterest, intraday
      ensures Valid()
      ensures r.Ok? ==> StoreDay(old(State()), plan, results, options) == Ok((State(), r.value))
      ensures r.Err? ==> State() == old(State())
      ensures r.Err? && r.error != ValueDoesNotPack ==> StoreDay(old(State()), plan, results, options) == Err(r.error)
    {
      hide FlatOf, StoredWell, Ascending, StoreDay, Kept, ResultsOfDay;
      var saved := Begin();
      r := StoreInOpenTransaction(plan, results, options);
      if r.Err? {
        Rollback(saved);
      }
    }

    // -------------------------------------------------------------------------------------
    // store_day_issue_retry

    method StoreRetriedIntraday(piece: Piece, rows: seq<KeyedRow>, atTheMoney: Option<real>) returns (r: Result<(), StoreError>)
      requires Valid() && RowsOfDay(rows, piece.day) && KeptKeyedRows(f64, IntradayQuotes, rows) && piece.part == IntradayQuotes && piece.day in intradayDays
      modifies this, intraday
      ensures Valid()
      ensures r.Ok? ==> State() == IntradayCounted(old(State()).(intraday := Merged(old(State()).intraday,
                                                   KeptInWindow(rows, old(intradayDays)[piece.day].window, atTheMoney).0, Replace)), piece.day, false)
      ensures r.Err? ==> r.error == ValueDoesNotPack
    {
      hide FlatOf, StoredWell, Ascending, KeptKeyedRows, Merged, KeptInWindow, IntradayCounted, RowsOfDay;
      ContractRowsOfDay(rows, piece.day);
      var kept := KeptInWindow(rows, intradayDays[piece.day].window, atTheMoney).0;
      WindowKeeps(f64, rows, intradayDays[piece.day].window, atTheMoney);
      var added :- MergePart(IntradayQuotes, kept, Replace);
      CountIntraday(piece.day, false);
      return Ok(());
    }

    method StoreRetriedMorning(piece: Piece, rows: seq<KeyedRow>) returns (r: Result<(), StoreError>)
      requires Valid() && RowsOfDay(rows, piece.day) && KeptKeyedRows(f64, piece.part, rows) && piece.part != IntradayQuotes
      modifies this, TableOf(piece.part)
      ensures Valid()
      ensures r.Ok? ==> State() == DayCounted(WithRows(old(State()), piece.part, Merged(RowsOf(old(State()), piece.part), rows, Replace)), piece.part, piece.day)
      ensures r.Err? ==> r.error == ValueDoesNotPack
    {
      hide FlatOf, StoredWell, Ascending, KeptKeyedRows, Merged, RowsOfDay, DayRows;
      ContractRowsOfDay(rows, piece.day);
      var added :- MergePart(piece.part, rows, Replace);
      if piece.day in days {
        var count := CountPart(piece.part, piece.day);
        var row := days[piece.day];
        days := days[piece.day := match piece.part
                                  case Quotes => row.(quoteRows := count)
                                  case EndOfDay => row.(endOfDayRows := count)
                                  case OpenInterest => row.(openInterestRows := count)
                                  case IntradayQuotes => row];
      }
      return Ok(());
    }

    /** One retried piece in one transaction. */
    method StoreRetried(piece: Piece, rows: seq<KeyedRow>, failed: bool, atTheMoney: Option<real>) returns (r: Result<(), StoreError>)
      requires Valid() && RowsOfDay(rows, piece.day) && KeptKeyedRows(f64, piece.part, rows)
      modifies this, quotes, endOfDay, openInterest, intraday
      ensures Valid()
      ensures r.Ok? ==> StoreRetry(old(State()), piece, rows, failed, atTheMoney) == Ok(State())
      ensures r.Err? ==> State() == old(State())
      ensures r.Err? && r.error != ValueDoesNotPack ==> StoreRetry(old(State()), piece, rows, failed, atTheMoney) == Err(r.error)
    {
      hide FlatOf, StoredWell, Ascending, KeptKeyedRows, Merged, KeptInWindow, IntradayCounted, DayCounted, WithoutPiece, Attempted, RowsOfDay;
      if failed || (rows == [] && piece.expiry.None?) {
        issues := Attempted(issues, piece);
        return Ok(());
      }
      if piece.part == IntradayQuotes && piece.day !in intradayDays {
        return Err(MissingRow);
      }
      var saved := Begin();
      if piece.part == IntradayQuotes {
        r := StoreRetriedIntraday(piece, rows, atTheMoney);
      } else {
        r := StoreRetriedMorning(piece, rows);
      }
      if r.Err? {
        Rollback(saved);
        return;
      }
      issues := WithoutPiece(issues, piece);
    }

    /** Settling looks at the slices alone, so the issues settled before do not matter. */
    lemma SettledByRows()
      requires Valid()
      ensures forall others: seq<IssueRow>, list: seq<IssueRow>, day, part, result ::
        IssuesSettled(State().(issues := others), list, day, part, result) == IssuesSettled(State(), list, day, part, result)
    {
      hide FlatOf, StoredWell, Ascending, IssuesSettled;
      forall others: seq<IssueRow>, list: seq<IssueRow>, day, part, result
        ensures IssuesSettled(State().(issues := others), list, day, part, result) == IssuesSettled(State(), list, day, part, result)
      {
        SettledOfRows(State(), others, list, day, part, result);
      }
    }
  }

  lemma {:induction false} SettledTheSame(a: File, b: File, issues: seq<IssueRow>, day: int, part: Part)
    requires forall p: Part :: RowsOf(a, p) == RowsOf(b, p)
    ensures Settled(a, issues, day, part) == Settled(b, issues, day, part)
  {
    hide DayHolds, RowsOf;
    if issues != [] {
      SettledTheSame(a, b, issues[..|issues| - 1], day, part);
    }
  }

  lemma SettledOfRows(file: File, others: seq<IssueRow>, issues: seq<IssueRow>, day: int, part: Part, result: PartResult)
    ensures IssuesSettled(file.(issues := others), issues, day, part, result) == IssuesSettled(file, issues, day, part, result)
  {
    SettledTheSame(file.(issues := others), file, issues, day, part);
  }

  lemma ContractRowsOfDay(rows: seq<KeyedRow>, day: int)
    requires RowsOfDay(rows, day)
    ensures ContractRows(rows)
  {}

  lemma {:induction false} WithinWindowKeeps(f64: DoubleCodec, rows: seq<KeyedRow>, atTheMoney: real, percent: real)
    requires ContractRows(rows) && KeptKeyedRows(f64, IntradayQuotes, rows)
    ensures KeptKeyedRows(f64, IntradayQuotes, WithinWindow(rows, atTheMoney, percent))
  {
    hide PartRow;
    if rows != [] {
      WithinWindowKeeps(f64, rows[..|rows| - 1], atTheMoney, percent);
    }
  }

  lemma WindowKeeps(f64: DoubleCodec, rows: seq<KeyedRow>, window: Option<real>, atTheMoney: Option<real>)
    requires ContractRows(rows) && KeptKeyedRows(f64, IntradayQuotes, rows)
    ensures KeptKeyedRows(f64, IntradayQuotes, KeptInWindow(rows, window, atTheMoney).0)
  {
    if window.Some? && atTheMoney.Some? {
      WithinWindowKeeps(f64, rows, atTheMoney.value, window.value);
    }
  }

  lemma LooksOfRows(rows: seq<KeyedRow>)
    requires ContractRows(rows)
    ensures (set i | 0 <= i < |rows| :: LookMinuteOfKey(rows[i].key)) == LooksOf(RowKeysOf(rows))
  {
    var looks := set i | 0 <= i < |rows| :: LookMinuteOfKey(rows[i].key);
    forall i | 0 <= i < |rows|
      ensures LookMinuteOfKey(rows[i].key) in LooksOf(RowKeysOf(rows))
    {
      assert RowKeyOf(rows[i]) in RowKeysOf(rows) && RowKeyOf(rows[i]).key == rows[i].key;
    }
  }

  lemma MorningKeptTables(file: File, results: DayResults, day: int)
    requires ResultsOfDay(results, day)
    ensures var kept := MorningKept(file, results, day);
            kept.days == file.days && kept.issues == file.issues && kept.intradayDays == file.intradayDays
            && kept.unavailable == file.unavailable && kept.intraday == file.intraday
  {}
}
