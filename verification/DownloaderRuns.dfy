/**
 Any sequence of runs of the downloader over one symbol file (scripts/backtest/download_thetadata_symbol.py):
 each step stores a planned day or records a retried piece, and a transaction that fails leaves the file as it was.
 */
module DownloaderRuns {
  import opened Wrappers
  import opened SliceKeys
  import opened FlatPart
  import opened SliceTables
  import opened FileState
  import opened FileInvariant
  import opened FileRuns
  import opened Weekdays

  // ---------------------------------------------------------------------------------------
  // Which days are planned

  lemma OneDayBack(day: int)
    requires !Weekday(day)
    ensures (day + 2) % 7 == (day + 3) % 7 - 1
  {}

  /** The last session finished: today's once it is 18:00 in New York on a weekday, else the weekday before. */
  method LastFinishedSession(today: int, sessionFinished: bool) returns (last: int)
    ensures Weekday(last)
    ensures last < today || (last == today && sessionFinished)
    ensures forall day :: last < day && Weekday(day) ==> day > today || (day == today && !sessionFinished)
  {
    if Weekday(today) && sessionFinished {
      return today;
    }
    last := today - 1;
    hide Weekday;
    while !Weekday(last)
      invariant last < today
      invariant forall day :: last < day < today ==> !Weekday(day)
      decreases (last + 3) % 7
    {
      OneDayBack(last);
      last := last - 1;
    }
  }

  /** The weekdays from one day to another. */
  function WeekdaysBetween(first: int, last: int): (days: seq<int>)
    ensures forall day :: day in days <==> first <= day <= last && Weekday(day)
    ensures forall i :: 0 <= i < |days| ==> days[i] <= last
    ensures Ascending(days)
    decreases last - first
  {
    if last < first then [] else
    var before := WeekdaysBetween(first, last - 1);
    if Weekday(last) then before + [last] else before
  }

  /** The plans of the days that are not done, in order. */
  function PlansOf(file: File, days: seq<int>): (plans: seq<DayPlan>)
    ensures forall plan :: plan in plans <==> plan.day in days && PlanOf(file, plan.day) == Some(plan)
  {
    if days == [] then [] else
    var before := PlansOf(file, days[..|days| - 1]);
    var plan := PlanOf(file, days[|days| - 1]);
    if plan.Some? then before + [plan.value] else before
  }

  lemma PlanDaysStep(file: File, days: seq<int>, day: int)
    ensures PlansOf(file, days + [day]) == PlansOf(file, days) + if PlanOf(file, day).Some? then [PlanOf(file, day).value] else []
  {
    assert (days + [day])[..|days|] == days;
  }

  lemma NothingInRange(file: File, first: int)
    ensures WeekdaysBetween(first, first - 1) == [] && PlansOf(file, []) == []
  {}

  lemma WeekdaysStep(first: int, day: int)
    requires first <= day
    ensures WeekdaysBetween(first, day) == WeekdaysBetween(first, day - 1) + if Weekday(day) then [day] else []
  {}

  /** plan_days: every weekday in range, and the plan of each that is not done. */
  method PlanDays(file: File, first: int, end: int, today: int, sessionFinished: bool) returns (inRange: seq<int>, plans: seq<DayPlan>)
    ensures forall day :: day in inRange <==>
      first <= day <= end && Weekday(day) && (day < today || (day == today && sessionFinished))
    ensures Ascending(inRange)
    ensures plans == PlansOf(file, inRange)
  {
    hide PlansOf, WeekdaysBetween, Weekday, Ascending, PlanOf;
    var lastSession := LastFinishedSession(today, sessionFinished);
    var last := if end <= lastSession then end else lastSession;
    inRange, plans := [], [];
    var day := first;
    NothingInRange(file, first);
    while day <= last
      invariant first <= day && (day <= last + 1 || day == first)
      invariant inRange == WeekdaysBetween(first, day - 1)
      invariant plans == PlansOf(file, inRange)
      decreases last - day
    {
      WeekdaysStep(first, day);
      if Weekday(day) {
        PlanDaysStep(file, inRange, day);
        inRange := inRange + [day];
        var plan := PlanOf(file, day);
        if plan.Some? {
          plans := plans + [plan.value];
        }
      }
      day := day + 1;
    }
  }

  predicate IsPlanned(plans: seq<DayPlan>, day: int) {
    exists k :: 0 <= k < |plans| && plans[k].day == day
  }

  /** read_day_issues_to_retry: each listed piece in range with runs left, of a complete day this run does not fetch, once. */
  method ReadDayIssuesToRetry(file: File, first: int, last: int, plans: seq<DayPlan>) returns (pieces: seq<Piece>)
    ensures forall piece :: piece in pieces <==> ToRetry(file, piece) && first <= piece.day <= last && !IsPlanned(plans, piece.day)
    ensures forall i, j :: 0 <= i < j < |pieces| ==> pieces[i] != pieces[j]
  {
    hide Attempts, IsPlanned;
    pieces := [];
    for i := 0 to |file.issues|
      invariant forall piece :: piece in pieces <==>
                  ListedBefore(file.issues, i, piece) && ToRetry(file, piece) && first <= piece.day <= last && !IsPlanned(plans, piece.day)
      invariant forall k, j :: 0 <= k < j < |pieces| ==> pieces[k] != pieces[j]
    {
      var piece := file.issues[i].piece;
      if ToRetry(file, piece) && first <= piece.day <= last && !IsPlanned(plans, piece.day) && piece !in pieces {
        pieces := pieces + [piece];
      }
    }
    forall piece: Piece | ToRetry(file, piece)
      ensures ListedBefore(file.issues, |file.issues|, piece)
    {
      AttemptsMeanListed(file.issues, piece);
    }
  }

  predicate ListedBefore(issues: seq<IssueRow>, n: nat, piece: Piece)
    requires n <= |issues|
  {
    exists k :: 0 <= k < n && issues[k].piece == piece
  }

  /** Of a planned range's days, a piece is asked for again only when the day is done. */
  lemma RetriedPiecesAreOfDoneDays(file: File, days: seq<int>, piece: Piece)
    requires ToRetry(file, piece) && piece.day in days && !IsPlanned(PlansOf(file, days), piece.day)
    ensures PlanOf(file, piece.day) == None && Done(file, piece.day)
  {
    hide Attempts;
    PlannedUnlessDone(file, piece.day);
    PlansHoldTheDay(file, days, piece.day);
  }

  lemma PlansHoldTheDay(file: File, days: seq<int>, day: int)
    requires day in days
    ensures PlanOf(file, day).Some? ==> IsPlanned(PlansOf(file, days), day)
  {
    if PlanOf(file, day).Some? {
      var plan := PlanOf(file, day).value;
      assert plan in PlansOf(file, days);
    }
  }

  // ---------------------------------------------------------------------------------------
  // Steps of runs

  datatype Step =
    | StoreStep(day: int, results: DayResults, options: StoreOptions)
    | RetryStep(piece: Piece, rows: seq<KeyedRow>, failed: bool, atTheMoney: Option<real>)

  /** A run stores a day only when it is planned, and asks again only for a listed piece of a day that is not. */
  predicate Enabled(file: File, step: Step) {
    match step
    case StoreStep(day, results, _) => PlanOf(file, day).Some? && ResultsOfDay(results, day)
    case RetryStep(piece, rows, _, _) => ToRetry(file, piece) && PlanOf(file, piece.day).None? && RowsOfDay(rows, piece.day)
  }

  /** The file after a step: a transaction that fails is rolled back. */
  ghost function After(file: File, step: Step): File
    requires Enabled(file, step)
  {
    match step
    case StoreStep(day, results, options) =>
      (match StoreDay(file, PlanOf(file, day).value, results, options)
       case Ok(stored) => stored.0
       case Err(_) => file)
    case RetryStep(piece, rows, failed, atTheMoney) =>
      (match StoreRetry(file, piece, rows, failed, atTheMoney)
       case Ok(retried) => retried
       case Err(_) => file)
  }

  ghost predicate IsRun(file: File, steps: seq<Step>)
    decreases |steps|
  {
    steps != [] ==> Enabled(file, steps[0]) && IsRun(After(file, steps[0]), steps[1..])
  }

  ghost function FileAfter(file: File, steps: seq<Step>): File
    requires IsRun(file, steps)
    decreases |steps|
  {
    if steps == [] then file else FileAfter(After(file, steps[0]), steps[1..])
  }

  // ---------------------------------------------------------------------------------------
  // What a retried piece changes

  /** The two files agree on every flag; only counts, rows and issues may differ. */
  ghost predicate SameFlags(a: File, b: File) {
    && a.days.Keys == b.days.Keys && (forall day :: day in a.days ==> SameDayFlags(a.days[day], b.days[day]))
    && a.intradayDays.Keys == b.intradayDays.Keys
    && (forall day :: day in a.intradayDays ==> a.intradayDays[day].allExpiries == b.intradayDays[day].allExpiries)
    && a.unavailable == b.unavailable
  }

  predicate SameDayFlags(a: DayRow, b: DayRow) {
    a.complete == b.complete && a.allExpiries == b.allExpiries
  }

  lemma IntradayCountedFlags(file: File, merged: FlatRows, day: int)
    requires day in file.intradayDays
    ensures var counted := IntradayCounted(file.(intraday := merged), day, false);
            SameFlags(file, counted) && counted.issues == file.issues && RowsOf(counted, IntradayQuotes) == merged
            && counted.quotes == file.quotes && counted.endOfDay == file.endOfDay && counted.openInterest == file.openInterest
  {
    hide DayRows, DayLooks;
  }

  lemma DayCountedFlags(file: File, merged: FlatRows, part: Part, day: int)
    ensures var counted := DayCounted(WithRows(file, part, merged), part, day);
            SameFlags(file, counted) && counted.issues == file.issues
            && forall other: Part :: RowsOf(counted, other) == RowsOf(WithRows(file, part, merged), other)
  {
    hide DayCounted, WithRows, RowsOf, SameFlags;
    RowsAside(file, part, merged);
    CountAside(WithRows(file, part, merged), part, day);
    FlagsFrom(file, WithRows(file, part, merged), DayCounted(WithRows(file, part, merged), part, day));
  }

  lemma RowsAside(file: File, part: Part, rows: FlatRows)
    ensures var after := WithRows(file, part, rows);
            after.days == file.days && after.intradayDays == file.intradayDays && after.unavailable == file.unavailable && after.issues == file.issues
  {}

  lemma CountAside(file: File, part: Part, day: int)
    ensures var counted := DayCounted(file, part, day);
            SameFlags(file, counted) && counted.issues == file.issues && forall other: Part :: RowsOf(counted, other) == RowsOf(file, other)
  {
    hide DayRows;
  }

  lemma FlagsFrom(a: File, same: File, b: File)
    requires same.days == a.days && same.intradayDays == a.intradayDays && same.unavailable == a.unavailable && SameFlags(same, b)
    ensures SameFlags(a, b)
  {}

  /** What a retry that brings rows, or the end of an expiration, makes of the file before its issue is deleted. */
  ghost function Retried(file: File, piece: Piece, rows: seq<KeyedRow>, atTheMoney: Option<real>): File
    requires RowsOfDay(rows, piece.day) && (piece.part == IntradayQuotes ==> piece.day in file.intradayDays)
  {
    if piece.part == IntradayQuotes then
      IntradayCounted(file.(intraday := Merged(file.intraday, KeptInWindow(rows, file.intradayDays[piece.day].window, atTheMoney).0, Replace)), piece.day, false)
    else DayCounted(WithRows(file, piece.part, Merged(RowsOf(file, piece.part), rows, Replace)), piece.part, piece.day)
  }

  lemma StoreRetryIs(file: File, piece: Piece, rows: seq<KeyedRow>, failed: bool, atTheMoney: Option<real>)
    requires RowsOfDay(rows, piece.day) && StoreRetry(file, piece, rows, failed, atTheMoney).Ok?
    ensures var after := StoreRetry(file, piece, rows, failed, atTheMoney).value;
            if failed || (rows == [] && piece.expiry.None?) then after == file.(issues := Attempted(file.issues, piece))
            else (piece.part == IntradayQuotes ==> piece.day in file.intradayDays)
                 && after == Retried(file, piece, rows, atTheMoney).(issues := WithoutPiece(Retried(file, piece, rows, atTheMoney).issues, piece))
  {
    hide Merged, KeptInWindow, IntradayCounted, DayCounted, WithRows, WithoutPiece, Attempted;
  }

  lemma RetriedKeeps(file: File, piece: Piece, rows: seq<KeyedRow>, atTheMoney: Option<real>)
    requires RowsOfDay(rows, piece.day) && (piece.part == IntradayQuotes ==> piece.day in file.intradayDays)
    ensures var retried := Retried(file, piece, rows, atTheMoney);
            SameFlags(file, retried) && retried.issues == file.issues && KeysGrow(file, retried)
  {
    hide Merged, KeptInWindow, IntradayCounted, DayCounted, WithRows, SameFlags;
    var retried := Retried(file, piece, rows, atTheMoney);
    if piece.part == IntradayQuotes {
      var kept := KeptInWindow(rows, file.intradayDays[piece.day].window, atTheMoney).0;
      ReplacedKeepsKeys(file.intraday, kept);
      IntradayCountedFlags(file, Merged(file.intraday, kept, Replace), piece.day);
    } else {
      ReplacedKeepsKeys(RowsOf(file, piece.part), rows);
      DayCountedFlags(file, Merged(RowsOf(file, piece.part), rows, Replace), piece.part, piece.day);
    }
  }

  lemma FlagsAside(a: File, b: File, issues: seq<IssueRow>)
    requires SameFlags(a, b)
    ensures SameFlags(a, b.(issues := issues))
  {}

  lemma KeysAside(a: File, b: File, issues: seq<IssueRow>)
    requires KeysGrow(a, b)
    ensures KeysGrow(a, b.(issues := issues))
  {
    forall part: Part
      ensures RowsOf(a, part).Keys <= RowsOf(b.(issues := issues), part).Keys
    {
      assert RowsOf(a, part).Keys <= RowsOf(b, part).Keys;
    }
  }

  /** A recorded retry changes no flag and loses no contract; it settles its own issue, or counts one more attempt. */
  lemma RetryKeeps(file: File, piece: Piece, rows: seq<KeyedRow>, failed: bool, atTheMoney: Option<real>)
    requires RowsOfDay(rows, piece.day) && StoreRetry(file, piece, rows, failed, atTheMoney).Ok?
    ensures var after := StoreRetry(file, piece, rows, failed, atTheMoney).value;
            && SameFlags(file, after) && KeysGrow(file, after)
            && after.issues == (if failed || (rows == [] && piece.expiry.None?) then Attempted(file.issues, piece) else WithoutPiece(file.issues, piece))
  {
    hide StoreRetry, Retried, WithoutPiece, Attempted, RowsOfDay, SameFlags, KeysGrow;
    StoreRetryIs(file, piece, rows, failed, atTheMoney);
    if failed || (rows == [] && piece.expiry.None?) {
      EverythingGrows(file);
      FlagsAside(file, file, Attempted(file.issues, piece));
      KeysAside(file, file, Attempted(file.issues, piece));
    } else {
      var retried := Retried(file, piece, rows, atTheMoney);
      RetriedKeeps(file, piece, rows, atTheMoney);
      FlagsAside(file, retried, WithoutPiece(retried.issues, piece));
      KeysAside(file, retried, WithoutPiece(retried.issues, piece));
    }
  }

  lemma RetryAttempts(file: File, retried: Piece, rows: seq<KeyedRow>, failed: bool, atTheMoney: Option<real>, piece: Piece)
    requires RowsOfDay(rows, retried.day) && StoreRetry(file, retried, rows, failed, atTheMoney).Ok? && ToRetry(file, retried)
    ensures var after := Attempts(StoreRetry(file, retried, rows, failed, atTheMoney).value.issues, piece);
            after == if piece != retried then Attempts(file.issues, piece)
                     else if failed || (rows == [] && piece.expiry.None?) then Attempts(file.issues, piece) + 1 else 0
  {
    hide StoreRetry, Attempts, Attempted, WithoutPiece, RowsOfDay;
    RetryKeeps(file, retried, rows, failed, atTheMoney);
    AttemptsMeanListed(file.issues, retried);
    AttemptedOnce(file.issues, retried, piece);
    WithoutPieceAttempts(file.issues, retried, piece);
  }

  /** A retry of a done, complete day is never rolled back for a missing row. */
  lemma RetrySucceeds(file: File, piece: Piece, rows: seq<KeyedRow>, failed: bool, atTheMoney: Option<real>)
    requires RowsOfDay(rows, piece.day) && ToRetry(file, piece) && Done(file, piece.day)
    ensures StoreRetry(file, piece, rows, failed, atTheMoney).Ok?
  {
    hide Merged, KeptInWindow, DayRows, DayLooks, WithoutPiece, Attempted, RowsOfDay;
  }

  lemma DoneByFlags(a: File, b: File, day: int)
    requires SameFlags(a, b)
    ensures Done(a, day) <==> Done(b, day)
  {}

  lemma UnavailableByFlags(a: File, b: File)
    requires SameFlags(a, b)
    ensures a.unavailable == b.unavailable
  {}

  /** Every stored contract is still stored. */
  ghost predicate KeysGrow(a: File, b: File) {
    forall part: Part :: RowsOf(a, part).Keys <= RowsOf(b, part).Keys
  }

  lemma GrowsKeys(a: File, b: File)
    requires Grows(a, b)
    ensures KeysGrow(a, b)
  {}

  lemma ReplacedKeepsKeys(flat: FlatRows, rows: seq<KeyedRow>)
    requires ContractRows(rows)
    ensures flat.Keys <= Merged(flat, rows, Replace).Keys
  {
    forall rowKey | rowKey in flat
      ensures rowKey in Merged(flat, rows, Replace)
    {
      assert MergedAt(flat, rows, Replace, rowKey).Some?;
    }
  }

  // ---------------------------------------------------------------------------------------
  // One step

  /** What every file a run leaves has: consistent tables, and unavailable days that are still to be done. */
  ghost predicate Invariant(file: File) {
    Consistent(file) && forall day :: day in file.unavailable ==> !Done(file, day)
  }

  lemma DoneByRecords(a: File, b: File, day: int)
    requires SameRecords(a, b, day)
    ensures Done(a, day) <==> Done(b, day)
    ensures day in a.unavailable <==> day in b.unavailable
  {
    hide Attempts;
  }

  lemma StepKeepsInvariant(file: File, step: Step)
    requires Invariant(file) && Enabled(file, step)
    ensures Invariant(After(file, step))
  {
    hide StoreDay, StoreRetry, Consistent, Done, PlanOf, ResultsOfDay, RowsOfDay, SameRecords, Attempts, SameFlags, KeysGrow, Grows;
    var after := After(file, step);
    match step
    case StoreStep(day, results, options) =>
      var plan := PlanOf(file, day).value;
      if StoreDay(file, plan, results, options).Ok? {
        StoreDayConsistent(file, plan, results, options);
        ReportedDoneIsDone(file, plan, results, options);
        forall other | other in after.unavailable
          ensures !Done(after, other)
        {
          if other != day {
            StoreDayRecords(file, plan, results, options, other);
            DoneByRecords(file, after, other);
          }
        }
      }
    case RetryStep(piece, rows, failed, atTheMoney) =>
      if StoreRetry(file, piece, rows, failed, atTheMoney).Ok? {
        StoreRetryConsistent(file, piece, rows, failed, atTheMoney);
        RetryKeeps(file, piece, rows, failed, atTheMoney);
        forall other | other in after.unavailable
          ensures !Done(after, other)
        {
          UnavailableByFlags(file, after);
          DoneByFlags(file, after, other);
        }
      }
  }

  lemma StepKeepsDone(file: File, step: Step, day: int)
    requires Invariant(file) && Enabled(file, step) && Done(file, day)
    ensures Done(After(file, step), day) && !(step.StoreStep? && step.day == day)
  {
    hide StoreDay, StoreRetry, Consistent, Done, PlanOf, ResultsOfDay, RowsOfDay, SameRecords, Attempts, SameFlags, KeysGrow, Grows;
    PlannedUnlessDone(file, day);
    match step
    case StoreStep(stored, results, options) =>
      var plan := PlanOf(file, stored).value;
      if StoreDay(file, plan, results, options).Ok? {
        StoreDayRecords(file, plan, results, options, day);
        DoneByRecords(file, After(file, step), day);
      }
    case RetryStep(piece, rows, failed, atTheMoney) =>
      if StoreRetry(file, piece, rows, failed, atTheMoney).Ok? {
        RetryKeeps(file, piece, rows, failed, atTheMoney);
        DoneByFlags(file, After(file, step), day);
      }
  }

  lemma StepKeepsKeys(file: File, step: Step)
    requires Invariant(file) && Enabled(file, step)
    ensures KeysGrow(file, After(file, step))
    ensures step.StoreStep? ==> Grows(file, After(file, step))
  {
    hide StoreDay, StoreRetry, Consistent, Done, PlanOf, ResultsOfDay, RowsOfDay, SameRecords, Attempts, SameFlags, KeysGrow, Grows;
    EverythingGrows(file);
    match step
    case StoreStep(day, results, options) =>
      var plan := PlanOf(file, day).value;
      if StoreDay(file, plan, results, options).Ok? {
        StoreDayGrows(file, plan, results, options);
      }
      GrowsKeys(file, After(file, step));
    case RetryStep(piece, rows, failed, atTheMoney) =>
      if StoreRetry(file, piece, rows, failed, atTheMoney).Ok? {
        RetryKeeps(file, piece, rows, failed, atTheMoney);
      }
  }

  /** A step spends a piece's runs exactly when it asks for the piece, and never of a done day otherwise. */
  lemma StepSpendsBudget(file: File, step: Step, piece: Piece)
    requires Invariant(file) && Enabled(file, step) && Done(file, piece.day)
    ensures Budget(After(file, step), piece) + (if step.RetryStep? && step.piece == piece then 1 else 0) <= Budget(file, piece)
  {
    hide StoreDay, StoreRetry, Consistent, Done, PlanOf, ResultsOfDay, RowsOfDay, Attempts;
    PlannedUnlessDone(file, piece.day);
    match step
    case StoreStep(stored, results, options) =>
      var plan := PlanOf(file, stored).value;
      if StoreDay(file, plan, results, options).Ok? {
        StoreDayRecords(file, plan, results, options, piece.day);
      }
    case RetryStep(retried, rows, failed, atTheMoney) =>
      PlannedUnlessDone(file, retried.day);
      RetrySucceeds(file, retried, rows, failed, atTheMoney);
      RetryAttempts(file, retried, rows, failed, atTheMoney, piece);
  }

  // ---------------------------------------------------------------------------------------
  // A run planned once

  /** No day is stored twice and no piece is asked for twice. */
  predicate Apart(a: Step, b: Step) {
    && (a.StoreStep? && b.StoreStep? ==> a.day != b.day)
    && (a.RetryStep? && b.RetryStep? ==> a.piece != b.piece)
  }

  /** What one run does: its days and pieces are those planned and listed when it begins, each once. */
  predicate PlannedAtOnce(file: File, steps: seq<Step>) {
    (forall i :: 0 <= i < |steps| ==> Enabled(file, steps[i])) && forall i, j :: 0 <= i < j < |steps| ==> Apart(steps[i], steps[j])
  }

  lemma PlanByRecords(a: File, b: File, day: int)
    requires SameRecords(a, b, day)
    ensures PlanOf(a, day) == PlanOf(b, day)
    ensures forall piece: Piece :: piece.day == day ==> (ToRetry(a, piece) <==> ToRetry(b, piece))
  {
    hide Attempts;
  }

  lemma PlanByFlags(a: File, b: File, day: int)
    requires SameFlags(a, b)
    ensures PlanOf(a, day) == PlanOf(b, day)
  {}

  lemma ToRetryByAttempts(a: File, b: File, piece: Piece)
    requires SameFlags(a, b) && Attempts(a.issues, piece) == Attempts(b.issues, piece)
    ensures ToRetry(a, piece) <==> ToRetry(b, piece)
  {
    hide Attempts;
  }

  /** A step leaves every other planned day's plan, and every other listed piece, as they were. */
  lemma StepKeepsPlans(file: File, step: Step, other: Step)
    requires Enabled(file, step) && Enabled(file, other) && Apart(step, other)
    ensures Enabled(After(file, step), other)
    ensures other.StoreStep? ==> PlanOf(After(file, step), other.day) == PlanOf(file, other.day)
  {
    hide StoreDay, StoreRetry, PlanOf, ResultsOfDay, RowsOfDay, SameRecords, Attempts, ToRetry, SameFlags, KeysGrow;
    match step
    case StoreStep(day, results, options) =>
      var plan := PlanOf(file, day).value;
      if StoreDay(file, plan, results, options).Ok? {
        var otherDay := if other.StoreStep? then other.day else other.piece.day;
        StoreDayRecords(file, plan, results, options, otherDay);
        PlanByRecords(file, After(file, step), otherDay);
      }
    case RetryStep(piece, rows, failed, atTheMoney) =>
      if StoreRetry(file, piece, rows, failed, atTheMoney).Ok? {
        RetryKeeps(file, piece, rows, failed, atTheMoney);
        PlanByFlags(file, After(file, step), if other.StoreStep? then other.day else other.piece.day);
        if other.RetryStep? {
          RetryAttempts(file, piece, rows, failed, atTheMoney, other.piece);
          ToRetryByAttempts(file, After(file, step), other.piece);
        }
      }
  }

  /** What is planned when a run begins is still so when it is reached: such steps, in any order, are a run. */
  lemma {:induction false} PlannedAtOnceIsARun(file: File, steps: seq<Step>)
    requires PlannedAtOnce(file, steps)
    ensures IsRun(file, steps)
    decreases |steps|
  {
    hide Enabled, Apart, After;
    if steps != [] {
      forall i | 0 <= i < |steps[1..]|
        ensures Enabled(After(file, steps[0]), steps[1..][i])
      {
        StepKeepsPlans(file, steps[0], steps[i + 1]);
      }
      PlannedAtOnceIsARun(After(file, steps[0]), steps[1..]);
    }
  }

  // ---------------------------------------------------------------------------------------
  // Whole runs

  /** Every file reached from an invariant one, the empty file included, keeps the invariant. */
  lemma {:induction false} RunKeepsInvariant(file: File, steps: seq<Step>)
    requires Invariant(file) && IsRun(file, steps)
    ensures Invariant(FileAfter(file, steps))
    decreases |steps|
  {
    hide Invariant, After, Enabled;
    if steps != [] {
      StepKeepsInvariant(file, steps[0]);
      RunKeepsInvariant(After(file, steps[0]), steps[1..]);
    }
  }

  lemma EmptyFileInvariant()
    ensures Invariant(EMPTY_FILE)
  {
    forall day, part: Part
      ensures DayKeys(RowsOf(EMPTY_FILE, part), day) == {}
    {}
  }

  /** What the tables say after any run from an empty file. */
  lemma RunFromEmpty(steps: seq<Step>, day: int)
    requires IsRun(EMPTY_FILE, steps)
    ensures var file := FileAfter(EMPTY_FILE, steps);
            && DayConsistent(file, day)
            && (day in file.unavailable ==> PlanOf(file, day).Some?)
  {
    EmptyFileInvariant();
    RunKeepsInvariant(EMPTY_FILE, steps);
    PlannedUnlessDone(FileAfter(EMPTY_FILE, steps), day);
  }

  /** A done day stays done, and no later step stores it. */
  lemma {:induction false} DoneStaysDone(file: File, steps: seq<Step>, day: int)
    requires Invariant(file) && IsRun(file, steps) && Done(file, day)
    ensures Done(FileAfter(file, steps), day)
    ensures forall i :: 0 <= i < |steps| && steps[i].StoreStep? ==> steps[i].day != day
    decreases |steps|
  {
    hide Invariant, After, Enabled, Done;
    if steps != [] {
      StepKeepsInvariant(file, steps[0]);
      StepKeepsDone(file, steps[0], day);
      DoneStaysDone(After(file, steps[0]), steps[1..], day);
    }
  }

  /** No stored contract is ever lost; runs that only store days change no stored value either. */
  lemma {:induction false} RunLosesNothing(file: File, steps: seq<Step>)
    requires Invariant(file) && IsRun(file, steps)
    ensures KeysGrow(file, FileAfter(file, steps))
    ensures (forall i :: 0 <= i < |steps| ==> steps[i].StoreStep?) ==> Grows(file, FileAfter(file, steps))
    decreases |steps|
  {
    hide Invariant, After, Enabled, Grows, KeysGrow;
    if steps != [] {
      var next := After(file, steps[0]);
      StepKeepsInvariant(file, steps[0]);
      StepKeepsKeys(file, steps[0]);
      RunLosesNothing(next, steps[1..]);
      KeysGrowTransitively(file, next, FileAfter(file, steps));
      if forall i :: 0 <= i < |steps| ==> steps[i].StoreStep? {
        GrowsTransitively(file, next, FileAfter(file, steps));
      }
    } else {
      EverythingGrows(file);
    }
  }

  lemma KeysGrowTransitively(a: File, b: File, c: File)
    requires KeysGrow(a, b) && KeysGrow(b, c)
    ensures KeysGrow(a, c)
  {
    forall part: Part
      ensures RowsOf(a, part).Keys <= RowsOf(c, part).Keys
    {
      assert RowsOf(a, part).Keys <= RowsOf(b, part).Keys;
    }
  }

  lemma EverythingGrows(file: File)
    ensures KeysGrow(file, file) && Grows(file, file) && SameFlags(file, file)
  {}

  /** How often a run asks again for a piece. */
  function Retries(steps: seq<Step>, piece: Piece): nat {
    if steps == [] then 0 else
    (if steps[0].RetryStep? && steps[0].piece == piece then 1 else 0) + Retries(steps[1..], piece)
  }

  /** A piece is asked for again at most three times, and no more often than its attempts so far leave room for. */
  lemma {:induction false} RetriesWithinBudget(file: File, steps: seq<Step>, piece: Piece)
    requires Invariant(file) && IsRun(file, steps)
    ensures Retries(steps, piece) <= 3
    ensures Done(file, piece.day) ==> Retries(steps, piece) + Budget(FileAfter(file, steps), piece) <= Budget(file, piece)
    decreases |steps|
  {
    hide Invariant, After, Done, ToRetry, Attempts, PlanOf, ResultsOfDay, RowsOfDay;
    if steps != [] {
      StepKeepsInvariant(file, steps[0]);
      RetriesWithinBudget(After(file, steps[0]), steps[1..], piece);
      PlannedUnlessDone(file, piece.day);
      if Done(file, piece.day) {
        StepKeepsDone(file, steps[0], piece.day);
        StepSpendsBudget(file, steps[0], piece);
      }
    }
  }

  /** Every request for the piece fails, or finds the whole part still without data. */
  predicate NeverBrings(steps: seq<Step>, piece: Piece) {
    forall i :: 0 <= i < |steps| && steps[i].RetryStep? && steps[i].piece == piece ==> steps[i].failed || (steps[i].rows == [] && piece.expiry.None?)
  }

  lemma StepCountsAttempt(file: File, step: Step, piece: Piece)
    requires Invariant(file) && Enabled(file, step) && Done(file, piece.day) && file.days[piece.day].complete && NeverBrings([step], piece)
    ensures var after := After(file, step);
            && Done(after, piece.day) && after.days[piece.day].complete
            && Attempts(after.issues, piece) == Attempts(file.issues, piece) + if step.RetryStep? && step.piece == piece then 1 else 0
  {
    StepKeepsDone(file, step, piece.day);
    assert step == [step][0];
    match step
    case StoreStep(stored, results, options) =>
      hide StoreDay, Invariant, Done, PlanOf, ResultsOfDay, Attempts;
      var plan := PlanOf(file, stored).value;
      if StoreDay(file, plan, results, options).Ok? {
        StoredAside(file, plan, results, options, piece);
      }
    case RetryStep(retried, rows, failed, atTheMoney) =>
      hide StoreRetry, Invariant, RowsOfDay, Attempts, ToRetry;
      if StoreRetry(file, retried, rows, failed, atTheMoney).Ok? {
        RetryKeeps(file, retried, rows, failed, atTheMoney);
        RetryAttempts(file, retried, rows, failed, atTheMoney, piece);
      } else if retried == piece {
        RetrySucceeds(file, retried, rows, failed, atTheMoney);
      }
  }

  lemma StoredAside(file: File, plan: DayPlan, results: DayResults, options: StoreOptions, piece: Piece)
    requires Invariant(file) && ResultsOfDay(results, plan.day) && StoreDay(file, plan, results, options).Ok? && piece.day != plan.day && PlanOf(file, plan.day) == Some(plan)
    ensures SameRecords(file, StoreDay(file, plan, results, options).value.0, piece.day)
  {
    hide StoreDay, ResultsOfDay, PlanOf;
    StoreDayRecords(file, plan, results, options, piece.day);
  }

  /** Of a done day with data, a listed piece that no request brings counts every request for it, and is asked for again until there were three after the first. */
  lemma {:induction false} AskedForThreeTimes(file: File, steps: seq<Step>, piece: Piece)
    requires Invariant(file) && IsRun(file, steps) && Done(file, piece.day) && file.days[piece.day].complete && NeverBrings(steps, piece)
    ensures var after := FileAfter(file, steps);
            && Done(after, piece.day) && Attempts(after.issues, piece) == Attempts(file.issues, piece) + Retries(steps, piece)
            && (Attempts(file.issues, piece) >= 1 ==> (ToRetry(after, piece) <==> Attempts(file.issues, piece) + Retries(steps, piece) < 4))
    decreases |steps|
  {
    if steps != [] {
      hide Invariant, After, Done, Attempts, PlanOf, ResultsOfDay, RowsOfDay;
      StepKeepsInvariant(file, steps[0]);
      assert NeverBrings([steps[0]], piece) && NeverBrings(steps[1..], piece);
      StepCountsAttempt(file, steps[0], piece);
      AskedForThreeTimes(After(file, steps[0]), steps[1..], piece);
    }
  }
}
