/**
 The downloader's pass over its planned days (download_days in scripts/backtest/download_thetadata_symbol.py):
 days' requests queued ahead, days stored in date order, and the run ended when a part keeps failing whole.
 */
module DownloadDays {
  import opened Wrappers
  import opened SliceTables

  const DAYS_FETCHED_AHEAD: nat := 8
  const WHOLE_PART_FAILURES_THAT_STOP: nat := 3

  /** A day as its requests ended: the parts nothing was retrieved of, the others fetched, those stored with rows; whether it was done. */
  datatype FetchedDay = FetchedDay(failed: set<Part>, retrieved: set<Part>, stored: set<Part>, done: bool)

  /** What waiting for a day's requests brings; None when one ends the run. */
  type DayResult = Option<FetchedDay>

  datatype End = Completed | KeepsFailing | Cancelled | RequestEndedTheRun

  predicate Fetched(results: seq<DayResult>, n: nat) {
    n <= |results| && forall k :: 0 <= k < n ==> results[k].Some?
  }

  // ---------------------------------------------------------------------------------------
  // Failures in a row

  /** The parts the file holds data of to check ThetaData with, once the first `n` days are stored. */
  function ReferencesAfter(first: set<Part>, results: seq<DayResult>, n: nat): set<Part>
    requires Fetched(results, n)
  {
    if n == 0 then first else ReferencesAfter(first, results, n - 1) + results[n - 1].value.stored
  }

  /** In how many days in a row, of those that fetched it, the part failed whole with nothing to check ThetaData with. */
  function Streak(first: set<Part>, results: seq<DayResult>, part: Part, n: nat): nat
    requires Fetched(results, n)
  {
    if n == 0 then 0 else
    var day := results[n - 1].value;
    if part in day.failed && part !in ReferencesAfter(first, results, n - 1) then Streak(first, results, part, n - 1) + 1
    else if part in day.failed || part in day.retrieved then 0
    else Streak(first, results, part, n - 1)
  }

  ghost predicate StopsAt(first: set<Part>, results: seq<DayResult>, n: nat)
    requires Fetched(results, n)
  {
    exists part: Part :: Streak(first, results, part, n) >= WHOLE_PART_FAILURES_THAT_STOP
  }

  function DoneIn(results: seq<DayResult>, n: nat): nat
    requires Fetched(results, n)
  {
    if n == 0 then 0 else DoneIn(results, n - 1) + if results[n - 1].value.done then 1 else 0
  }

  // ---------------------------------------------------------------------------------------
  // Three whole failures in a row

  predicate Fails(results: seq<DayResult>, part: Part, m: nat)
    requires Fetched(results, m + 1)
  {
    part in results[m].value.failed
  }

  /** Nothing of the part is stored when day `m` comes: the file held none, and no earlier day stored any. */
  predicate Unchecked(first: set<Part>, results: seq<DayResult>, part: Part, m: nat)
    requires Fetched(results, m)
  {
    part !in first && forall j :: 0 <= j < m ==> part !in results[j].value.stored
  }

  /** From one day on every day that fetched the part failed it whole, with nothing stored to check with. */
  predicate OnlyFails(first: set<Part>, results: seq<DayResult>, part: Part, from: nat, n: nat)
    requires Fetched(results, n)
  {
    forall m :: from <= m < n && (Fails(results, part, m) || part in results[m].value.retrieved) ==> Fails(results, part, m) && Unchecked(first, results, part, m)
  }

  /** Days of failures in a row, up to the first `n` days' end. */
  predicate InARow(first: set<Part>, results: seq<DayResult>, part: Part, days: seq<nat>, n: nat)
    requires Fetched(results, n)
  {
    && (forall k :: 0 <= k < |days| ==> days[k] < n && Fails(results, part, days[k]))
    && (forall k, m :: 0 <= k < m < |days| ==> days[k] < days[m])
    && (days != [] ==> OnlyFails(first, results, part, days[0], n))
  }

  lemma {:induction false} ReferencesAre(first: set<Part>, results: seq<DayResult>, part: Part, m: nat)
    requires Fetched(results, m)
    ensures part !in ReferencesAfter(first, results, m) <==> Unchecked(first, results, part, m)
  {
    if m > 0 {
      ReferencesAre(first, results, part, m - 1);
    }
  }

  lemma OneMoreInARow(first: set<Part>, results: seq<DayResult>, part: Part, days: seq<nat>, n: nat)
    requires Fetched(results, n + 1) && InARow(first, results, part, days, n)
    ensures Fails(results, part, n) && Unchecked(first, results, part, n) ==> InARow(first, results, part, days + [n], n + 1)
    ensures !Fails(results, part, n) && part !in results[n].value.retrieved ==> InARow(first, results, part, days, n + 1)
  {
    hide Unchecked;
  }

  /** A streak's days. */
  lemma {:induction false} StreakDays(first: set<Part>, results: seq<DayResult>, part: Part, n: nat) returns (days: seq<nat>)
    requires Fetched(results, n)
    ensures InARow(first, results, part, days, n) && |days| == Streak(first, results, part, n)
  {
    hide InARow, Unchecked, ReferencesAfter;
    days := [];
    NoneInARow(first, results, part, n);
    if n > 0 {
      var before := StreakDays(first, results, part, n - 1);
      ReferencesAre(first, results, part, n - 1);
      OneMoreInARow(first, results, part, before, n - 1);
      if Fails(results, part, n - 1) {
        days := if Unchecked(first, results, part, n - 1) then before + [n - 1] else [];
      } else if part !in results[n - 1].value.retrieved {
        days := before;
      }
    }
  }

  lemma NoneInARow(first: set<Part>, results: seq<DayResult>, part: Part, n: nat)
    requires Fetched(results, n)
    ensures InARow(first, results, part, [], n)
  {}

  lemma OneLessInARow(first: set<Part>, results: seq<DayResult>, part: Part, days: seq<nat>, n: nat)
    requires Fetched(results, n + 1) && days != [] && InARow(first, results, part, days, n + 1)
    ensures if days[|days| - 1] == n then Fails(results, part, n) && Unchecked(first, results, part, n) && InARow(first, results, part, days[..|days| - 1], n)
            else InARow(first, results, part, days, n) && (Fails(results, part, n) ==> Unchecked(first, results, part, n)) && (part in results[n].value.retrieved ==> Fails(results, part, n))
  {
    hide Unchecked;
  }

  lemma {:induction false} NoLongerRow(first: set<Part>, results: seq<DayResult>, part: Part, days: seq<nat>, n: nat)
    requires Fetched(results, n) && InARow(first, results, part, days, n)
    ensures |days| <= Streak(first, results, part, n)
  {
    if days != [] {
      assert days[|days| - 1] < n;
      hide InARow, Unchecked, ReferencesAfter;
      OneLessInARow(first, results, part, days, n - 1);
      ReferencesAre(first, results, part, n - 1);
      NoLongerRow(first, results, part, if days[|days| - 1] == n - 1 then days[..|days| - 1] else days, n - 1);
    }
  }

  /** The run stops exactly when some part failed whole on three days, and on every day since the first of them that fetched it, with nothing of it stored to check with. */
  lemma StopsExactlyWhen(first: set<Part>, results: seq<DayResult>, n: nat)
    requires Fetched(results, n)
    ensures StopsAt(first, results, n) <==> exists part, days :: |days| == 3 && InARow(first, results, part, days, n)
  {
    hide Streak, InARow;
    if StopsAt(first, results, n) {
      var part: Part :| Streak(first, results, part, n) >= WHOLE_PART_FAILURES_THAT_STOP;
      var days := StreakDays(first, results, part, n);
      LastThree(first, results, part, days, n);
    }
    if part, days :| |days| == 3 && InARow(first, results, part, days, n) {
      NoLongerRow(first, results, part, days, n);
    }
  }

  lemma LastThree(first: set<Part>, results: seq<DayResult>, part: Part, days: seq<nat>, n: nat)
    requires Fetched(results, n) && InARow(first, results, part, days, n) && |days| >= 3
    ensures InARow(first, results, part, days[|days| - 3..], n)
  {}

  /** Once the file holds rows of a part, no later failure of it counts: its streak can only end. */
  lemma {:induction false} ReferencesEndStreaks(first: set<Part>, results: seq<DayResult>, part: Part, i: nat, n: nat)
    requires Fetched(results, n) && i <= n && part in ReferencesAfter(first, results, i)
    ensures part in ReferencesAfter(first, results, n) && Streak(first, results, part, n) <= Streak(first, results, part, i)
    decreases n
  {
    if i < n {
      ReferencesEndStreaks(first, results, part, i, n - 1);
    }
  }

  // ---------------------------------------------------------------------------------------
  // The pass

  datatype Counts = Counts(quotes: nat, endOfDay: nat, openInterest: nat, intraday: nat) {
    function Of(part: Part): nat {
      match part
      case Quotes => quotes
      case EndOfDay => endOfDay
      case OpenInterest => openInterest
      case IntradayQuotes => intraday
    }

    function With(part: Part, count: nat): Counts {
      match part
      case Quotes => this.(quotes := count)
      case EndOfDay => this.(endOfDay := count)
      case OpenInterest => this.(openInterest := count)
      case IntradayQuotes => this.(intraday := count)
    }

    predicate Stops() {
      quotes >= WHOLE_PART_FAILURES_THAT_STOP || endOfDay >= WHOLE_PART_FAILURES_THAT_STOP
      || openInterest >= WHOLE_PART_FAILURES_THAT_STOP || intraday >= WHOLE_PART_FAILURES_THAT_STOP
    }
  }

  ghost predicate StreaksAre(counts: Counts, first: set<Part>, results: seq<DayResult>, n: nat)
    requires Fetched(results, n)
  {
    forall part: Part :: counts.Of(part) == Streak(first, results, part, n)
  }

  /** A part's failures in a row with one more day. */
  function Counted(count: nat, part: Part, references: set<Part>, day: FetchedDay): nat {
    if part in day.failed && part !in references then count + 1 else if part in day.failed || part in day.retrieved then 0 else count
  }

  method CountFailures(counts: Counts, references: set<Part>, day: FetchedDay) returns (after: Counts)
    ensures forall part: Part :: after.Of(part) == Counted(counts.Of(part), part, references, day)
  {
    after := counts;
    var parts := [Quotes, EndOfDay, OpenInterest, IntradayQuotes];
    for i := 0 to 4
      invariant forall k :: i <= k < 4 ==> after.Of(parts[k]) == counts.Of(parts[k])
      invariant forall k :: 0 <= k < i ==> after.Of(parts[k]) == Counted(counts.Of(parts[k]), parts[k], references, day)
    {
      var part := parts[i];
      if part in day.failed && part !in references {
        after := after.With(part, after.Of(part) + 1);
      } else if part in day.failed || part in day.retrieved {
        after := after.With(part, 0);
      }
    }
    forall part: Part
      ensures after.Of(part) == Counted(counts.Of(part), part, references, day)
    {
      match part
      case Quotes => assert parts[0] == part;
      case EndOfDay => assert parts[1] == part;
      case OpenInterest => assert parts[2] == part;
      case IntradayQuotes => assert parts[3] == part;
    }
  }

  lemma StopsWhenAPartDoes(counts: Counts, first: set<Part>, results: seq<DayResult>, n: nat)
    requires Fetched(results, n) && StreaksAre(counts, first, results, n)
    ensures counts.Stops() <==> StopsAt(first, results, n)
  {
    hide Streak;
    if counts.Stops() {
      var part :=
        if counts.quotes >= WHOLE_PART_FAILURES_THAT_STOP then Quotes
        else if counts.endOfDay >= WHOLE_PART_FAILURES_THAT_STOP then EndOfDay
        else if counts.openInterest >= WHOLE_PART_FAILURES_THAT_STOP then OpenInterest else IntradayQuotes;
      assert Streak(first, results, part, n) == counts.Of(part);
    } else {
      forall part: Part
        ensures Streak(first, results, part, n) < WHOLE_PART_FAILURES_THAT_STOP
      {
        assert counts.Of(part) < WHOLE_PART_FAILURES_THAT_STOP;
      }
    }
  }

  /** A day after which the run goes on. */
  ghost predicate GoesOn(first: set<Part>, results: seq<DayResult>, stopAsked: seq<bool>, n: nat)
    requires Fetched(results, n) && 0 < n <= |stopAsked|
  {
    !StopsAt(first, results, n) && !stopAsked[n - 1]
  }

  predicate QueuedInTime(storedWhenQueued: seq<nat>) {
    forall k :: 0 <= k < |storedWhenQueued| ==> storedWhenQueued[k] <= k < storedWhenQueued[k] + 8
  }

  /** Days' requests queued while fewer than DAYS_FETCHED_AHEAD days' are. */
  method QueueAhead(waitingBefore: seq<DayResult>, inFlightBefore: seq<DayResult>, ghost stored: nat, ghost queuedBefore: seq<nat>)
    returns (waiting: seq<DayResult>, inFlight: seq<DayResult>, ghost storedWhenQueued: seq<nat>)
    requires |inFlightBefore| <= DAYS_FETCHED_AHEAD && |queuedBefore| == stored + |inFlightBefore| && QueuedInTime(queuedBefore)
    ensures inFlight + waiting == inFlightBefore + waitingBefore && |inFlight| <= DAYS_FETCHED_AHEAD && (inFlight == [] ==> waiting == [])
    ensures |storedWhenQueued| == stored + |inFlight| && QueuedInTime(storedWhenQueued)
  {
    waiting, inFlight, storedWhenQueued := waitingBefore, inFlightBefore, queuedBefore;
    while |waiting| > 0 && |inFlight| < DAYS_FETCHED_AHEAD
      invariant inFlight + waiting == inFlightBefore + waitingBefore && |inFlight| <= DAYS_FETCHED_AHEAD
      invariant |storedWhenQueued| == stored + |inFlight| && QueuedInTime(storedWhenQueued)
      decreases |waiting|
    {
      assert (inFlight + [waiting[0]]) + waiting[1..] == inFlight + waiting;
      inFlight, waiting, storedWhenQueued := inFlight + [waiting[0]], waiting[1..], storedWhenQueued + [stored];
    }
  }

  lemma NextInFlight(results: seq<DayResult>, stored: nat, inFlight: seq<DayResult>, waiting: seq<DayResult>)
    requires stored <= |results| && inFlight + waiting == results[stored..] && inFlight != []
    ensures stored < |results| && inFlight[0] == results[stored] && inFlight[1..] + waiting == results[stored + 1..]
  {
    assert inFlight[0] == (inFlight + waiting)[0];
    assert inFlight[1..] + waiting == (inFlight + waiting)[1..];
  }

  /**
   The planned days are stored in order: all of them, or up to the first one whose requests end the run,
   or that makes a part's third whole failure in a row, or after which a stop is asked for. A day's
   requests are queued only when at most seven days before it are still to be stored.
   */
  method DownloadAllDays(results: seq<DayResult>, stopAsked: seq<bool>, firstReferences: set<Part>, daysDoneBefore: nat)
    returns (daysDone: nat, end: End, stored: nat, ghost storedWhenQueued: seq<nat>)
    requires |stopAsked| == |results|
    ensures Fetched(results, stored) && daysDone == daysDoneBefore + DoneIn(results, stored)
    ensures forall k :: 0 < k < stored ==> GoesOn(firstReferences, results, stopAsked, k)
    ensures end == Completed ==> stored == |results| && (stored > 0 ==> GoesOn(firstReferences, results, stopAsked, stored))
    ensures end == KeepsFailing ==> stored > 0 && StopsAt(firstReferences, results, stored)
    ensures end == Cancelled ==> stored > 0 && !StopsAt(firstReferences, results, stored) && stopAsked[stored - 1]
    ensures end == RequestEndedTheRun ==> stored < |results| && results[stored].None? && (stored > 0 ==> GoesOn(firstReferences, results, stopAsked, stored))
    ensures QueuedInTime(storedWhenQueued)
  {
    hide QueuedInTime, StopsAt, Streak, Counts.Stops, Counts.Of, Counted, GoesOn, StreaksAre, ReferencesAfter, DoneIn;
    var waiting, inFlight := results, [];
    var references, failures := firstReferences, Counts(0, 0, 0, 0);
    daysDone, stored, storedWhenQueued := daysDoneBefore, 0, [];
    NoStreaksYet(firstReferences, results);
    NothingQueued();
    while |waiting| > 0 || |inFlight| > 0
      invariant Fetched(results, stored) && |inFlight| <= DAYS_FETCHED_AHEAD
      invariant inFlight + waiting == results[stored..] && |storedWhenQueued| == stored + |inFlight|
      invariant QueuedInTime(storedWhenQueued)
      invariant daysDone == daysDoneBefore + DoneIn(results, stored) && references == ReferencesAfter(firstReferences, results, stored)
      invariant StreaksAre(failures, firstReferences, results, stored)
      invariant forall k :: 0 < k <= stored ==> GoesOn(firstReferences, results, stopAsked, k)
      decreases |results| - stored
    {
      waiting, inFlight, storedWhenQueued := QueueAhead(waiting, inFlight, stored, storedWhenQueued);
      NextInFlight(results, stored, inFlight, waiting);
      var result := inFlight[0];
      inFlight := inFlight[1..];
      if result.None? {
        end := RequestEndedTheRun;
        return;
      }
      OneMoreStored(firstReferences, results, stored);
      ghost var before := failures;
      failures := CountFailures(failures, references, result.value);
      StreaksFollow(firstReferences, results, stored, before, failures);
      references := references + result.value.stored;
      stored := stored + 1;
      if result.value.done {
        daysDone := daysDone + 1;
      }
      StopsWhenAPartDoes(failures, firstReferences, results, stored);
      GoesOnWhen(firstReferences, results, stopAsked, stored);
      if failures.Stops() {
        end := KeepsFailing;
        return;
      }
      if stopAsked[|results| - |waiting| - |inFlight| - 1] {
        end := Cancelled;
        return;
      }
    }
    end := Completed;
  }

  lemma GoesOnWhen(first: set<Part>, results: seq<DayResult>, stopAsked: seq<bool>, n: nat)
    requires Fetched(results, n) && 0 < n <= |stopAsked|
    ensures GoesOn(first, results, stopAsked, n) <==> !StopsAt(first, results, n) && !stopAsked[n - 1]
  {}

  lemma NothingQueued()
    ensures QueuedInTime([])
  {}

  lemma OneMoreStored(first: set<Part>, results: seq<DayResult>, n: nat)
    requires n < |results| && Fetched(results, n) && results[n].Some?
    ensures Fetched(results, n + 1) && ReferencesAfter(first, results, n + 1) == ReferencesAfter(first, results, n) + results[n].value.stored
    ensures DoneIn(results, n + 1) == DoneIn(results, n) + if results[n].value.done then 1 else 0
  {}

  lemma NoStreaksYet(first: set<Part>, results: seq<DayResult>)
    ensures StreaksAre(Counts(0, 0, 0, 0), first, results, 0) && ReferencesAfter(first, results, 0) == first && DoneIn(results, 0) == 0
  {}

  lemma StreaksFollow(first: set<Part>, results: seq<DayResult>, n: nat, before: Counts, after: Counts)
    requires Fetched(results, n + 1) && StreaksAre(before, first, results, n)
    requires forall part: Part :: after.Of(part) == Counted(before.Of(part), part, ReferencesAfter(first, results, n), results[n].value)
    ensures StreaksAre(after, first, results, n + 1)
  {
    hide Counts.Of;
    forall part: Part
      ensures after.Of(part) == Streak(first, results, part, n + 1)
    {
      assert before.Of(part) == Streak(first, results, part, n);
    }
  }
}
