/** A book's nightly values, moves and P&L (loadBookDailySeries and bookPeriodPnl in src/books/bookDashboard.ts). */
module BookHistory {
  import opened Wrappers

  /** A night's value, and the moment it was captured. */
  datatype Snapshot = Snapshot(day: int, capturedAt: int, value: real)

  /** Cash moved into the book. */
  datatype Move = Move(amount: real, at: int)

  datatype Row = Row(day: int, value: real, movedIn: real, pnl: Option<real>)

  predicate InTimeOrder(snapshots: seq<Snapshot>) {
    forall i, j :: 0 <= i < j < |snapshots| ==> snapshots[i].capturedAt < snapshots[j].capturedAt
  }

  /** What moved after one moment and up to another. */
  function MovedBetween(moves: seq<Move>, after: int, upTo: int): real {
    if moves == [] then 0.0 else
    var last := moves[|moves| - 1];
    MovedBetween(moves[..|moves| - 1], after, upTo) + if after < last.at <= upTo then last.amount else 0.0
  }

  function RowOf(snapshots: seq<Snapshot>, moves: seq<Move>, i: nat): Row
    requires i < |snapshots|
  {
    var snapshot := snapshots[i];
    if i == 0 then Row(snapshot.day, snapshot.value, 0.0, None) else
    var moved := MovedBetween(moves, snapshots[i - 1].capturedAt, snapshot.capturedAt);
    Row(snapshot.day, snapshot.value, moved, Some(snapshot.value - snapshots[i - 1].value - moved))
  }

  function SeriesOf(snapshots: seq<Snapshot>, moves: seq<Move>): (series: seq<Row>)
    ensures |series| == |snapshots| && forall i :: 0 <= i < |snapshots| ==> series[i] == RowOf(snapshots, moves, i)
  {
    seq(|snapshots|, i requires 0 <= i < |snapshots| => RowOf(snapshots, moves, i))
  }

  /** The P&L of the rows from the `k`th on, the first row's being none. */
  function PnlFrom(series: seq<Row>, k: nat, n: nat): real
    requires n <= |series|
    decreases n
  {
    if n <= k then 0.0 else PnlFrom(series, k, n - 1) + if series[n - 1].pnl.Some? then series[n - 1].pnl.value else 0.0
  }

  function MovedFrom(series: seq<Row>, k: nat, n: nat): real
    requires n <= |series|
    decreases n
  {
    if n <= k then 0.0 else MovedFrom(series, k, n - 1) + series[n - 1].movedIn
  }

  /** From any night on: P&L and moves add up to what the book's value changed by. */
  lemma {:induction false} PnlTelescopes(snapshots: seq<Snapshot>, moves: seq<Move>, k: nat, n: nat)
    requires 0 < k <= n <= |snapshots|
    ensures PnlFrom(SeriesOf(snapshots, moves), k, n) + MovedFrom(SeriesOf(snapshots, moves), k, n) == snapshots[n - 1].value - snapshots[k - 1].value
    decreases n
  {
    hide MovedBetween;
    if n > k {
      PnlTelescopes(snapshots, moves, k, n - 1);
    }
  }

  /** The whole history: Σ daily P&L + Σ moved in = last value − first value. */
  lemma WholeHistory(snapshots: seq<Snapshot>, moves: seq<Move>)
    requires snapshots != []
    ensures var series := SeriesOf(snapshots, moves);
            PnlFrom(series, 0, |series|) + MovedFrom(series, 0, |series|) == snapshots[|snapshots| - 1].value - snapshots[0].value
  {
    PnlTelescopes(snapshots, moves, 1, |snapshots|);
    FirstRowIsNone(snapshots, moves, |snapshots|);
  }

  lemma {:induction false} FirstRowIsNone(snapshots: seq<Snapshot>, moves: seq<Move>, n: nat)
    requires 0 < n <= |snapshots|
    ensures PnlFrom(SeriesOf(snapshots, moves), 0, n) == PnlFrom(SeriesOf(snapshots, moves), 1, n)
    ensures MovedFrom(SeriesOf(snapshots, moves), 0, n) == MovedFrom(SeriesOf(snapshots, moves), 1, n)
  {
    hide MovedBetween;
    if n > 1 {
      FirstRowIsNone(snapshots, moves, n - 1);
    }
  }

  /** The night a move falls in: it is after the capture before, and up to the night's own. */
  predicate FallsIn(snapshots: seq<Snapshot>, move: Move, i: nat)
    requires 0 < i < |snapshots|
  {
    snapshots[i - 1].capturedAt < move.at <= snapshots[i].capturedAt
  }

  /** A move after the first capture and up to the last falls in exactly one night; any other falls in none. */
  lemma {:induction false} OneNightEach(snapshots: seq<Snapshot>, move: Move, n: nat)
    requires InTimeOrder(snapshots) && 0 < n <= |snapshots|
    ensures (exists i :: 0 < i < n && FallsIn(snapshots, move, i)) <==> snapshots[0].capturedAt < move.at <= snapshots[n - 1].capturedAt
    ensures forall i, j :: 0 < i < |snapshots| && 0 < j < |snapshots| && FallsIn(snapshots, move, i) && FallsIn(snapshots, move, j) ==> i == j
  {
    if n > 1 {
      OneNightEach(snapshots, move, n - 1);
      if FallsIn(snapshots, move, n - 1) {
        assert snapshots[0].capturedAt < move.at;
      }
    }
    forall i, j | 0 < i < j < |snapshots|
      ensures !(FallsIn(snapshots, move, i) && FallsIn(snapshots, move, j))
    {
      assert snapshots[i].capturedAt <= snapshots[j - 1].capturedAt;
    }
  }

  lemma {:induction false} MovedInParts(moves: seq<Move>, a: int, b: int, c: int)
    requires a <= b <= c
    ensures MovedBetween(moves, a, b) + MovedBetween(moves, b, c) == MovedBetween(moves, a, c)
  {
    if moves != [] {
      MovedInParts(moves[..|moves| - 1], a, b, c);
    }
  }

  /** The nights' moves are all moves after the first capture and up to the last, each once. */
  lemma {:induction false} EveryMoveOnce(snapshots: seq<Snapshot>, moves: seq<Move>, n: nat)
    requires InTimeOrder(snapshots) && 0 < n <= |snapshots|
    ensures MovedFrom(SeriesOf(snapshots, moves), 0, n) == MovedBetween(moves, snapshots[0].capturedAt, snapshots[n - 1].capturedAt)
  {
    hide MovedBetween;
    if n > 1 {
      EveryMoveOnce(snapshots, moves, n - 1);
      assert n - 2 == 0 || snapshots[0].capturedAt < snapshots[n - 2].capturedAt;
      MovedInParts(moves, snapshots[0].capturedAt, snapshots[n - 2].capturedAt, snapshots[n - 1].capturedAt);
    } else {
      NothingBetween(moves, snapshots[0].capturedAt);
    }
  }

  lemma {:induction false} NothingBetween(moves: seq<Move>, at: int)
    ensures MovedBetween(moves, at, at) == 0.0
  {
    if moves != [] {
      NothingBetween(moves[..|moves| - 1], at);
    }
  }

  /** The rows from the `first` one on are those on or after the day. */
  predicate StartsFrom(series: seq<Row>, start: int, first: nat) {
    first <= |series| && (forall i :: 0 <= i < first ==> series[i].day < start) && forall i :: first <= i < |series| ==> series[i].day >= start
  }

  /** bookPeriodPnl's sum from a day on: the P&L of the rows from the first one on or after it. */
  method PnlSince(series: seq<Row>, start: int) returns (sum: real)
    requires forall i, j :: 0 <= i < j < |series| ==> series[i].day < series[j].day
    ensures exists first :: StartsFrom(series, start, first) && sum == PnlFrom(series, first, |series|)
  {
    ghost var first := 0;
    sum := 0.0;
    for n := 0 to |series|
      invariant first <= n && (forall i :: 0 <= i < first ==> series[i].day < start) && (forall i :: first <= i < n ==> series[i].day >= start)
      invariant sum == PnlFrom(series, first, n)
    {
      ghost var earliest := series[if first < n then first else n];
      if series[n].day >= start {
        if series[n].pnl.Some? {
          sum := sum + series[n].pnl.value;
        }
      } else {
        first := n + 1;
      }
    }
    assert StartsFrom(series, start, first);
  }
}
