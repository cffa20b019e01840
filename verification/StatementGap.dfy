/**
 The gap an import reports, for an account whose statements obey the cash identity: every statement ends
 with the cash of all the moves that have appeared by then, whatever their dates, and holds some of them
 (src/books/statementAttribution.ts:6-9, src/books/statementImport.ts:15-20, src/books/cutover.ts:86-105).
 */
module StatementGap {
  import opened Wrappers
  import opened BookKeys
  import opened ProRataSplit
  import opened StatementAttribution
  import opened StatementCash
  import opened StatementImport

  /** A cash-moving row of the account: its amount, and whether the books split it; `Due` is what the ledger keeps of it. */
  datatype Move = Move(key: RowKey, amount: real, at: int, split: bool) {
    function Due(): real {
      if split then RoundToLedgerDecimals(amount) else StoredAmount(amount)
    }
  }

  /** What a statement covers, the moves being in the order they appear: of those before its `end` it holds some rows, and starts with the cash of the others. */
  datatype Range = Range(rows: set<nat>, end: nat)

  predicate IsRange(range: Range, moves: seq<Move>) {
    range.end <= |moves| && forall j :: j in range.rows ==> j < range.end
  }

  predicate DistinctMoves(moves: seq<Move>) {
    forall i, j :: 0 <= i < j < |moves| ==> moves[i].key != moves[j].key
  }

  /** The cash the first moves bring. */
  function CashOf(moves: seq<Move>, n: nat): real
    requires n <= |moves|
  {
    if n == 0 then 0.0 else CashOf(moves, n - 1) + moves[n - 1].amount
  }

  /** No row comes twice in one book. */
  predicate OncePerBook(entries: seq<Entry>) {
    forall i, j :: 0 <= i < j < |entries| ==> entries[i].key != entries[j].key || entries[i].book != entries[j].book
  }

  /** A statement over the range: its entries bring what its moves are due, and it ends with the cash of all up to its end, each dated before it ends. */
  ghost predicate Reads(reading: Reading, moves: seq<Move>, start: real, range: Range) {
    && IsRange(range, moves)
    && reading.lacks.None? && OncePerBook(reading.entries)
    && (forall j :: j in range.rows ==> StoredSum(reading.entries, moves[j].key) == moves[j].Due())
    && (forall i :: 0 <= i < |reading.entries| ==> ReadsMove(reading.entries[i], moves, range))
    && (forall j :: 0 <= j < range.end ==> moves[j].at < reading.cutOffAt)
    && reading.endingCash == Some(start + CashOf(moves, range.end))
  }

  predicate ReadsMove(entry: Entry, moves: seq<Move>, range: Range) {
    exists j :: 0 <= j < |moves| && j in range.rows && entry.key == moves[j].key && entry.at == moves[j].at
  }

  /** The books start at the end of the statement over `opening`: its rows, and no others, are in the opening cash. */
  predicate StartsAfter(cutOver: CutOver, moves: seq<Move>, opening: Range) {
    && IsRange(opening, moves)
    && cutOver.fromStatement
    && (forall j :: 0 <= j < |moves| ==> (moves[j].key in cutOver.openingKeys <==> j in opening.rows))
  }

  /** How many moves the opening and the statements read since have seen. */
  function Reached(cutOver: CutOver, opening: Range, readings: seq<Reading>, ranges: seq<Range>): nat
    requires |ranges| == |readings|
  {
    if ranges == [] then opening.end else
    var last := |ranges| - 1;
    var before := Reached(cutOver, opening, readings[..last], ranges[..last]);
    if readings[last].cutOffAt > cutOver.at && ranges[last].end > before then ranges[last].end else before
  }

  predicate HoldsFrom(range: Range, reached: nat) {
    forall j :: reached <= j < range.end ==> j in range.rows
  }

  /** Statements in the order they are imported, each one that is read holding every move not seen before it. */
  ghost predicate History(cutOver: CutOver, moves: seq<Move>, start: real, opening: Range, readings: seq<Reading>, ranges: seq<Range>) {
    && DistinctMoves(moves) && StartsAfter(cutOver, moves, opening)
    && |ranges| == |readings|
    && (forall i :: 0 <= i < |readings| ==> Reads(readings[i], moves, start, ranges[i]))
    && (forall i :: 0 <= i < |ranges| && readings[i].cutOffAt > cutOver.at ==> HoldsFrom(ranges[i], Reached(cutOver, opening, readings[..i], ranges[..i])))
  }

  /** Some imported statement covers the move. */
  predicate ReadBy(cutOver: CutOver, readings: seq<Reading>, ranges: seq<Range>, j: nat)
    requires |ranges| == |readings|
  {
    readings != [] &&
    var last := |readings| - 1;
    || ReadBy(cutOver, readings[..last], ranges[..last], j)
    || (readings[last].cutOffAt > cutOver.at && j in ranges[last].rows)
  }

  // ---------------------------------------------------------------------------------------
  // What the ledger holds of a move

  lemma {:induction false} DraftSum(cutOver: CutOver, entries: seq<Entry>, key: RowKey)
    requires cutOver.fromStatement && key !in cutOver.openingKeys
    ensures StoredSum(DraftsOf(cutOver, entries), key) == StoredSum(entries, key)
  {
    if entries != [] {
      var last := |entries| - 1;
      DraftSum(cutOver, entries[..last], key);
      if IsDraft(cutOver, entries[last]) {
        StoredSumConcatenated(DraftsOf(cutOver, entries[..last]), [entries[last]], key);
        StoredSumOne(entries[last], key);
      } else {
        assert DraftsOf(cutOver, entries[..last]) + [] == DraftsOf(cutOver, entries[..last]);
      }
    }
  }

  lemma {:induction false} DraftsAreEntries(cutOver: CutOver, entries: seq<Entry>, i: nat)
    requires i < |DraftsOf(cutOver, entries)|
    ensures DraftsOf(cutOver, entries)[i] in entries
  {
    var last := |entries| - 1;
    if i < |DraftsOf(cutOver, entries[..last])| {
      DraftsAreEntries(cutOver, entries[..last], i);
    }
  }

  lemma {:induction false} NoEntryNoSum(entries: seq<Entry>, key: RowKey)
    requires forall i :: 0 <= i < |entries| ==> entries[i].key != key
    ensures StoredSum(entries, key) == 0.0
  {
    if entries != [] {
      NoEntryNoSum(entries[..|entries| - 1], key);
    }
  }

  /** A statement's drafts of a move outside the opening: what is due when it covers the move, none otherwise. */
  lemma DraftsOfMove(cutOver: CutOver, moves: seq<Move>, start: real, opening: Range, reading: Reading, range: Range, j: nat)
    requires DistinctMoves(moves) && StartsAfter(cutOver, moves, opening) && Reads(reading, moves, start, range)
    requires j < |moves| && j !in opening.rows
    ensures var drafts := DraftsOf(cutOver, reading.entries);
            && StoredSum(drafts, moves[j].key) == (if j in range.rows then moves[j].Due() else 0.0)
            && (j !in range.rows ==> moves[j].key !in RowsOfDrafts(drafts))
            && (moves[j].key !in RowsOfDrafts(drafts) ==> StoredSum(drafts, moves[j].key) == 0.0)
  {
    hide DraftsOf, StoredSum, RowsOfDrafts;
    var key, drafts := moves[j].key, DraftsOf(cutOver, reading.entries);
    DraftSum(cutOver, reading.entries, key);
    RowsAreOfDrafts(drafts, key);
    if j !in range.rows {
      forall i | 0 <= i < |reading.entries|
        ensures reading.entries[i].key != key
      {
        assert ReadsMove(reading.entries[i], moves, range);
      }
      NoEntryNoSum(reading.entries, key);
      forall i | 0 <= i < |drafts|
        ensures drafts[i].key != key
      {
        DraftsAreEntries(cutOver, reading.entries, i);
      }
    }
    if key !in RowsOfDrafts(drafts) {
      NoEntryNoSum(drafts, key);
    }
  }

  lemma {:induction false} DraftsOncePerBook(cutOver: CutOver, entries: seq<Entry>)
    requires OncePerBook(entries)
    ensures OncePerBook(DraftsOf(cutOver, entries))
  {
    if entries != [] {
      var last := |entries| - 1;
      var before := DraftsOf(cutOver, entries[..last]);
      DraftsOncePerBook(cutOver, entries[..last]);
      forall i | 0 <= i < |before|
        ensures before[i].key != entries[last].key || before[i].book != entries[last].book
      {
        DraftsAreEntries(cutOver, entries[..last], i);
      }
    }
  }

  lemma {:induction false} RowOncePerBook(drafts: seq<Entry>, key: RowKey)
    requires OncePerBook(drafts)
    ensures !TwiceInABook(EntriesOfRow(drafts, key))
  {
    if drafts != [] {
      var last := |drafts| - 1;
      var before := EntriesOfRow(drafts[..last], key);
      RowOncePerBook(drafts[..last], key);
      forall i | 0 <= i < |before|
        ensures drafts[last].key == key ==> before[i].book != drafts[last].book
      {
        OwnEntriesAreDrafts(drafts[..last], key, i);
        EntriesOfRowKeys(drafts[..last], key);
      }
    }
  }

  lemma {:induction false} NoClash(ledger: seq<LedgerEntry>, drafts: seq<Entry>, rows: seq<RowKey>)
    requires OncePerBook(drafts)
    ensures !Clashes(ledger, drafts, rows)
  {
    hide OncePerBook, TwiceInABook, EntriesOfRow;
    if rows != [] {
      NoClash(ledger, drafts, rows[..|rows| - 1]);
      RowOncePerBook(drafts, rows[|rows| - 1]);
    }
  }

  /** The import of an account's statement that ends after the start goes through. */
  lemma ReadingPosts(ledger: seq<LedgerEntry>, cutOver: CutOver, moves: seq<Move>, start: real, reading: Reading, range: Range)
    requires Reads(reading, moves, start, range)
    ensures Posts(ledger, cutOver, reading) <==> reading.cutOffAt > cutOver.at
  {
    hide OncePerBook, Clashes;
    var drafts := DraftsOf(cutOver, reading.entries);
    DraftsOncePerBook(cutOver, reading.entries);
    NoClash(ledger, drafts, RowsOfDrafts(drafts));
  }

  lemma HistoryBefore(cutOver: CutOver, moves: seq<Move>, start: real, opening: Range, readings: seq<Reading>, ranges: seq<Range>)
    requires readings != [] && History(cutOver, moves, start, opening, readings, ranges)
    ensures History(cutOver, moves, start, opening, readings[..|readings| - 1], ranges[..|ranges| - 1])
  {
    hide Reads, DistinctMoves, StartsAfter, Reached, HoldsFrom;
    var last := |ranges| - 1;
    forall i | 0 <= i < last && readings[i].cutOffAt > cutOver.at
      ensures HoldsFrom(ranges[..last][i], Reached(cutOver, opening, readings[..last][..i], ranges[..last][..i]))
    {
      assert ranges[..last][..i] == ranges[..i] && readings[..last][..i] == readings[..i];
    }
  }

  /** The first reading of a move outside the opening brings what is due, once some imported statement covers it. */
  lemma {:induction false} FirstReadOfMove(started: seq<LedgerEntry>, cutOver: CutOver, moves: seq<Move>, start: real, opening: Range, readings: seq<Reading>, ranges: seq<Range>, j: nat)
    requires History(cutOver, moves, start, opening, readings, ranges) && j < |moves| && j !in opening.rows
    ensures var first := FirstRead(started, cutOver, readings, moves[j].key);
            && (first.Some? ==> ReadBy(cutOver, readings, ranges, j) && first.value == moves[j].Due())
            && (first.None? && ReadBy(cutOver, readings, ranges, j) ==> moves[j].Due() == 0.0)
  {
    hide DraftsOf, StoredSum, RowsOfDrafts, Move.Due, History, Reads, Posts, AllImported;
    if readings != [] {
      var last := |readings| - 1;
      HistoryBefore(cutOver, moves, start, opening, readings, ranges);
      HistoryHas(cutOver, moves, start, opening, readings, ranges, last);
      FirstReadOfMove(started, cutOver, moves, start, opening, readings[..last], ranges[..last], j);
      DraftsOfMove(cutOver, moves, start, opening, readings[last], ranges[last], j);
      ReadingPosts(AllImported(started, cutOver, readings[..last]), cutOver, moves, start, readings[last], ranges[last]);
    }
  }

  lemma HistoryHas(cutOver: CutOver, moves: seq<Move>, start: real, opening: Range, readings: seq<Reading>, ranges: seq<Range>, i: nat)
    requires History(cutOver, moves, start, opening, readings, ranges) && i < |readings|
    ensures DistinctMoves(moves) && StartsAfter(cutOver, moves, opening) && |ranges| == |readings| && Reads(readings[i], moves, start, ranges[i])
  {}

  /** What the ledger holds of a move: nothing of the opening's own, what is due of any other that was read. */
  lemma RowOfMove(started: seq<LedgerEntry>, cutOver: CutOver, moves: seq<Move>, start: real, opening: Range, readings: seq<Reading>, ranges: seq<Range>, j: nat)
    requires History(cutOver, moves, start, opening, readings, ranges) && j < |moves| && IsOpening(started, cutOver)
    ensures RowTotal(AllImported(started, cutOver, readings), moves[j].key)
            == if j !in opening.rows && ReadBy(cutOver, readings, ranges, j) then moves[j].Due() else 0.0
  {
    hide RowTotal, AllImported, FirstRead, Move.Due;
    PostedExactlyOnce(started, cutOver, readings, moves[j].key);
    if j in opening.rows {
      OpeningRowsStayOut(started, cutOver, readings, moves[j].key);
    } else {
      FirstReadOfMove(started, cutOver, moves, start, opening, readings, ranges, j);
    }
  }

  lemma HistoryRowsAreDue(started: seq<LedgerEntry>, cutOver: CutOver, moves: seq<Move>, start: real, opening: Range, readings: seq<Reading>, ranges: seq<Range>)
    requires History(cutOver, moves, start, opening, readings, ranges) && IsOpening(started, cutOver)
    ensures RowsAreDue(AllImported(started, cutOver, readings), cutOver, moves, opening, readings, ranges)
  {
    hide RowTotal, ReadBy, Move.Due, AllImported, IsOpening, Reads, DistinctMoves;
    forall j: nat | j < |moves|
      ensures RowTotal(AllImported(started, cutOver, readings), moves[j].key)
              == if j !in opening.rows && ReadBy(cutOver, readings, ranges, j) then moves[j].Due() else 0.0
    {
      RowOfMove(started, cutOver, moves, start, opening, readings, ranges, j);
    }
  }

  // ---------------------------------------------------------------------------------------
  // The ledger taken apart by row

  /** The entry is of the opening, or of a move, at the move's moment or the cut-over's if that is later. */
  predicate OfTheMoves(entry: LedgerEntry, cutOver: CutOver, moves: seq<Move>) {
    if entry.rowKey.None? then entry.effectiveAt == cutOver.at
    else exists j :: 0 <= j < |moves| && moves[j].key == entry.rowKey.value && entry.effectiveAt == Max(moves[j].at, cutOver.at)
  }

  /** The entries with no row, before a moment. */
  function OtherBefore(ledger: seq<LedgerEntry>, moment: int): real {
    if ledger == [] then 0.0 else
    OtherBefore(ledger[..|ledger| - 1], moment)
    + if ledger[|ledger| - 1].rowKey.None? && ledger[|ledger| - 1].effectiveAt < moment then ledger[|ledger| - 1].amount else 0.0
  }

  /** The first moves' rows in the ledger, those before a moment. */
  function RowsBefore(ledger: seq<LedgerEntry>, cutOver: CutOver, moves: seq<Move>, n: nat, moment: int): real
    requires n <= |moves|
  {
    if n == 0 then 0.0 else
    RowsBefore(ledger, cutOver, moves, n - 1, moment) + if Max(moves[n - 1].at, cutOver.at) < moment then RowTotal(ledger, moves[n - 1].key) else 0.0
  }

  lemma {:induction false} RowsBeforeOneMore(ledger: seq<LedgerEntry>, entry: LedgerEntry, cutOver: CutOver, moves: seq<Move>, n: nat, moment: int, j: nat)
    requires DistinctMoves(moves) && n <= |moves| && j < |moves| && entry.rowKey == Some(moves[j].key)
    ensures RowsBefore(ledger + [entry], cutOver, moves, n, moment)
            == RowsBefore(ledger, cutOver, moves, n, moment) + if j < n && Max(moves[j].at, cutOver.at) < moment then entry.amount else 0.0
  {
    hide Max, RowTotal;
    if n > 0 {
      RowsBeforeOneMore(ledger, entry, cutOver, moves, n - 1, moment, j);
      RowTotalOneMore(ledger, entry, moves[n - 1].key);
    }
  }

  lemma RowTotalOneMore(ledger: seq<LedgerEntry>, entry: LedgerEntry, key: RowKey)
    ensures RowTotal(ledger + [entry], key) == RowTotal(ledger, key) + if entry.rowKey == Some(key) then entry.amount else 0.0
  {
    assert (ledger + [entry])[..|ledger|] == ledger;
  }

  lemma {:induction false} RowsBeforeUnkeyed(ledger: seq<LedgerEntry>, entry: LedgerEntry, cutOver: CutOver, moves: seq<Move>, n: nat, moment: int)
    requires n <= |moves| && entry.rowKey.None?
    ensures RowsBefore(ledger + [entry], cutOver, moves, n, moment) == RowsBefore(ledger, cutOver, moves, n, moment)
  {
    hide Max, RowTotal;
    if n > 0 {
      RowsBeforeUnkeyed(ledger, entry, cutOver, moves, n - 1, moment);
      RowTotalOneMore(ledger, entry, moves[n - 1].key);
    }
  }

  lemma {:induction false} NoLedgerNoRows(cutOver: CutOver, moves: seq<Move>, n: nat, moment: int)
    requires n <= |moves|
    ensures RowsBefore([], cutOver, moves, n, moment) == 0.0
  {
    if n > 0 {
      NoLedgerNoRows(cutOver, moves, n - 1, moment);
    }
  }

  /** The cash before a moment is the opening's and each row's. */
  lemma {:induction false} CashByRow(ledger: seq<LedgerEntry>, cutOver: CutOver, moves: seq<Move>, moment: int)
    requires DistinctMoves(moves) && forall i :: 0 <= i < |ledger| ==> OfTheMoves(ledger[i], cutOver, moves)
    ensures CashBefore(ledger, moment) == OtherBefore(ledger, moment) + RowsBefore(ledger, cutOver, moves, |moves|, moment)
  {
    hide DistinctMoves, Max, RowsBefore;
    if ledger == [] {
      NoLedgerNoRows(cutOver, moves, |moves|, moment);
    } else {
      var last := |ledger| - 1;
      CashByRow(ledger[..last], cutOver, moves, moment);
      assert ledger[..last] + [ledger[last]] == ledger;
      assert OfTheMoves(ledger[last], cutOver, moves);
      if ledger[last].rowKey.None? {
        RowsBeforeUnkeyed(ledger[..last], ledger[last], cutOver, moves, |moves|, moment);
      } else {
        var j :| 0 <= j < |moves| && moves[j].key == ledger[last].rowKey.value && ledger[last].effectiveAt == Max(moves[j].at, cutOver.at);
        RowsBeforeOneMore(ledger[..last], ledger[last], cutOver, moves, |moves|, moment, j);
      }
    }
  }

  // ---------------------------------------------------------------------------------------
  // The ledger stays of the moves

  lemma LinesOfTheMoves(cutOver: CutOver, moves: seq<Move>, entries: seq<Entry>, range: Range)
    requires forall i :: 0 <= i < |entries| ==> ReadsMove(entries[i], moves, range)
    ensures forall i :: 0 <= i < |Lines(cutOver, entries)| ==> OfTheMoves(Lines(cutOver, entries)[i], cutOver, moves)
  {
    forall i | 0 <= i < |entries|
      ensures OfTheMoves(Lines(cutOver, entries)[i], cutOver, moves)
    {
      assert ReadsMove(entries[i], moves, range);
    }
  }

  lemma {:induction false} OwnEntriesAreDrafts(drafts: seq<Entry>, key: RowKey, i: nat)
    requires i < |EntriesOfRow(drafts, key)|
    ensures EntriesOfRow(drafts, key)[i] in drafts
  {
    var last := |drafts| - 1;
    if i < |EntriesOfRow(drafts[..last], key)| {
      OwnEntriesAreDrafts(drafts[..last], key, i);
    }
  }

  lemma {:induction false} NewLinesOfTheMoves(ledger: seq<LedgerEntry>, cutOver: CutOver, moves: seq<Move>, drafts: seq<Entry>, range: Range, rows: seq<RowKey>)
    requires forall i :: 0 <= i < |drafts| ==> ReadsMove(drafts[i], moves, range)
    ensures forall i :: 0 <= i < |NewLines(ledger, cutOver, drafts, rows)| ==> OfTheMoves(NewLines(ledger, cutOver, drafts, rows)[i], cutOver, moves)
  {
    hide OfTheMoves, ReadsMove, Lines, EntriesOfRow;
    if rows != [] {
      var key := rows[|rows| - 1];
      NewLinesOfTheMoves(ledger, cutOver, moves, drafts, range, rows[..|rows| - 1]);
      var own := EntriesOfRow(drafts, key);
      forall i | 0 <= i < |own|
        ensures ReadsMove(own[i], moves, range)
      {
        OwnEntriesAreDrafts(drafts, key, i);
      }
      LinesOfTheMoves(cutOver, moves, own, range);
    }
  }

  lemma ImportedOfTheMoves(ledger: seq<LedgerEntry>, cutOver: CutOver, moves: seq<Move>, start: real, reading: Reading, range: Range)
    requires Reads(reading, moves, start, range) && forall i :: 0 <= i < |ledger| ==> OfTheMoves(ledger[i], cutOver, moves)
    ensures forall i :: 0 <= i < |Imported(ledger, cutOver, reading)| ==> OfTheMoves(Imported(ledger, cutOver, reading)[i], cutOver, moves)
  {
    hide OfTheMoves, ReadsMove, NewLines, DraftsOf, RowsOfDrafts;
    var drafts := DraftsOf(cutOver, reading.entries);
    forall i | 0 <= i < |drafts|
      ensures ReadsMove(drafts[i], moves, range)
    {
      DraftsAreEntries(cutOver, reading.entries, i);
    }
    NewLinesOfTheMoves(ledger, cutOver, moves, drafts, range, RowsOfDrafts(drafts));
  }

  lemma {:induction false} LedgerOfTheMoves(started: seq<LedgerEntry>, cutOver: CutOver, moves: seq<Move>, start: real, opening: Range, readings: seq<Reading>, ranges: seq<Range>)
    requires History(cutOver, moves, start, opening, readings, ranges)
    requires forall i :: 0 <= i < |started| ==> OfTheMoves(started[i], cutOver, moves)
    ensures forall i :: 0 <= i < |AllImported(started, cutOver, readings)| ==> OfTheMoves(AllImported(started, cutOver, readings)[i], cutOver, moves)
  {
    hide OfTheMoves, Imported, History, Reads;
    if readings != [] {
      var last := |readings| - 1;
      HistoryBefore(cutOver, moves, start, opening, readings, ranges);
      HistoryHas(cutOver, moves, start, opening, readings, ranges, last);
      LedgerOfTheMoves(started, cutOver, moves, start, opening, readings[..last], ranges[..last]);
      ImportedOfTheMoves(AllImported(started, cutOver, readings[..last]), cutOver, moves, start, readings[last], ranges[last]);
    }
  }

  lemma {:induction false} OtherConcatenated(a: seq<LedgerEntry>, b: seq<LedgerEntry>, moment: int)
    requires forall i :: 0 <= i < |b| ==> b[i].rowKey.Some?
    ensures OtherBefore(a + b, moment) == OtherBefore(a, moment)
  {
    if b == [] {
      assert a + b == a;
    } else {
      assert (a + b)[..|a + b| - 1] == a + b[..|b| - 1];
      OtherConcatenated(a, b[..|b| - 1], moment);
    }
  }

  lemma {:induction false} NewLinesHaveRows(ledger: seq<LedgerEntry>, cutOver: CutOver, drafts: seq<Entry>, rows: seq<RowKey>)
    ensures forall i :: 0 <= i < |NewLines(ledger, cutOver, drafts, rows)| ==> NewLines(ledger, cutOver, drafts, rows)[i].rowKey.Some?
  {
    hide EntriesOfRow, Holds;
    if rows != [] {
      NewLinesHaveRows(ledger, cutOver, drafts, rows[..|rows| - 1]);
    }
  }

  lemma {:induction false} OpeningStays(started: seq<LedgerEntry>, cutOver: CutOver, readings: seq<Reading>, moment: int)
    ensures OtherBefore(AllImported(started, cutOver, readings), moment) == OtherBefore(started, moment)
  {
    hide NewLines, OtherBefore, DraftsOf, RowsOfDrafts;
    if readings != [] {
      var before, last := AllImported(started, cutOver, readings[..|readings| - 1]), readings[|readings| - 1];
      OpeningStays(started, cutOver, readings[..|readings| - 1], moment);
      if Posts(before, cutOver, last) {
        var drafts := DraftsOf(cutOver, last.entries);
        NewLinesHaveRows(before, cutOver, drafts, RowsOfDrafts(drafts));
        OtherConcatenated(before, NewLines(before, cutOver, drafts, RowsOfDrafts(drafts)), moment);
      }
    }
  }

  // ---------------------------------------------------------------------------------------
  // The gap

  /** Rounding of the moves of a range: what they are less what they are due. */
  function Rounding(moves: seq<Move>, first: nat, end: nat): real
    requires end <= |moves|
    decreases end
  {
    if end <= first then 0.0 else Rounding(moves, first, end - 1) + moves[end - 1].amount - moves[end - 1].Due()
  }

  /** The moves seen by the start that its statement did not hold and a later one did: posted though they are in the opening cash. */
  function OlderRows(cutOver: CutOver, moves: seq<Move>, opening: Range, readings: seq<Reading>, ranges: seq<Range>, n: nat): real
    requires |ranges| == |readings| && n <= |moves|
  {
    if n == 0 then 0.0 else
    OlderRows(cutOver, moves, opening, readings, ranges, n - 1) + if n - 1 !in opening.rows && ReadBy(cutOver, readings, ranges, n - 1) then moves[n - 1].Due() else 0.0
  }

  /** The moves from `end` on that statements imported earlier had seen, of before the moment. */
  function LaterRows(cutOver: CutOver, moves: seq<Move>, readings: seq<Reading>, ranges: seq<Range>, end: nat, n: nat, moment: int): real
    requires |ranges| == |readings| && n <= |moves|
  {
    if n <= end then 0.0 else
    LaterRows(cutOver, moves, readings, ranges, end, n - 1, moment)
    + if ReadBy(cutOver, readings, ranges, n - 1) && Max(moves[n - 1].at, cutOver.at) < moment then moves[n - 1].Due() else 0.0
  }

  /** Every move from the opening to where the statements reached was read, and none beyond. */
  lemma {:induction false} ReachedIsRead(cutOver: CutOver, moves: seq<Move>, start: real, opening: Range, readings: seq<Reading>, ranges: seq<Range>, j: nat)
    requires History(cutOver, moves, start, opening, readings, ranges) && opening.end <= j
    ensures ReadBy(cutOver, readings, ranges, j) <==> j < Reached(cutOver, opening, readings, ranges)
  {
    hide Reads, DistinctMoves, StartsAfter;
    if readings != [] {
      var last := |readings| - 1;
      HistoryBefore(cutOver, moves, start, opening, readings, ranges);
      HistoryHas(cutOver, moves, start, opening, readings, ranges, last);
      RangeOfReads(readings[last], moves, start, ranges[last]);
      ReachedIsRead(cutOver, moves, start, opening, readings[..last], ranges[..last], j);
      assert readings[last].cutOffAt > cutOver.at ==> HoldsFrom(ranges[last], Reached(cutOver, opening, readings[..last], ranges[..last]));
    }
  }

  lemma RangeOfReads(reading: Reading, moves: seq<Move>, start: real, range: Range)
    requires Reads(reading, moves, start, range)
    ensures IsRange(range, moves)
  {}

  /** The ledger holds what is due of every move read, the opening's own aside. */
  predicate RowsAreDue(ledger: seq<LedgerEntry>, cutOver: CutOver, moves: seq<Move>, opening: Range, readings: seq<Reading>, ranges: seq<Range>)
    requires |ranges| == |readings|
  {
    forall j: nat :: j < |moves| ==>
      RowTotal(ledger, moves[j].key) == if j !in opening.rows && ReadBy(cutOver, readings, ranges, j) then moves[j].Due() else 0.0
  }

  /** The rows before a statement's end, taken together: older ones, from the opening on what is due, and later ones of before the moment. */
  lemma {:induction false} RowsOfHistory(ledger: seq<LedgerEntry>, cutOver: CutOver, moves: seq<Move>, start: real, opening: Range, readings: seq<Reading>, ranges: seq<Range>,
                                         n: nat, moment: int, end: nat)
    requires History(cutOver, moves, start, opening, readings, ranges) && n <= |moves| && cutOver.at < moment
    requires opening.end <= end <= Reached(cutOver, opening, readings, ranges) && forall j :: 0 <= j < |moves| && j < end ==> moves[j].at < moment
    requires RowsAreDue(ledger, cutOver, moves, opening, readings, ranges)
    ensures RowsBefore(ledger, cutOver, moves, n, moment)
            == OlderRows(cutOver, moves, opening, readings, ranges, if n < opening.end then n else opening.end)
               + DueFrom(moves, opening.end, if n < end then n else end)
               + LaterRows(cutOver, moves, readings, ranges, end, n, moment)
  {
    hide History, RowTotal, ReadBy, Move.Due, Reached;
    HistoryRange(cutOver, moves, start, opening, readings, ranges);
    if n > 0 {
      RowsOfHistory(ledger, cutOver, moves, start, opening, readings, ranges, n - 1, moment, end);
      if opening.end <= n - 1 {
        ReachedIsRead(cutOver, moves, start, opening, readings, ranges, n - 1);
      }
    }
  }

  lemma HistoryRange(cutOver: CutOver, moves: seq<Move>, start: real, opening: Range, readings: seq<Reading>, ranges: seq<Range>)
    requires History(cutOver, moves, start, opening, readings, ranges)
    ensures IsRange(opening, moves) && |ranges| == |readings|
  {
    hide Reads, Reached, HoldsFrom;
  }

  lemma ReachedLast(cutOver: CutOver, opening: Range, readings: seq<Reading>, ranges: seq<Range>)
    requires ranges != [] && |ranges| == |readings| && readings[|readings| - 1].cutOffAt > cutOver.at
    ensures Reached(cutOver, opening, readings, ranges) >= ranges[|ranges| - 1].end
  {}

  lemma ReadsWithin(reading: Reading, moves: seq<Move>, start: real, range: Range)
    requires Reads(reading, moves, start, range)
    ensures range.end <= |moves| && reading.endingCash == Some(start + CashOf(moves, range.end))
    ensures forall j :: 0 <= j < range.end ==> moves[j].at < reading.cutOffAt
  {}

  function DueFrom(moves: seq<Move>, first: nat, end: nat): real
    requires end <= |moves|
    decreases end
  {
    if end <= first then 0.0 else DueFrom(moves, first, end - 1) + moves[end - 1].Due()
  }

  lemma {:induction false} RoundingIs(moves: seq<Move>, first: nat, end: nat)
    requires first <= end <= |moves|
    ensures Rounding(moves, first, end) == CashOf(moves, end) - CashOf(moves, first) - DueFrom(moves, first, end)
    decreases end
  {
    hide Move.Due;
    if end > first {
      RoundingIs(moves, first, end - 1);
    }
  }

  /**
   After any statements that obey the identity, the last one's gap is what the opening balances lack
   of the opening cash and the rounding of the rows since, less the rows posted that were in the
   opening cash, and those of before its end that statements imported earlier had seen and it had not.
   */
  lemma GapIs(started: seq<LedgerEntry>, cutOver: CutOver, moves: seq<Move>, start: real, opening: Range, readings: seq<Reading>, ranges: seq<Range>)
    requires readings != [] && History(cutOver, moves, start, opening, readings, ranges)
    requires IsOpening(started, cutOver)
    requires readings[|readings| - 1].cutOffAt > cutOver.at && ranges[|ranges| - 1].end >= opening.end
    ensures opening.end <= |moves| && ranges[|ranges| - 1].end <= |moves| && |ranges| == |readings|
    ensures GapOf(AllImported(started, cutOver, readings), readings[|readings| - 1])
            == Some(start + CashOf(moves, opening.end) - OpeningCash(started) + Rounding(moves, opening.end, ranges[|ranges| - 1].end)
                    - OlderRows(cutOver, moves, opening, readings, ranges, opening.end)
                    - LaterRows(cutOver, moves, readings, ranges, ranges[|ranges| - 1].end, |moves|, readings[|readings| - 1].cutOffAt))
  {
    hide History, RowTotal, ReadBy, Move.Due, AllImported, CashBefore, OtherBefore, RowsBefore, Reads, OlderRows, LaterRows, IsOpening, OfTheMoves, OpeningCash,
      StartsAfter, DistinctMoves, RowsAreDue, CashOf, DueFrom, Rounding, Reached;
    var last := |readings| - 1;
    HistoryHas(cutOver, moves, start, opening, readings, ranges, last);
    var ledger, reading, end := AllImported(started, cutOver, readings), readings[last], ranges[last].end;
    ReachedLast(cutOver, opening, readings, ranges);
    HistoryRange(cutOver, moves, start, opening, readings, ranges);
    ReadsWithin(reading, moves, start, ranges[last]);
    HistoryRowsAreDue(started, cutOver, moves, start, opening, readings, ranges);
    OpeningIsOfTheMoves(started, cutOver, moves);
    LedgerOfTheMoves(started, cutOver, moves, start, opening, readings, ranges);
    CashByRow(ledger, cutOver, moves, reading.cutOffAt);
    OpeningStays(started, cutOver, readings, reading.cutOffAt);
    OpeningBefore(started, cutOver, reading.cutOffAt);
    RowsOfHistory(ledger, cutOver, moves, start, opening, readings, ranges, |moves|, reading.cutOffAt, end);
    RoundingIs(moves, opening.end, end);
  }

  /** The ledger of a start: the opening balances, at the cut-over. */
  predicate IsOpening(started: seq<LedgerEntry>, cutOver: CutOver) {
    forall i :: 0 <= i < |started| ==> started[i].rowKey.None? && started[i].effectiveAt == cutOver.at
  }

  function OpeningCash(started: seq<LedgerEntry>): real {
    if started == [] then 0.0 else OpeningCash(started[..|started| - 1]) + started[|started| - 1].amount
  }

  lemma {:induction false} OpeningBefore(started: seq<LedgerEntry>, cutOver: CutOver, moment: int)
    requires IsOpening(started, cutOver) && moment > cutOver.at
    ensures OtherBefore(started, moment) == OpeningCash(started)
  {
    if started != [] {
      OpeningBefore(started[..|started| - 1], cutOver, moment);
    }
  }

  lemma OpeningIsOfTheMoves(started: seq<LedgerEntry>, cutOver: CutOver, moves: seq<Move>)
    requires IsOpening(started, cutOver)
    ensures forall i :: 0 <= i < |started| ==> OfTheMoves(started[i], cutOver, moves)
  {}

  /** How many of the moves have more decimals than the ledger keeps. */
  function LongCount(moves: seq<Move>, first: nat, end: nat): (count: nat)
    requires end <= |moves|
    ensures first <= end ==> count <= end - first
    decreases end
  {
    if end <= first then 0 else LongCount(moves, first, end - 1) + if IsLedgerAmount(moves[end - 1].amount) then 0 else 1
  }

  lemma {:induction false} RoundingIsSmall(moves: seq<Move>, first: nat, end: nat)
    requires end <= |moves|
    ensures -HALF_STEP * LongCount(moves, first, end) as real <= Rounding(moves, first, end) <= HALF_STEP * LongCount(moves, first, end) as real
    decreases end
  {
    hide RoundToLedgerDecimals, StoredAmount, IsLedgerAmount;
    if end > first {
      RoundingIsSmall(moves, first, end - 1);
      RoundsNear(moves[end - 1].amount);
      StoredNear(moves[end - 1].amount);
    }
  }

  /** No statement holds a move that the start had seen and its own statement did not hold. */
  predicate NoneReachesBack(opening: Range, ranges: seq<Range>) {
    forall i, j :: 0 <= i < |ranges| && 0 <= j < opening.end && j in ranges[i].rows ==> j in opening.rows
  }

  lemma {:induction false} NothingOlder(cutOver: CutOver, moves: seq<Move>, opening: Range, readings: seq<Reading>, ranges: seq<Range>, n: nat)
    requires |ranges| == |readings| && n <= opening.end <= |moves| && NoneReachesBack(opening, ranges)
    ensures OlderRows(cutOver, moves, opening, readings, ranges, n) == 0.0
  {
    hide ReadBy;
    if n > 0 {
      NothingOlder(cutOver, moves, opening, readings, ranges, n - 1);
      if n - 1 !in opening.rows {
        NotReadBefore(cutOver, opening, readings, ranges, n - 1);
      }
    }
  }

  lemma {:induction false} NotReadBefore(cutOver: CutOver, opening: Range, readings: seq<Reading>, ranges: seq<Range>, j: nat)
    requires |ranges| == |readings| && j < opening.end && j !in opening.rows && NoneReachesBack(opening, ranges)
    ensures !ReadBy(cutOver, readings, ranges, j)
  {
    if readings != [] {
      NotReadBefore(cutOver, opening, readings[..|readings| - 1], ranges[..|ranges| - 1], j);
    }
  }

  /** What statements imported earlier had seen beyond `end` is of the moment or later. */
  predicate SeenLater(moves: seq<Move>, end: nat, reached: nat, moment: int) {
    forall j :: end <= j < reached && j < |moves| ==> moves[j].at >= moment
  }

  lemma {:induction false} NothingLater(cutOver: CutOver, moves: seq<Move>, start: real, opening: Range, readings: seq<Reading>, ranges: seq<Range>, end: nat, n: nat, moment: int)
    requires History(cutOver, moves, start, opening, readings, ranges) && opening.end <= end && n <= |moves|
    requires SeenLater(moves, end, Reached(cutOver, opening, readings, ranges), moment)
    ensures |ranges| == |readings| && LaterRows(cutOver, moves, readings, ranges, end, n, moment) == 0.0
  {
    hide History, ReadBy, Reached;
    HistoryRange(cutOver, moves, start, opening, readings, ranges);
    if n > end {
      NothingLater(cutOver, moves, start, opening, readings, ranges, end, n - 1, moment);
      ReachedIsRead(cutOver, moves, start, opening, readings, ranges, n - 1);
    }
  }

  /**
   When no statement reaches back before the cut-over's own, and the last one saw all that was seen
   before it and dated before its end, the gap is within half a ledger step for each row since the
   cut-over with more decimals than the ledger keeps, besides what the opening balances lack.
   */
  lemma GapIsRounding(started: seq<LedgerEntry>, cutOver: CutOver, moves: seq<Move>, start: real, opening: Range, readings: seq<Reading>, ranges: seq<Range>)
    requires readings != [] && History(cutOver, moves, start, opening, readings, ranges)
    requires IsOpening(started, cutOver)
    requires readings[|readings| - 1].cutOffAt > cutOver.at && ranges[|ranges| - 1].end >= opening.end
    requires NoneReachesBack(opening, ranges)
    requires SeenLater(moves, ranges[|ranges| - 1].end, Reached(cutOver, opening, readings, ranges), readings[|readings| - 1].cutOffAt)
    ensures opening.end <= ranges[|ranges| - 1].end <= |moves|
    ensures var gap, rows := GapOf(AllImported(started, cutOver, readings), readings[|readings| - 1]), LongCount(moves, opening.end, ranges[|ranges| - 1].end);
            var lacking := start + CashOf(moves, opening.end) - OpeningCash(started);
            gap.Some? && lacking - HALF_STEP * rows as real <= gap.value <= lacking + HALF_STEP * rows as real
  {
    hide History, GapOf, Rounding, LongCount, OlderRows, LaterRows, OtherBefore, OpeningCash, Reached, NoneReachesBack, SeenLater;
    HistoryRange(cutOver, moves, start, opening, readings, ranges);
    var end := ranges[|ranges| - 1].end;
    GapIs(started, cutOver, moves, start, opening, readings, ranges);
    NothingOlder(cutOver, moves, opening, readings, ranges, opening.end);
    NothingLater(cutOver, moves, start, opening, readings, ranges, end, |moves|, readings[|readings| - 1].cutOffAt);
    RoundingIsSmall(moves, opening.end, end);
  }

  const FIVE_DOLLARS := Entry(Of(Manual), 5.0, 1, Fee, CashKey("1"), None, false)
  const FIVE_BEFORE := [Move(CashKey("1"), 5.0, 1, false)]
  const STARTED_AT_TEN := CutOver(10, true, {})
  const READS_FIVE := Reading([FIVE_DOLLARS], [], 20, Some(5.0), None)
  const HOLDS_FIVE := Range({0}, 1)

  /** $5 dated before the books started: a statement after the start that holds them. */
  lemma FiveIsRead(opening: Range)
    requires opening.rows == {} && opening.end <= 1
    ensures History(STARTED_AT_TEN, FIVE_BEFORE, 0.0, opening, [READS_FIVE], [HOLDS_FIVE])
  {
    StoredSumOne(FIVE_DOLLARS, CashKey("1"));
    FiveIsKept();
    assert CashOf(FIVE_BEFORE, 1) == CashOf(FIVE_BEFORE, 0) + 5.0;
    assert ReadsMove(FIVE_DOLLARS, FIVE_BEFORE, HOLDS_FIVE) by {
      assert FIVE_BEFORE[0].key == CashKey("1") && 0 in HOLDS_FIVE.rows;
    }
    assert Reads(READS_FIVE, FIVE_BEFORE, 0.0, HOLDS_FIVE);
    assert [HOLDS_FIVE][..0] == [];
  }

  /** First seen after the start, though dated before it, they are new cash, and no gap is left. */
  lemma LateRowIsNewCash()
    ensures GapOf(AllImported([], STARTED_AT_TEN, [READS_FIVE]), READS_FIVE) == Some(0.0)
  {
    hide GapOf, AllImported, CashOf, Rounding, OlderRows, LaterRows, ReadBy, Move.Due, History;
    var opening := Range({}, 0);
    FiveIsRead(opening);
    GapIs([], STARTED_AT_TEN, FIVE_BEFORE, 0.0, opening, [READS_FIVE], [HOLDS_FIVE]);
    FiveIsKept();
    NoMoreFives(opening);
    assert Rounding(FIVE_BEFORE, 0, 1) == 0.0 by {
      FiveRounds();
    }
  }

  /** A later statement that reaches back past the cut-over's own counts its rows twice: they are in the opening cash, are posted again, and the gap is -$5. */
  lemma ReachingBackCountsTwice()
    ensures GapOf(AllImported([LedgerEntry(Of(Manual), 5.0, 10, None)], STARTED_AT_TEN, [READS_FIVE]), READS_FIVE) == Some(-5.0)
  {
    hide GapOf, AllImported, OpeningCash, CashOf, Rounding, OlderRows, LaterRows, ReadBy, IsOpening, Move.Due, History;
    var opening, started := Range({}, 1), [LedgerEntry(Of(Manual), 5.0, 10, None)];
    FiveIsRead(opening);
    FiveIsOpening(started);
    GapIs(started, STARTED_AT_TEN, FIVE_BEFORE, 0.0, opening, [READS_FIVE], [HOLDS_FIVE]);
    NoMoreFives(opening);
  }

  lemma FiveIsOpening(started: seq<LedgerEntry>)
    requires started == [LedgerEntry(Of(Manual), 5.0, 10, None)]
    ensures IsOpening(started, STARTED_AT_TEN) && OpeningCash(started) == 5.0 && CashOf(FIVE_BEFORE, 1) == 5.0 && Rounding(FIVE_BEFORE, 1, 1) == 0.0
  {
    assert started[..0] == [];
    assert CashOf(FIVE_BEFORE, 1) == CashOf(FIVE_BEFORE, 0) + 5.0;
  }

  lemma FiveRounds()
    ensures Rounding(FIVE_BEFORE, 0, 1) == 0.0
  {
    hide StoredAmount;
    FiveIsKept();
    assert Rounding(FIVE_BEFORE, 0, 0) == 0.0;
  }

  lemma NoMoreFives(opening: Range)
    requires opening.rows == {} && opening.end <= 1
    ensures OlderRows(STARTED_AT_TEN, FIVE_BEFORE, opening, [READS_FIVE], [HOLDS_FIVE], opening.end) == (if opening.end == 1 then 5.0 else 0.0)
    ensures LaterRows(STARTED_AT_TEN, FIVE_BEFORE, [READS_FIVE], [HOLDS_FIVE], 1, 1, 20) == 0.0
    ensures CashOf(FIVE_BEFORE, 0) == 0.0 && OpeningCash([]) == 0.0 && IsOpening([], STARTED_AT_TEN)
  {
    hide StoredAmount;
    FiveIsKept();
    assert [READS_FIVE][..0] == [] && ReadBy(STARTED_AT_TEN, [READS_FIVE], [HOLDS_FIVE], 0);
    assert OlderRows(STARTED_AT_TEN, FIVE_BEFORE, opening, [READS_FIVE], [HOLDS_FIVE], 0) == 0.0;
  }

  lemma FiveIsKept()
    ensures StoredAmount(5.0) == 5.0
  {
    StoredNear(5.0);
    assert (5.0 * 1000000.0).Floor == 5000000;
  }
}
