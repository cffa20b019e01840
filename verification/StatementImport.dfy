/**
 IBKR's statements posted to the books' ledger (src/books/statementImport.ts) from the cut-over on
 (src/books/cutover.ts). A statement comes here as its attribution: the ledger is a list of entries,
 and an import is one transaction on it.
 */
module StatementImport {
  import opened Wrappers
  import opened ProRataSplit
  import opened StatementAttribution
  import opened StatementCash

  /** A line of the ledger; only a statement's have a row key. */
  datatype LedgerEntry = LedgerEntry(book: LedgerBook, amount: real, effectiveAt: int, rowKey: Option<RowKey>)

  /** The books' start; `fromStatement` is false when they started from IBKR's live figures. */
  datatype CutOver = CutOver(at: int, fromStatement: bool, openingKeys: set<RowKey>)

  /** Why a statement is not read: it lacks a section the books need or its end date, or is in another currency. */
  datatype Lack = MissingSection | MissingEndDate | OtherBaseCurrency

  /** A statement as it is imported: its entries and problems, its end (the start of the day after), its ending cash. */
  datatype Reading = Reading(entries: seq<Entry>, problems: seq<RowKey>, cutOffAt: int, endingCash: Option<real>, lacks: Option<Lack>)

  datatype ImportProblem = Lacks(lack: Lack) | NotUnderstood(key: RowKey) | ReadsOtherwise(key: RowKey) | NoEndingCash | CashDiffers | ToReview(rows: nat)

  datatype ImportResult = ImportResult(posted: bool, newEntries: nat, gap: Option<real>, needsReview: nat, problems: seq<ImportProblem>)

  /** Two entries of one row in one book, which the ledger's unique index refuses. */
  datatype ImportError = RowTwiceInABook

  const STATEMENT_GAP_TOLERANCE := 0.01
  const CHANGED_ROW_TOLERANCE := 0.000001

  // ---------------------------------------------------------------------------------------
  // The import

  /** The entries an import may post: not in the opening cash, and for a live start none from before it. */
  predicate IsDraft(cutOver: CutOver, entry: Entry) {
    entry.key !in cutOver.openingKeys && (cutOver.fromStatement || entry.at >= cutOver.at)
  }

  function DraftsOf(cutOver: CutOver, entries: seq<Entry>): (drafts: seq<Entry>)
    ensures forall i :: 0 <= i < |drafts| ==> IsDraft(cutOver, drafts[i])
  {
    if entries == [] then [] else
    var last := entries[|entries| - 1];
    DraftsOf(cutOver, entries[..|entries| - 1]) + if IsDraft(cutOver, last) then [last] else []
  }

  /** The drafts' row keys, each once, in the order they are first met. */
  function RowsOfDrafts(drafts: seq<Entry>): (rows: seq<RowKey>)
    ensures forall i, j :: 0 <= i < j < |rows| ==> rows[i] != rows[j]
  {
    if drafts == [] then [] else
    var before := RowsOfDrafts(drafts[..|drafts| - 1]);
    if drafts[|drafts| - 1].key in before then before else before + [drafts[|drafts| - 1].key]
  }

  function EntriesOfRow(drafts: seq<Entry>, key: RowKey): seq<Entry> {
    if drafts == [] then [] else
    EntriesOfRow(drafts[..|drafts| - 1], key) + if drafts[|drafts| - 1].key == key then [drafts[|drafts| - 1]] else []
  }

  function Max(a: int, b: int): int {
    if a >= b then a else b
  }

  function LineOf(cutOver: CutOver, entry: Entry): LedgerEntry {
    LedgerEntry(entry.book, StoredAmount(entry.amount), Max(entry.at, cutOver.at), Some(entry.key))
  }

  function Lines(cutOver: CutOver, entries: seq<Entry>): (lines: seq<LedgerEntry>)
    ensures |lines| == |entries| && forall i :: 0 <= i < |entries| ==> lines[i] == LineOf(cutOver, entries[i])
  {
    seq(|entries|, i requires 0 <= i < |entries| => LineOf(cutOver, entries[i]))
  }

  predicate Holds(ledger: seq<LedgerEntry>, key: RowKey) {
    exists i :: 0 <= i < |ledger| && ledger[i].rowKey == Some(key)
  }

  /** What a row's lines add up to. */
  function RowTotal(ledger: seq<LedgerEntry>, key: RowKey): real {
    if ledger == [] then 0.0 else
    RowTotal(ledger[..|ledger| - 1], key) + if ledger[|ledger| - 1].rowKey == Some(key) then ledger[|ledger| - 1].amount else 0.0
  }

  /** What the ledger adds up to before a moment. */
  function CashBefore(ledger: seq<LedgerEntry>, moment: int): real {
    if ledger == [] then 0.0 else
    CashBefore(ledger[..|ledger| - 1], moment) + if ledger[|ledger| - 1].effectiveAt < moment then ledger[|ledger| - 1].amount else 0.0
  }

  /** The rows not in the ledger yet, in order, posted. */
  function NewLines(ledger: seq<LedgerEntry>, cutOver: CutOver, drafts: seq<Entry>, rows: seq<RowKey>): seq<LedgerEntry> {
    if rows == [] then [] else
    var key := rows[|rows| - 1];
    NewLines(ledger, cutOver, drafts, rows[..|rows| - 1]) + if Holds(ledger, key) then [] else Lines(cutOver, EntriesOfRow(drafts, key))
  }

  predicate TwiceInABook(entries: seq<Entry>) {
    exists i, j :: 0 <= i < j < |entries| && entries[i].book == entries[j].book
  }

  /** Some new row would come in twice in one book. */
  predicate Clashes(ledger: seq<LedgerEntry>, drafts: seq<Entry>, rows: seq<RowKey>) {
    rows != [] &&
    var key := rows[|rows| - 1];
    Clashes(ledger, drafts, rows[..|rows| - 1]) || (!Holds(ledger, key) && TwiceInABook(EntriesOfRow(drafts, key)))
  }

  /** A statement is read when it lacks nothing and ends after the books started. */
  predicate IsRead(cutOver: CutOver, reading: Reading) {
    reading.lacks.None? && reading.cutOffAt > cutOver.at
  }

  /** The import goes through. */
  predicate Posts(ledger: seq<LedgerEntry>, cutOver: CutOver, reading: Reading) {
    var drafts := DraftsOf(cutOver, reading.entries);
    IsRead(cutOver, reading) && !Clashes(ledger, drafts, RowsOfDrafts(drafts))
  }

  /** The ledger after an import: one that does not go through leaves it as it was. */
  function Imported(ledger: seq<LedgerEntry>, cutOver: CutOver, reading: Reading): seq<LedgerEntry> {
    if !Posts(ledger, cutOver, reading) then ledger else
    var drafts := DraftsOf(cutOver, reading.entries);
    ledger + NewLines(ledger, cutOver, drafts, RowsOfDrafts(drafts))
  }

  /** What the import reports as missing or beyond IBKR's ending cash. */
  function GapOf(ledger: seq<LedgerEntry>, reading: Reading): Option<real> {
    if reading.endingCash.None? then None else Some(reading.endingCash.value - CashBefore(ledger, reading.cutOffAt))
  }

  predicate Differ(a: real, b: real) {
    a - b > CHANGED_ROW_TOLERANCE || b - a > CHANGED_ROW_TOLERANCE
  }

  /** A row of the drafts that the ledger holds and that reads otherwise now, by more than a ledger step. */
  predicate ChangedRow(ledger: seq<LedgerEntry>, drafts: seq<Entry>, key: RowKey) {
    Holds(ledger, key) && Differ(RowTotal(ledger, key), KeySum(drafts, key))
  }

  function ChangedRows(ledger: seq<LedgerEntry>, drafts: seq<Entry>, rows: seq<RowKey>): seq<ImportProblem> {
    if rows == [] then [] else
    ChangedRows(ledger, drafts, rows[..|rows| - 1]) + if ChangedRow(ledger, drafts, rows[|rows| - 1]) then [ReadsOtherwise(rows[|rows| - 1])] else []
  }

  function NotUnderstoodOf(keys: seq<RowKey>): seq<ImportProblem> {
    seq(|keys|, i requires 0 <= i < |keys| => NotUnderstood(keys[i]))
  }

  function GapProblems(gap: Option<real>): seq<ImportProblem> {
    if gap.None? then [NoEndingCash]
    else if gap.value >= STATEMENT_GAP_TOLERANCE || gap.value <= -STATEMENT_GAP_TOLERANCE then [CashDiffers] else []
  }

  predicate NeedsReview(entries: seq<Entry>) {
    exists k :: 0 <= k < |entries| && entries[k].needsReview
  }

  /** The rows posted now with an entry to review. */
  function RowsToReview(ledger: seq<LedgerEntry>, drafts: seq<Entry>, rows: seq<RowKey>): nat {
    if rows == [] then 0 else
    var key := rows[|rows| - 1];
    RowsToReview(ledger, drafts, rows[..|rows| - 1]) + if !Holds(ledger, key) && NeedsReview(EntriesOfRow(drafts, key)) then 1 else 0
  }

  function ReviewProblems(count: nat): seq<ImportProblem> {
    if count > 0 then [ToReview(count)] else []
  }

  function ProblemsOfImport(ledger: seq<LedgerEntry>, cutOver: CutOver, reading: Reading): seq<ImportProblem> {
    var drafts := DraftsOf(cutOver, reading.entries);
    NotUnderstoodOf(reading.problems) + ChangedRows(ledger, drafts, RowsOfDrafts(drafts)) + GapProblems(GapOf(Imported(ledger, cutOver, reading), reading))
    + ReviewProblems(RowsToReview(ledger, drafts, RowsOfDrafts(drafts)))
  }

  // ---------------------------------------------------------------------------------------
  // The import as it is done

  class Books {
    const cutOver: CutOver
    var ledger: seq<LedgerEntry>

    constructor (cutOver: CutOver, opening: seq<LedgerEntry>)
      ensures this.cutOver == cutOver && ledger == opening
    {
      this.cutOver, ledger := cutOver, opening;
    }

    method SumOfRow(key: RowKey) returns (total: Option<real>)
      ensures total == if Holds(ledger, key) then Some(RowTotal(ledger, key)) else None
    {
      var found, sum := false, 0.0;
      assert ledger[..0] == [];
      for i := 0 to |ledger|
        invariant sum == RowTotal(ledger[..i], key)
        invariant found <==> exists k :: 0 <= k < i && ledger[k].rowKey == Some(key)
      {
        assert ledger[..i + 1][..i] == ledger[..i];
        if ledger[i].rowKey == Some(key) {
          found, sum := true, sum + ledger[i].amount;
        }
      }
      assert ledger[..|ledger|] == ledger;
      total := if found then Some(sum) else None;
    }

    method CashUpTo(moment: int) returns (cash: real)
      ensures cash == CashBefore(ledger, moment)
    {
      cash := 0.0;
      assert ledger[..0] == [];
      for i := 0 to |ledger|
        invariant cash == CashBefore(ledger[..i], moment)
      {
        assert ledger[..i + 1][..i] == ledger[..i];
        if ledger[i].effectiveAt < moment {
          cash := cash + ledger[i].amount;
        }
      }
      assert ledger[..|ledger|] == ledger;
    }

    /** importStatementIntoBooks, from the attributed statement on: on an error its transaction leaves the ledger as it was. */
    method ImportStatement(reading: Reading) returns (r: Result<ImportResult, ImportError>)
      modifies this
      ensures ledger == Imported(old(ledger), cutOver, reading)
      ensures r.Err? <==> IsRead(cutOver, reading) && !Posts(old(ledger), cutOver, reading)
      ensures r.Ok? && !IsRead(cutOver, reading) ==>
        r.value == ImportResult(false, 0, None, 0, if reading.lacks.Some? then [Lacks(reading.lacks.value)] else [])
      ensures r.Ok? && IsRead(cutOver, reading) ==>
        var result, drafts := r.value, DraftsOf(cutOver, reading.entries);
        && result.posted && result.newEntries == |ledger| - |old(ledger)|
        && result.gap == GapOf(ledger, reading) && result.problems == ProblemsOfImport(old(ledger), cutOver, reading)
        && result.needsReview == RowsToReview(old(ledger), drafts, RowsOfDrafts(drafts))
    {
      hide NewLines, ChangedRows, RowsToReview, RowsOfDrafts, CashBefore, DraftsOf, Clashes;
      if reading.lacks.Some? {
        return Ok(ImportResult(false, 0, None, 0, [Lacks(reading.lacks.value)]));
      }
      if reading.cutOffAt <= cutOver.at {
        return Ok(ImportResult(false, 0, None, 0, []));
      }
      ghost var before := ledger;
      var drafts := DraftsOf(cutOver, reading.entries);
      var posting := PostRows(drafts);
      assert ledger == Imported(before, cutOver, reading);
      hide Imported;
      if posting.Err? {
        return Err(posting.error);
      }
      var (newEntries, changed, needsReview) := posting.value;
      var cash := CashUpTo(reading.cutOffAt);
      var gap := if reading.endingCash.None? then None else Some(reading.endingCash.value - cash);
      var problems := NotUnderstoodOf(reading.problems) + changed;
      if gap.None? {
        problems := problems + [NoEndingCash];
      } else if gap.value >= STATEMENT_GAP_TOLERANCE || gap.value <= -STATEMENT_GAP_TOLERANCE {
        problems := problems + [CashDiffers];
      }
      if needsReview > 0 {
        problems := problems + [ToReview(needsReview)];
      }
      return Ok(ImportResult(true, newEntries, gap, needsReview, problems));
    }

    /** The rows not posted yet, posted: how many entries, which rows read otherwise now, how many need a person. */
    method PostRows(drafts: seq<Entry>) returns (r: Result<(nat, seq<ImportProblem>, nat), ImportError>)
      modifies this
      ensures r.Err? <==> Clashes(old(ledger), drafts, RowsOfDrafts(drafts))
      ensures r.Err? ==> ledger == old(ledger)
      ensures r.Ok? ==>
        && ledger == old(ledger) + NewLines(old(ledger), cutOver, drafts, RowsOfDrafts(drafts))
        && r.value == (|ledger| - |old(ledger)|, ChangedRows(old(ledger), drafts, RowsOfDrafts(drafts)), RowsToReview(old(ledger), drafts, RowsOfDrafts(drafts)))
    {
      hide Holds, RowTotal, KeySum, EntriesOfRow, Lines, NewLines, ChangedRows, RowsToReview, RowsOfDrafts, NeedsReview, TwiceInABook, Clashes;
      ghost var before := ledger;
      var rows := RowsOfDrafts(drafts);
      var changed, newLines, needsReview := [], [], 0;
      NoRowYet(before, cutOver, drafts);
      assert rows[..0] == [];
      for i := 0 to |rows|
        invariant ledger == before && !Clashes(before, drafts, rows[..i])
        invariant newLines == NewLines(before, cutOver, drafts, rows[..i])
        invariant changed == ChangedRows(before, drafts, rows[..i]) && needsReview == RowsToReview(before, drafts, rows[..i])
      {
        assert rows[..i + 1] == rows[..i] + [rows[i]];
        OneMoreRow(before, cutOver, drafts, rows[..i], rows[i]);
        var existing := SumOfRow(rows[i]);
        var own := EntriesOfRow(drafts, rows[i]);
        if existing.Some? {
          if Differ(existing.value, KeySum(drafts, rows[i])) {
            changed := changed + [ReadsOtherwise(rows[i])];
          }
          continue;
        }
        if TwiceInABook(own) {
          ClashStays(before, drafts, rows, i + 1);
          return Err(RowTwiceInABook);
        }
        newLines := newLines + Lines(cutOver, own);
        if NeedsReview(own) {
          needsReview := needsReview + 1;
        }
      }
      assert rows[..|rows|] == rows;
      ledger := ledger + newLines;
      return Ok((|newLines|, changed, needsReview));
    }
  }

  lemma {:induction false} ClashStays(ledger: seq<LedgerEntry>, drafts: seq<Entry>, rows: seq<RowKey>, n: nat)
    requires n <= |rows| && Clashes(ledger, drafts, rows[..n])
    ensures Clashes(ledger, drafts, rows)
    decreases |rows|
  {
    if n < |rows| {
      assert rows[..|rows| - 1][..n] == rows[..n];
      ClashStays(ledger, drafts, rows[..|rows| - 1], n);
    } else {
      assert rows[..n] == rows;
    }
  }

  lemma NoRowYet(ledger: seq<LedgerEntry>, cutOver: CutOver, drafts: seq<Entry>)
    ensures NewLines(ledger, cutOver, drafts, []) == [] && ChangedRows(ledger, drafts, []) == [] && RowsToReview(ledger, drafts, []) == 0 && !Clashes(ledger, drafts, [])
  {}

  lemma OneMoreRow(ledger: seq<LedgerEntry>, cutOver: CutOver, drafts: seq<Entry>, rows: seq<RowKey>, key: RowKey)
    ensures NewLines(ledger, cutOver, drafts, rows + [key]) == NewLines(ledger, cutOver, drafts, rows) + if Holds(ledger, key) then [] else Lines(cutOver, EntriesOfRow(drafts, key))
    ensures ChangedRows(ledger, drafts, rows + [key]) == ChangedRows(ledger, drafts, rows) + if ChangedRow(ledger, drafts, key) then [ReadsOtherwise(key)] else []
    ensures RowsToReview(ledger, drafts, rows + [key])
            == RowsToReview(ledger, drafts, rows) + if !Holds(ledger, key) && NeedsReview(EntriesOfRow(drafts, key)) then 1 else 0
    ensures Clashes(ledger, drafts, rows + [key]) <==> Clashes(ledger, drafts, rows) || (!Holds(ledger, key) && TwiceInABook(EntriesOfRow(drafts, key)))
  {
    assert (rows + [key])[..|rows|] == rows;
  }

  // ---------------------------------------------------------------------------------------
  // Once per row

  lemma {:induction false} RowTotalConcatenated(a: seq<LedgerEntry>, b: seq<LedgerEntry>, key: RowKey)
    ensures RowTotal(a + b, key) == RowTotal(a, key) + RowTotal(b, key)
  {
    if b == [] {
      assert a + b == a;
    } else {
      assert (a + b)[..|a + b| - 1] == a + b[..|b| - 1];
      RowTotalConcatenated(a, b[..|b| - 1], key);
    }
  }

  lemma HoldsConcatenated(a: seq<LedgerEntry>, b: seq<LedgerEntry>, key: RowKey)
    ensures Holds(a + b, key) <==> Holds(a, key) || Holds(b, key)
  {
    var all := a + b;
    if Holds(a, key) {
      var i :| 0 <= i < |a| && a[i].rowKey == Some(key);
      assert all[i] == a[i];
    }
    if Holds(b, key) {
      var i :| 0 <= i < |b| && b[i].rowKey == Some(key);
      assert all[|a| + i] == b[i];
    }
    if Holds(all, key) {
      var i :| 0 <= i < |all| && all[i].rowKey == Some(key);
      assert all[i] == if i < |a| then a[i] else b[i - |a|];
    }
  }

  lemma {:induction false} EntriesOfRowKeys(drafts: seq<Entry>, key: RowKey)
    ensures forall i :: 0 <= i < |EntriesOfRow(drafts, key)| ==> EntriesOfRow(drafts, key)[i].key == key
  {
    if drafts != [] {
      EntriesOfRowKeys(drafts[..|drafts| - 1], key);
    }
  }

  lemma {:induction false} EntriesOfRowSum(drafts: seq<Entry>, key: RowKey)
    ensures StoredSum(EntriesOfRow(drafts, key), key) == StoredSum(drafts, key)
  {
    if drafts != [] {
      var last := |drafts| - 1;
      EntriesOfRowSum(drafts[..last], key);
      if drafts[last].key == key {
        StoredSumConcatenated(EntriesOfRow(drafts[..last], key), [drafts[last]], key);
        StoredSumOne(drafts[last], key);
      } else {
        assert EntriesOfRow(drafts[..last], key) + [] == EntriesOfRow(drafts[..last], key);
      }
    }
  }

  lemma {:induction false} RowsHaveEntries(drafts: seq<Entry>, key: RowKey)
    ensures EntriesOfRow(drafts, key) != [] <==> key in RowsOfDrafts(drafts)
  {
    if drafts != [] {
      RowsHaveEntries(drafts[..|drafts| - 1], key);
    }
  }

  lemma {:induction false} LinesTotal(cutOver: CutOver, entries: seq<Entry>, key: RowKey)
    ensures RowTotal(Lines(cutOver, entries), key) == StoredSum(entries, key)
  {
    if entries != [] {
      var last := |entries| - 1;
      assert Lines(cutOver, entries)[..last] == Lines(cutOver, entries[..last]);
      LinesTotal(cutOver, entries[..last], key);
    }
  }

  lemma LinesHold(cutOver: CutOver, entries: seq<Entry>, key: RowKey, other: RowKey)
    requires entries != [] && forall i :: 0 <= i < |entries| ==> entries[i].key == key
    ensures Holds(Lines(cutOver, entries), other) <==> other == key
  {
    assert Lines(cutOver, entries)[0].rowKey == Some(key);
  }

  lemma {:induction false} OtherStoredSum(entries: seq<Entry>, key: RowKey, other: RowKey)
    requires key != other && forall i :: 0 <= i < |entries| ==> entries[i].key == key
    ensures StoredSum(entries, other) == 0.0
  {
    if entries != [] {
      OtherStoredSum(entries[..|entries| - 1], key, other);
    }
  }

  /** What the posted rows hold of a key: its entries when it is one of the rows and new, and nothing otherwise. */
  lemma {:induction false} PostedOfRow(ledger: seq<LedgerEntry>, cutOver: CutOver, drafts: seq<Entry>, rows: seq<RowKey>, key: RowKey)
    requires forall i, j :: 0 <= i < j < |rows| ==> rows[i] != rows[j]
    requires forall i :: 0 <= i < |rows| ==> rows[i] in RowsOfDrafts(drafts)
    ensures var posted := NewLines(ledger, cutOver, drafts, rows);
            && (Holds(posted, key) <==> key in rows && !Holds(ledger, key))
            && RowTotal(posted, key) == if key in rows && !Holds(ledger, key) then StoredSum(drafts, key) else 0.0
  {
    hide Holds, RowTotal, StoredSum, Lines, RowsOfDrafts, EntriesOfRow;
    if rows == [] {
      NothingPosted(key);
    } else {
      var last := |rows| - 1;
      var before, own := rows[..last], EntriesOfRow(drafts, rows[last]);
      PostedOfRow(ledger, cutOver, drafts, before, key);
      assert rows == before + [rows[last]];
      var posted := NewLines(ledger, cutOver, drafts, before);
      if Holds(ledger, rows[last]) {
        assert posted + [] == posted;
      } else {
        EntriesOfRowKeys(drafts, rows[last]);
        EntriesOfRowSum(drafts, rows[last]);
        RowsHaveEntries(drafts, rows[last]);
        HoldsConcatenated(posted, Lines(cutOver, own), key);
        RowTotalConcatenated(posted, Lines(cutOver, own), key);
        LinesHold(cutOver, own, rows[last], key);
        LinesTotal(cutOver, own, key);
        if key != rows[last] {
          OtherStoredSum(own, rows[last], key);
        } else {
          assert key !in before;
        }
      }
    }
  }

  lemma NothingPosted(key: RowKey)
    ensures !Holds([], key) && RowTotal([], key) == 0.0
  {}

  /** One import, row by row: a row the ledger holds stays as it is, a new draft row comes in with what it reads. */
  lemma ImportOfRow(ledger: seq<LedgerEntry>, cutOver: CutOver, reading: Reading, key: RowKey)
    requires Posts(ledger, cutOver, reading)
    ensures var drafts, after := DraftsOf(cutOver, reading.entries), Imported(ledger, cutOver, reading);
            && (Holds(after, key) <==> Holds(ledger, key) || key in RowsOfDrafts(drafts))
            && RowTotal(after, key) == RowTotal(ledger, key) + if !Holds(ledger, key) && key in RowsOfDrafts(drafts) then StoredSum(drafts, key) else 0.0
  {
    hide Holds, RowTotal, StoredSum, NewLines, RowsOfDrafts;
    var drafts := DraftsOf(cutOver, reading.entries);
    var posted := NewLines(ledger, cutOver, drafts, RowsOfDrafts(drafts));
    PostedOfRow(ledger, cutOver, drafts, RowsOfDrafts(drafts), key);
    HoldsConcatenated(ledger, posted, key);
    RowTotalConcatenated(ledger, posted, key);
  }

  lemma {:induction false} NotHeldNoTotal(ledger: seq<LedgerEntry>, key: RowKey)
    requires !Holds(ledger, key)
    ensures RowTotal(ledger, key) == 0.0
  {
    if ledger != [] {
      assert !Holds(ledger[..|ledger| - 1], key) by {
        HoldsConcatenated(ledger[..|ledger| - 1], [ledger[|ledger| - 1]], key);
        assert ledger[..|ledger| - 1] + [ledger[|ledger| - 1]] == ledger;
      }
      NotHeldNoTotal(ledger[..|ledger| - 1], key);
    }
  }

  /** The ledger after importing readings one after the other, whatever their order and overlap. */
  function AllImported(ledger: seq<LedgerEntry>, cutOver: CutOver, readings: seq<Reading>): seq<LedgerEntry> {
    if readings == [] then ledger else Imported(AllImported(ledger, cutOver, readings[..|readings| - 1]), cutOver, readings[|readings| - 1])
  }

  /** What the first import that goes through with drafts of the row stores of it; None when none has. */
  function FirstRead(ledger: seq<LedgerEntry>, cutOver: CutOver, readings: seq<Reading>, key: RowKey): Option<real> {
    if readings == [] then None else
    var before, last := readings[..|readings| - 1], readings[|readings| - 1];
    var first, drafts := FirstRead(ledger, cutOver, before, key), DraftsOf(cutOver, last.entries);
    if first.Some? then first
    else if Posts(AllImported(ledger, cutOver, before), cutOver, last) && key in RowsOfDrafts(drafts) then Some(StoredSum(drafts, key))
    else None
  }

  /** However often statements repeat or overlap, each row is in the ledger once, with its first reading as the ledger keeps it. */
  lemma {:induction false} PostedExactlyOnce(ledger: seq<LedgerEntry>, cutOver: CutOver, readings: seq<Reading>, key: RowKey)
    requires !Holds(ledger, key)
    ensures var after, first := AllImported(ledger, cutOver, readings), FirstRead(ledger, cutOver, readings, key);
            && (Holds(after, key) <==> first.Some?)
            && RowTotal(after, key) == if first.Some? then first.value else 0.0
  {
    hide Holds, RowTotal, StoredSum, Imported, RowsOfDrafts, DraftsOf, Posts;
    if readings == [] {
      NotHeldNoTotal(ledger, key);
    } else {
      var before, last := AllImported(ledger, cutOver, readings[..|readings| - 1]), readings[|readings| - 1];
      PostedExactlyOnce(ledger, cutOver, readings[..|readings| - 1], key);
      if Posts(before, cutOver, last) {
        ImportOfRow(before, cutOver, last, key);
      } else {
        NotPostedNotChanged(before, cutOver, last);
      }
    }
  }

  lemma NotPostedNotChanged(ledger: seq<LedgerEntry>, cutOver: CutOver, reading: Reading)
    requires !Posts(ledger, cutOver, reading)
    ensures Imported(ledger, cutOver, reading) == ledger
  {}

  /** A row of the opening cash is never posted. */
  lemma {:induction false} OpeningRowsStayOut(ledger: seq<LedgerEntry>, cutOver: CutOver, readings: seq<Reading>, key: RowKey)
    requires key in cutOver.openingKeys
    ensures FirstRead(ledger, cutOver, readings, key) == None
  {
    hide Posts, AllImported;
    if readings != [] {
      OpeningRowsStayOut(ledger, cutOver, readings[..|readings| - 1], key);
      var drafts := DraftsOf(cutOver, readings[|readings| - 1].entries);
      RowsAreOfDrafts(drafts, key);
    }
  }

  lemma {:induction false} RowsAreOfDrafts(drafts: seq<Entry>, key: RowKey)
    ensures key in RowsOfDrafts(drafts) <==> exists i :: 0 <= i < |drafts| && drafts[i].key == key
  {
    if drafts != [] {
      var last := |drafts| - 1;
      RowsAreOfDrafts(drafts[..last], key);
      assert forall i :: 0 <= i < last ==> drafts[..last][i] == drafts[i];
    }
  }

  /** Importing the same statement again adds nothing. */
  lemma RepeatAddsNothing(ledger: seq<LedgerEntry>, cutOver: CutOver, reading: Reading)
    ensures var once := Imported(ledger, cutOver, reading); Imported(once, cutOver, reading) == once
  {
    hide Holds, EntriesOfRow, Lines, RowsOfDrafts, DraftsOf, Imported, Posts;
    if Posts(ledger, cutOver, reading) {
      var drafts := DraftsOf(cutOver, reading.entries);
      var rows, once := RowsOfDrafts(drafts), Imported(ledger, cutOver, reading);
      forall i | 0 <= i < |rows|
        ensures Holds(once, rows[i])
      {
        ImportOfRow(ledger, cutOver, reading, rows[i]);
      }
      HeldRowsPostNothing(once, cutOver, drafts, rows);
      ImportedIs(once, cutOver, reading);
    } else {
      NotPostedNotChanged(ledger, cutOver, reading);
    }
  }

  lemma ImportedIs(ledger: seq<LedgerEntry>, cutOver: CutOver, reading: Reading)
    ensures Imported(ledger, cutOver, reading) == ledger
            || Imported(ledger, cutOver, reading) == ledger + NewLines(ledger, cutOver, DraftsOf(cutOver, reading.entries), RowsOfDrafts(DraftsOf(cutOver, reading.entries)))
  {}

  lemma {:induction false} HeldRowsPostNothing(ledger: seq<LedgerEntry>, cutOver: CutOver, drafts: seq<Entry>, rows: seq<RowKey>)
    requires forall i :: 0 <= i < |rows| ==> Holds(ledger, rows[i])
    ensures NewLines(ledger, cutOver, drafts, rows) == []
  {
    if rows != [] {
      HeldRowsPostNothing(ledger, cutOver, drafts, rows[..|rows| - 1]);
    }
  }
}
