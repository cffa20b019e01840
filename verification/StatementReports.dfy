/** Which rows an import takes in and what it reports (src/books/statementImport.ts), said of the statement and the ledger alone. */
module StatementReports {
  import opened Wrappers
  import opened StatementAttribution
  import opened StatementCash
  import opened StatementImport

  /** The entry is of the row and may be posted: the row is not in the opening cash, and books started from live figures take none from before their start. */
  predicate TakesEntry(cutOver: CutOver, entry: Entry, key: RowKey) {
    entry.key == key && key !in cutOver.openingKeys && (!cutOver.fromStatement ==> cutOver.at <= entry.at)
  }

  predicate Takes(cutOver: CutOver, entries: seq<Entry>, key: RowKey) {
    exists i :: 0 <= i < |entries| && TakesEntry(cutOver, entries[i], key)
  }

  /** What the row's entries that may be posted add up to. */
  function Reads(cutOver: CutOver, entries: seq<Entry>, key: RowKey): real {
    if entries == [] then 0.0 else
    var last := entries[|entries| - 1];
    Reads(cutOver, entries[..|entries| - 1], key) + if TakesEntry(cutOver, last, key) then last.amount else 0.0
  }

  lemma TakesOneMore(cutOver: CutOver, entries: seq<Entry>, key: RowKey)
    requires entries != []
    ensures Takes(cutOver, entries, key) <==> Takes(cutOver, entries[..|entries| - 1], key) || TakesEntry(cutOver, entries[|entries| - 1], key)
  {
    hide TakesEntry;
    var last := |entries| - 1;
    assert forall i :: 0 <= i < last ==> entries[..last][i] == entries[i];
    if Takes(cutOver, entries[..last], key) {
      var i :| 0 <= i < last && TakesEntry(cutOver, entries[..last][i], key);
      assert TakesEntry(cutOver, entries[i], key);
    }
  }

  lemma {:induction false} DraftsTake(cutOver: CutOver, entries: seq<Entry>, key: RowKey)
    ensures key in RowsOfDrafts(DraftsOf(cutOver, entries)) <==> Takes(cutOver, entries, key)
    ensures KeySum(DraftsOf(cutOver, entries), key) == Reads(cutOver, entries, key)
  {
    if entries != [] {
      var last := |entries| - 1;
      var before := DraftsOf(cutOver, entries[..last]);
      DraftsTake(cutOver, entries[..last], key);
      TakesOneMore(cutOver, entries, key);
      hide Takes, KeySum, RowsOfDrafts;
      if IsDraft(cutOver, entries[last]) {
        RowsOneMore(before, entries[last], key);
        KeySumConcatenated(before, [entries[last]], key);
        KeySumOne(entries[last], key);
      } else {
        assert DraftsOf(cutOver, entries) == before;
      }
    }
  }

  lemma RowsOneMore(drafts: seq<Entry>, entry: Entry, key: RowKey)
    ensures key in RowsOfDrafts(drafts + [entry]) <==> key in RowsOfDrafts(drafts) || entry.key == key
  {
    assert (drafts + [entry])[..|drafts|] == drafts;
  }

  /** A posted statement leaves in the ledger the rows that were there and those it takes, and no other. */
  lemma TakenRowsAreHeld(ledger: seq<LedgerEntry>, cutOver: CutOver, reading: Reading, key: RowKey)
    requires Posts(ledger, cutOver, reading)
    ensures Holds(Imported(ledger, cutOver, reading), key) <==> Holds(ledger, key) || Takes(cutOver, reading.entries, key)
  {
    hide Holds, Imported, DraftsOf, RowsOfDrafts, Posts;
    ImportOfRow(ledger, cutOver, reading, key);
    DraftsTake(cutOver, reading.entries, key);
  }

  /** Books started from live figures never take a row of before their start, however often it is read. */
  lemma {:induction false} LiveStartTakesNothingEarlier(ledger: seq<LedgerEntry>, cutOver: CutOver, readings: seq<Reading>, key: RowKey)
    requires !cutOver.fromStatement && !Holds(ledger, key)
    requires forall r, i :: 0 <= r < |readings| && 0 <= i < |readings[r].entries| && readings[r].entries[i].key == key ==> readings[r].entries[i].at < cutOver.at
    ensures !Holds(AllImported(ledger, cutOver, readings), key)
  {
    hide Holds, Imported, Posts;
    if readings != [] {
      var before, last := readings[..|readings| - 1], readings[|readings| - 1];
      LiveStartTakesNothingEarlier(ledger, cutOver, before, key);
      var held := AllImported(ledger, cutOver, before);
      if Posts(held, cutOver, last) {
        TakenRowsAreHeld(held, cutOver, last, key);
      } else {
        NotPostedNotChanged(held, cutOver, last);
      }
    }
  }

  // ---------------------------------------------------------------------------------------
  // The reports

  lemma {:induction false} ChangedRowsAre(ledger: seq<LedgerEntry>, drafts: seq<Entry>, rows: seq<RowKey>, key: RowKey)
    ensures ReadsOtherwise(key) in ChangedRows(ledger, drafts, rows) <==> key in rows && ChangedRow(ledger, drafts, key)
    ensures forall problem :: problem in ChangedRows(ledger, drafts, rows) ==> problem.ReadsOtherwise?
  {
    hide ChangedRow;
    if rows != [] {
      var last := |rows| - 1;
      ChangedRowsAre(ledger, drafts, rows[..last], key);
      assert rows == rows[..last] + [rows[last]];
    }
  }

  /**
   Of a statement read: the ledger's cash is reported as differing exactly when it is a cent or more from
   IBKR's ending cash, and as unchecked exactly when there is none; a row of before is reported exactly
   when it now reads more than a millionth of a dollar otherwise, and a row not understood always.
   */
  lemma {:induction false} ReportsAre(ledger: seq<LedgerEntry>, cutOver: CutOver, reading: Reading, key: RowKey)
    ensures var problems, cash := ProblemsOfImport(ledger, cutOver, reading), CashBefore(Imported(ledger, cutOver, reading), reading.cutOffAt);
            && (CashDiffers in problems <==> reading.endingCash.Some? && (reading.endingCash.value - cash >= 0.01 || cash - reading.endingCash.value >= 0.01))
            && (NoEndingCash in problems <==> reading.endingCash.None?)
            && (NotUnderstood(key) in problems <==> key in reading.problems)
            && (ReadsOtherwise(key) in problems <==>
                 Takes(cutOver, reading.entries, key) && Holds(ledger, key)
                 && (RowTotal(ledger, key) - Reads(cutOver, reading.entries, key) > 0.000001 || Reads(cutOver, reading.entries, key) - RowTotal(ledger, key) > 0.000001))
  {
    hide Imported, CashBefore, Holds, RowTotal, KeySum, DraftsOf, RowsOfDrafts, ChangedRows, RowsToReview;
    var drafts := DraftsOf(cutOver, reading.entries);
    DraftsTake(cutOver, reading.entries, key);
    ChangedRowsAre(ledger, drafts, RowsOfDrafts(drafts), key);
    hide Takes, Reads;
    var notUnderstood := NotUnderstoodOf(reading.problems);
    if key in reading.problems {
      var i :| 0 <= i < |reading.problems| && reading.problems[i] == key;
      assert notUnderstood[i] == NotUnderstood(key);
    }
  }
}
