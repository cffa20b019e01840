/**
 IBKR's statements against the account they are of (src/books/statementAttribution.ts:6-9): each one holds
 some of the account's cash moves that have appeared by then, starts with the cash of the others and keeps
 the cash identity. The books, started from one of them, follow the account's cash through the others.
 */
module AccountStatements {
  import opened Wrappers
  import opened ProRataSplit
  import opened StatementAttribution
  import opened StatementCash
  import opened StatementImport
  import opened StatementGap
  import opened BooksCutOver

  /** A statement as it is read: with the books' lookups of the moment, and where it ends. */
  datatype Import = Import(statement: Statement, context: Context, cutOffAt: int)

  // ---------------------------------------------------------------------------------------
  // A statement's own cash

  /** A row's move, when it brings cash and is not inside a trade. */
  function MoveOf(line: Line): seq<Move> {
    if IsPosted(line) && line.at.Some? then [Move(line.key, line.amount.value, line.at.value, line.split)] else []
  }

  function MovesOf(lines: seq<Line>): seq<Move> {
    if lines == [] then [] else MovesOf(lines[..|lines| - 1]) + MoveOf(lines[|lines| - 1])
  }

  /** Trades' net cash, cash transactions, transfers, corporate actions, and sales taxes not inside a trade. */
  function LineCash(lines: seq<Line>): real {
    if lines == [] then 0.0 else
    var line := lines[|lines| - 1];
    LineCash(lines[..|lines| - 1]) + if !line.inTrade && line.amount.Some? then line.amount.value else 0.0
  }

  /** startingCash + every row's cash = endingCash */
  predicate KeepsIdentity(statement: Statement, lines: seq<Line>) {
    statement.startingCash.Some? && statement.endingCash == Some(statement.startingCash.value + LineCash(lines))
  }

  /** The first `n` moves' rows that a statement holds, in the order they appeared. */
  function HeldOf(moves: seq<Move>, rows: set<nat>, n: nat): seq<Move>
    requires n <= |moves|
  {
    if n == 0 then [] else HeldOf(moves, rows, n - 1) + if n - 1 in rows then [moves[n - 1]] else []
  }

  /** The cash of the first `n` moves that it does not hold. */
  function CashOutside(moves: seq<Move>, rows: set<nat>, n: nat): real
    requires n <= |moves|
  {
    if n == 0 then 0.0 else CashOutside(moves, rows, n - 1) + if n - 1 in rows then 0.0 else moves[n - 1].amount
  }

  /** The statement covers the range: it starts with the cash of the moves it does not hold, its rows are those it holds, none is a problem, and the identity holds. */
  ghost predicate IsStatementOf(read: Import, moves: seq<Move>, start: real, range: Range) {
    && IsRange(range, moves) && CashRowDates(read.statement.cash)
    && (var lines := LinesOf(read.statement, read.context);
        && ProblemsOf(lines) == [] && KeepsIdentity(read.statement, lines)
        && multiset(MovesOf(lines)) == multiset(HeldOf(moves, range.rows, range.end)))
    && read.statement.startingCash == Some(start + CashOutside(moves, range.rows, range.end))
    && (forall j :: 0 <= j < range.end ==> moves[j].at < read.cutOffAt)
  }

  function ReadingOf(read: Import): Reading
    requires CashRowDates(read.statement.cash)
  {
    var parsed := Attributed(read.statement, read.context);
    Reading(parsed.entries, parsed.problems, read.cutOffAt, read.statement.endingCash, None)
  }

  // ---------------------------------------------------------------------------------------
  // The same moves in another order

  function Sum(moves: seq<Move>): real {
    if moves == [] then 0.0 else Sum(moves[..|moves| - 1]) + moves[|moves| - 1].amount
  }

  function Without(moves: seq<Move>, i: nat): seq<Move>
    requires i < |moves|
  {
    moves[..i] + moves[i + 1..]
  }

  lemma WithoutIs(moves: seq<Move>, i: nat)
    requires i < |moves|
    ensures multiset(Without(moves, i)) == multiset(moves) - multiset{moves[i]}
  {
    assert moves == moves[..i] + [moves[i]] + moves[i + 1..];
  }

  lemma WithoutIsDistinct(moves: seq<Move>, i: nat)
    requires i < |moves| && DistinctMoves(moves)
    ensures DistinctMoves(Without(moves, i)) && forall k :: 0 <= k < |Without(moves, i)| ==> Without(moves, i)[k].key != moves[i].key
  {
    var without := Without(moves, i);
    assert forall k :: 0 <= k < |without| ==> without[k] == moves[if k < i then k else k + 1];
  }

  lemma {:induction false} SumWithout(moves: seq<Move>, i: nat)
    requires i < |moves|
    ensures Sum(moves) == Sum(Without(moves, i)) + moves[i].amount
  {
    var last := |moves| - 1;
    if i < last {
      SumWithout(moves[..last], i);
      assert Without(moves, i)[..last - 1] == Without(moves[..last], i);
    } else {
      assert Without(moves, i) == moves[..last];
    }
  }

  lemma LastOfOther(a: seq<Move>, b: seq<Move>) returns (i: nat)
    requires multiset(a) == multiset(b) && a != []
    ensures i < |b| && b[i] == a[|a| - 1] && multiset(a[..|a| - 1]) == multiset(Without(b, i))
  {
    assert a == a[..|a| - 1] + [a[|a| - 1]];
    assert a[|a| - 1] in multiset(b);
    i :| 0 <= i < |b| && b[i] == a[|a| - 1];
    WithoutIs(b, i);
  }

  lemma {:induction false} ReorderedSum(a: seq<Move>, b: seq<Move>)
    requires multiset(a) == multiset(b)
    ensures Sum(a) == Sum(b)
    decreases |a|
  {
    if a == [] {
      assert |multiset(b)| == |b| == 0;
    } else {
      var i := LastOfOther(a, b);
      SumWithout(b, i);
      ReorderedSum(a[..|a| - 1], Without(b, i));
    }
  }

  lemma {:induction false} ReorderedDistinct(a: seq<Move>, b: seq<Move>)
    requires multiset(a) == multiset(b) && DistinctMoves(b)
    ensures DistinctMoves(a)
    decreases |a|
  {
    if a != [] {
      var last := |a| - 1;
      var i := LastOfOther(a, b);
      WithoutIsDistinct(b, i);
      hide Without;
      ReorderedDistinct(a[..last], Without(b, i));
      forall k | 0 <= k < last
        ensures a[k].key != a[last].key
      {
        assert a[..last][k] in multiset(Without(b, i));
      }
      OneMoreDistinct(a);
    }
  }

  lemma OneMoreDistinct(moves: seq<Move>)
    requires moves != [] && DistinctMoves(moves[..|moves| - 1]) && forall k :: 0 <= k < |moves| - 1 ==> moves[k].key != moves[|moves| - 1].key
    ensures DistinctMoves(moves)
  {}

  /** The held rows and the others are all the cash. */
  lemma {:induction false} HeldIsCash(moves: seq<Move>, rows: set<nat>, n: nat)
    requires n <= |moves|
    ensures CashOf(moves, n) == CashOutside(moves, rows, n) + Sum(HeldOf(moves, rows, n))
  {
    hide Sum;
    if n == 0 {
      NoMovesNoSum();
    } else {
      HeldIsCash(moves, rows, n - 1);
      SumOneMore(HeldOf(moves, rows, n - 1), if n - 1 in rows then [moves[n - 1]] else []);
    }
  }

  lemma {:induction false} HeldAre(moves: seq<Move>, rows: set<nat>, n: nat, k: nat) returns (j: nat)
    requires n <= |moves| && k < |HeldOf(moves, rows, n)|
    ensures j < n && j in rows && HeldOf(moves, rows, n)[k] == moves[j]
  {
    if k < |HeldOf(moves, rows, n - 1)| {
      j := HeldAre(moves, rows, n - 1, k);
    } else {
      j := n - 1;
    }
  }

  lemma {:induction false} HeldHas(moves: seq<Move>, rows: set<nat>, n: nat, j: nat)
    requires j < n <= |moves| && j in rows
    ensures moves[j] in HeldOf(moves, rows, n)
  {
    if j < n - 1 {
      HeldHas(moves, rows, n - 1, j);
    }
  }

  lemma {:induction false} HeldDistinct(moves: seq<Move>, rows: set<nat>, n: nat)
    requires n <= |moves| && DistinctMoves(moves)
    ensures DistinctMoves(HeldOf(moves, rows, n))
  {
    if n > 0 {
      HeldDistinct(moves, rows, n - 1);
      var before := HeldOf(moves, rows, n - 1);
      forall k | 0 <= k < |before|
        ensures before[k].key != moves[n - 1].key
      {
        var j := HeldAre(moves, rows, n - 1, k);
      }
    }
  }

  // ---------------------------------------------------------------------------------------
  // A statement's entries are its moves

  lemma {:induction false} LineCashIsMoves(entries: seq<Entry>, lines: seq<Line>)
    requires Composed(entries, lines) && ProblemsOf(lines) == []
    ensures LineCash(lines) == Sum(MovesOf(lines))
    decreases |lines|
  {
    hide EntriesFit, Sum;
    if lines == [] {
      NoMovesNoSum();
    } else {
      var last := |lines| - 1;
      var k :| 0 <= k <= |entries| && Composed(entries[..k], lines[..last]) && EntriesFit(entries[k..], lines[last]);
      LineCashIsMoves(entries[..k], lines[..last]);
      PostedHasMoment(entries[k..], lines[last]);
      SumOneMore(MovesOf(lines[..last]), MoveOf(lines[last]));
    }
  }

  lemma NoMovesNoSum()
    ensures Sum([]) == 0.0
  {}

  lemma SumOneMore(moves: seq<Move>, more: seq<Move>)
    requires |more| <= 1
    ensures Sum(moves + more) == Sum(moves) + if more == [] then 0.0 else more[0].amount
  {
    if more == [] {
      assert moves + more == moves;
    } else {
      assert (moves + more)[..|moves|] == moves;
    }
  }

  lemma PostedHasMoment(entries: seq<Entry>, line: Line)
    requires EntriesFit(entries, line)
    ensures IsPosted(line) ==> line.at.Some?
  {}

  predicate HasMove(moves: seq<Move>, entry: Entry) {
    exists k :: 0 <= k < |moves| && moves[k].key == entry.key && moves[k].at == entry.at
  }

  lemma HasMoveGrows(moves: seq<Move>, more: seq<Move>, entry: Entry)
    ensures HasMove(moves, entry) ==> HasMove(moves + more, entry)
  {
    if HasMove(moves, entry) {
      var k :| 0 <= k < |moves| && moves[k].key == entry.key && moves[k].at == entry.at;
      assert (moves + more)[k] == moves[k];
    }
  }

  /** One line's entries: at its move's moment, once in a book, and kept in the ledger as its move is due. */
  lemma LineIsMove(entries: seq<Entry>, line: Line, key: RowKey)
    requires EntriesFit(entries, line)
    ensures OncePerBook(entries) && forall i :: 0 <= i < |entries| ==> HasMove(MoveOf(line), entries[i])
    ensures StoredSum(entries, key) == if MoveOf(line) != [] && line.key == key then MoveOf(line)[0].Due() else 0.0
  {
    hide StoredSum, StoredAmount, RoundToLedgerDecimals, IsLedgerAmount;
    if IsPosted(line) {
      forall i | 0 <= i < |entries|
        ensures HasMove(MoveOf(line), entries[i])
      {
        assert MoveOf(line)[0].key == entries[i].key;
      }
      StoredSumOne(entries[0], key);
      StoredNear(entries[0].amount);
      if line.split {
        StoredSumOne(entries[1], key);
        StoredNear(entries[1].amount);
        StoredSumConcatenated([entries[0]], [entries[1]], key);
        assert entries == [entries[0]] + [entries[1]];
      } else {
        assert entries == [entries[0]];
      }
    } else {
      NothingStored(key);
    }
  }

  lemma NothingStored(key: RowKey)
    ensures StoredSum([], key) == 0.0
  {}

  /** What the moves of a key are due. */
  function KeyDueOf(moves: seq<Move>, key: RowKey): real {
    if moves == [] then 0.0 else
    KeyDueOf(moves[..|moves| - 1], key) + if moves[|moves| - 1].key == key then moves[|moves| - 1].Due() else 0.0
  }

  lemma KeyDueOneMore(moves: seq<Move>, more: seq<Move>, key: RowKey)
    requires |more| <= 1
    ensures KeyDueOf(moves + more, key) == KeyDueOf(moves, key) + if more != [] && more[0].key == key then more[0].Due() else 0.0
  {
    if more == [] {
      assert moves + more == moves;
    } else {
      assert (moves + more)[..|moves|] == moves;
    }
  }

  /** A statement's entries: each at a move's moment, and each key's kept in the ledger as its moves are due. */
  lemma {:induction false} EntriesAreMoves(entries: seq<Entry>, lines: seq<Line>, key: RowKey)
    requires Composed(entries, lines)
    ensures StoredSum(entries, key) == KeyDueOf(MovesOf(lines), key)
    ensures forall i :: 0 <= i < |entries| ==> HasMove(MovesOf(lines), entries[i])
    decreases |lines|
  {
    hide EntriesFit, StoredSum, KeyDueOf, HasMove, MoveOf;
    if lines == [] {
      NothingStored(key);
      NoMoves(key);
    } else {
      var last := |lines| - 1;
      var k :| 0 <= k <= |entries| && Composed(entries[..k], lines[..last]) && EntriesFit(entries[k..], lines[last]);
      EntriesAreMoves(entries[..k], lines[..last], key);
      LineIsMove(entries[k..], lines[last], key);
      OneMoveAtMost(lines[last]);
      KeyDueOneMore(MovesOf(lines[..last]), MoveOf(lines[last]), key);
      StoredSumConcatenated(entries[..k], entries[k..], key);
      assert entries == entries[..k] + entries[k..];
      forall i | 0 <= i < |entries|
        ensures HasMove(MovesOf(lines), entries[i])
      {
        if i < k {
          assert entries[i] == entries[..k][i];
          HasMoveGrows(MovesOf(lines[..last]), MoveOf(lines[last]), entries[i]);
        } else {
          assert entries[i] == entries[k..][i - k];
          HasMoveAfter(MovesOf(lines[..last]), MoveOf(lines[last]), entries[i]);
        }
      }
    }
  }

  lemma NoMoves(key: RowKey)
    ensures KeyDueOf(MovesOf([]), key) == 0.0
  {}

  lemma OneMoveAtMost(line: Line)
    ensures |MoveOf(line)| <= 1 && (MoveOf(line) != [] ==> MoveOf(line)[0].key == line.key)
  {}

  lemma HasMoveAfter(moves: seq<Move>, more: seq<Move>, entry: Entry)
    ensures HasMove(more, entry) ==> HasMove(moves + more, entry)
  {
    if HasMove(more, entry) {
      var k :| 0 <= k < |more| && more[k].key == entry.key && more[k].at == entry.at;
      assert (moves + more)[|moves| + k] == more[k];
    }
  }

  /** When no two rows that bring cash share a key, no row comes twice in a book. */
  lemma {:induction false} EntriesOncePerBook(entries: seq<Entry>, lines: seq<Line>)
    requires Composed(entries, lines) && DistinctMoves(MovesOf(lines))
    ensures OncePerBook(entries)
    decreases |lines|
  {
    hide EntriesFit, StoredSum, HasMove, MoveOf;
    if lines != [] {
      var last := |lines| - 1;
      var k :| 0 <= k <= |entries| && Composed(entries[..k], lines[..last]) && EntriesFit(entries[k..], lines[last]);
      var key := lines[last].key;
      DistinctBefore(MovesOf(lines[..last]), MoveOf(lines[last]));
      EntriesOncePerBook(entries[..k], lines[..last]);
      EntriesAreMoves(entries[..k], lines[..last], key);
      LineIsMove(entries[k..], lines[last], key);
      forall i, j | 0 <= i < k <= j < |entries|
        ensures entries[i].key != entries[j].key
      {
        assert entries[i] == entries[..k][i] && entries[j] == entries[k..][j - k];
        MovesApart(MovesOf(lines[..last]), MoveOf(lines[last]), entries[i], entries[j]);
      }
      OnceInBoth(entries, k);
    }
  }

  lemma OnceInBoth(entries: seq<Entry>, k: nat)
    requires k <= |entries| && OncePerBook(entries[..k]) && OncePerBook(entries[k..])
    requires forall i, j :: 0 <= i < k <= j < |entries| ==> entries[i].key != entries[j].key
    ensures OncePerBook(entries)
  {
    forall i, j | 0 <= i < j < |entries|
      ensures entries[i].key != entries[j].key || entries[i].book != entries[j].book
    {
      if j < k {
        assert entries[i] == entries[..k][i] && entries[j] == entries[..k][j];
      } else if i >= k {
        assert entries[i] == entries[k..][i - k] && entries[j] == entries[k..][j - k];
      }
    }
  }

  lemma DistinctBefore(moves: seq<Move>, more: seq<Move>)
    requires DistinctMoves(moves + more)
    ensures DistinctMoves(moves)
  {
    forall i, j | 0 <= i < j < |moves|
      ensures moves[i].key != moves[j].key
    {
      assert (moves + more)[i] == moves[i] && (moves + more)[j] == moves[j];
    }
  }

  lemma MovesApart(moves: seq<Move>, more: seq<Move>, a: Entry, b: Entry)
    requires DistinctMoves(moves + more) && HasMove(moves, a) && HasMove(more, b)
    ensures a.key != b.key
  {
    var i :| 0 <= i < |moves| && moves[i].key == a.key && moves[i].at == a.at;
    var j :| 0 <= j < |more| && more[j].key == b.key && more[j].at == b.at;
    assert (moves + more)[i] == moves[i] && (moves + more)[|moves| + j] == more[j];
  }

  lemma {:induction false} DueOfKey(moves: seq<Move>, i: nat)
    requires DistinctMoves(moves) && i < |moves|
    ensures KeyDueOf(moves, moves[i].key) == moves[i].Due()
  {
    hide Move.Due;
    var last := |moves| - 1;
    if i < last {
      DueOfKey(moves[..last], i);
    } else {
      DueOfNoKey(moves[..last], moves[i].key);
    }
  }

  lemma {:induction false} DueOfNoKey(moves: seq<Move>, key: RowKey)
    requires forall i :: 0 <= i < |moves| ==> moves[i].key != key
    ensures KeyDueOf(moves, key) == 0.0
  {
    if moves != [] {
      DueOfNoKey(moves[..|moves| - 1], key);
    }
  }

  lemma AccountsComposed(parsed: Parsed, lines: seq<Line>)
    requires AccountsFor(parsed, lines)
    ensures Composed(parsed.entries, lines) && parsed.rowKeys == KeysOf(lines)
  {}

  /** A statement of the account is read as one: its entries bring what its moves are due, and it ends with their cash. */
  lemma StatementIsRead(read: Import, moves: seq<Move>, start: real, range: Range)
    requires IsStatementOf(read, moves, start, range) && DistinctMoves(moves)
    ensures Reads(ReadingOf(read), moves, start, range)
  {
    hide LinesOf, Attributed, Composed, CashOf, StoredSum, KeyDueOf, MovesOf, LineCash, Sum, OncePerBook, ReadsMove, HasMove, DistinctMoves, ProblemsOf, AccountsFor, HeldOf, CashOutside;
    var lines, entries, held := LinesOf(read.statement, read.context), Attributed(read.statement, read.context).entries, HeldOf(moves, range.rows, range.end);
    StatementAccounts(read.statement, read.context);
    AccountsComposed(Attributed(read.statement, read.context), lines);
    HeldDistinct(moves, range.rows, range.end);
    ReorderedDistinct(MovesOf(lines), held);
    EntriesOncePerBook(entries, lines);
    LineCashIsMoves(entries, lines);
    ReorderedSum(MovesOf(lines), held);
    HeldIsCash(moves, range.rows, range.end);
    forall j | j in range.rows
      ensures StoredSum(entries, moves[j].key) == moves[j].Due()
    {
      var i := SameMove(MovesOf(lines), moves, range, j);
      DueOfKey(MovesOf(lines), i);
      EntriesAreMoves(entries, lines, moves[j].key);
    }
    forall i | 0 <= i < |entries|
      ensures ReadsMove(entries[i], moves, range)
    {
      EntriesAreMoves(entries, lines, entries[i].key);
      MoveIsRead(MovesOf(lines), moves, range, entries[i]);
    }
  }

  lemma SameMove(own: seq<Move>, moves: seq<Move>, range: Range, j: nat) returns (i: nat)
    requires IsRange(range, moves) && j in range.rows && multiset(own) == multiset(HeldOf(moves, range.rows, range.end))
    ensures i < |own| && own[i] == moves[j]
  {
    HeldHas(moves, range.rows, range.end, j);
    assert moves[j] in multiset(own);
    i :| 0 <= i < |own| && own[i] == moves[j];
  }

  lemma MoveIsRead(own: seq<Move>, moves: seq<Move>, range: Range, entry: Entry)
    requires IsRange(range, moves) && multiset(own) == multiset(HeldOf(moves, range.rows, range.end)) && HasMove(own, entry)
    ensures ReadsMove(entry, moves, range)
  {
    var k :| 0 <= k < |own| && own[k].key == entry.key && own[k].at == entry.at;
    assert own[k] in multiset(HeldOf(moves, range.rows, range.end));
    var i :| 0 <= i < |HeldOf(moves, range.rows, range.end)| && HeldOf(moves, range.rows, range.end)[i] == own[k];
    var j := HeldAre(moves, range.rows, range.end, i);
  }

  // ---------------------------------------------------------------------------------------
  // The books follow the account

  /** The books start at the end of a statement: its cash is their opening cash, its rows' keys are in it, and no row outside it has one of them. */
  ghost predicate StartsWith(cutOver: CutOver, first: Import, moves: seq<Move>, start: real, opening: Range) {
    && IsStatementOf(first, moves, start, opening)
    && cutOver == CutOver(first.cutOffAt, true, KeysRead(first))
    && (forall j :: 0 <= j < |moves| && moves[j].key in cutOver.openingKeys ==> j in opening.rows)
  }

  function KeysRead(read: Import): set<RowKey>
    requires CashRowDates(read.statement.cash)
  {
    set i | 0 <= i < |Attributed(read.statement, read.context).rowKeys| :: Attributed(read.statement, read.context).rowKeys[i]
  }

  lemma {:induction false} MoveHasLine(lines: seq<Line>, i: nat)
    requires i < |MovesOf(lines)|
    ensures MovesOf(lines)[i].key in KeysOf(lines)
  {
    var last := |lines| - 1;
    var before := MovesOf(lines[..last]);
    if i < |before| {
      MoveHasLine(lines[..last], i);
      var k :| 0 <= k < last && KeysOf(lines[..last])[k] == before[i].key;
      assert KeysOf(lines)[k] == before[i].key;
    } else {
      assert KeysOf(lines)[last] == lines[last].key;
    }
  }

  lemma KeysReadAre(read: Import, key: RowKey)
    requires CashRowDates(read.statement.cash)
    ensures key in KeysRead(read) <==> key in KeysOf(LinesOf(read.statement, read.context))
  {
    hide Attributed, LinesOf, KeysOf, Composed, AccountsFor;
    StatementAccounts(read.statement, read.context);
    AccountsComposed(Attributed(read.statement, read.context), LinesOf(read.statement, read.context));
    var keys := Attributed(read.statement, read.context).rowKeys;
    if key in keys {
      var i :| 0 <= i < |keys| && keys[i] == key;
      assert keys[i] in KeysRead(read);
    }
  }

  lemma StartIsAfter(cutOver: CutOver, first: Import, moves: seq<Move>, start: real, opening: Range)
    requires StartsWith(cutOver, first, moves, start, opening)
    ensures StartsAfter(cutOver, moves, opening)
  {
    hide LinesOf, KeysRead, MovesOf, KeysOf, CashOf, ProblemsOf, KeepsIdentity;
    forall j | j in opening.rows
      ensures moves[j].key in cutOver.openingKeys
    {
      var lines := LinesOf(first.statement, first.context);
      var i := SameMove(MovesOf(lines), moves, opening, j);
      MoveHasLine(lines, i);
      KeysReadAre(first, moves[j].key);
    }
  }

  /** The readings of the statements imported since. */
  function ReadingsOf(imports: seq<Import>): (readings: seq<Reading>)
    requires AllHaveDates(imports)
    ensures |readings| == |imports| && forall i :: 0 <= i < |imports| ==> readings[i] == ReadingOf(imports[i])
  {
    seq(|imports|, i requires 0 <= i < |imports| => ReadingOf(imports[i]))
  }

  predicate AllHaveDates(imports: seq<Import>) {
    forall i :: 0 <= i < |imports| ==> CashRowDates(imports[i].statement.cash)
  }

  /** Statements of the account in the order they are imported: each one that is read holds every move not seen before it, whatever its date, and none of those seen by the start that its statement did not hold. */
  ghost predicate Follow(cutOver: CutOver, imports: seq<Import>, moves: seq<Move>, start: real, opening: Range, ranges: seq<Range>) {
    && |ranges| == |imports| && AllHaveDates(imports)
    && (forall i :: 0 <= i < |imports| ==> IsStatementOf(imports[i], moves, start, ranges[i]))
    && (forall i :: 0 <= i < |imports| && imports[i].cutOffAt > cutOver.at ==>
          HoldsFrom(ranges[i], Reached(cutOver, opening, ReadingsOf(imports)[..i], ranges[..i])))
    && NoneReachesBack(opening, ranges)
  }

  lemma StatementsAreAHistory(cutOver: CutOver, first: Import, moves: seq<Move>, start: real, opening: Range, imports: seq<Import>, ranges: seq<Range>)
    requires DistinctMoves(moves) && StartsWith(cutOver, first, moves, start, opening) && Follow(cutOver, imports, moves, start, opening, ranges)
    ensures AllHaveDates(imports) && History(cutOver, moves, start, opening, ReadingsOf(imports), ranges)
  {
    hide StartsWith, Reached, DistinctMoves, StartsAfter, Reads, HoldsFrom, NoneReachesBack, IsStatementOf;
    StartIsAfter(cutOver, first, moves, start, opening);
    var readings := ReadingsOf(imports);
    forall i | 0 <= i < |readings|
      ensures Reads(readings[i], moves, start, ranges[i]) && readings[i].cutOffAt == imports[i].cutOffAt
    {
      StatementIsRead(imports[i], moves, start, ranges[i]);
    }
  }

  /** How many rows with more decimals than the ledger keeps leave the books within the tolerance. */
  const LONG_ROWS_ALLOWED: nat := 19998

  /**
   Books started from a statement, whatever Pluto's starting value and legs, and then given the
   account's later statements in any overlap, rows that appear late included: the gap of the last one,
   when it has seen all that was seen before it and dated before its end, is at most half a ledger step
   for each of the longer rows since the start and for the two opening balances. Below 20,000 of them
   nothing is reported.
   */
  lemma BooksFollowTheAccount(cutOver: CutOver, first: Import, moves: seq<Move>, start: real, opening: Range, imports: seq<Import>, ranges: seq<Range>,
                              plan: Plan, plutoStartingValue: real, legs: seq<Leg>, plutoTickers: set<string>)
    requires DistinctMoves(moves) && StartsWith(cutOver, first, moves, start, opening) && Follow(cutOver, imports, moves, start, opening, ranges)
    requires first.statement.endingCash.Some? && IsPlan(plan, plutoStartingValue, first.statement.endingCash.value, legs, plutoTickers)
    requires imports != [] && imports[|imports| - 1].cutOffAt > cutOver.at && ranges[|ranges| - 1].end >= opening.end
    requires SeenLater(moves, ranges[|ranges| - 1].end, Reached(cutOver, opening, ReadingsOf(imports), ranges), imports[|imports| - 1].cutOffAt)
    ensures opening.end <= ranges[|ranges| - 1].end <= |moves|
    ensures var readings := ReadingsOf(imports);
            var gap := GapOf(AllImported(OpeningEntries(plan, cutOver.at), cutOver, readings), readings[|readings| - 1]);
            var rows := LongCount(moves, opening.end, ranges[|ranges| - 1].end);
            && gap.Some? && -HALF_STEP * (rows + 2) as real <= gap.value <= HALF_STEP * (rows + 2) as real
            && (rows < LONG_ROWS_ALLOWED ==> GapProblems(gap) == [])
  {
    hide StartsWith, Follow, DistinctMoves, IsStatementOf, ReadingOf, CashOf, IsPlan, OpeningEntries, OpeningCash, IsOpening, GapOf, AllImported, LongCount, History, Reached,
      NoneReachesBack, SeenLater;
    var last := |imports| - 1;
    StatementsAreAHistory(cutOver, first, moves, start, opening, imports, ranges);
    BooksOpenWithTheCash(plan, cutOver, plutoStartingValue, first.statement.endingCash.value, legs, plutoTickers);
    Parts(cutOver, first, moves, start, opening, imports, ranges);
    EndsWithTheMoves(first, moves, start, opening);
    LastReading(imports);
    GapIsRounding(OpeningEntries(plan, cutOver.at), cutOver, moves, start, opening, ReadingsOf(imports), ranges);
    WithinTolerance(LongCount(moves, opening.end, ranges[last].end));
  }

  lemma Parts(cutOver: CutOver, first: Import, moves: seq<Move>, start: real, opening: Range, imports: seq<Import>, ranges: seq<Range>)
    requires StartsWith(cutOver, first, moves, start, opening) && Follow(cutOver, imports, moves, start, opening, ranges)
    ensures IsStatementOf(first, moves, start, opening) && |ranges| == |imports| && NoneReachesBack(opening, ranges)
  {
    hide IsStatementOf, Reached, NoneReachesBack;
  }

  lemma LastReading(imports: seq<Import>)
    requires imports != [] && AllHaveDates(imports)
    ensures var readings := ReadingsOf(imports); |readings| == |imports| && readings[|readings| - 1].cutOffAt == imports[|imports| - 1].cutOffAt
  {
    hide Attributed, CashRowDates;
    assert ReadingsOf(imports)[|imports| - 1] == ReadingOf(imports[|imports| - 1]);
  }

  lemma WithinTolerance(rows: nat)
    ensures rows < LONG_ROWS_ALLOWED ==> HALF_STEP * (rows + 2) as real < STATEMENT_GAP_TOLERANCE
  {}

  lemma EndsWithTheMoves(read: Import, moves: seq<Move>, start: real, range: Range)
    requires IsStatementOf(read, moves, start, range)
    ensures range.end <= |moves| && read.statement.endingCash == Some(start + CashOf(moves, range.end))
  {
    hide LinesOf, Attributed, Composed, CashOf, MovesOf, LineCash, Sum, ProblemsOf, AccountsFor, HeldOf, CashOutside;
    StatementAccounts(read.statement, read.context);
    AccountsComposed(Attributed(read.statement, read.context), LinesOf(read.statement, read.context));
    LineCashIsMoves(Attributed(read.statement, read.context).entries, LinesOf(read.statement, read.context));
    ReorderedSum(MovesOf(LinesOf(read.statement, read.context)), HeldOf(moves, range.rows, range.end));
    HeldIsCash(moves, range.rows, range.end);
  }
}
