/**
 The strike a day's intraday strike window is around: the one whose Call and Put cost the most alike
 among the 10:00 quotes (find_at_the_money_strike in scripts/backtest/download_thetadata_symbol.py).
 */
module AtTheMoney {
  import opened Wrappers
  import opened SliceCodec
  import opened SliceKeys
  import opened FlatPart
  import opened PartRows

  /** A 10:00 quote: strike, right, bid, ask, and more. */
  predicate QuoteRow(row: ListedRow) {
    ContractRow(row.values) && |row.values| >= 4
  }

  predicate QuoteRows(rows: seq<ListedRow>) {
    forall i :: 0 <= i < |rows| ==> QuoteRow(rows[i])
  }

  /** It is quoted on both sides, not crossed, and expires a day later at the earliest. */
  predicate Quoted(row: ListedRow, day: int)
    requires QuoteRow(row)
  {
    var bid, ask := row.values[2], row.values[3];
    bid.Number? && ask.Number? && 0.0 < ask.value && bid.value <= ask.value && row.expiry > day
  }

  function MidOf(row: ListedRow, day: int): real
    requires QuoteRow(row) && Quoted(row, day)
  {
    (row.values[2].value + row.values[3].value) / 2.0
  }

  /** A quote of the contract at an expiry. */
  predicate IsQuote(row: ListedRow, day: int, expiry: int, contract: Contract)
    requires QuoteRow(row)
  {
    Quoted(row, day) && row.expiry == expiry && ContractOf(row.values) == contract
  }

  /** The contract's mid: that of its last quote. */
  function Mid(rows: seq<ListedRow>, day: int, expiry: int, contract: Contract): Option<real>
    requires QuoteRows(rows)
  {
    if rows == [] then None else
    var last := rows[|rows| - 1];
    if IsQuote(last, day, expiry, contract) then Some(MidOf(last, day)) else Mid(rows[..|rows| - 1], day, expiry, contract)
  }

  predicate IsLastQuote(rows: seq<ListedRow>, day: int, expiry: int, contract: Contract, i: nat)
    requires QuoteRows(rows) && i < |rows|
  {
    IsQuote(rows[i], day, expiry, contract) && forall j :: i < j < |rows| ==> !IsQuote(rows[j], day, expiry, contract)
  }

  lemma {:induction false} LastQuote(rows: seq<ListedRow>, day: int, expiry: int, contract: Contract) returns (i: nat)
    requires QuoteRows(rows)
    ensures if Mid(rows, day, expiry, contract).None? then forall i :: 0 <= i < |rows| ==> !IsQuote(rows[i], day, expiry, contract)
            else i < |rows| && IsLastQuote(rows, day, expiry, contract, i) && Mid(rows, day, expiry, contract) == Some(MidOf(rows[i], day))
  {
    i := 0;
    if rows != [] {
      hide Quoted, MidOf;
      i := |rows| - 1;
      if !IsQuote(rows[i], day, expiry, contract) {
        i := LastQuote(rows[..|rows| - 1], day, expiry, contract);
      }
    }
  }

  /** A contract without a quote has no mid, and any other half of what its last quote's bid and ask come to. */
  lemma MidIsOfTheLast(rows: seq<ListedRow>, day: int, expiry: int, contract: Contract)
    requires QuoteRows(rows)
    ensures Mid(rows, day, expiry, contract).None? <==> forall i :: 0 <= i < |rows| ==> !IsQuote(rows[i], day, expiry, contract)
    ensures forall i :: 0 <= i < |rows| && IsLastQuote(rows, day, expiry, contract, i) ==>
              Mid(rows, day, expiry, contract) == Some((rows[i].values[2].value + rows[i].values[3].value) / 2.0)
  {
    hide Quoted, Mid;
    var last := LastQuote(rows, day, expiry, contract);
  }

  /** The strike's Call and Put are both quoted. */
  predicate BothSides(rows: seq<ListedRow>, day: int, expiry: int, strike: real)
    requires QuoteRows(rows)
  {
    Mid(rows, day, expiry, Contract(strike, false)).Some? && Mid(rows, day, expiry, Contract(strike, true)).Some?
  }

  function Distance(a: real, b: real): real {
    if a >= b then a - b else b - a
  }

  function Gap(rows: seq<ListedRow>, day: int, expiry: int, strike: real): real
    requires QuoteRows(rows) && BothSides(rows, day, expiry, strike)
  {
    Distance(Mid(rows, day, expiry, Contract(strike, false)).value, Mid(rows, day, expiry, Contract(strike, true)).value)
  }

  /** Of the strikes of an expiry quoted on both sides, the one whose mids are closest, the lowest of several. */
  ghost predicate IsClosest(rows: seq<ListedRow>, day: int, expiry: int, strike: real)
    requires QuoteRows(rows)
  {
    && BothSides(rows, day, expiry, strike)
    && forall other :: BothSides(rows, day, expiry, other) ==>
      Gap(rows, day, expiry, strike) < Gap(rows, day, expiry, other) || (Gap(rows, day, expiry, strike) == Gap(rows, day, expiry, other) && strike <= other)
  }

  /** The expiry is the nearest with any strike quoted on both sides. */
  ghost predicate IsNearest(rows: seq<ListedRow>, day: int, expiry: int)
    requires QuoteRows(rows)
  {
    (exists strike :: BothSides(rows, day, expiry, strike)) && forall earlier, strike :: earlier < expiry ==> !BothSides(rows, day, earlier, strike)
  }

  ghost predicate IsAtTheMoney(rows: seq<ListedRow>, day: int, strike: real)
    requires QuoteRows(rows)
  {
    exists expiry :: IsNearest(rows, day, expiry) && IsClosest(rows, day, expiry, strike)
  }

  // ---------------------------------------------------------------------------------------
  // The dictionary of mids

  datatype Mids = Mids(call: Option<real>, put: Option<real>) {
    function Of(isPut: bool): Option<real> {
      if isPut then put else call
    }

    function With(isPut: bool, mid: real): Mids {
      if isPut then Mids(call, Some(mid)) else Mids(Some(mid), put)
    }
  }

  /** An expiry's mids by strike, the strikes in the order they came. */
  datatype Ladder = Ladder(strikes: seq<real>, mids: map<real, Mids>)

  ghost predicate IsLadder(ladder: Ladder) {
    forall strike :: strike in ladder.strikes <==> strike in ladder.mids
  }

  function MidIn(ladder: Ladder, contract: Contract): Option<real> {
    if contract.strike in ladder.mids then ladder.mids[contract.strike].Of(contract.put) else None
  }

  function MidAmong(ladders: map<int, Ladder>, expiry: int, contract: Contract): Option<real> {
    if expiry in ladders then MidIn(ladders[expiry], contract) else None
  }

  function WithMid(ladder: Ladder, contract: Contract, mid: real): (after: Ladder)
    requires IsLadder(ladder)
    ensures IsLadder(after)
    ensures forall other :: MidIn(after, other) == if other == contract then Some(mid) else MidIn(ladder, other)
  {
    if contract.strike in ladder.mids then ladder.(mids := ladder.mids[contract.strike := ladder.mids[contract.strike].With(contract.put, mid)])
    else Ladder(ladder.strikes + [contract.strike], ladder.mids[contract.strike := Mids(None, None).With(contract.put, mid)])
  }

  /** The dictionary holds just the rows' mids. */
  ghost predicate HoldsMids(rows: seq<ListedRow>, day: int, ladders: map<int, Ladder>, expiries: seq<int>)
    requires QuoteRows(rows)
  {
    && Ascending(expiries) && (forall expiry :: expiry in expiries <==> expiry in ladders)
    && (forall expiry :: expiry in ladders ==> IsLadder(ladders[expiry]))
    && forall expiry, contract :: Mid(rows, day, expiry, contract) == MidAmong(ladders, expiry, contract)
  }

  lemma NoMids(day: int)
    ensures HoldsMids([], day, map[], [])
  {}

  lemma MidsOneMore(rows: seq<ListedRow>, day: int)
    requires QuoteRows(rows) && rows != []
    ensures var last, before := rows[|rows| - 1], rows[..|rows| - 1];
            forall expiry, contract :: Mid(rows, day, expiry, contract) == if IsQuote(last, day, expiry, contract) then Some(MidOf(last, day)) else Mid(before, day, expiry, contract)
  {}

  lemma LaddersAre(rows: seq<ListedRow>, day: int, ladders: map<int, Ladder>, expiries: seq<int>)
    requires QuoteRows(rows) && HoldsMids(rows, day, ladders, expiries)
    ensures Ascending(expiries) && IsLadder(Ladder([], map[])) && forall expiry :: expiry in ladders ==> IsLadder(ladders[expiry])
  {}

  lemma NoMidIsAdded(rows: seq<ListedRow>, day: int, ladders: map<int, Ladder>, expiries: seq<int>)
    requires QuoteRows(rows) && rows != [] && HoldsMids(rows[..|rows| - 1], day, ladders, expiries) && !Quoted(rows[|rows| - 1], day)
    ensures HoldsMids(rows, day, ladders, expiries)
  {
    MidsOneMore(rows, day);
    hide Mid, MidAmong, Quoted, IsLadder;
  }

  lemma MidIsAdded(rows: seq<ListedRow>, day: int, before: map<int, Ladder>, were: seq<int>, ladder: Ladder, ladders: map<int, Ladder>, expiries: seq<int>)
    requires QuoteRows(rows) && rows != [] && HoldsMids(rows[..|rows| - 1], day, before, were) && Quoted(rows[|rows| - 1], day)
    requires var last := rows[|rows| - 1];
             && IsLadder(ladder) && ladders == before[last.expiry := ladder] && expiries == WithKey(were, last.expiry)
             && forall other :: MidIn(ladder, other) == if other == ContractOf(last.values) then Some(MidOf(last, day)) else MidAmong(before, last.expiry, other)
    ensures HoldsMids(rows, day, ladders, expiries)
  {
    MidsOneMore(rows, day);
    hide Mid, MidIn, Quoted, IsLadder;
  }

  method CollectMids(rows: seq<ListedRow>, day: int) returns (ladders: map<int, Ladder>, expiries: seq<int>)
    requires QuoteRows(rows)
    ensures HoldsMids(rows, day, ladders, expiries)
  {
    hide Mid, WithMid, HoldsMids, IsLadder;
    ladders, expiries := map[], [];
    NoMids(day);
    for i := 0 to |rows|
      invariant HoldsMids(rows[..i], day, ladders, expiries)
    {
      var row := rows[i];
      assert rows[..i + 1][..i] == rows[..i];
      var bid, ask := row.values[2], row.values[3];
      LaddersAre(rows[..i], day, ladders, expiries);
      if bid.Number? && ask.Number? && ask.value > 0.0 && bid.value <= ask.value && row.expiry - day >= 1 {
        var ladder := WithMid(if row.expiry in ladders then ladders[row.expiry] else Ladder([], map[]), ContractOf(row.values), (bid.value + ask.value) / 2.0);
        ghost var before, were := ladders, expiries;
        ladders, expiries := ladders[row.expiry := ladder], WithKey(expiries, row.expiry);
        MidIsAdded(rows[..i + 1], day, before, were, ladder, ladders, expiries);
      } else {
        NoMidIsAdded(rows[..i + 1], day, ladders, expiries);
      }
    }
    assert rows[..|rows|] == rows;
  }

  // ---------------------------------------------------------------------------------------
  // The closest strike

  predicate BothIn(ladder: Ladder, strike: real) {
    strike in ladder.mids && ladder.mids[strike].call.Some? && ladder.mids[strike].put.Some?
  }

  function GapIn(ladder: Ladder, strike: real): real
    requires BothIn(ladder, strike)
  {
    Distance(ladder.mids[strike].call.value, ladder.mids[strike].put.value)
  }

  /** The strike comes before another by its gap, then by itself. */
  predicate NotAfter(ladder: Ladder, strike: real, other: real)
    requires BothIn(ladder, strike) && BothIn(ladder, other)
  {
    GapIn(ladder, strike) < GapIn(ladder, other) || (GapIn(ladder, strike) == GapIn(ladder, other) && strike <= other)
  }

  method ClosestStrike(ladder: Ladder) returns (closest: Option<real>)
    requires IsLadder(ladder)
    ensures closest.None? ==> forall strike :: !BothIn(ladder, strike)
    ensures closest.Some? ==> BothIn(ladder, closest.value) && forall other :: BothIn(ladder, other) ==> NotAfter(ladder, closest.value, other)
  {
    closest := None;
    for i := 0 to |ladder.strikes|
      invariant closest.None? ==> forall k :: 0 <= k < i ==> !BothIn(ladder, ladder.strikes[k])
      invariant closest.Some? ==> BothIn(ladder, closest.value) && forall k :: 0 <= k < i && BothIn(ladder, ladder.strikes[k]) ==> NotAfter(ladder, closest.value, ladder.strikes[k])
    {
      var strike := ladder.strikes[i];
      if BothIn(ladder, strike) && (closest.None? || !NotAfter(ladder, closest.value, strike)) {
        closest := Some(strike);
      }
    }
    assert forall strike :: BothIn(ladder, strike) ==> strike in ladder.strikes;
  }

  lemma LadderIs(rows: seq<ListedRow>, day: int, ladders: map<int, Ladder>, expiries: seq<int>, expiry: int, strike: real)
    requires QuoteRows(rows) && HoldsMids(rows, day, ladders, expiries)
    ensures BothSides(rows, day, expiry, strike) <==> expiry in ladders && BothIn(ladders[expiry], strike)
    ensures BothSides(rows, day, expiry, strike) ==> Gap(rows, day, expiry, strike) == GapIn(ladders[expiry], strike)
  {
    assert Mid(rows, day, expiry, Contract(strike, false)) == MidAmong(ladders, expiry, Contract(strike, false));
    assert Mid(rows, day, expiry, Contract(strike, true)) == MidAmong(ladders, expiry, Contract(strike, true));
  }

  /** find_at_the_money_strike: none when no strike is quoted on both sides. */
  method FindAtTheMoneyStrike(rows: seq<ListedRow>, day: int) returns (strike: Option<real>)
    requires QuoteRows(rows)
    ensures strike.Some? ==> IsAtTheMoney(rows, day, strike.value)
    ensures strike.None? ==> forall expiry, other :: !BothSides(rows, day, expiry, other)
  {
    hide Mid, Quoted, BothSides, Gap, HoldsMids;
    var ladders, expiries := CollectMids(rows, day);
    ExpiriesAre(rows, day, ladders, expiries);
    for i := 0 to |expiries|
      invariant forall k, other :: 0 <= k < i ==> !BothSides(rows, day, expiries[k], other)
    {
      strike := ClosestStrike(ladders[expiries[i]]);
      forall other
        ensures BothSides(rows, day, expiries[i], other) <==> BothIn(ladders[expiries[i]], other)
        ensures BothSides(rows, day, expiries[i], other) ==> Gap(rows, day, expiries[i], other) == GapIn(ladders[expiries[i]], other)
      {
        LadderIs(rows, day, ladders, expiries, expiries[i], other);
      }
      if strike.Some? {
        assert IsNearest(rows, day, expiries[i]);
        assert IsClosest(rows, day, expiries[i], strike.value);
        return;
      }
    }
    strike := None;
  }

  lemma ExpiriesAre(rows: seq<ListedRow>, day: int, ladders: map<int, Ladder>, expiries: seq<int>)
    requires QuoteRows(rows) && HoldsMids(rows, day, ladders, expiries)
    ensures Ascending(expiries)
    ensures forall k :: 0 <= k < |expiries| ==> expiries[k] in ladders && IsLadder(ladders[expiries[k]])
    ensures forall expiry, strike :: BothSides(rows, day, expiry, strike) ==> expiry in expiries
  {
    hide Mid, Quoted, BothSides, IsLadder;
    forall k | 0 <= k < |expiries|
      ensures expiries[k] in ladders && IsLadder(ladders[expiries[k]])
    {
      assert expiries[k] in expiries;
    }
    forall expiry, strike | BothSides(rows, day, expiry, strike)
      ensures expiry in expiries
    {
      LadderIs(rows, day, ladders, expiries, expiry, strike);
    }
  }

  // ---------------------------------------------------------------------------------------
  // What it depends on

  /** There is one at most. */
  lemma OneAtTheMoney(rows: seq<ListedRow>, day: int, a: real, b: real)
    requires QuoteRows(rows) && IsAtTheMoney(rows, day, a) && IsAtTheMoney(rows, day, b)
    ensures a == b
  {
    hide Mid, Gap, BothSides;
    var first :| IsNearest(rows, day, first) && IsClosest(rows, day, first, a);
    var second :| IsNearest(rows, day, second) && IsClosest(rows, day, second, b);
    assert BothSides(rows, day, first, a) && BothSides(rows, day, second, b);
  }

  /** No contract of an expiry is given twice. */
  predicate EachOnce(rows: seq<ListedRow>)
    requires QuoteRows(rows)
  {
    forall i, j :: 0 <= i < j < |rows| ==> !(rows[i].expiry == rows[j].expiry && ContractOf(rows[i].values) == ContractOf(rows[j].values))
  }

  lemma QuotedInBoth(a: seq<ListedRow>, b: seq<ListedRow>, day: int, expiry: int, contract: Contract)
    requires QuoteRows(a) && QuoteRows(b) && EachOnce(b) && (forall row :: row in a ==> row in b) && Mid(a, day, expiry, contract).Some?
    ensures Mid(b, day, expiry, contract) == Mid(a, day, expiry, contract)
  {
    var i := LastQuote(a, day, expiry, contract);
    var j := LastQuote(b, day, expiry, contract);
    hide Mid, Quoted;
    assert a[i] in b;
    var k :| 0 <= k < |b| && b[k] == a[i];
    assert k == j;
  }

  lemma SameMids(a: seq<ListedRow>, b: seq<ListedRow>, day: int, expiry: int, contract: Contract)
    requires QuoteRows(a) && QuoteRows(b) && EachOnce(a) && EachOnce(b) && forall row :: row in a <==> row in b
    ensures Mid(a, day, expiry, contract) == Mid(b, day, expiry, contract)
  {
    hide Mid;
    if Mid(a, day, expiry, contract).Some? {
      QuotedInBoth(a, b, day, expiry, contract);
    } else if Mid(b, day, expiry, contract).Some? {
      QuotedInBoth(b, a, day, expiry, contract);
    }
  }

  /** The rows as they came and as the file gives them back, in any other order, have the same strike. */
  lemma SameRowsSameStrike(a: seq<ListedRow>, b: seq<ListedRow>, day: int, strike: real)
    requires QuoteRows(a) && QuoteRows(b) && EachOnce(a) && EachOnce(b) && forall row :: row in a <==> row in b
    ensures IsAtTheMoney(a, day, strike) <==> IsAtTheMoney(b, day, strike)
  {
    forall expiry, contract
      ensures Mid(a, day, expiry, contract) == Mid(b, day, expiry, contract)
    {
      SameMids(a, b, day, expiry, contract);
    }
    hide Mid;
    forall expiry, other
      ensures BothSides(a, day, expiry, other) == BothSides(b, day, expiry, other)
      ensures BothSides(a, day, expiry, other) ==> Gap(a, day, expiry, other) == Gap(b, day, expiry, other)
    {}
    hide BothSides, Gap;
    forall expiry
      ensures IsNearest(a, day, expiry) == IsNearest(b, day, expiry)
      ensures IsClosest(a, day, expiry, strike) == IsClosest(b, day, expiry, strike)
    {}
  }
}
