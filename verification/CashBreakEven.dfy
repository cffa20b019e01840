/**
 An open cycle's cash break-even and shares read back from its timeline (src/backtest/cycleCashBreakEven.ts).
 Rows' labels are read beforehand; instants and days are integers, and a day's split factor is above 0.
 */
module CashBreakEven {
  import opened Wrappers
  import opened HedgeFifo

  datatype Kind = BoughtShares | PutAssigned | SoldShares | CallAssigned | BoughtPut | PutFromTheKept | SoldPut | PutKept | MarkedShares | OpenMark | OtherRow

  datatype Bucket = Hedge | Leaps | OtherBucket

  datatype Row = Row(at: Option<int>, day: int, kind: Kind, bucket: Bucket, quantity: real, strike: Option<real>, expiry: Option<int>, stockPrice: Option<real>,
                     premium: real, commission: Option<real>)

  /** How a timeline is read: a day's split factor, the hedge's realized P&L in or not, the other options' premium in or not. */
  datatype Options = Options(factorOf: int -> real, hedgeIncluded: bool, premiumsIncluded: bool) {
    ghost predicate Valid() {
      forall day :: factorOf(day) > 0.0
    }
  }

  /** A purchase of hedge Puts is of some. */
  predicate HedgePurchasesAreSome(timeline: seq<Row>) {
    forall i :: 0 <= i < |timeline| && IsHedgePurchase(timeline[i]) ==> timeline[i].quantity > 0.0
  }

  /** With the hedge in the break-even its purchases' costs per share are numbers. */
  predicate HedgeCanBeRead(timeline: seq<Row>, options: Options) {
    options.hedgeIncluded ==> HedgePurchasesAreSome(timeline)
  }

  function Direction(kind: Kind): int {
    match kind
    case BoughtShares => 1
    case PutAssigned => 1
    case SoldShares => -1
    case CallAssigned => -1
    case _ => 0
  }

  function OrZero(value: Option<real>): real {
    if value.Some? then value.value else 0.0
  }

  function Dollars(row: Row): real {
    row.quantity * (if row.kind == PutAssigned || row.kind == CallAssigned then OrZero(row.strike) else OrZero(row.stockPrice))
  }

  /** The premium a row counts. */
  function PremiumOf(row: Row, hedgeRealized: real, premiumsIncluded: bool): real {
    match row.bucket
    case Hedge => hedgeRealized
    case Leaps => 0.0
    case OtherBucket => if premiumsIncluded && !(row.at.None? && row.kind == OpenMark) then row.premium else 0.0
  }

  /** acquired − disposed − premium of a row. */
  function NetOf(row: Row, hedgeRealized: real, premiumsIncluded: bool): real {
    var acquired := if Direction(row.kind) == 1 then Dollars(row) + OrZero(row.commission) else 0.0;
    var disposed := if Direction(row.kind) == -1 then Dollars(row) - OrZero(row.commission) else 0.0;
    acquired - disposed - PremiumOf(row, hedgeRealized, premiumsIncluded)
  }

  /** Split-adjusted shares in or out. */
  function SharesIn(row: Row, options: Options): real {
    Direction(row.kind) as real * row.quantity * options.factorOf(row.day)
  }

  // ---------------------------------------------------------------------------------------
  // The hedge's realized P&L

  /** A contract on one scale: its strike split-adjusted, to four decimals. */
  datatype Contract = Contract(expiry: Option<int>, strikeSteps: int)

  predicate IsHedgeRow(row: Row) {
    row.bucket == Hedge && row.at.Some? && row.strike.Some?
  }

  predicate IsHedgePurchase(row: Row) {
    IsHedgeRow(row) && (row.kind == BoughtPut || row.kind == PutFromTheKept)
  }

  predicate IsHedgeSale(row: Row) {
    IsHedgeRow(row) && (row.kind == SoldPut || row.kind == PutKept)
  }

  function ContractOf(row: Row, options: Options): Contract
    requires IsHedgeRow(row) && options.Valid()
  {
    Contract(row.expiry, (row.strike.value / options.factorOf(row.day) * 10000.0 + 0.5).Floor)
  }

  function AdjustedShares(row: Row, options: Options): (shares: real)
    requires options.Valid()
    ensures row.quantity > 0.0 ==> shares > 0.0
  {
    var factor := options.factorOf(row.day);
    PositiveProduct(row.quantity, factor);
    row.quantity * factor
  }

  lemma PositiveProduct(a: real, b: real)
    requires b > 0.0
    ensures a > 0.0 ==> a * b > 0.0
  {}

  type Holdings = map<Contract, seq<Lot>>

  ghost predicate AllHeld(holdings: Holdings) {
    forall contract :: contract in holdings ==> Held(holdings[contract])
  }

  function LotsOf(holdings: Holdings, contract: Contract): (lots: seq<Lot>)
    requires AllHeld(holdings)
    ensures Held(lots)
  {
    if contract in holdings then holdings[contract] else []
  }

  /** A row's part of the hedge's P&L and what it leaves held. */
  function HedgeStep(holdings: Holdings, row: Row, options: Options): (r: (Holdings, real))
    requires options.Valid() && AllHeld(holdings) && (IsHedgePurchase(row) ==> row.quantity > 0.0)
    ensures AllHeld(r.0)
  {
    if !IsHedgeRow(row) then (holdings, 0.0) else
    var contract := ContractOf(row, options);
    var lots := LotsOf(holdings, contract);
    if IsHedgePurchase(row) then (holdings[contract := lots + [Lot(AdjustedShares(row, options), -row.premium)]], 0.0)
    else if !IsHedgeSale(row) then (holdings[contract := lots], 0.0)
    else
      var (cost, left) := Take(lots, AdjustedShares(row, options));
      (holdings[contract := left], row.premium - cost)
  }

  function HoldingsAfter(timeline: seq<Row>, options: Options): (holdings: Holdings)
    requires options.Valid() && HedgePurchasesAreSome(timeline)
    ensures AllHeld(holdings)
  {
    if timeline == [] then map[] else HedgeStep(HoldingsAfter(timeline[..|timeline| - 1], options), timeline[|timeline| - 1], options).0
  }

  /** The hedge's part of the row at `n`. */
  function HedgeRealizedAt(timeline: seq<Row>, options: Options, n: nat): real
    requires options.Valid() && HedgeCanBeRead(timeline, options) && n < |timeline|
  {
    if options.hedgeIncluded then HedgeStep(HoldingsAfter(timeline[..n], options), timeline[n], options).1 else 0.0
  }

  method HedgeRealizedByRow(timeline: seq<Row>, options: Options) returns (amounts: seq<real>)
    requires options.Valid() && HedgeCanBeRead(timeline, options)
    ensures |amounts| == |timeline| && forall n :: 0 <= n < |timeline| ==> amounts[n] == HedgeRealizedAt(timeline, options, n)
  {
    hide Take, AdjustedShares, ContractOf, Held;
    if !options.hedgeIncluded {
      return seq(|timeline|, n => 0.0);
    }
    var holdings: Holdings := map[];
    amounts := [];
    assert timeline[..0] == [];
    for n := 0 to |timeline|
      invariant |amounts| == n && holdings == HoldingsAfter(timeline[..n], options)
      invariant forall k :: 0 <= k < n ==> amounts[k] == HedgeRealizedAt(timeline, options, k)
    {
      var row := timeline[n];
      assert timeline[..n + 1][..n] == timeline[..n];
      if !IsHedgeRow(row) {
        amounts := amounts + [0.0];
        continue;
      }
      var contract := ContractOf(row, options);
      var purchases := LotsOf(holdings, contract);
      if IsHedgePurchase(row) {
        holdings := holdings[contract := purchases + [Lot(AdjustedShares(row, options), -row.premium)]];
        amounts := amounts + [0.0];
      } else if !IsHedgeSale(row) {
        holdings := holdings[contract := purchases];
        amounts := amounts + [0.0];
      } else {
        var cost, left := TakeOldest(purchases, AdjustedShares(row, options));
        holdings := holdings[contract := left];
        amounts := amounts + [row.premium - cost];
      }
    }
  }

  // ---------------------------------------------------------------------------------------
  // Moments

  /** Each row's moment: rows of one instant in a row share it. */
  function MomentOf(timeline: seq<Row>, n: nat): nat
    requires n < |timeline|
  {
    if n == 0 then 0 else MomentOf(timeline, n - 1) + if timeline[n].at != timeline[n - 1].at then 1 else 0
  }

  lemma MomentStep(timeline: seq<Row>, n: nat)
    requires n < |timeline|
    ensures MomentOf(timeline, n) == if n == 0 then 0 else MomentOf(timeline, n - 1) + if timeline[n].at != timeline[n - 1].at then 1 else 0
  {}

  method MomentIndexes(timeline: seq<Row>) returns (moments: seq<nat>)
    ensures |moments| == |timeline| && forall n :: 0 <= n < |timeline| ==> moments[n] == MomentOf(timeline, n)
  {
    hide MomentOf;
    var index: int := -1;
    moments := [];
    for position := 0 to |timeline|
      invariant |moments| == position && index >= -1 && (position == 0 <==> index == -1)
      invariant forall n :: 0 <= n < position ==> moments[n] == MomentOf(timeline, n)
      invariant position > 0 ==> index == MomentOf(timeline, position - 1)
    {
      MomentStep(timeline, position);
      if position == 0 || timeline[position].at != timeline[position - 1].at {
        index := index + 1;
      }
      moments := moments + [index];
    }
  }

  /** The first row of a row's moment. */
  function MomentStart(timeline: seq<Row>, n: nat): (start: nat)
    requires n < |timeline|
    ensures start <= n
  {
    if n == 0 || timeline[n].at != timeline[n - 1].at then n else MomentStart(timeline, n - 1)
  }

  // ---------------------------------------------------------------------------------------
  // The break-even before each row

  /** What the first `n` rows cost net, the hedge's part in each. */
  function NetBefore(timeline: seq<Row>, options: Options, n: nat): real
    requires options.Valid() && HedgeCanBeRead(timeline, options) && n <= |timeline|
  {
    if n == 0 then 0.0 else
    NetBefore(timeline, options, n - 1) + NetOf(timeline[n - 1], HedgeRealizedAt(timeline, options, n - 1), options.premiumsIncluded)
  }

  function SharesBefore(timeline: seq<Row>, options: Options, n: nat): real
    requires n <= |timeline|
  {
    if n == 0 then 0.0 else SharesBefore(timeline, options, n - 1) + SharesIn(timeline[n - 1], options)
  }

  /** The hedge's part of a moment's rows among the first `n`. */
  function HedgeOfMoment(timeline: seq<Row>, options: Options, moment: nat, n: nat): real
    requires options.Valid() && HedgeCanBeRead(timeline, options) && n <= |timeline|
  {
    if n == 0 then 0.0 else
    HedgeOfMoment(timeline, options, moment, n - 1) + if MomentOf(timeline, n - 1) == moment then HedgeRealizedAt(timeline, options, n - 1) else 0.0
  }

  /** What the shares held just before the row's moment had to bring, per share as traded on its day: the moment's hedge sales count, nothing else of it does. */
  function BreakEvenBefore(timeline: seq<Row>, options: Options, n: nat): Option<real>
    requires options.Valid() && HedgeCanBeRead(timeline, options) && n < |timeline|
  {
    var start := MomentStart(timeline, n);
    var net := NetBefore(timeline, options, start) - HedgeOfMoment(timeline, options, MomentOf(timeline, n), |timeline|);
    var shares := SharesBefore(timeline, options, start) / options.factorOf(timeline[n].day);
    if shares > 0.0 then Some(net / shares) else None
  }

  /** cashBreakEvenBeforeEachRow, with running sums. */
  method CashBreakEvenBeforeEachRow(timeline: seq<Row>, options: Options) returns (values: seq<Option<real>>)
    requires options.Valid() && HedgeCanBeRead(timeline, options)
    ensures |values| == |timeline| && forall n :: 0 <= n < |timeline| ==> values[n] == BreakEvenBefore(timeline, options, n)
  {
    hide HedgeRealizedAt, NetOf, SharesIn;
    var moments := MomentIndexes(timeline);
    var hedgeRealized := HedgeRealizedByRow(timeline, options);
    var hedgeByMoment: map<nat, real> := map[];
    for position := 0 to |timeline|
      invariant forall moment: nat :: HedgeOfMoment(timeline, options, moment, position) == if moment in hedgeByMoment then hedgeByMoment[moment] else 0.0
    {
      if hedgeRealized[position] != 0.0 {
        var moment := moments[position];
        hedgeByMoment := hedgeByMoment[moment := (if moment in hedgeByMoment then hedgeByMoment[moment] else 0.0) + hedgeRealized[position]];
      }
    }
    var net, adjustedShares, netAtStart, sharesAtStart := 0.0, 0.0, 0.0, 0.0;
    values := [];
    for position := 0 to |timeline|
      invariant |values| == position && forall n :: 0 <= n < position ==> values[n] == BreakEvenBefore(timeline, options, n)
      invariant net == NetBefore(timeline, options, position) && adjustedShares == SharesBefore(timeline, options, position)
      invariant position > 0 ==> AtMomentStart(timeline, options, position - 1, netAtStart, sharesAtStart)
    {
      var row := timeline[position];
      if position == 0 || moments[position] != moments[position - 1] {
        netAtStart := net - (if moments[position] in hedgeByMoment then hedgeByMoment[moments[position]] else 0.0);
        sharesAtStart := adjustedShares;
      }
      net := net + NetOf(row, hedgeRealized[position], options.premiumsIncluded);
      adjustedShares := adjustedShares + SharesIn(row, options);
      var sharesOnRowDay := sharesAtStart / options.factorOf(row.day);
      values := values + [if sharesOnRowDay > 0.0 then Some(netAtStart / sharesOnRowDay) else None];
    }
  }

  predicate AtMomentStart(timeline: seq<Row>, options: Options, n: nat, net: real, shares: real)
    requires options.Valid() && HedgeCanBeRead(timeline, options) && n < |timeline|
  {
    var start := MomentStart(timeline, n);
    && net == NetBefore(timeline, options, start) - HedgeOfMoment(timeline, options, MomentOf(timeline, n), |timeline|)
    && shares == SharesBefore(timeline, options, start)
  }

  // ---------------------------------------------------------------------------------------
  // The shares

  function Rounded(shares: real): real {
    (shares * 1000000.0 + 0.5).Floor as real / 1000000.0
  }

  /** The first row after a row's moment. */
  function MomentEnd(timeline: seq<Row>, n: nat): (end: nat)
    requires n < |timeline|
    ensures n < end <= |timeline|
    decreases |timeline| - n
  {
    if n + 1 == |timeline| || timeline[n + 1].at != timeline[n].at then n + 1 else MomentEnd(timeline, n + 1)
  }

  function SharesAfterMoment(timeline: seq<Row>, options: Options, n: nat): real
    requires options.Valid() && n < |timeline|
  {
    Rounded(SharesBefore(timeline, options, MomentEnd(timeline, n)) / options.factorOf(timeline[n].day))
  }

  /** sharesHeldAfterEachMoment: a moment's shares written over with each of its rows. */
  method SharesHeldAfterEachMoment(timeline: seq<Row>, options: Options) returns (shares: seq<real>)
    requires options.Valid()
    ensures |shares| == |timeline| && forall n :: 0 <= n < |timeline| ==> shares[n] == SharesAfterMoment(timeline, options, n)
  {
    hide SharesIn, Rounded;
    var moments := MomentIndexes(timeline);
    var adjustedAfterMoment: map<nat, real> := map[];
    var adjustedShares := 0.0;
    for position := 0 to |timeline|
      invariant adjustedShares == SharesBefore(timeline, options, position)
      invariant forall n :: 0 <= n < position ==>
        moments[n] in adjustedAfterMoment && adjustedAfterMoment[moments[n]] == SharesBefore(timeline, options, LastOfMoment(timeline, n, position))
    {
      adjustedShares := adjustedShares + SharesIn(timeline[position], options);
      LastOneMore(timeline, position);
      adjustedAfterMoment := adjustedAfterMoment[moments[position] := adjustedShares];
    }
    shares := [];
    for position := 0 to |timeline|
      invariant |shares| == position && forall n :: 0 <= n < position ==> shares[n] == SharesAfterMoment(timeline, options, n)
    {
      LastIsEnd(timeline, position);
      shares := shares + [Rounded(adjustedAfterMoment[moments[position]] / options.factorOf(timeline[position].day))];
    }
  }

  /** One past the last row of a row's moment among the first `n`. */
  function LastOfMoment(timeline: seq<Row>, i: nat, n: nat): (last: nat)
    requires i < n <= |timeline|
    ensures i < last <= n
    decreases n
  {
    if MomentOf(timeline, n - 1) == MomentOf(timeline, i) then n else LastOfMoment(timeline, i, n - 1)
  }

  lemma LastOneMore(timeline: seq<Row>, n: nat)
    requires n < |timeline|
    ensures LastOfMoment(timeline, n, n + 1) == n + 1
    ensures forall i :: 0 <= i < n ==> LastOfMoment(timeline, i, n + 1) == if MomentOf(timeline, i) == MomentOf(timeline, n) then n + 1 else LastOfMoment(timeline, i, n)
  {}

  lemma {:induction false} MomentsGrow(timeline: seq<Row>, i: nat, j: nat)
    requires i <= j < |timeline|
    ensures MomentOf(timeline, i) <= MomentOf(timeline, j)
    decreases j
  {
    if i < j {
      MomentsGrow(timeline, i, j - 1);
    }
  }

  lemma {:induction false} EndIsTheMoments(timeline: seq<Row>, i: nat)
    requires i < |timeline|
    ensures forall j :: i <= j < MomentEnd(timeline, i) ==> MomentOf(timeline, j) == MomentOf(timeline, i)
    ensures forall j :: MomentEnd(timeline, i) <= j < |timeline| ==> MomentOf(timeline, j) > MomentOf(timeline, i)
    decreases |timeline| - i
  {
    var end := MomentEnd(timeline, i);
    if end > i + 1 {
      EndIsTheMoments(timeline, i + 1);
    } else if end < |timeline| {
      forall j | end <= j < |timeline|
        ensures MomentOf(timeline, j) > MomentOf(timeline, i)
      {
        MomentsGrow(timeline, end, j);
      }
    }
  }

  lemma {:induction false} LastWithin(timeline: seq<Row>, i: nat, n: nat)
    requires i < |timeline| && MomentEnd(timeline, i) <= n <= |timeline|
    ensures LastOfMoment(timeline, i, n) == MomentEnd(timeline, i)
    decreases n
  {
    EndIsTheMoments(timeline, i);
    if n > MomentEnd(timeline, i) {
      LastWithin(timeline, i, n - 1);
    }
  }

  lemma LastIsEnd(timeline: seq<Row>, i: nat)
    requires i < |timeline|
    ensures LastOfMoment(timeline, i, |timeline|) == MomentEnd(timeline, i)
  {
    LastWithin(timeline, i, |timeline|);
  }

  /** What the rows up to an instant bring, wherever they stand. */
  function SharesUpTo(timeline: seq<Row>, options: Options, at: int, n: nat): real
    requires n <= |timeline|
  {
    if n == 0 then 0.0 else
    SharesUpTo(timeline, options, at, n - 1) + if timeline[n - 1].at.Some? && timeline[n - 1].at.value <= at then SharesIn(timeline[n - 1], options) else 0.0
  }

  /** sharesHeldAtInstant */
  method SharesHeldAtInstant(timeline: seq<Row>, at: int, day: int, options: Options) returns (shares: real)
    requires options.Valid()
    ensures shares == Rounded(SharesUpTo(timeline, options, at, |timeline|) / options.factorOf(day))
  {
    hide Rounded;
    var adjustedShares := 0.0;
    for n := 0 to |timeline|
      invariant adjustedShares == SharesUpTo(timeline, options, at, n)
    {
      if timeline[n].at.Some? && timeline[n].at.value <= at {
        adjustedShares := adjustedShares + Direction(timeline[n].kind) as real * timeline[n].quantity * options.factorOf(timeline[n].day);
      }
    }
    shares := Rounded(adjustedShares / options.factorOf(day));
  }

  /** sharesHeldAtMarks */
  function SharesAtMarks(timeline: seq<Row>): real {
    if timeline == [] then 0.0 else SharesAtMarks(timeline[..|timeline| - 1]) + if timeline[|timeline| - 1].kind == MarkedShares then timeline[|timeline| - 1].quantity else 0.0
  }

  /** What the shares the marks hold have to bring, per share. */
  function BreakEvenOf(timeline: seq<Row>, options: Options): Option<real>
    requires options.Valid() && HedgeCanBeRead(timeline, options)
  {
    if SharesAtMarks(timeline) > 0.0 then Some(NetBefore(timeline, options, |timeline|) / SharesAtMarks(timeline)) else None
  }

  /** cycleCashBreakEven */
  method CycleCashBreakEven(timeline: seq<Row>, options: Options) returns (value: Option<real>)
    requires options.Valid() && HedgeCanBeRead(timeline, options)
    ensures value == BreakEvenOf(timeline, options)
  {
    hide HedgeRealizedAt, NetOf;
    var hedgeRealized := HedgeRealizedByRow(timeline, options);
    var net := 0.0;
    for n := 0 to |timeline|
      invariant net == NetBefore(timeline, options, n)
    {
      net := net + NetOf(timeline[n], hedgeRealized[n], options.premiumsIncluded);
    }
    var sharesHeld := SharesAtMarks(timeline);
    value := if sharesHeld > 0.0 then Some(net / sharesHeld) else None;
  }

  // ---------------------------------------------------------------------------------------
  // Running forms against closed forms

  /** Rows in the order of their instants, those of no instant last. */
  predicate InTimeOrder(timeline: seq<Row>) {
    forall i, j :: 0 <= i < j < |timeline| && timeline[j].at.Some? ==> timeline[i].at.Some? && timeline[i].at.value <= timeline[j].at.value
  }

  lemma {:induction false} UpToIsBefore(timeline: seq<Row>, options: Options, at: int, n: nat, end: nat)
    requires n <= |timeline| && end <= |timeline|
    requires forall i :: 0 <= i < |timeline| ==> (i < end <==> timeline[i].at.Some? && timeline[i].at.value <= at)
    ensures SharesUpTo(timeline, options, at, n) == SharesBefore(timeline, options, if n < end then n else end)
  {
    hide SharesIn;
    if n > 0 {
      UpToIsBefore(timeline, options, at, n - 1, end);
    }
  }

  lemma {:induction false} MomentEndIs(timeline: seq<Row>, n: nat)
    requires n < |timeline|
    ensures forall i :: n <= i < MomentEnd(timeline, n) ==> timeline[i].at == timeline[n].at
    ensures MomentEnd(timeline, n) < |timeline| ==> timeline[MomentEnd(timeline, n)].at != timeline[n].at
    decreases |timeline| - n
  {
    if MomentEnd(timeline, n) > n + 1 {
      MomentEndIs(timeline, n + 1);
    }
  }

  /** On a timeline in time order, the shares once a row's moment is done are the shares held at its instant. */
  lemma SharesAgree(timeline: seq<Row>, options: Options, n: nat)
    requires options.Valid() && InTimeOrder(timeline) && n < |timeline| && timeline[n].at.Some?
    ensures SharesAfterMoment(timeline, options, n)
            == Rounded(SharesUpTo(timeline, options, timeline[n].at.value, |timeline|) / options.factorOf(timeline[n].day))
  {
    hide SharesIn, Rounded;
    var at, end := timeline[n].at.value, MomentEnd(timeline, n);
    MomentEndIs(timeline, n);
    forall i | 0 <= i < |timeline|
      ensures i < end <==> timeline[i].at.Some? && timeline[i].at.value <= at
    {
      if i >= end && timeline[i].at.Some? {
        assert timeline[end].at.Some?;
        assert timeline[n].at.value <= timeline[end].at.value;
      }
    }
    UpToIsBefore(timeline, options, at, |timeline|, end);
  }

  /** Out of time order they need not agree: shares bought at 2 and listed before a row of 1 count for that row. */
  lemma SharesOutOfOrder() returns (timeline: seq<Row>, options: Options)
    ensures options.Valid() && |timeline| == 2 && timeline[1].at == Some(1)
    ensures SharesAfterMoment(timeline, options, 1) == 100.0
    ensures Rounded(SharesUpTo(timeline, options, 1, 2) / options.factorOf(timeline[1].day)) == 0.0
  {
    options := Options((day: int) => 1.0, false, true);
    var bought := Row(Some(2), 1, BoughtShares, OtherBucket, 100.0, None, None, None, 0.0, None);
    timeline := [bought, Row(Some(1), 1, OtherRow, OtherBucket, 0.0, None, None, None, 0.0, None)];
    assert SharesBefore(timeline, options, 1) == SharesBefore(timeline, options, 0) + 100.0;
    assert SharesBefore(timeline, options, 2) == 100.0;
    assert (100.0 * 1000000.0 + 0.5).Floor == 100000000;
    assert SharesUpTo(timeline, options, 1, 1) == SharesUpTo(timeline, options, 1, 0) == 0.0;
    assert (0.5).Floor == 0;
  }

  /** Rows of one moment share their value from before it, when their days have one split factor. */
  lemma {:induction false} OneValuePerMoment(timeline: seq<Row>, options: Options, i: nat, j: nat)
    requires options.Valid() && HedgeCanBeRead(timeline, options) && i <= j < |timeline| && MomentOf(timeline, i) == MomentOf(timeline, j)
    requires options.factorOf(timeline[i].day) == options.factorOf(timeline[j].day)
    ensures BreakEvenBefore(timeline, options, i) == BreakEvenBefore(timeline, options, j)
  {
    SameStart(timeline, i, j);
  }

  lemma {:induction false} SameStart(timeline: seq<Row>, i: nat, j: nat)
    requires i <= j < |timeline| && MomentOf(timeline, i) == MomentOf(timeline, j)
    ensures MomentStart(timeline, i) == MomentStart(timeline, j)
    decreases j
  {
    if i < j {
      MomentsGrow(timeline, i, j - 1);
      SameStart(timeline, i, j - 1);
    }
  }

  /** The moment's start is where its instant begins. */
  lemma {:induction false} MomentStartIs(timeline: seq<Row>, n: nat)
    requires n < |timeline|
    ensures var start := MomentStart(timeline, n);
            && (forall i :: start <= i <= n ==> timeline[i].at == timeline[n].at && MomentOf(timeline, i) == MomentOf(timeline, n))
            && (start > 0 ==> timeline[start - 1].at != timeline[n].at && MomentOf(timeline, start - 1) < MomentOf(timeline, n))
    decreases n
  {
    hide MomentOf, MomentStart;
    StartStep(timeline, n);
    if n > 0 {
      MomentStartIs(timeline, n - 1);
    }
  }

  lemma StartStep(timeline: seq<Row>, n: nat)
    requires n < |timeline|
    ensures n > 0 && timeline[n].at == timeline[n - 1].at ==>
              MomentStart(timeline, n) == MomentStart(timeline, n - 1) && MomentOf(timeline, n) == MomentOf(timeline, n - 1)
    ensures n == 0 || timeline[n].at != timeline[n - 1].at ==> MomentStart(timeline, n) == n && (n > 0 ==> MomentOf(timeline, n) == MomentOf(timeline, n - 1) + 1)
  {}

  /** Without the hedge in it, the value is the prefix sums' alone: what the rows before the moment cost net, per share they left. */
  lemma {:induction false} NoHedgeNoMomentPart(timeline: seq<Row>, options: Options, moment: nat, n: nat)
    requires options.Valid() && HedgeCanBeRead(timeline, options) && n <= |timeline| && !options.hedgeIncluded
    ensures HedgeOfMoment(timeline, options, moment, n) == 0.0
  {
    if n > 0 {
      NoHedgeNoMomentPart(timeline, options, moment, n - 1);
    }
  }

  /** The running form meets the closed one: before a next moment without hedge sales, the value is the whole timeline's, when the marks hold the shares its rows left. */
  lemma RunningMeetsClosed(timeline: seq<Row>, next: Row, options: Options)
    requires options.Valid() && HedgeCanBeRead(timeline, options) && !IsHedgeRow(next)
    requires timeline == [] || next.at != timeline[|timeline| - 1].at
    requires SharesAtMarks(timeline) == SharesBefore(timeline, options, |timeline|) / options.factorOf(next.day)
    ensures HedgeCanBeRead(timeline + [next], options)
    ensures BreakEvenBefore(timeline + [next], options, |timeline|) == BreakEvenOf(timeline, options)
  {
    hide HedgeStep, SharesAtMarks, NetOf, SharesIn;
    var all, n := timeline + [next], |timeline|;
    assert all[..n] == timeline;
    HedgePurchasesStay(timeline, next, options);
    NextMomentIsAlone(all, options, n);
    PrefixSums(timeline, next, options, n);
  }

  lemma HedgePurchasesStay(timeline: seq<Row>, next: Row, options: Options)
    requires HedgeCanBeRead(timeline, options) && !IsHedgeRow(next)
    ensures HedgeCanBeRead(timeline + [next], options)
  {
    if options.hedgeIncluded {
      forall i | 0 <= i < |timeline + [next]| && IsHedgePurchase((timeline + [next])[i])
        ensures (timeline + [next])[i].quantity > 0.0
      {
        assert (timeline + [next])[i] == if i < |timeline| then timeline[i] else next;
      }
    }
  }

  lemma {:induction false} PrefixSums(timeline: seq<Row>, next: Row, options: Options, n: nat)
    requires options.Valid() && HedgeCanBeRead(timeline, options) && HedgeCanBeRead(timeline + [next], options) && n <= |timeline|
    ensures NetBefore(timeline + [next], options, n) == NetBefore(timeline, options, n)
    ensures SharesBefore(timeline + [next], options, n) == SharesBefore(timeline, options, n)
  {
    hide HedgeStep, NetOf, SharesIn;
    if n > 0 {
      PrefixSums(timeline, next, options, n - 1);
      assert (timeline + [next])[..n - 1] == timeline[..n - 1];
    }
  }

  /** A last row that begins a moment and is no hedge row brings the moment no hedge amount. */
  lemma NextMomentIsAlone(timeline: seq<Row>, options: Options, n: nat)
    requires options.Valid() && HedgeCanBeRead(timeline, options) && n + 1 == |timeline| && !IsHedgeRow(timeline[n])
    requires n > 0 ==> timeline[n].at != timeline[n - 1].at
    ensures MomentStart(timeline, n) == n && HedgeOfMoment(timeline, options, MomentOf(timeline, n), |timeline|) == 0.0
  {
    EarlierMomentsOnly(timeline, options, n, n);
  }

  lemma {:induction false} EarlierMomentsOnly(timeline: seq<Row>, options: Options, n: nat, k: nat)
    requires options.Valid() && HedgeCanBeRead(timeline, options) && k <= n < |timeline| && (n > 0 ==> timeline[n].at != timeline[n - 1].at)
    ensures HedgeOfMoment(timeline, options, MomentOf(timeline, n), k) == 0.0
  {
    if k > 0 {
      EarlierMomentsOnly(timeline, options, n, k - 1);
      MomentsGrow(timeline, k - 1, n - 1);
    }
  }

  // ---------------------------------------------------------------------------------------
  // The hedge's cost over a whole timeline

  /** A contract's purchases and sales. */
  function EventsOf(timeline: seq<Row>, options: Options, contract: Contract): (events: seq<Event>)
    requires options.Valid() && HedgePurchasesAreSome(timeline)
    ensures Possible(events)
  {
    if timeline == [] then [] else
    var row := timeline[|timeline| - 1];
    EventsOf(timeline[..|timeline| - 1], options, contract)
    + if !IsHedgeRow(row) || ContractOf(row, options) != contract then []
      else if IsHedgePurchase(row) then [Bought(Lot(AdjustedShares(row, options), -row.premium))]
      else if IsHedgeSale(row) then [Sold(NotBelowZero(AdjustedShares(row, options)))] else []
  }

  function NotBelowZero(x: real): real {
    if x < 0.0 then 0.0 else x
  }

  lemma TakeNothing(lots: seq<Lot>, sold: real)
    requires Held(lots)
    ensures Take(lots, sold) == Take(lots, NotBelowZero(sold))
  {}

  /** What the contract's sales cost: their premium less their realized P&L. */
  function CostTaken(timeline: seq<Row>, options: Options, contract: Contract): real
    requires options.Valid() && HedgePurchasesAreSome(timeline)
  {
    if timeline == [] then 0.0 else
    var last := |timeline| - 1;
    CostTaken(timeline[..last], options, contract)
    + if IsHedgeSale(timeline[last]) && ContractOf(timeline[last], options) == contract then timeline[last].premium - HedgeRealizedAt(timeline, options, last) else 0.0
  }

  lemma StoryOneMore(events: seq<Event>, event: Event)
    requires Possible(events) && Possible([event])
    ensures Possible(events + [event])
    ensures var (lots, taken) := Story(events);
            Story(events + [event]) == match event
              case Bought(lot) => (lots + [lot], taken)
              case Sold(shares) => (Take(lots, shares).1, taken + Take(lots, shares).0)
  {
    assert (events + [event])[..|events|] == events;
    assert [event][0] == event;
  }

  /** The timeline's lots and costs of a contract are those of its purchases and sales alone. */
  lemma {:induction false} HoldingsAreStories(timeline: seq<Row>, options: Options, contract: Contract)
    requires options.Valid() && HedgePurchasesAreSome(timeline) && options.hedgeIncluded
    ensures Story(EventsOf(timeline, options, contract)) == (LotsOf(HoldingsAfter(timeline, options), contract), CostTaken(timeline, options, contract))
  {
    hide Take, ContractOf, AdjustedShares, Story, Possible, Held;
    if timeline == [] {
      EmptyStory();
    } else {
      var last := |timeline| - 1;
      HoldingsAreStories(timeline[..last], options, contract);
      var row, events := timeline[last], EventsOf(timeline[..last], options, contract);
      assert events + [] == events;
      if IsHedgeRow(row) && ContractOf(row, options) == contract {
        if IsHedgePurchase(row) {
          OnePossible(Bought(Lot(AdjustedShares(row, options), -row.premium)));
          StoryOneMore(events, Bought(Lot(AdjustedShares(row, options), -row.premium)));
        } else if IsHedgeSale(row) {
          OnePossible(Sold(NotBelowZero(AdjustedShares(row, options))));
          StoryOneMore(events, Sold(NotBelowZero(AdjustedShares(row, options))));
          TakeNothing(LotsOf(HoldingsAfter(timeline[..last], options), contract), AdjustedShares(row, options));
        }
      }
    }
  }

  lemma EmptyStory()
    ensures Possible([]) && Story([]) == ([], 0.0)
  {}

  lemma OnePossible(event: Event)
    requires match event case Bought(lot) => lot.shares > 0.0 case Sold(shares) => shares >= 0.0
    ensures Possible([event])
  {}

  /** Per contract, through any purchases, sales and splits: the cost the sales took and the cost still held are the cost bought. */
  lemma HedgeCostConserved(timeline: seq<Row>, options: Options, contract: Contract)
    requires options.Valid() && HedgePurchasesAreSome(timeline) && options.hedgeIncluded
    ensures CostTaken(timeline, options, contract) + CostOf(LotsOf(HoldingsAfter(timeline, options), contract)) == CostOf(Purchases(EventsOf(timeline, options, contract)))
  {
    HoldingsAreStories(timeline, options, contract);
    CostIsConserved(EventsOf(timeline, options, contract));
  }
}
