/** The first-in-first-out cost of a hedge's Puts (hedgeRealizedByRow in src/backtest/cycleCashBreakEven.ts), one contract. */
module HedgeFifo {

  /** Puts of one purchase still held: split-adjusted shares, and what they cost. */
  datatype Lot = Lot(shares: real, cost: real)

  predicate Held(lots: seq<Lot>) {
    forall i :: 0 <= i < |lots| ==> lots[i].shares > 0.0
  }

  function SharesOf(lots: seq<Lot>): (shares: real)
    requires Held(lots)
    ensures shares >= 0.0 && (lots != [] ==> shares > 0.0)
  {
    if lots == [] then 0.0 else lots[0].shares + SharesOf(lots[1..])
  }

  function CostOf(lots: seq<Lot>): real {
    if lots == [] then 0.0 else lots[0].cost + CostOf(lots[1..])
  }

  function Min(a: real, b: real): real {
    if a <= b then a else b
  }

  /** A lot's cost for some of its shares. */
  function CostOfPart(lot: Lot, shares: real): real
    requires lot.shares > 0.0
  {
    lot.cost * shares / lot.shares
  }

  /** What is left of a lot. */
  function Rest(lot: Lot, taken: real): Lot
    requires lot.shares > 0.0
  {
    Lot(lot.shares - taken, lot.cost - CostOfPart(lot, taken))
  }

  /** A sale takes the oldest lots first: what they cost, and what stays. */
  function Take(lots: seq<Lot>, sold: real): (r: (real, seq<Lot>))
    requires Held(lots)
    ensures Held(r.1)
  {
    if sold <= 0.0 || lots == [] then (0.0, lots)
    else if lots[0].shares <= sold then
      var (cost, left) := Take(lots[1..], sold - lots[0].shares);
      (lots[0].cost + cost, left)
    else (CostOfPart(lots[0], sold), [Rest(lots[0], sold)] + lots[1..])
  }

  /** The loop as it is done, lot by lot. */
  method TakeOldest(purchases: seq<Lot>, sold: real) returns (cost: real, left: seq<Lot>)
    requires Held(purchases)
    ensures (cost, left) == Take(purchases, sold)
  {
    hide CostOfPart;
    var toTake := sold;
    cost, left := 0.0, purchases;
    while toTake > 0.0 && |left| > 0
      invariant Held(left)
      invariant Take(purchases, sold) == (cost + Take(left, toTake).0, Take(left, toTake).1)
      decreases |left|, if toTake > 0.0 then 1 else 0
    {
      var oldest := left[0];
      var taken := Min(toTake, oldest.shares);
      WholeLot(oldest);
      var takenCost := CostOfPart(oldest, taken);
      cost := cost + takenCost;
      oldest := Lot(oldest.shares - taken, oldest.cost - takenCost);
      toTake := toTake - taken;
      if oldest.shares <= 0.0 {
        left := left[1..];
      } else {
        left := [oldest] + left[1..];
      }
    }
  }

  lemma WholeLot(lot: Lot)
    requires lot.shares > 0.0
    ensures CostOfPart(lot, lot.shares) == lot.cost
  {}

  // ---------------------------------------------------------------------------------------
  // What a sale takes and leaves

  /** Cost taken and cost left are the cost there was; the shares taken are those sold, or all there were. */
  lemma {:induction false} TakeConserves(lots: seq<Lot>, sold: real)
    requires Held(lots) && sold >= 0.0
    ensures Take(lots, sold).0 + CostOf(Take(lots, sold).1) == CostOf(lots)
    ensures SharesOf(lots) - SharesOf(Take(lots, sold).1) == Min(sold, SharesOf(lots))
  {
    hide CostOfPart;
    if sold > 0.0 && lots != [] {
      if lots[0].shares <= sold {
        TakeConserves(lots[1..], sold - lots[0].shares);
      } else {
        var left := Take(lots, sold).1;
        assert left[1..] == lots[1..];
      }
    }
  }

  lemma PartsOfAPart(lot: Lot, a: real, b: real)
    requires 0.0 <= a && 0.0 <= b && a < lot.shares
    ensures CostOfPart(lot, a) + CostOfPart(Rest(lot, a), b) == CostOfPart(lot, a + b)
  {
    var unit := lot.cost / lot.shares;
    UnitCost(lot, a);
    UnitCost(lot, a + b);
    assert lot.cost - unit * a == unit * (lot.shares - a);
    UnitOfRest(unit, lot.shares - a, b);
    assert unit * (a + b) == unit * a + unit * b;
  }

  lemma UnitCost(lot: Lot, shares: real)
    requires lot.shares > 0.0
    ensures CostOfPart(lot, shares) == lot.cost / lot.shares * shares
  {}

  lemma UnitOfRest(unit: real, shares: real, taken: real)
    requires shares > 0.0
    ensures unit * shares * taken / shares == unit * taken
  {
    assert unit * shares * taken == (unit * taken) * shares;
  }

  lemma RestOfRest(lot: Lot, a: real, b: real)
    requires 0.0 <= a && 0.0 <= b && a < lot.shares
    ensures Rest(Rest(lot, a), b) == Rest(lot, a + b)
  {
    hide CostOfPart;
    PartsOfAPart(lot, a, b);
  }

  /** Two sales take what one sale of both does. */
  lemma {:induction false} TakeTwice(lots: seq<Lot>, a: real, b: real)
    requires Held(lots) && a >= 0.0 && b >= 0.0
    ensures Take(lots, a).0 + Take(Take(lots, a).1, b).0 == Take(lots, a + b).0
    ensures Take(Take(lots, a).1, b).1 == Take(lots, a + b).1
    decreases |lots|
  {
    hide CostOfPart, Rest;
    if a > 0.0 && lots != [] {
      var first := lots[0];
      if first.shares <= a {
        TakeTwice(lots[1..], a - first.shares, b);
        assert a + b - first.shares == a - first.shares + b;
      } else {
        TakeFromRest(lots, a, b);
      }
    }
  }

  /** The second sale goes on in the lot the first one left. */
  lemma TakeFromRest(lots: seq<Lot>, a: real, b: real)
    requires Held(lots) && lots != [] && 0.0 < a < lots[0].shares && b >= 0.0
    ensures Take(lots, a).0 + Take(Take(lots, a).1, b).0 == Take(lots, a + b).0
    ensures Take(Take(lots, a).1, b).1 == Take(lots, a + b).1
  {
    hide CostOfPart;
    var first := lots[0];
    var rest := Rest(first, a);
    var left := [rest] + lots[1..];
    assert left[1..] == lots[1..];
    PartsOfAPart(first, a, b);
    RestOfRest(first, a, b);
    if first.shares <= a + b {
      assert rest.shares <= b && b - rest.shares == a + b - first.shares;
      assert CostOfPart(first, a) + rest.cost == first.cost;
    }
  }

  /** A later purchase does not matter to a sale the lots held can cover. */
  lemma {:induction false} TakeBeforePurchase(lots: seq<Lot>, lot: Lot, sold: real)
    requires Held(lots) && lot.shares > 0.0 && 0.0 <= sold <= SharesOf(lots)
    ensures Held(lots + [lot])
    ensures Take(lots + [lot], sold) == (Take(lots, sold).0, Take(lots, sold).1 + [lot])
  {
    hide CostOfPart, Rest;
    var all := lots + [lot];
    if sold > 0.0 {
      assert lots != [] && all[0] == lots[0] && all[1..] == lots[1..] + [lot];
      if lots[0].shares <= sold {
        TakeBeforePurchase(lots[1..], lot, sold - lots[0].shares);
      } else {
        var rest := [Rest(lots[0], sold)];
        assert rest + all[1..] == (rest + lots[1..]) + [lot];
      }
    }
  }

  // ---------------------------------------------------------------------------------------
  // A contract's whole story

  datatype Event = Bought(lot: Lot) | Sold(shares: real)

  predicate Possible(events: seq<Event>) {
    forall i :: 0 <= i < |events| ==> match events[i] case Bought(lot) => lot.shares > 0.0 case Sold(shares) => shares >= 0.0
  }

  /** The lots held, the cost taken so far. */
  function Story(events: seq<Event>): (r: (seq<Lot>, real))
    requires Possible(events)
    ensures Held(r.0)
  {
    if events == [] then ([], 0.0) else
    var (lots, taken) := Story(events[..|events| - 1]);
    match events[|events| - 1]
    case Bought(lot) => (lots + [lot], taken)
    case Sold(shares) => var (cost, left) := Take(lots, shares); (left, taken + cost)
  }

  function Purchases(events: seq<Event>): (lots: seq<Lot>)
    requires Possible(events)
    ensures Held(lots)
  {
    if events == [] then [] else
    Purchases(events[..|events| - 1]) + match events[|events| - 1] case Bought(lot) => [lot] case Sold(_) => []
  }

  function SharesSold(events: seq<Event>): (sold: real)
    requires Possible(events)
    ensures sold >= 0.0
  {
    if events == [] then 0.0 else
    SharesSold(events[..|events| - 1]) + match events[|events| - 1] case Bought(_) => 0.0 case Sold(shares) => shares
  }

  lemma {:induction false} CostOfAppended(lots: seq<Lot>, lot: Lot)
    ensures CostOf(lots + [lot]) == CostOf(lots) + lot.cost
  {
    if lots != [] {
      assert (lots + [lot])[1..] == lots[1..] + [lot];
      CostOfAppended(lots[1..], lot);
    }
  }

  lemma {:induction false} SharesOfAppended(lots: seq<Lot>, lot: Lot)
    requires Held(lots) && lot.shares > 0.0
    ensures Held(lots + [lot]) && SharesOf(lots + [lot]) == SharesOf(lots) + lot.shares
  {
    if lots != [] {
      assert (lots + [lot])[1..] == lots[1..] + [lot];
      SharesOfAppended(lots[1..], lot);
    }
  }

  /** Through any purchases and sales: cost taken and cost remaining are the cost bought. */
  lemma {:induction false} CostIsConserved(events: seq<Event>)
    requires Possible(events)
    ensures Story(events).1 + CostOf(Story(events).0) == CostOf(Purchases(events))
  {
    hide CostOf, Take;
    if events == [] {
      NoCost();
    } else {
      var before := events[..|events| - 1];
      CostIsConserved(before);
      match events[|events| - 1]
      case Bought(lot) =>
        CostOfAppended(Story(before).0, lot);
        CostOfAppended(Purchases(before), lot);
      case Sold(shares) =>
        TakeConserves(Story(before).0, shares);
        assert Purchases(before) + [] == Purchases(before);
    }
  }

  lemma NoCost()
    ensures CostOf([]) == 0.0
  {}

  /** No sale is of more than is held. */
  predicate NeverShort(events: seq<Event>)
    requires Possible(events)
  {
    events != [] ==>
      && NeverShort(events[..|events| - 1])
      && (events[|events| - 1].Sold? ==> events[|events| - 1].shares <= SharesOf(Story(events[..|events| - 1]).0))
  }

  /** The closed form: however purchases and sales alternate, the cost taken is that of the first shares bought, and the rest of them is held. */
  lemma {:induction false} FifoIsTheFirstShares(events: seq<Event>)
    requires Possible(events) && NeverShort(events)
    ensures Story(events) == (Take(Purchases(events), SharesSold(events)).1, Take(Purchases(events), SharesSold(events)).0)
    ensures SharesSold(events) <= SharesOf(Purchases(events))
  {
    hide Take, SharesOf, Held;
    if events == [] {
      NothingTaken();
    } else {
      var before := events[..|events| - 1];
      FifoIsTheFirstShares(before);
      var bought, sold := Purchases(before), SharesSold(before);
      TakeConserves(bought, sold);
      match events[|events| - 1]
      case Bought(lot) =>
        TakeBeforePurchase(bought, lot, sold);
        SharesOfAppended(bought, lot);
      case Sold(shares) =>
        assert bought + [] == bought;
        TakeTwice(bought, sold, shares);
    }
  }

  lemma NothingTaken()
    ensures Take([], 0.0) == (0.0, []) && SharesOf([]) == 0.0
  {}
}
