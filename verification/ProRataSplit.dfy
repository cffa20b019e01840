/** The split of an amount between the two books in proportion to their weights (src/books/proRataSplit.ts). */
module ProRataSplit {

  datatype Weights = Weights(pluto: real, manual: real)

  /** The ledger's smallest amount, and the most a rounding moves one. */
  const STEP := 0.000001
  const HALF_STEP := 0.0000005

  /** The amount in steps: JavaScript's Math.round, halves going up. */
  function Steps(amount: real): int {
    (amount * 1000000.0 + 0.5).Floor
  }

  function RoundToLedgerDecimals(amount: real): real {
    Steps(amount) as real / 1000000.0
  }

  /** The amount has no more decimals than the ledger keeps. */
  predicate IsLedgerAmount(amount: real) {
    (amount * 1000000.0).Floor as real == amount * 1000000.0
  }

  /** The amount as the ledger's column keeps it: 6 decimals, halves away from zero. */
  function StoredAmount(amount: real): real {
    if amount >= 0.0 then RoundToLedgerDecimals(amount) else -RoundToLedgerDecimals(-amount)
  }

  function PositivePart(weight: real): real {
    if weight > 0.0 then weight else 0.0
  }

  function PlutoShare(weights: Weights): (share: real)
    ensures 0.0 <= share <= 1.0
  {
    var pluto, manual := PositivePart(weights.pluto), PositivePart(weights.manual);
    if pluto + manual > 0.0 then
      ShareWithin(pluto, manual);
      pluto / (pluto + manual)
    else 0.5
  }

  lemma ShareWithin(part: real, other: real)
    requires part >= 0.0 && other >= 0.0 && part + other > 0.0
    ensures 0.0 <= part / (part + other) <= 1.0
  {}

  /** Pluto's proportional part, before rounding. */
  function PlutoPart(amount: real, weights: Weights): (part: real)
    ensures amount >= 0.0 ==> 0.0 <= part <= amount
    ensures amount <= 0.0 ==> amount <= part <= 0.0
  {
    ShareOfAmount(amount, PlutoShare(weights));
    amount * PlutoShare(weights)
  }

  lemma ShareOfAmount(amount: real, share: real)
    requires 0.0 <= share <= 1.0
    ensures amount >= 0.0 ==> 0.0 <= amount * share <= amount
    ensures amount <= 0.0 ==> amount <= amount * share <= 0.0
  {}

  function SplitAmountByWeights(amount: real, weights: Weights): Weights {
    var pluto := RoundToLedgerDecimals(PlutoPart(amount, weights));
    Weights(pluto, RoundToLedgerDecimals(amount - pluto))
  }

  lemma RoundsNear(amount: real)
    ensures -HALF_STEP <= amount - RoundToLedgerDecimals(amount) <= HALF_STEP
    ensures IsLedgerAmount(RoundToLedgerDecimals(amount))
    ensures RoundToLedgerDecimals(amount) == amount <==> IsLedgerAmount(amount)
  {
    var steps := Steps(amount);
    assert RoundToLedgerDecimals(amount) * 1000000.0 == steps as real;
    assert (steps as real).Floor == steps;
    if IsLedgerAmount(amount) {
      assert steps == (amount * 1000000.0).Floor;
    }
  }

  /** Storing moves an amount by at most half a step, and not at all exactly when it has no more decimals than the ledger keeps. */
  lemma StoredNear(amount: real)
    ensures -HALF_STEP <= amount - StoredAmount(amount) <= HALF_STEP
    ensures StoredAmount(amount) == amount <==> IsLedgerAmount(amount)
  {
    hide RoundToLedgerDecimals, IsLedgerAmount;
    RoundsNear(amount);
    RoundsNear(-amount);
    NegativeLedgerAmount(amount);
  }

  lemma NegativeLedgerAmount(amount: real)
    ensures IsLedgerAmount(-amount) <==> IsLedgerAmount(amount)
  {
    var steps := amount * 1000000.0;
    assert -amount * 1000000.0 == -steps;
    assert steps == steps.Floor as real ==> -steps == (-steps.Floor) as real;
    assert -steps == (-steps).Floor as real ==> steps == (-(-steps).Floor) as real;
  }

  lemma RoundsInOrder(a: real, b: real)
    requires a <= b
    ensures RoundToLedgerDecimals(a) <= RoundToLedgerDecimals(b)
  {
    assert Steps(a) <= Steps(b);
  }

  /** Taking a rounded part away before rounding takes it away from the rounded amount. */
  lemma RoundsTheRest(amount: real, part: real)
    ensures RoundToLedgerDecimals(amount - RoundToLedgerDecimals(part)) == RoundToLedgerDecimals(amount) - RoundToLedgerDecimals(part)
  {
    var taken := Steps(part);
    assert RoundToLedgerDecimals(part) * 1000000.0 == taken as real;
    assert (amount - RoundToLedgerDecimals(part)) * 1000000.0 + 0.5 == (amount * 1000000.0 + 0.5) - taken as real;
    assert Steps(amount - RoundToLedgerDecimals(part)) == Steps(amount) - taken;
  }

  /**
   The two parts add up to the amount rounded to the ledger's decimals: to the amount itself exactly
   when it has no more decimals than the ledger keeps. Neither is on the other side of zero, and
   Pluto's is its proportional share to the nearest step.
   */
  lemma PartsAddUp(amount: real, weights: Weights)
    ensures var parts := SplitAmountByWeights(amount, weights);
            && parts.pluto + parts.manual == RoundToLedgerDecimals(amount)
            && (parts.pluto + parts.manual == amount <==> IsLedgerAmount(amount))
            && -HALF_STEP <= amount - (parts.pluto + parts.manual) <= HALF_STEP
            && (amount >= 0.0 ==> parts.pluto >= 0.0 && parts.manual >= 0.0)
            && (amount <= 0.0 ==> parts.pluto <= 0.0 && parts.manual <= 0.0)
            && IsLedgerAmount(parts.pluto) && IsLedgerAmount(parts.manual)
            && -HALF_STEP <= PlutoPart(amount, weights) - parts.pluto <= HALF_STEP
  {
    hide RoundToLedgerDecimals, IsLedgerAmount, PlutoPart;
    var part := PlutoPart(amount, weights);
    var parts := SplitAmountByWeights(amount, weights);
    RoundsTheRest(amount, part);
    RoundsNear(amount);
    RoundsNear(part);
    RoundsNear(amount - parts.pluto);
    ZeroIsZero();
    if amount >= 0.0 {
      RoundsInOrder(0.0, part);
      RoundsInOrder(part, amount);
    } else {
      RoundsInOrder(part, 0.0);
      RoundsInOrder(amount, part);
    }
  }

  lemma ZeroIsZero()
    ensures RoundToLedgerDecimals(0.0) == 0.0
  {
    assert (0.5).Floor == 0;
  }

  /** Four ten-millionths of a dollar split to nothing. */
  lemma SmallAmountIsLost()
    ensures var parts := SplitAmountByWeights(0.0000004, Weights(1.0, 1.0)); parts.pluto + parts.manual == 0.0
  {
    PartsAddUp(0.0000004, Weights(1.0, 1.0));
    assert (0.0000004 * 1000000.0 + 0.5).Floor == 0;
  }
}
