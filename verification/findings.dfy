/** The expected-duration formula as the repository writes it, set against
    the game it is meant to describe.

    In its biased branch `theoretical_expected_rounds` returns
    a / (p - q) - ((a + b) / (p - q)) * P_ruin, where the first-step
    equations of the game give b / (p - q) - ((a + b) / (p - q)) * P_ruin.
    The two agree exactly when a == b.
 */
module Findings {
  import opened Walk
  import opened Game
  import opened RealAlgebra
  import opened Formulas

  /** Outside the tolerance band the formula as written exceeds the
      corrected one by (a - b) / (p - q); the two agree only when a == b. */
  lemma AsWrittenOffset(a: nat, b: nat, pA: real)
    requires 1 <= a + b && 0.0 < pA <= 1.0
    requires Tolerance <= Abs(2.0 * pA - 1.0)
    ensures pA - (1.0 - pA) != 0.0
    ensures ExpectedRoundsAsWritten(a, b, pA)
            == ExpectedRounds(a, b, pA) + (a as real - b as real) / (pA - (1.0 - pA))
    ensures ExpectedRoundsAsWritten(a, b, pA) == ExpectedRounds(a, b, pA) <==> a == b
  {
    var d := pA - (1.0 - pA);
    RatioNotOne(pA);
    DifferenceOfFractions(a as real, b as real, d);
  }

  /** Outside the tolerance band the formula as written solves
      E(k) = Average(pA, E(k + 1), E(k - 1)) - 1 at every interior capital
      instead of the first-step equation E(k) = 1 + Average(...) that the
      expected length of the game obeys (`DurationFirstStep`): it counts
      each round as -1 instead of +1. */
  lemma AsWrittenFirstStep(k: nat, n: nat, pA: real)
    requires 0 < k < n && 0.0 < pA < 1.0
    requires Tolerance <= Abs(2.0 * pA - 1.0)
    ensures ExpectedRoundsAsWritten(k, n - k, pA)
            == Average(pA, ExpectedRoundsAsWritten(k + 1, n - (k + 1), pA),
                           ExpectedRoundsAsWritten(k - 1, n - (k - 1), pA)) - 1.0
  {
    var d := pA - (1.0 - pA);
    var x := k as real - (n - k) as real;
    DurationFirstStep(k, n, pA);
    AsWrittenOffset(k, n - k, pA);
    AsWrittenOffset(k + 1, n - (k + 1), pA);
    AsWrittenOffset(k - 1, n - (k - 1), pA);
    assert (k + 1) as real - (n - (k + 1)) as real == x + 2.0;
    assert (k - 1) as real - (n - (k - 1)) as real == x - 2.0;
    ShiftedStep(pA, ExpectedRounds(k, n - k, pA), ExpectedRounds(k + 1, n - (k + 1), pA),
                ExpectedRounds(k - 1, n - (k - 1), pA), x, d);
  }

  /** With pA == 1 every draw is a win for A, so every game lasts exactly b
      rounds; the formula as written returns a instead, which is wrong
      whenever a != b. */
  lemma AsWrittenAlwaysWinning(a: nat, b: nat, maxRounds: nat, draws: seq<Draw>)
    requires 1 <= a && 1 <= b && b <= maxRounds <= |draws|
    ensures Play(a, b, 1.0, maxRounds, draws).rounds == b
    ensures ExpectedRoundsAsWritten(a, b, 1.0) == a as real
    ensures ExpectedRoundsAsWritten(a, b, 1.0) == Play(a, b, 1.0, maxRounds, draws).rounds as real <==> a == b
  {
    AlwaysWinningLastsB(a, b, 1.0, maxRounds, draws);
  }

  /** The smallest instance: A starts with 1 and B with 2, and A wins every
      round. The game lasts 2 rounds; the formula as written says 1. */
  lemma AsWrittenCounterexample()
    ensures Play(1, 2, 1.0, 2, [0.0, 0.0]).rounds == 2
    ensures ExpectedRoundsAsWritten(1, 2, 1.0) == 1.0
  {
    AsWrittenAlwaysWinning(1, 2, 2, [0.0, 0.0]);
  }

  /** The corrected formula gives the length of the deterministic game. */
  lemma CorrectedAlwaysWinning(a: nat, b: nat, maxRounds: nat, draws: seq<Draw>)
    requires 1 <= a && 1 <= b && b <= maxRounds <= |draws|
    ensures ExpectedRounds(a, b, 1.0) == Play(a, b, 1.0, maxRounds, draws).rounds as real
  {
    AlwaysWinningLastsB(a, b, 1.0, maxRounds, draws);
  }
}
