/** Closed-form results for the Gambler's Ruin walk: the probability that
    A is ruined and the expected number of rounds, over exact reals.

    With q = 1 - pA and ratio = q / pA, the ruin probability of A starting
    at capital k out of a total n is (ratio^k - ratio^n) / (1 - ratio^n)
    when pA != 1/2 and (n - k) / n when pA == 1/2.
 */
module Formulas {
  import opened RealAlgebra

  /** Below this distance between p and q the duration formula falls back
      to the fair-game value (the source's `1e-10`). */
  const Tolerance: real := 0.0000000001

  function Abs(x: real): real {
    if x < 0.0 then -x else x
  }

  /** `r ** n` for a natural exponent. */
  function Pow(r: real, n: nat): real {
    if n == 0 then 1.0 else r * Pow(r, n - 1)
  }

  lemma {:induction false} PowAtMostOne(r: real, n: nat)
    requires 0.0 <= r <= 1.0
    ensures 0.0 <= Pow(r, n) <= 1.0
  {
    if n > 0 {
      PowAtMostOne(r, n - 1);
      ShrinkStep(r, Pow(r, n - 1));
    }
  }

  lemma {:induction false} PowAtLeastOne(r: real, n: nat)
    requires 1.0 <= r
    ensures 1.0 <= Pow(r, n)
  {
    if n > 0 {
      PowAtLeastOne(r, n - 1);
      GrowStep(r, Pow(r, n - 1));
    }
  }

  /** Powers of a base in [0, 1] shrink as the exponent grows, and stay
      below 1 once the base is below 1 and the exponent positive. */
  lemma {:induction false} PowShrinks(r: real, k: nat, n: nat)
    requires 0.0 <= r <= 1.0 && k <= n
    ensures Pow(r, n) <= Pow(r, k) <= 1.0
    ensures r < 1.0 && 1 <= n ==> Pow(r, n) < 1.0
  {
    PowAtMostOne(r, k);
    if 1 <= n {
      var p := Pow(r, n - 1);
      PowAtMostOne(r, n - 1);
      ShrinkStep(r, p);
      assert Pow(r, n) == r * p;
      if n > k {
        PowShrinks(r, k, n - 1);
        assert Pow(r, n) <= p <= Pow(r, k);
      }
    }
  }

  /** Powers of a base of at least 1 grow with the exponent, and exceed 1
      once the base exceeds 1 and the exponent is positive. */
  lemma {:induction false} PowGrows(r: real, k: nat, n: nat)
    requires 1.0 <= r && k <= n
    ensures 1.0 <= Pow(r, k) <= Pow(r, n)
    ensures 1.0 < r && 1 <= n ==> 1.0 < Pow(r, n)
  {
    PowAtLeastOne(r, k);
    if 1 <= n {
      PowAtLeastOne(r, n - 1);
      GrowStep(r, Pow(r, n - 1));
      assert Pow(r, n) == r * Pow(r, n - 1);
      if n > k {
        PowGrows(r, k, n - 1);
      }
    }
  }

  lemma {:induction false} PowZeroBase(n: nat)
    requires 1 <= n
    ensures Pow(0.0, n) == 0.0
  {
  }

  lemma {:induction false} PowAdd(r: real, i: nat, j: nat)
    ensures Pow(r, i + j) == Pow(r, i) * Pow(r, j)
  {
    if i > 0 {
      PowAdd(r, i - 1, j);
      assert Pow(r, i + j) == r * Pow(r, i - 1 + j);
    }
  }

  /** A power of the reciprocal is the reciprocal of the power. */
  lemma {:induction false} PowReciprocal(r: real, n: nat)
    requires r != 0.0
    ensures Pow(1.0 / r, n) * Pow(r, n) == 1.0
  {
    if n > 0 {
      PowReciprocal(r, n - 1);
      var u, v := Pow(1.0 / r, n - 1), Pow(r, n - 1);
      calc {
        Pow(1.0 / r, n) * Pow(r, n);
        (1.0 / r) * u * (r * v);
        ((1.0 / r) * r) * (u * v);
        1.0;
      }
    }
  }

  /** A non-negative base other than 1 raised to a positive power is not 1,
      so the ruin formula never divides by zero. */
  lemma PowNotOne(r: real, n: nat)
    requires 0.0 <= r && r != 1.0 && 1 <= n
    ensures Pow(r, n) != 1.0
  {
    if r < 1.0 {
      PowShrinks(r, 0, n);
    } else {
      PowGrows(r, 0, n);
    }
  }

  /** The biased-game ruin formula for starting capital `k` out of total
      `n`: (ratio^k - ratio^n) / (1 - ratio^n). */
  function BiasedRuin(k: nat, n: nat, ratio: real): real
    requires 0.0 <= ratio && ratio != 1.0 && 1 <= n
  {
    PowNotOne(ratio, n);
    (Pow(ratio, k) - Pow(ratio, n)) / (1.0 - Pow(ratio, n))
  }

  /** The biased ruin formula is a probability. */
  lemma BiasedRuinInUnit(k: nat, n: nat, ratio: real)
    requires 0.0 <= ratio && ratio != 1.0 && 1 <= n && k <= n
    ensures 0.0 <= BiasedRuin(k, n, ratio) <= 1.0
  {
    var pk, pn := Pow(ratio, k), Pow(ratio, n);
    if ratio < 1.0 {
      PowShrinks(ratio, k, n);
      FractionInUnit(pk - pn, 1.0 - pn);
    } else {
      PowGrows(ratio, k, n);
      FractionInUnit(pn - pk, pn - 1.0);
      DivNegate(pk - pn, 1.0 - pn);
    }
  }

  /** The biased ruin formula gives certain ruin with no capital and no
      ruin with all of it. */
  lemma BiasedRuinBoundaries(n: nat, ratio: real)
    requires 0.0 <= ratio && ratio != 1.0 && 1 <= n
    ensures BiasedRuin(0, n, ratio) == 1.0
    ensures BiasedRuin(n, n, ratio) == 0.0
  {
    PowNotOne(ratio, n);
    DivSelf(1.0 - Pow(ratio, n));
  }

  /** With ratio 0 (A wins every round) a player with some capital is
      never ruined. */
  lemma BiasedRuinZeroRatio(k: nat, n: nat)
    requires 1 <= n
    ensures 1 <= k <= n ==> BiasedRuin(k, n, 0.0) == 0.0
  {
    if 1 <= k {
      PowZeroBase(k);
    }
    PowZeroBase(n);
  }

  /** The biased ruin formula at capital `a` out of `a + b`, with the ratio
      q / p of a game in which A wins a round with probability pA, is a
      probability with the right values at the ends. */
  lemma BiasedRuinProbability(a: nat, b: nat, pA: real)
    requires 1 <= a + b && 0.0 < pA <= 1.0 && pA != 0.5
    ensures 0.0 <= (1.0 - pA) / pA != 1.0
    ensures var p := BiasedRuin(a, a + b, (1.0 - pA) / pA);
      && 0.0 <= p <= 1.0
      && (a == 0 ==> p == 1.0)
      && (b == 0 ==> p == 0.0)
      && (pA == 1.0 && 1 <= a ==> p == 0.0)
  {
    var ratio := (1.0 - pA) / pA;
    RatioNotOne(pA);
    BiasedRuinInUnit(a, a + b, ratio);
    BiasedRuinBoundaries(a + b, ratio);
    if pA == 1.0 {
      BiasedRuinZeroRatio(a, a + b);
    }
  }

  /** The fair ruin formula b / (a + b) is a probability with the right
      values at the ends. */
  lemma FairRuinProbability(a: nat, b: nat)
    requires 1 <= a + b
    ensures var p := (b as real) / ((a + b) as real);
      && 0.0 <= p <= 1.0
      && (a == 0 ==> p == 1.0)
      && (b == 0 ==> p == 0.0)
  {
    FractionInUnit(b as real, (a + b) as real);
    if a == 0 {
      DivSelf(b as real);
    }
  }

  /** `theoretical_P_ruin_A`: the probability that A, starting with `a`
      against `b`, is ruined. */
  function TheoreticalRuinProbability(a: nat, b: nat, pA: real): (p: real)
    requires 1 <= a + b && 0.0 < pA <= 1.0
    ensures 0.0 <= p <= 1.0
    // a player with nothing is ruined already; one holding everything never is
    ensures a == 0 ==> p == 1.0
    ensures b == 0 ==> p == 0.0
    // A cannot be ruined when it wins every round
    ensures pA == 1.0 && 1 <= a ==> p == 0.0
  {
    if pA == 0.5 then
      FairRuinProbability(a, b);
      (b as real) / ((a + b) as real)
    else
      var q := 1.0 - pA;
      var p := pA;
      var ratio := q / p;
      BiasedRuinProbability(a, b, pA);
      BiasedRuin(a, a + b, ratio)
  }

  /** For pA != 1/2 the ruin probability is the biased formula at every
      capital, ends included. */
  lemma BiasedRuinFrom(k: nat, n: nat, pA: real)
    requires k <= n && 1 <= n && 0.0 < pA <= 1.0 && pA != 0.5
    ensures 0.0 <= (1.0 - pA) / pA != 1.0
    ensures TheoreticalRuinProbability(k, n - k, pA) == BiasedRuin(k, n, (1.0 - pA) / pA)
  {
    RatioNotOne(pA);
  }

  /** p * ratio^(k+1) + q * ratio^(k-1) == ratio^k, the identity behind
      the first-step equation of the biased game. */
  lemma RatioIdentity(k: nat, pA: real)
    requires 1 <= k && 0.0 < pA
    ensures var ratio := (1.0 - pA) / pA;
      Average(pA, Pow(ratio, k + 1), Pow(ratio, k - 1)) == Pow(ratio, k)
  {
    var ratio := (1.0 - pA) / pA;
    assert Pow(ratio, k + 1) == ratio * (ratio * Pow(ratio, k - 1));
    RatioStep(pA, 1.0 - pA, ratio, Pow(ratio, k - 1));
  }

  /** The biased ruin formula meets the first-step equation at every
      interior capital. */
  lemma BiasedRuinStep(k: nat, n: nat, pA: real)
    requires 0 < k < n && 0.0 < pA < 1.0 && pA != 0.5
    ensures 0.0 <= (1.0 - pA) / pA != 1.0
    ensures var ratio := (1.0 - pA) / pA;
      BiasedRuin(k, n, ratio) == Average(pA, BiasedRuin(k + 1, n, ratio), BiasedRuin(k - 1, n, ratio))
  {
    var ratio := (1.0 - pA) / pA;
    RatioNotOne(pA);
    PowNotOne(ratio, n);
    RatioIdentity(k, pA);
    CombineFractions(pA, Pow(ratio, k + 1), Pow(ratio, k - 1), Pow(ratio, k), Pow(ratio, n), 1.0 - Pow(ratio, n));
  }

  /** First-step analysis: with total capital n, the ruin probability of A
      at an interior capital k is the average of the ruin probabilities one
      unit up (A wins the round, weight pA) and one unit down (A loses it,
      weight 1 - pA). Together with the values 1 at k == 0 and 0 at k == n
      this equation determines the ruin probability. */
  lemma RuinFirstStep(k: nat, n: nat, pA: real)
    requires 0 < k < n && 0.0 < pA < 1.0
    ensures TheoreticalRuinProbability(k, n - k, pA)
            == Average(pA, TheoreticalRuinProbability(k + 1, n - (k + 1), pA),
                           TheoreticalRuinProbability(k - 1, n - (k - 1), pA))
  {
    if pA == 0.5 {
      FairRuinStep((n - k) as real, n as real);
      assert (n - (k + 1)) as real == (n - k) as real - 1.0;
      assert (n - (k - 1)) as real == (n - k) as real + 1.0;
    } else {
      BiasedRuinFrom(k, n, pA);
      BiasedRuinFrom(k + 1, n, pA);
      BiasedRuinFrom(k - 1, n, pA);
      BiasedRuinStep(k, n, pA);
    }
  }

  /** A's ruin and B's ruin are complementary: B's ruin probability is the
      formula with the roles exchanged, and the two sum to 1. */
  lemma RuinComplement(a: nat, b: nat, pA: real)
    requires 1 <= a && 1 <= b && 0.0 < pA < 1.0
    ensures TheoreticalRuinProbability(a, b, pA) + TheoreticalRuinProbability(b, a, 1.0 - pA) == 1.0
  {
    if pA != 0.5 {
      BiasedRuinComplement(a, b, pA);
    } else {
      FairRuinComplement(a as real, b as real);
    }
  }

  /** The biased ruin formulas of A (ratio q / p) and of B (ratio p / q)
      add to 1. */
  lemma BiasedRuinComplement(a: nat, b: nat, pA: real)
    requires 1 <= a && 1 <= b && 0.0 < pA < 1.0 && pA != 0.5
    ensures 0.0 <= (1.0 - pA) / pA != 1.0 && 0.0 <= pA / (1.0 - pA) != 1.0
    ensures BiasedRuin(a, a + b, (1.0 - pA) / pA) + BiasedRuin(b, b + a, pA / (1.0 - pA)) == 1.0
  {
    var ratio := (1.0 - pA) / pA;
    var inverse := pA / (1.0 - pA);
    RatioNotOne(pA);
    RatioNotOne(1.0 - pA);
    assert inverse == 1.0 / ratio;
    PowAdd(ratio, a, b);
    PowReciprocal(ratio, b);
    PowReciprocal(ratio, b + a);
    PowNotOne(ratio, a + b);
    PowNotOne(inverse, b + a);
    ComplementSum(Pow(ratio, a), Pow(ratio, b), Pow(ratio, a + b), Pow(inverse, b), Pow(inverse, b + a));
  }

  /** `theoretical_expected_rounds` as written: in the biased branch the
      first term is a / (p - q). */
  function ExpectedRoundsAsWritten(a: nat, b: nat, pA: real): (e: real)
    requires 1 <= a + b && 0.0 < pA <= 1.0
    ensures pA == 0.5 ==> e == (a * b) as real
    ensures Abs(2.0 * pA - 1.0) < Tolerance ==> e == (a * b) as real
    // when A wins every round this returns A's starting capital
    ensures pA == 1.0 && 1 <= a ==> e == a as real
  {
    if pA == 0.5 then
      (a * b) as real
    else
      var q := 1.0 - pA;
      var p := pA;
      var ratio := q / p;
      var pRuin := TheoreticalRuinProbability(a, b, pA);
      if ratio == 1.0 then
        (a * b) as real
      else if Abs(p - q) < Tolerance then
        (a * b) as real
      else
        (a as real) / (p - q) - ((a + b) as real / (p - q)) * pRuin
  }

  /** The expected number of rounds with the biased branch corrected to
      b / (p - q) - ((a + b) / (p - q)) * P_ruin. */
  function ExpectedRounds(a: nat, b: nat, pA: real): (e: real)
    requires 1 <= a + b && 0.0 < pA <= 1.0
    ensures pA == 0.5 ==> e == (a * b) as real
    ensures Abs(2.0 * pA - 1.0) < Tolerance ==> e == (a * b) as real
    // a game that starts with a player already ruined lasts no rounds
    ensures a == 0 || b == 0 ==> e == 0.0
    // when A wins every round the game lasts until B has nothing: b rounds
    ensures pA == 1.0 && 1 <= a ==> e == b as real
  {
    if pA == 0.5 then
      (a * b) as real
    else
      var q := 1.0 - pA;
      var p := pA;
      var ratio := q / p;
      var pRuin := TheoreticalRuinProbability(a, b, pA);
      if ratio == 1.0 then
        (a * b) as real
      else if Abs(p - q) < Tolerance then
        (a * b) as real
      else
        DurationAtEnds(a as real, b as real, (a + b) as real, p - q, pRuin);
        (b as real) / (p - q) - ((a + b) as real / (p - q)) * pRuin
  }

  /** The fair duration k * (n - k) at every capital, ends included. */
  lemma FairDuration(k: nat, n: nat)
    requires k <= n && 1 <= n
    ensures ExpectedRounds(k, n - k, 0.5) == (k * (n - k)) as real
  {
  }

  /** The corrected biased duration formula for capital `k` out of total
      `n`: (n - k) / (p - q) - (n / (p - q)) * ruin(k). */
  function BiasedDuration(k: nat, n: nat, pA: real): real
    requires k <= n && 1 <= n && 0.0 < pA < 1.0 && pA != 0.5
  {
    RatioNotOne(pA);
    var d := pA - (1.0 - pA);
    ((n - k) as real) / d - ((n as real) / d) * BiasedRuin(k, n, (1.0 - pA) / pA)
  }

  /** Outside the tolerance band the corrected duration is the biased
      formula at every capital, ends included. */
  lemma BiasedDurationFrom(k: nat, n: nat, pA: real)
    requires k <= n && 1 <= n && 0.0 < pA < 1.0 && pA != 0.5
    requires Tolerance <= Abs(2.0 * pA - 1.0)
    ensures ExpectedRounds(k, n - k, pA) == BiasedDuration(k, n, pA)
  {
    BiasedRuinFrom(k, n, pA);
    BiasedRuinBoundaries(n, (1.0 - pA) / pA);
  }

  /** First-step analysis for the game length: with total capital n, the
      expected length at an interior capital k is one round plus the
      pA-weighted average of the expected lengths one unit up and one unit
      down. With the value 0 at both ends this determines the expected
      length. It holds for the fair game and for every biased game outside
      the tolerance band around 1/2. */
  lemma DurationFirstStep(k: nat, n: nat, pA: real)
    requires 0 < k < n && 0.0 < pA < 1.0
    requires pA == 0.5 || Tolerance <= Abs(2.0 * pA - 1.0)
    ensures ExpectedRounds(k, n - k, pA)
            == 1.0 + Average(pA, ExpectedRounds(k + 1, n - (k + 1), pA), ExpectedRounds(k - 1, n - (k - 1), pA))
  {
    if pA == 0.5 {
      FairDuration(k, n);
      FairDuration(k + 1, n);
      FairDuration(k - 1, n);
      FairDurationStep(k, n);
    } else {
      BiasedDurationFrom(k, n, pA);
      BiasedDurationFrom(k + 1, n, pA);
      BiasedDurationFrom(k - 1, n, pA);
      BiasedDurationStep(k, n, pA);
    }
  }

  /** The corrected biased duration formula meets the first-step equation
      at every interior capital. */
  lemma BiasedDurationStep(k: nat, n: nat, pA: real)
    requires 0 < k < n && 0.0 < pA < 1.0 && pA != 0.5
    ensures BiasedDuration(k, n, pA)
            == 1.0 + Average(pA, BiasedDuration(k + 1, n, pA), BiasedDuration(k - 1, n, pA))
  {
    var ratio, d, x, m := (1.0 - pA) / pA, pA - (1.0 - pA), (n - k) as real, n as real;
    RatioNotOne(pA);
    BiasedRuinStep(k, n, pA);
    var ru, rd, rh := BiasedRuin(k + 1, n, ratio), BiasedRuin(k - 1, n, ratio), BiasedRuin(k, n, ratio);
    DurationStep(pA, 1.0 - pA, x, m, ru, rd, rh);
    assert (n - (k + 1)) as real == x - 1.0 && (n - (k - 1)) as real == x + 1.0;
  }
}
