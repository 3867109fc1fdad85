/** Small facts of real arithmetic that the closed-form formulas rest on,
    each stated over plain variables so that it is proved in isolation. */
module RealAlgebra {

  /** The p-weighted average of a value after a won round and a value
      after a lost one: the right-hand side of a first-step equation. */
  function Average(p: real, up: real, down: real): real {
    p * up + (1.0 - p) * down
  }

  lemma MulNonneg(x: real, y: real)
    requires 0.0 <= x && 0.0 <= y
    ensures 0.0 <= x * y
  {
  }

  lemma MulMono(x: real, y: real, z: real)
    requires 0.0 <= x && y <= z
    ensures x * y <= x * z
  {
  }

  /** Multiplying by a factor in [0, 1] shrinks a value in [0, 1]. */
  lemma ShrinkStep(r: real, p: real)
    requires 0.0 <= r <= 1.0 && 0.0 <= p <= 1.0
    ensures 0.0 <= r * p <= p && r * p <= r
    ensures r < 1.0 ==> r * p < 1.0
  {
    MulMono(p, r, 1.0);
    MulMono(r, p, 1.0);
  }

  /** Multiplying by a factor of at least 1 grows a value of at least 1. */
  lemma GrowStep(r: real, p: real)
    requires 1.0 <= r && 1.0 <= p
    ensures p <= r * p && r <= r * p
    ensures 1.0 < r ==> 1.0 < r * p
  {
    MulMono(p, 1.0, r);
    MulMono(r, 1.0, p);
  }

  lemma DivSelf(x: real)
    requires x != 0.0
    ensures x / x == 1.0
  {
  }

  /** 0 <= x / d <= 1 when 0 <= x <= d. */
  lemma FractionInUnit(x: real, d: real)
    requires 0.0 <= x <= d && 0.0 < d
    ensures 0.0 <= x / d <= 1.0
  {
  }

  lemma DivCancel(x: real, d: real, m: real)
    requires d != 0.0 && m != 0.0
    ensures x / d == (x * m) / (d * m)
  {
  }

  lemma DivNegate(x: real, d: real)
    requires d != 0.0
    ensures (-x) / (-d) == x / d
  {
  }

  /** The ratio q / p of losing to winning chances is 1 only in the fair game. */
  lemma RatioNotOne(pA: real)
    requires 0.0 < pA && pA != 0.5
    ensures (1.0 - pA) / pA != 1.0
  {
    assert (1.0 - pA) / pA * pA == 1.0 - pA;
  }

  /** p * r^(k+1) + q * r^(k-1) == r^k when r = q / p and p + q = 1. */
  lemma RatioStep(p: real, q: real, r: real, down: real)
    requires 0.0 < p && p + q == 1.0 && r == q / p
    ensures p * (r * (r * down)) + q * down == r * down
  {
    assert p * r == q;
    calc {
      p * (r * (r * down)) + q * down;
      (p * r) * (r * down) + q * down;
      q * (r * down) + (p * r) * down;
      (q + p) * (r * down);
    }
  }

  /** The weighted sum of two fractions over one denominator. */
  lemma CombineFractions(p: real, up: real, down: real, here: real, pn: real, d: real)
    requires d != 0.0 && Average(p, up, down) == here
    ensures Average(p, (up - pn) / d, (down - pn) / d) == (here - pn) / d
  {
    assert p * ((up - pn) / d) == (p * up - p * pn) / d;
    assert (1.0 - p) * ((down - pn) / d) == ((1.0 - p) * down - (1.0 - p) * pn) / d;
  }

  /** The algebra of the first-step equation for the biased duration
      x / d - (m / d) * ruin, with d = p - q. */
  lemma DurationStep(p: real, q: real, x: real, m: real, ru: real, rd: real, rh: real)
    requires p + q == 1.0 && p - q != 0.0 && rh == p * ru + q * rd
    ensures var d := p - q;
      1.0 + p * ((x - 1.0) / d - (m / d) * ru) + q * ((x + 1.0) / d - (m / d) * rd) == x / d - (m / d) * rh
  {
    var d := p - q;
    assert p * (x - 1.0) + q * (x + 1.0) == x - d;
    assert p * ((x - 1.0) / d) + q * ((x + 1.0) / d) == (x - d) / d;
    assert p * ((m / d) * ru) + q * ((m / d) * rd) == (m / d) * rh;
    assert (x - d) / d == x / d - 1.0;
  }

  /** The fair duration k * (n - k) meets the first-step equation. */
  lemma FairDurationStep(k: int, n: int)
    ensures (k * (n - k)) as real
            == 1.0 + 0.5 * ((k + 1) * (n - k - 1)) as real + 0.5 * ((k - 1) * (n - k + 1)) as real
  {
    assert (k + 1) * (n - k - 1) + (k - 1) * (n - k + 1) == 2 * (k * (n - k)) - 2;
  }

  /** The fair ruin probability (n - k) / n meets the first-step equation. */
  lemma FairRuinStep(x: real, m: real)
    requires m != 0.0
    ensures x / m == 0.5 * ((x - 1.0) / m) + 0.5 * ((x + 1.0) / m)
  {
  }

  /** (x - w) / (1 - w) + (x - 1) / (w - 1) == 1 for w != 1. */
  lemma OppositeFractionsSum(x: real, w: real)
    requires w != 1.0
    ensures (x - w) / (1.0 - w) + (x - 1.0) / (w - 1.0) == 1.0
  {
    DivNegate(x - 1.0, w - 1.0);
    assert (x - w) / (1.0 - w) + (1.0 - x) / (1.0 - w) == (1.0 - w) / (1.0 - w);
  }

  /** Multiplying u - v and 1 - v by w = x * y, where u = 1 / y and v = 1 / w. */
  lemma ScaleByProduct(x: real, y: real, w: real, u: real, v: real)
    requires w == x * y && u * y == 1.0 && v * w == 1.0
    ensures (u - v) * w == x - 1.0
    ensures (1.0 - v) * w == w - 1.0
  {
    assert (u - v) * w == (u * y) * x - v * w;
  }

  /** With x = r^a, w = x * y = r^(a+b), u = (1/r)^b, v = (1/r)^(b+a), the
      two ruin probabilities (x - w) / (1 - w) and (u - v) / (1 - v) add to 1. */
  lemma ComplementSum(x: real, y: real, w: real, u: real, v: real)
    requires w == x * y && u * y == 1.0 && v * w == 1.0 && w != 1.0 && v != 1.0
    ensures (x - w) / (1.0 - w) + (u - v) / (1.0 - v) == 1.0
  {
    assert w != 0.0;
    ScaleByProduct(x, y, w, u, v);
    DivCancel(u - v, 1.0 - v, w);
    OppositeFractionsSum(x, w);
  }

  /** The fair ruin probabilities b / (a + b) and a / (b + a) add to 1. */
  lemma FairRuinComplement(a: real, b: real)
    requires 0.0 < a && 0.0 < b
    ensures b / (a + b) + a / (b + a) == 1.0
  {
    assert b / (a + b) + a / (a + b) == (a + b) / (a + b);
  }

  /** The duration b / d - (s / d) * r with s = a + b vanishes when a == 0
      and r == 1, and when b == 0 and r == 0. */
  lemma DurationAtEnds(a: real, b: real, s: real, d: real, r: real)
    requires d != 0.0 && s == a + b
    requires a == 0.0 ==> r == 1.0
    requires b == 0.0 ==> r == 0.0
    ensures a == 0.0 || b == 0.0 ==> b / d - (s / d) * r == 0.0
  {
  }

  /** x / d - y / d == (x - y) / d, which is 0 exactly when x == y. */
  lemma DifferenceOfFractions(x: real, y: real, d: real)
    requires d != 0.0
    ensures x / d == y / d + (x - y) / d
    ensures (x - y) / d == 0.0 <==> x == y
  {
  }

  /** Adding (x + j) / d to a solution of e = 1 + Average(p, up, down), with
      d = p - q and j running over -2, 0, 2 for one unit down, here and one
      unit up, turns it into a solution of e' = Average(p, up', down') - 1. */
  lemma ShiftedStep(p: real, e: real, up: real, down: real, x: real, d: real)
    requires d == p - (1.0 - p) && d != 0.0
    requires e == 1.0 + Average(p, up, down)
    ensures e + x / d == Average(p, up + (x + 2.0) / d, down + (x - 2.0) / d) - 1.0
  {
    assert (x + 2.0) / d == x / d + 2.0 / d && (x - 2.0) / d == x / d - 2.0 / d;
    assert p * (2.0 / d) - (1.0 - p) * (2.0 / d) == (2.0 * d) / d;
  }
}
