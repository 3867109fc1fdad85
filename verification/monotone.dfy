/** The ruin probability of A falls as A's chance of winning a round rises.

    With r = q / p the ruin formula (r^a - r^n) / (1 - r^n), n = a + b,
    equals r^a * G(b) / (G(a) + r^a * G(b)), where G(m) = 1 + r + ... +
    r^(m-1). That second form also covers the fair game (r = 1, where it is
    b / (a + b)), and it grows strictly with r; r itself falls strictly as
    pA grows.
 */
module Monotonicity {
  import opened RealAlgebra
  import opened Formulas

  /** The geometric sum 1 + r + ... + r^(m-1). */
  function Geo(r: real, m: nat): real {
    if m == 0 then 0.0 else 1.0 + r * Geo(r, m - 1)
  }

  /** A geometric sum with a non-negative ratio is at least 1 once it has a
      term. */
  lemma {:induction false} GeoAtLeastOne(r: real, m: nat)
    requires 0.0 <= r
    ensures 0.0 <= Geo(r, m)
    ensures 1 <= m ==> 1.0 <= Geo(r, m)
  {
    if m > 0 {
      GeoAtLeastOne(r, m - 1);
      MulMono(r, 0.0, Geo(r, m - 1));
    }
  }

  /** (1 - r) * G(m) == 1 - r^m. */
  lemma {:induction false} GeoTelescopes(r: real, m: nat)
    ensures (1.0 - r) * Geo(r, m) == 1.0 - Pow(r, m)
  {
    if m > 0 {
      GeoTelescopes(r, m - 1);
      assert (1.0 - r) * Geo(r, m) == (1.0 - r) + r * ((1.0 - r) * Geo(r, m - 1));
    }
  }

  /** G(a + b) == G(a) + r^a * G(b). */
  lemma {:induction false} GeoSplit(r: real, a: nat, b: nat)
    ensures Geo(r, a + b) == Geo(r, a) + Pow(r, a) * Geo(r, b)
  {
    if a == 0 {
      assert Geo(r, a) == 0.0 && Pow(r, a) == 1.0;
    } else {
      GeoSplit(r, a - 1, b);
      assert a + b - 1 == a - 1 + b;
      SplitStep(r, Geo(r, a - 1), Pow(r, a - 1), Geo(r, b),
                Geo(r, a), Pow(r, a), Geo(r, a - 1 + b), Geo(r, a + b));
    }
  }

  /** One step of `GeoSplit`, on plain values: ga = 1 + r * g, pa = r * p,
      gm = g + p * gb and gn = 1 + r * gm give gn = ga + pa * gb. */
  lemma SplitStep(r: real, g: real, p: real, gb: real, ga: real, pa: real, gm: real, gn: real)
    requires ga == 1.0 + r * g && pa == r * p
    requires gm == g + p * gb && gn == 1.0 + r * gm
    ensures gn == ga + pa * gb
  {
    assert r * (g + p * gb) == r * g + (r * p) * gb;
  }

  /** With ratio 1 the geometric sum counts its terms. */
  lemma {:induction false} GeoOfOne(m: nat)
    ensures Geo(1.0, m) == m as real
    ensures Pow(1.0, m) == 1.0
  {
    if m > 0 {
      GeoOfOne(m - 1);
    }
  }

  /** Powers of non-negative bases keep the order of the bases, strictly
      for a positive exponent. */
  lemma {:induction false} PowMono(r1: real, r2: real, m: nat)
    requires 0.0 <= r1 <= r2
    ensures 0.0 <= Pow(r1, m) <= Pow(r2, m)
    ensures r1 < r2 && 1 <= m ==> Pow(r1, m) < Pow(r2, m)
  {
    if m > 0 {
      PowMono(r1, r2, m - 1);
      if r1 < r2 {
        PowPositive(r2, m - 1);
      }
      PowMonoStep(r1, r2, Pow(r1, m - 1), Pow(r2, m - 1), Pow(r1, m), Pow(r2, m));
    }
  }

  /** One step of `PowMono`, on plain values: U = r1 * u and V = r2 * v keep
      the order of 0 <= u <= v, strictly when r1 < r2 and v > 0. */
  lemma PowMonoStep(r1: real, r2: real, u: real, v: real, U: real, V: real)
    requires 0.0 <= r1 <= r2 && 0.0 <= u <= v
    requires U == r1 * u && V == r2 * v
    ensures 0.0 <= U <= V
    ensures r1 < r2 && 0.0 < v ==> U < V
  {
    MulMono(r1, u, v);
    MulMono(v, r1, r2);
    MulMono(r1, 0.0, u);
    assert v * r1 == r1 * v && v * r2 == r2 * v;
    if r1 < r2 && 0.0 < v {
      assert r1 * v < r2 * v;
    }
  }

  lemma {:induction false} PowPositive(r: real, m: nat)
    requires 0.0 < r
    ensures 0.0 < Pow(r, m)
  {
    if m > 0 {
      PowPositive(r, m - 1);
    }
  }

  /** Geometric sums with non-negative ratios keep the order of the ratios. */
  lemma {:induction false} GeoMono(r1: real, r2: real, m: nat)
    requires 0.0 <= r1 <= r2
    ensures Geo(r1, m) <= Geo(r2, m)
  {
    if m > 0 {
      GeoMono(r1, r2, m - 1);
      GeoAtLeastOne(r1, m - 1);
      MonoStep(r1, r2, Geo(r1, m - 1), Geo(r2, m - 1), Geo(r1, m), Geo(r2, m));
    }
  }

  /** One step of `GeoMono`, on plain values: 1 + r1 * g1 <= 1 + r2 * g2
      when 0 <= r1 <= r2 and 0 <= g1 <= g2. */
  lemma MonoStep(r1: real, r2: real, g1: real, g2: real, G1: real, G2: real)
    requires 0.0 <= r1 <= r2 && 0.0 <= g1 <= g2
    requires G1 == 1.0 + r1 * g1 && G2 == 1.0 + r2 * g2
    ensures G1 <= G2
  {
    MulMono(r1, g1, g2);
    MulMono(g2, r1, r2);
    assert r1 * g2 == g2 * r1 && g2 * r2 == r2 * g2;
  }

  /** r1^m * G(r2, m) <= r2^m * G(r1, m) for 0 <= r1 < r2, strictly once
      m >= 1: the sum 1/r + ... + 1/r^m falls as r grows. */
  lemma {:induction false} ScaledGeoOrder(r1: real, r2: real, m: nat)
    requires 0.0 <= r1 < r2
    ensures Pow(r1, m) * Geo(r2, m) <= Pow(r2, m) * Geo(r1, m)
    ensures 1 <= m ==> Pow(r1, m) * Geo(r2, m) < Pow(r2, m) * Geo(r1, m)
  {
    if m == 0 {
      TimesZero(Pow(r1, m), Geo(r2, m));
      TimesZero(Pow(r2, m), Geo(r1, m));
    } else {
      ScaledGeoOrder(r1, r2, m - 1);
      PowMono(r1, r2, m);
      ScaledStep(r1, r2, Pow(r1, m - 1), Pow(r2, m - 1), Geo(r1, m - 1), Geo(r2, m - 1),
                 Pow(r1, m), Pow(r2, m), Geo(r1, m), Geo(r2, m));
    }
  }

  lemma TimesZero(x: real, z: real)
    requires z == 0.0
    ensures x * z == 0.0
  {
  }

  /** One step of `ScaledGeoOrder`, on plain values: with P = r * p and
      G = 1 + r * g for both ratios, P1 * G2 = P1 + r1 * r2 * (p1 * g2), so
      the order of the previous step carries over, strictly. */
  lemma ScaledStep(r1: real, r2: real, p1: real, p2: real, g1: real, g2: real,
                   P1: real, P2: real, G1: real, G2: real)
    requires 0.0 <= r1 < r2
    requires P1 == r1 * p1 && P2 == r2 * p2
    requires G1 == 1.0 + r1 * g1 && G2 == 1.0 + r2 * g2
    requires P1 < P2 && p1 * g2 <= p2 * g1
    ensures P1 * G2 < P2 * G1
  {
    assert P1 * G2 == P1 + (r1 * r2) * (p1 * g2);
    assert P2 * G1 == P2 + (r1 * r2) * (p2 * g1);
    MulNonneg(r1, r2);
    OrderStep(P1, P2, p1 * g2, p2 * g1, r1 * r2);
  }

  /** u1 + c * x < u2 + c * y when u1 < u2, x <= y and c >= 0. */
  lemma OrderStep(u1: real, u2: real, x: real, y: real, c: real)
    requires u1 < u2 && x <= y && 0.0 <= c
    ensures u1 + c * x < u2 + c * y
  {
    MulMono(c, x, y);
  }

  /** The ruin probability of A, starting with `a` against `b`, in terms of
      the ratio r = q / p of losing to winning chances:
      (G(a + b) - G(a)) / G(a + b), that is r^a * G(b) / G(a + b). */
  function RuinOfRatio(a: nat, b: nat, r: real): (p: real)
    requires 1 <= b && 0.0 <= r
    ensures 0.0 <= p <= 1.0
  {
    GeoParts(a, b, r);
    FractionInUnit(Geo(r, a + b) - Geo(r, a), Geo(r, a + b));
    (Geo(r, a + b) - Geo(r, a)) / Geo(r, a + b)
  }

  /** G(a) <= G(a + b), and G(a + b) >= 1 once a + b >= 1. */
  lemma GeoParts(a: nat, b: nat, r: real)
    requires 1 <= b && 0.0 <= r
    ensures 0.0 <= Geo(r, a) <= Geo(r, a + b) && 1.0 <= Geo(r, a + b)
  {
    GeoAtLeastOne(r, a);
    GeoAtLeastOne(r, b);
    GeoAtLeastOne(r, a + b);
    GeoSplit(r, a, b);
    PowMono(0.0, r, a);
    MulNonneg(Pow(r, a), Geo(r, b));
  }

  /** Both branches of `theoretical_P_ruin_A` are the ratio form at
      r = q / p. */
  lemma RuinIsRuinOfRatio(a: nat, b: nat, pA: real)
    requires 1 <= b && 0.0 < pA <= 1.0
    ensures 0.0 <= (1.0 - pA) / pA
    ensures TheoreticalRuinProbability(a, b, pA) == RuinOfRatio(a, b, (1.0 - pA) / pA)
  {
    var r := (1.0 - pA) / pA;
    if pA == 0.5 {
      assert r == 1.0;
      GeoOfOne(a);
      GeoOfOne(a + b);
    } else {
      RatioNotOne(pA);
      BiasedRuinMatchesRatio(a, b, r);
    }
  }

  /** The biased formula (r^a - r^n) / (1 - r^n) is the ratio form. */
  lemma BiasedRuinMatchesRatio(a: nat, b: nat, r: real)
    requires 1 <= b && 0.0 <= r && r != 1.0
    ensures BiasedRuin(a, a + b, r) == RuinOfRatio(a, b, r)
  {
    GeoTelescopes(r, a);
    GeoTelescopes(r, a + b);
    GeoParts(a, b, r);
    RatioFormValue(r, Geo(r, a), Geo(r, a + b), Pow(r, a), Pow(r, a + b));
  }

  /** Multiplying (gn - ga) / gn by 1 - r gives (pa - pn) / (1 - pn), on
      plain values: ga and gn are geometric sums whose telescoped forms are
      1 - pa and 1 - pn. */
  lemma RatioFormValue(r: real, ga: real, gn: real, pa: real, pn: real)
    requires r != 1.0 && 1.0 <= gn
    requires (1.0 - r) * ga == 1.0 - pa && (1.0 - r) * gn == 1.0 - pn
    ensures 1.0 - pn != 0.0 && (gn - ga) / gn == (pa - pn) / (1.0 - pn)
  {
    var m := 1.0 - r;
    ScaledSums(m, ga, gn, pa, pn);
    NonzeroProduct(gn, m);
    DivCancel(gn - ga, gn, m);
    SameQuotient((gn - ga) * m, gn * m, pa - pn, 1.0 - pn);
  }

  /** The telescoped sums, multiplied on the right and subtracted. */
  lemma ScaledSums(m: real, ga: real, gn: real, pa: real, pn: real)
    requires m * ga == 1.0 - pa && m * gn == 1.0 - pn
    ensures (gn - ga) * m == pa - pn && gn * m == 1.0 - pn
  {
  }

  lemma NonzeroProduct(x: real, y: real)
    requires x != 0.0 && y != 0.0
    ensures x * y != 0.0
  {
  }

  lemma SameQuotient(u1: real, v1: real, u2: real, v2: real)
    requires u1 == u2 && v1 == v2 && v1 != 0.0
    ensures u1 / v1 == u2 / v2
  {
  }

  /** With both players holding capital, the ruin probability of A grows
      strictly with the ratio r of losing to winning chances. */
  lemma RuinOfRatioIncreasing(a: nat, b: nat, r1: real, r2: real)
    requires 1 <= a && 1 <= b && 0.0 <= r1 < r2
    ensures RuinOfRatio(a, b, r1) < RuinOfRatio(a, b, r2)
  {
    GeoAtLeastOne(r1, a);
    GeoAtLeastOne(r2, a);
    GeoAtLeastOne(r1, b);
    PowMono(r1, r2, a);
    GeoMono(r1, r2, b);
    GeoSplit(r1, a, b);
    GeoSplit(r2, a, b);
    ScaledGeoOrder(r1, r2, a);
    SplitShareOrder(Geo(r1, a), Geo(r2, a), Geo(r1, b), Geo(r2, b), Pow(r1, a), Pow(r2, a),
                    Geo(r1, a + b), Geo(r2, a + b));
  }

  /** The order of the ratio form, on plain values: with gn = ga + p * gb
      for both ratios, p1 * g2a < p2 * g1a and g1b <= g2b, the first share
      (gn - ga) / gn is the smaller. */
  lemma SplitShareOrder(g1a: real, g2a: real, g1b: real, g2b: real, p1: real, p2: real,
                        g1n: real, g2n: real)
    requires 1.0 <= g1a && 1.0 <= g2a && 1.0 <= g1b <= g2b && 0.0 <= p1 && 0.0 <= p2
    requires g1n == g1a + p1 * g1b && g2n == g2a + p2 * g2b
    requires p1 * g2a < p2 * g1a
    ensures (g1n - g1a) / g1n < (g2n - g2a) / g2n
  {
    var u1, u2 := p1 * g1b, p2 * g2b;
    MulNonneg(p1, g1b);
    MulNonneg(p2, g2b);
    CrossOrder(p1, p2, g1b, g2b, g1a, g2a);
    assert u1 * g2n == u1 * g2a + u1 * u2;
    assert u2 * g1n == u2 * g1a + u2 * u1;
    FractionOrder(u1, g1n, u2, g2n);
  }

  /** u1 / d1 < u2 / d2 for positive denominators when u1 * d2 < u2 * d1. */
  lemma FractionOrder(u1: real, d1: real, u2: real, d2: real)
    requires 0.0 < d1 && 0.0 < d2 && u1 * d2 < u2 * d1
    ensures u1 / d1 < u2 / d2
  {
    DivCancel(u1, d1, d2);
    DivCancel(u2, d2, d1);
    assert u1 / d1 == (u1 * d2) / (d1 * d2);
    assert u2 / d2 == (u2 * d1) / (d1 * d2);
  }

  /** (pa1 * gb1) * g2 < (pa2 * gb2) * g1 from pa1 * g2 < pa2 * g1 and
      0 <= gb1 <= gb2 with gb2 > 0. */
  lemma CrossOrder(pa1: real, pa2: real, gb1: real, gb2: real, g1: real, g2: real)
    requires 0.0 <= pa1 && 0.0 <= g2 && 0.0 <= gb1 <= gb2 && 0.0 < gb2
    requires pa1 * g2 < pa2 * g1
    ensures (pa1 * gb1) * g2 < (pa2 * gb2) * g1
  {
    MulNonneg(pa1, g2);
    MulMono(pa1 * g2, gb1, gb2);
    assert (pa1 * gb1) * g2 == (pa1 * g2) * gb1;
    assert (pa2 * gb2) * g1 == (pa2 * g1) * gb2;
  }

  /** The ratio q / p falls strictly as p grows, and is non-negative for
      p in (0, 1]. */
  lemma RatioFalls(p1: real, p2: real)
    requires 0.0 < p1 < p2 <= 1.0
    ensures 0.0 <= (1.0 - p2) / p2 < (1.0 - p1) / p1
  {
    assert (1.0 - p2) / p2 == 1.0 / p2 - 1.0;
    assert (1.0 - p1) / p1 == 1.0 / p1 - 1.0;
    assert 1.0 / p2 < 1.0 / p1 by {
      assert p1 * (1.0 / p2) < p2 * (1.0 / p2);
    }
  }

  /** With both players holding capital, A's ruin probability falls
      strictly as A's chance of winning a round rises, across the fair and
      the biased branch. */
  lemma RuinDecreasing(a: nat, b: nat, p1: real, p2: real)
    requires 1 <= a && 1 <= b && 0.0 < p1 < p2 <= 1.0
    ensures TheoreticalRuinProbability(a, b, p2) < TheoreticalRuinProbability(a, b, p1)
  {
    RatioFalls(p1, p2);
    RuinIsRuinOfRatio(a, b, p1);
    RuinIsRuinOfRatio(a, b, p2);
    RuinOfRatioIncreasing(a, b, (1.0 - p2) / p2, (1.0 - p1) / p1);
  }
}
