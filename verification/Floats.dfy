/**
  Float arithmetic over real values: every operation is exact and then rounded. What is proved holds for every rounding
  to nearest, the one of `f32` among them, as long as nothing overflows; exact arithmetic is the rounding that does
  nothing.
 */
module Floats {
  import opened Pcm

  type Rounding = real -> real

  /** 2^-24, half the spacing of `f32` at one. */
  const UNIT := 1.0 / 16_777_216.0

  /** 2^-126, below which relative precision is lost. */
  const SMALLEST_NORMAL := 1.0 / 85_070_591_730_234_615_865_843_651_857_942_052_864.0

  /** 2^64. */
  const LARGE := 18_446_744_073_709_551_616.0

  const TWO_24 := 16_777_216

  function Whole(n: int): real { n as real }

  /** A sample as the source scales it. */
  function Grid(n: int): real { n as real / 32768.0 }

  ghost predicate Nearest(rnd: Rounding) {
    && (forall x, y :: x <= y ==> rnd(x) <= rnd(y))
    && (forall x :: rnd(-x) == -rnd(x))
    && (forall n: int :: -TWO_24 <= n <= TWO_24 ==> rnd(Whole(n)) == Whole(n))
    && (forall n: int :: -TWO_24 <= n <= TWO_24 ==> rnd(Grid(n)) == Grid(n))
    && (forall x :: Abs(x) >= SMALLEST_NORMAL ==> Abs(rnd(x) - x) <= Abs(x) * UNIT)
  }

  ghost predicate Exact(rnd: Rounding) { forall x :: rnd(x) == x }

  lemma ExactIsNearest(rnd: Rounding)
    requires Exact(rnd)
    ensures Nearest(rnd)
  {
    assert forall x :: Abs(x) >= 0.0;
  }

  lemma RoundsOrder(rnd: Rounding, x: real, y: real)
    requires Nearest(rnd) && x <= y
    ensures rnd(x) <= rnd(y)
  {
  }

  lemma RoundsWhole(rnd: Rounding, n: int)
    requires Nearest(rnd) && -TWO_24 <= n <= TWO_24
    ensures rnd(n as real) == n as real && rnd(Grid(n)) == Grid(n)
  {
    assert Whole(n) == n as real;
  }

  lemma RoundsNear(rnd: Rounding, x: real)
    requires Nearest(rnd) && x >= SMALLEST_NORMAL
    ensures Low(x) <= rnd(x) <= High(x)
  {
    assert Abs(x) == x;
    assert Abs(rnd(x) - x) <= Abs(x) * UNIT;
  }

  lemma RoundsAbs(rnd: Rounding, x: real)
    requires Nearest(rnd)
    ensures Abs(rnd(x)) == rnd(Abs(x)) >= 0.0
  {
    RoundsWhole(rnd, 0);
    assert rnd(0.0) == 0.0;
    RoundsOrder(rnd, 0.0, Abs(x));
    if x < 0.0 {
      assert Abs(x) == -x && rnd(-x) == -rnd(x);
    } else {
      assert Abs(x) == x;
    }
  }

  /** At the size of samples a rounding moves little, however small the number. */
  lemma RoundsNearby(rnd: Rounding, p: real)
    requires Nearest(rnd) && Abs(p) <= 32768.0
    ensures Abs(rnd(p) - p) <= 0.002
  {
    RoundsAbs(rnd, p);
    if Abs(p) < SMALLEST_NORMAL {
      RoundsWhole(rnd, 1);
      RoundsOrder(rnd, Abs(p), Grid(1));
    }
  }

  // ---- Products, in one place ----

  function Product(x: real, y: real): real { x * y }

  function Quotient(x: real, y: real): real
    requires y != 0.0
  {
    x / y
  }

  lemma ProductOrder(x: real, y: real, r: real)
    requires x <= y && r >= 0.0
    ensures Product(x, r) <= Product(y, r) && Product(r, x) <= Product(r, y)
  {
    assert (y - x) * r >= 0.0;
    assert (y - x) * r == y * r - x * r;
  }

  lemma ProductSymmetric(x: real, y: real)
    ensures Product(x, y) == Product(y, x) && Product(-x, y) == -Product(x, y)
    ensures Product(0.0, x) == 0.0 && Product(1.0, x) == x
  {
  }

  lemma ProductAbs(x: real, r: real)
    requires r >= 0.0
    ensures Abs(Product(x, r)) == Product(Abs(x), r) >= 0.0
  {
    ProductSymmetric(x, r);
    ProductSymmetric(r, r);
    ProductOrder(0.0, Abs(x), r);
  }

  lemma QuotientTimes(a: real, b: real)
    requires a >= 0.0 && b > 0.0
    ensures Product(Quotient(a, b), b) == a && Quotient(a, b) >= 0.0
  {
    var q := Quotient(a, b);
    assert q * b == a;
    if q < 0.0 { ProductOrder(q, 0.0, b); NegativeProduct(q, b); }
  }

  lemma NegativeProduct(q: real, b: real)
    requires q < 0.0 && b > 0.0
    ensures Product(q, b) < 0.0
  {
  }

  // ---- Gains ----

  function Gain(rnd: Rounding, ratio: real): real -> real { x => rnd(Product(x, ratio)) }

  /** A gain keeps the order of magnitudes. */
  lemma GainOrder(rnd: Rounding, ratio: real, x: real, y: real)
    requires Nearest(rnd) && ratio >= 0.0 && Abs(x) <= Abs(y)
    ensures Abs(rnd(Product(x, ratio))) <= Abs(rnd(Product(y, ratio)))
  {
    GainAbs(rnd, ratio, x);
    GainAbs(rnd, ratio, y);
    ProductOrder(Abs(x), Abs(y), ratio);
    RoundsOrder(rnd, Product(Abs(x), ratio), Product(Abs(y), ratio));
  }

  lemma GainAbs(rnd: Rounding, ratio: real, x: real)
    requires Nearest(rnd) && ratio >= 0.0
    ensures Abs(rnd(Product(x, ratio))) == rnd(Product(Abs(x), ratio))
  {
    ProductAbs(x, ratio);
    RoundsAbs(rnd, Product(x, ratio));
  }

  /** A gain of at most one keeps a whole sample's product between zero and the sample. */
  lemma GainAtMostOne(rnd: Rounding, n: int, volume: real)
    requires Nearest(rnd) && 0.0 <= volume <= 1.0 && -TWO_24 <= n <= TWO_24
    ensures n >= 0 ==> 0.0 <= rnd(Product(n as real, volume)) <= n as real
    ensures n <= 0 ==> n as real <= rnd(Product(n as real, volume)) <= 0.0
  {
    var x := n as real;
    ProductBetween(x, volume);
    RoundsWhole(rnd, 0);
    RoundsWhole(rnd, n);
    var p := Product(x, volume);
    if n >= 0 {
      RoundsOrder(rnd, 0.0, p);
      RoundsOrder(rnd, p, x);
    } else {
      RoundsOrder(rnd, x, p);
      RoundsOrder(rnd, p, 0.0);
    }
  }

  lemma ProductBetween(x: real, volume: real)
    requires 0.0 <= volume <= 1.0
    ensures x >= 0.0 ==> 0.0 <= Product(x, volume) <= x
    ensures x <= 0.0 ==> x <= Product(x, volume) <= 0.0
  {
    ProductSymmetric(x, volume);
    ProductSymmetric(volume, x);
    ProductSymmetric(-x, volume);
    if x >= 0.0 {
      ProductOrder(0.0, volume, x);
      ProductOrder(volume, 1.0, x);
      ProductSymmetric(x, 1.0);
    } else {
      ProductOrder(0.0, volume, -x);
      ProductOrder(volume, 1.0, -x);
      ProductSymmetric(-x, 1.0);
    }
  }

  /** The factor (a / b) * margin that takes a peak b to margin times a, as the source computes it. */
  function Ratio(rnd: Rounding, a: real, b: real, margin: real): real
    requires b > 0.0
  {
    rnd(Product(rnd(Quotient(a, b)), rnd(margin)))
  }

  lemma RatioNonNegative(rnd: Rounding, a: real, b: real, margin: real)
    requires Nearest(rnd) && a >= 0.0 && b > 0.0 && margin >= 0.0
    ensures Ratio(rnd, a, b, margin) >= 0.0
  {
    RoundsWhole(rnd, 0);
    QuotientTimes(a, b);
    var q, m := rnd(Quotient(a, b)), rnd(margin);
    RoundsOrder(rnd, 0.0, Quotient(a, b));
    RoundsOrder(rnd, 0.0, margin);
    ProductOrder(0.0, q, m);
    ProductSymmetric(m, q);
    RoundsOrder(rnd, 0.0, Product(q, m));
  }

  /** The peak that the factor gives a signal of peak b. */
  function Restored(rnd: Rounding, a: real, b: real, margin: real): real
    requires b > 0.0
  {
    rnd(Product(b, Ratio(rnd, a, b, margin)))
  }

  lemma RestoredExactly(rnd: Rounding, a: real, b: real, margin: real)
    requires Exact(rnd) && a >= 0.0 && b > 0.0
    ensures Restored(rnd, a, b, margin) == Product(a, margin)
  {
    RestoredIsMargin(a, b, margin);
  }

  lemma Reassociate(b: real, q: real, m: real)
    ensures Product(b, Product(q, m)) == Product(Product(b, q), m)
  {
  }

  // ---- How near the restored peak comes ----

  function Low(x: real): real { x * (1.0 - UNIT) }
  function High(x: real): real { x * (1.0 + UNIT) }

  lemma LowHighProduct(x: real, y: real)
    ensures Product(Low(x), y) == Product(x, Low(y)) == Low(Product(x, y))
    ensures Product(High(x), y) == Product(x, High(y)) == High(Product(x, y))
  {
  }

  /** Factors within one rounding each, product within two. */
  lemma ProductNear(x: real, y: real, x': real, y': real)
    requires x >= 0.0 && y >= 0.0 && Low(x) <= x' <= High(x) && Low(y) <= y' <= High(y)
    ensures Low(Low(Product(x, y))) <= Product(x', y') <= High(High(Product(x, y)))
  {
    ProductOrder(Low(x), x', y');
    ProductOrder(x', High(x), y');
    ProductOrder(Low(y), y', x);
    ProductOrder(y', High(y), x);
    LowHighProduct(x, y);
    LowHighProduct(x, y');
  }

  lemma QuotientNormal(a: real, b: real)
    requires a >= Grid(1) && 0.0 < b <= LARGE
    ensures Quotient(a, b) * 0.25 >= SMALLEST_NORMAL
  {
    QuotientTimes(a, b);
    var q := Quotient(a, b);
    ProductOrder(b, LARGE, q);
    assert Product(q, LARGE) == q * 18_446_744_073_709_551_616.0;
  }

  lemma RoundedProductNear(rnd: Rounding, b: real, e: real, r: real)
    requires Nearest(rnd) && b >= 0.0 && Product(b, e) >= 2.0 * SMALLEST_NORMAL
    requires Low(Low(Low(e))) <= r <= High(High(High(e)))
    ensures Low(Low(Low(Low(Product(b, e))))) <= rnd(Product(b, r)) <= High(High(High(High(Product(b, e)))))
  {
    ProductOrder(Low(Low(Low(e))), r, b);
    ProductOrder(r, High(High(High(e))), b);
    LowHighProduct(b, e);
    LowHighProduct(b, Low(e));
    LowHighProduct(b, Low(Low(e)));
    LowHighProduct(b, High(e));
    LowHighProduct(b, High(High(e)));
    RoundsNear(rnd, Product(b, r));
  }

  lemma RatioNear(rnd: Rounding, a: real, b: real, margin: real)
    requires Nearest(rnd) && Grid(1) <= a && 0.0 < b <= LARGE && 0.5 <= margin <= 1.0
    ensures var e := Product(Quotient(a, b), margin);
      Low(Low(Low(e))) <= Ratio(rnd, a, b, margin) <= High(High(High(e)))
  {
    var d := Quotient(a, b);
    QuotientTimes(a, b);
    QuotientNormal(a, b);
    RoundsNear(rnd, d);
    RoundsNear(rnd, margin);
    ProductNear(d, margin, rnd(d), rnd(margin));
    HalfOrMore(d, margin);
    RoundsNear(rnd, Product(rnd(d), rnd(margin)));
  }

  lemma HalfOrMore(d: real, margin: real)
    requires d >= 0.0 && margin >= 0.5
    ensures Product(d, margin) >= d * 0.5
  {
    ProductOrder(0.5, margin, d);
    assert Product(d, 0.5) == d * 0.5;
  }

  lemma RestoredIsMargin(a: real, b: real, margin: real)
    requires a >= 0.0 && b > 0.0
    ensures Product(b, Product(Quotient(a, b), margin)) == Product(a, margin)
  {
    QuotientTimes(a, b);
    ProductSymmetric(Quotient(a, b), b);
    Reassociate(b, Quotient(a, b), margin);
  }

  lemma FourRoundings(t: real, x: real)
    requires t >= 0.0 && Low(Low(Low(Low(t)))) <= x <= High(High(High(High(t))))
    ensures Abs(x - t) <= t * 5.0 * UNIT
  {
  }

  /** The restored peak is margin * a up to five roundings, unless b is so large that the quotient loses precision. */
  lemma RestoredNear(rnd: Rounding, a: real, b: real, margin: real)
    requires Nearest(rnd) && Grid(1) <= a && 0.0 < b <= LARGE && 0.5 <= margin <= 1.0
    ensures Abs(Restored(rnd, a, b, margin) - Product(a, margin)) <= Product(a, margin) * 5.0 * UNIT
  {
    RatioNear(rnd, a, b, margin);
    RestoredIsMargin(a, b, margin);
    HalfOrMore(a, margin);
    RoundedProductNear(rnd, b, Product(Quotient(a, b), margin), Ratio(rnd, a, b, margin));
    FourRoundings(Product(a, margin), Restored(rnd, a, b, margin));
  }
}
