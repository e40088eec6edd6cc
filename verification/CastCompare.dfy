/**
  Comparing an `i64` metric with an `f64` threshold the way the policy evaluator does: the metric
  is first rounded by the cast, then compared. Each operator's deviation from the exact comparison
  is characterised here for every metric and every threshold, NaN and the infinities included.
 */
module CastCompare {
  import opened Words
  import opened F64

  /** A binary64 datum; `Finite(m, e)` is the number m * 2^e. */
  datatype Float = NaN | Infinite(negative: bool) | Finite(m: int, e: int)

  type f64 = t: Float | t.Finite? ==> Abs(t.m) < TWO53 && -1074 <= t.e <= 971
    witness NaN

  /** A finite threshold as a fraction with a power of two below the line. */
  function Den(t: Float): (d: nat)
    requires t.Finite?
    ensures d > 0
  {
    if t.e < 0 then Pow2(-t.e) else 1
  }

  function Num(t: Float): int
    requires t.Finite?
  {
    if t.e < 0 then t.m else t.m * Pow2(t.e)
  }

  // Exact order between an integer and a binary64 datum; every comparison with NaN is false.

  predicate Gt(x: int, t: f64) {
    match t
    case NaN => false
    case Infinite(negative) => negative
    case Finite(_, _) => x * Den(t) > Num(t)
  }

  predicate Lt(x: int, t: f64) {
    match t
    case NaN => false
    case Infinite(negative) => !negative
    case Finite(_, _) => x * Den(t) < Num(t)
  }

  predicate Eq(x: int, t: f64) {
    t.Finite? && x * Den(t) == Num(t)
  }

  predicate Ge(x: int, t: f64) {
    Gt(x, t) || Eq(x, t)
  }

  predicate Le(x: int, t: f64) {
    Lt(x, t) || Eq(x, t)
  }

  /** The number a finite datum stands for, m * 2^e. */
  function RealOf(t: Float): real
    requires t.Finite?
  {
    if t.e >= 0 then t.m as real * Pow2(t.e) as real else t.m as real / Pow2(-t.e) as real
  }

  lemma ProductAsReal(a: int, b: int)
    ensures (a * b) as real == a as real * b as real
  {}

  lemma QuotientOrder(x: int, m: int, d: nat)
    requires d > 0
    ensures x * d > m <==> x as real > m as real / d as real
    ensures x * d < m <==> (x as real) < m as real / d as real
  {
    ProductAsReal(x, d);
    var q := m as real / d as real;
    assert q * d as real == m as real;
    assert (x as real - q) * d as real == x as real * d as real - m as real;
  }

  /** The comparisons are the order of the real numbers, with the infinities outermost and NaN unordered. */
  lemma OrderIsExact(x: int, t: f64)
    ensures Gt(x, t) <==> t == Infinite(true) || (t.Finite? && x as real > RealOf(t))
    ensures Lt(x, t) <==> t == Infinite(false) || (t.Finite? && (x as real) < RealOf(t))
    ensures Eq(x, t) <==> t.Finite? && x as real == RealOf(t)
    ensures Ge(x, t) <==> t == Infinite(true) || (t.Finite? && x as real >= RealOf(t))
    ensures Le(x, t) <==> t == Infinite(false) || (t.Finite? && x as real <= RealOf(t))
  {
    if t.Finite? {
      if t.e >= 0 { ProductAsReal(t.m, Pow2(t.e)); } else { QuotientOrder(x, t.m, Pow2(-t.e)); }
    }
  }

  /**
    `(x - t).abs() < f64::EPSILON`, the subtraction rounded too. The difference is counted in
    units of 1/Den(t). A difference too large for binary64 becomes infinite in the source and
    stays a large integer here; neither is below epsilon.
   */
  predicate WithinEpsilon(x: int, t: f64) {
    t.Finite? && Abs(Round53(x * Den(t) - Num(t))) * TWO52 < Den(t)
  }

  // ---- Order comparisons -----------------------------------------------------------------

  lemma NumRepresentable(t: f64)
    requires t.Finite? && t.e >= 0
    ensures Round53(Num(t)) == Num(t)
  {
    assert Abs(t.m) < TWO53 && Num(t) == t.m * Pow2(t.e);
    RoundFixesRepresentable(Num(t));
  }

  /** Rounding does not carry a value past a threshold above it. */
  lemma RoundStaysBelow(v: int, t: f64)
    requires t.Finite? && v * Den(t) <= Num(t)
    ensures Round53(v) * Den(t) <= Num(t)
  {
    var d := Den(t);
    if t.e >= 0 {
      RoundMonotone(v, Num(t));
      NumRepresentable(t);
    } else if Abs(v) <= TWO53 {
      RoundExactBelowTwo53(v);
    } else if v > 0 {
      MulLe(TWO53, v, d);
      MulLe(1, d, TWO53);
      assert false;
    } else {
      RoundMonotone(v, 0 - TWO53);
      RoundExactBelowTwo53(0 - TWO53);
      MulLe(Round53(v), 0 - TWO53, d);
      MulLe(1, d, TWO53);
    }
  }

  /** The mirror image of RoundStaysBelow. */
  lemma RoundStaysAbove(v: int, t: f64)
    requires t.Finite? && v * Den(t) >= Num(t)
    ensures Round53(v) * Den(t) >= Num(t)
  {
    var s: f64 := Finite(-t.m, t.e);
    assert Num(s) == -Num(t) by { if t.e >= 0 { MulNeg(t.m, Pow2(t.e)); } }
    MulNeg(v, Den(t));
    RoundStaysBelow(-v, s);
    RoundOdd(v);
    MulNeg(Round53(v), Den(t));
  }

  lemma MulNeg(a: int, b: int)
    ensures (-a) * b == -(a * b)
  {}

  /**
    The four order operators on the cast value, against the exact comparison: `>` and `<` never
    accept what is exactly false, `>=` and `<=` never reject what is exactly true, and an answer
    is wrong precisely when rounding lands on the threshold from the other side.
   */
  lemma CastComparisons(v: i64, t: f64)
    ensures Gt(Round53(v), t) ==> Gt(v, t)
    ensures Lt(Round53(v), t) ==> Lt(v, t)
    ensures Ge(v, t) ==> Ge(Round53(v), t)
    ensures Le(v, t) ==> Le(Round53(v), t)
    ensures Gt(Round53(v), t) != Gt(v, t) <==> Eq(Round53(v), t) && Gt(v, t)
    ensures Lt(Round53(v), t) != Lt(v, t) <==> Eq(Round53(v), t) && Lt(v, t)
    ensures Ge(Round53(v), t) != Ge(v, t) <==> Eq(Round53(v), t) && Lt(v, t)
    ensures Le(Round53(v), t) != Le(v, t) <==> Eq(Round53(v), t) && Gt(v, t)
  {
    if t.Finite? {
      if v * Den(t) <= Num(t) { RoundStaysBelow(v, t); }
      if v * Den(t) >= Num(t) { RoundStaysAbove(v, t); }
    }
  }

  /** No operator is wrong unless the threshold is finite and within 512 of the metric. */
  lemma WrongOnlyNearThreshold(v: i64, t: f64)
    requires || Gt(Round53(v), t) != Gt(v, t) || Ge(Round53(v), t) != Ge(v, t)
             || Lt(Round53(v), t) != Lt(v, t) || Le(Round53(v), t) != Le(v, t)
    ensures t.Finite? && Abs(v * Den(t) - Num(t)) <= 512 * Den(t)
    ensures Abs(v) > TWO53
  {
    CastComparisons(v, t);
    RoundErrorAtMost512(v);
    ScaleDistance(v, Round53(v), Den(t), 512);
    if Abs(v) <= TWO53 { RoundExactBelowTwo53(v); }
  }

  lemma ScaleDistance(v: int, r: int, d: nat, bound: nat)
    requires Abs(r - v) <= bound
    ensures Abs(v * d - r * d) <= bound * d
  {
    assert v * d - r * d == (v - r) * d;
    MulLe(v - r, bound, d);
    MulLe(0 - bound, v - r, d);
  }

  lemma ExponentOfInt64(m: int, k: nat)
    requires m != 0 && Abs(m * Pow2(k)) < 0x2_0000_0000_0000_0000
    ensures k <= 64
  {
    if k > 64 {
      PowersOfTwo();
      Pow2Monotone(65, k);
      if m > 0 { MulLe(1, m, Pow2(k)); } else { MulLe(m, -1, Pow2(k)); }
    }
  }

  /** The cast value of any metric is itself a threshold one can write. */
  lemma CastAsThreshold(v: i64) returns (t: f64)
    ensures t.Finite? && Den(t) == 1 && Num(t) == Round53(v)
  {
    RoundRepresentable(v);
    RoundErrorAtMost512(v);
    var m, k: nat :| Abs(m) < TWO53 && Round53(v) == m * Pow2(k);
    if m == 0 {
      t := Finite(0, 0);
    } else {
      ExponentOfInt64(m, k);
      t := Finite(m, k);
    }
  }

  /** Which metrics an operator compares exactly with every threshold: those not rounded the wrong way. */
  lemma ExactForEveryThreshold(v: i64)
    ensures (forall t: f64 :: Gt(Round53(v), t) == Gt(v, t)) <==> Round53(v) >= v
    ensures (forall t: f64 :: Le(Round53(v), t) == Le(v, t)) <==> Round53(v) >= v
    ensures (forall t: f64 :: Lt(Round53(v), t) == Lt(v, t)) <==> Round53(v) <= v
    ensures (forall t: f64 :: Ge(Round53(v), t) == Ge(v, t)) <==> Round53(v) <= v
  {
    var at := CastAsThreshold(v);
    CastComparisons(v, at);
    forall t: f64
      ensures Round53(v) >= v ==> !(Eq(Round53(v), t) && Gt(v, t))
      ensures Round53(v) <= v ==> !(Eq(Round53(v), t) && Lt(v, t))
    {
      if t.Finite? {
        if Round53(v) >= v { MulLe(v, Round53(v), Den(t)); }
        if Round53(v) <= v { MulLe(Round53(v), v, Den(t)); }
      }
    }
    forall t: f64
      ensures Round53(v) >= v ==> Gt(Round53(v), t) == Gt(v, t) && Le(Round53(v), t) == Le(v, t)
      ensures Round53(v) <= v ==> Lt(Round53(v), t) == Lt(v, t) && Ge(Round53(v), t) == Ge(v, t)
    {
      CastComparisons(v, t);
    }
  }

  lemma CastMovesMetric()
    ensures Round53(TWO53 + 1) == TWO53 && Round53(-(TWO53 + 1)) == 0 - TWO53
  {
    assert Ulp(TWO53 + 1) == 2;
  }

  /** Metrics beyond a threshold that `>` and `<` reject: 2^53 + 1 against 2^53, and the mirror image. */
  lemma StrictComparisonCanReject()
    ensures var v: i64 := TWO53 + 1; var t: f64 := Finite(1, 53);
            Gt(v, t) && !Gt(Round53(v), t)
    ensures var v: i64 := -(TWO53 + 1); var t: f64 := Finite(-1, 53);
            Lt(v, t) && !Lt(Round53(v), t)
  {
    PowersOfTwo();
    CastMovesMetric();
  }

  /** The same metrics are accepted by `<=` and `>=`, which are exactly false of them. */
  lemma LaxComparisonCanAccept()
    ensures var v: i64 := TWO53 + 1; var t: f64 := Finite(1, 53);
            !Le(v, t) && Le(Round53(v), t)
    ensures var v: i64 := -(TWO53 + 1); var t: f64 := Finite(-1, 53);
            !Ge(v, t) && Ge(Round53(v), t)
  {
    PowersOfTwo();
    CastMovesMetric();
  }

  // ---- The `==` operator -----------------------------------------------------------------

  lemma PowerBelow(den: nat, k: nat, d: nat)
    requires den == Pow2(k) && d * TWO52 >= den && d > 0
    ensures Round53(d) * TWO52 >= den
  {
    PowersOfTwo();
    if k <= 52 {
      Pow2Monotone(k, 52);
      RoundMonotone(1, d);
      RoundExactBelowTwo53(1);
    } else {
      Pow2Splits(52, k);
      PowerStaysBelow(k - 52, d);
    }
  }

  lemma PowerStaysBelow(j: nat, d: nat)
    requires d * TWO52 >= Pow2(j) * TWO52
    ensures Round53(d) * TWO52 >= Pow2(j) * TWO52
  {
    var p := Pow2(j);
    assert Abs(1) < TWO53 && p == 1 * Pow2(j);
    RoundFixesRepresentable(p);
    RoundMonotone(p, d);
  }

  /** A difference at or above epsilon still is after rounding. */
  lemma EpsilonSurvivesRounding(t: f64, d: int)
    requires t.Finite? && d != 0 && Abs(d) * TWO52 >= Den(t)
    ensures Abs(Round53(d)) * TWO52 >= Den(t)
  {
    RoundOdd(d);
    if t.e < 0 {
      PowerBelow(Den(t), -t.e, Abs(d));
    } else {
      PowerBelow(1, 0, Abs(d));
    }
  }

  /** Away from -1, 0 and 1 the neighbours of an integer are at least epsilon away. */
  lemma FarIntegersNeedEquality(r: int, t: f64)
    requires t.Finite? && Abs(r) >= 2 && r * Den(t) != Num(t)
    ensures Abs(r * Den(t) - Num(t)) * TWO52 >= Den(t)
  {
    var den, num := Den(t), Num(t);
    var d := r * den - num;
    if Abs(d) * TWO52 < den {
      assert den > TWO52;
      assert t.e < 0 && num == t.m;
      DenAtLeastTwo53(t);
      if r > 0 { MulLe(2, r, den); } else { MulLe(r, -2, den); }
      assert false;
    }
  }

  lemma DenAtLeastTwo53(t: f64)
    requires t.Finite? && Den(t) > TWO52
    ensures Den(t) >= TWO53
  {
    PowersOfTwo();
    if t.e < 0 {
      if -t.e <= 52 { Pow2Monotone(-t.e, 52); } else { Pow2Monotone(53, -t.e); }
    }
  }

  /** Next to -1, 0 and 1 the subtraction is exact. */
  lemma NearbyDifferenceExact(r: int, t: f64)
    requires t.Finite? && Abs(r) <= 1 && Abs(r * Den(t) - Num(t)) * TWO52 < Den(t)
    ensures Round53(r * Den(t) - Num(t)) == r * Den(t) - Num(t)
  {
    var den, num := Den(t), Num(t);
    var d := r * den - num;
    RoundExactBelowTwo53(d);
  }

  /**
    `==` accepts exactly when the rounded metric equals the threshold, or the rounded metric is
    -1, 0 or 1 and the threshold lies strictly within 2^-52 of it.
   */
  lemma EqualityOperator(v: i64, t: f64)
    ensures WithinEpsilon(Round53(v), t) <==>
            && t.Finite?
            && (|| Eq(Round53(v), t)
                || (Abs(Round53(v)) <= 1 && Abs(Round53(v) * Den(t) - Num(t)) * TWO52 < Den(t)))
  {
    if t.Finite? {
      var r := Round53(v);
      var d := r * Den(t) - Num(t);
      if d == 0 {
        RoundExactBelowTwo53(0);
      } else if Abs(d) * TWO52 >= Den(t) {
        EpsilonSurvivesRounding(t, d);
      } else {
        if Abs(r) >= 2 { FarIntegersNeedEquality(r, t); }
        NearbyDifferenceExact(r, t);
      }
    }
  }

  function RealAbs(x: real): real {
    if x < 0.0 then -x else x
  }

  /** Strictly within 2^-52 of the threshold, as real numbers. */
  predicate NearReal(x: int, t: f64) {
    t.Finite? && RealAbs(x as real - RealOf(t)) * 4503599627370496.0 < 1.0
  }

  lemma SignOfProduct(a: real, d: real)
    requires d > 0.0
    ensures a * d < 0.0 <==> a < 0.0
  {}

  lemma AbsProduct(a: real, d: real, product: real)
    requires d > 0.0 && product == a * d
    ensures RealAbs(product) == RealAbs(a) * d
  {
    SignOfProduct(a, d);
  }

  lemma ScaledDistance(x: int, m: int, d: nat)
    requires d > 0
    ensures Abs(x * d - m) * TWO52 < d <==>
            RealAbs(x as real - m as real / d as real) * 4503599627370496.0 < 1.0
  {
    hide RealAbs;
    var q := m as real / d as real;
    var gap, n := x as real - q, Abs(x * d - m);
    var product := (x * d - m) as real;
    assert product == gap * d as real by {
      ProductAsReal(x, d);
      assert q * d as real == m as real;
    }
    AbsProduct(gap, d as real, product);
    AbsAsReal(x * d - m);
    ProductAsReal(n, TWO52);
    Rearrange(RealAbs(gap), d as real, n as real, 4503599627370496.0);
  }

  lemma AbsAsReal(n: int)
    ensures Abs(n) as real == RealAbs(n as real)
  {}

  lemma Rearrange(gap: real, d: real, n: real, s: real)
    requires d > 0.0 && n == gap * d
    ensures n * s < d <==> gap * s < 1.0
  {
    assert (gap * s - 1.0) * d == n * s - d;
    SignOfProduct(gap * s - 1.0, d);
  }

  lemma NearIsReal(x: int, t: f64)
    ensures NearReal(x, t) <==> t.Finite? && Abs(x * Den(t) - Num(t)) * TWO52 < Den(t)
  {
    hide RealAbs, Abs;
    if t.Finite? {
      ScaledDistance(x, Num(t), Den(t));
      if t.e >= 0 { ProductAsReal(t.m, Pow2(t.e)); }
      assert RealOf(t) == Num(t) as real / Den(t) as real;
    }
  }

  /** `==` accepts unequal numbers both ways: a metric rounded onto the threshold, and 1 against 1 - 2^-53. */
  lemma EqualityCanAccept()
    ensures var v: i64 := TWO53 + 1; var t: f64 := Finite(1, 53);
            !Eq(v, t) && WithinEpsilon(Round53(v), t)
    ensures var t: f64 := Finite(TWO53 - 1, -53);
            !Eq(1, t) && WithinEpsilon(Round53(1), t)
  {
    hide Round53, Pow2;
    PowersOfTwo();
    CastMovesMetric();
    RoundExactBelowTwo53(0);
    RoundExactBelowTwo53(1);
  }
}
