/**
  Rounding an integer to binary64, as the cast `i64 as f64` does and as the subtraction in the
  policy evaluator's `==` does on a common denominator. The comparisons themselves are in CastCompare.

  Rounding is section 4.3.1 of IEEE 754-2019, roundTiesToEven, on integers: every exact value met
  here is an integer multiple of a power of two, and rounding an integer to 53 significant bits
  does not depend on the unit it is counted in.
 */
module F64 {
  import opened Words

  const TWO52: nat := 0x10_0000_0000_0000
  const TWO53: nat := 0x20_0000_0000_0000

  function Pow2(k: nat): (p: nat)
    ensures p > 0
  {
    if k == 0 then 1 else 2 * Pow2(k - 1)
  }

  function Abs(x: int): nat {
    if x < 0 then -x else x
  }

  /** Weight of the last of the 53 significant bits of `n`. */
  function Ulp(n: nat): (u: nat)
    ensures u > 0
  {
    if n < TWO53 then 1 else 2 * Ulp(n / 2)
  }

  /** Nearest multiple of `u`; on a tie, the even multiple. */
  function RoundTo(n: nat, u: nat): nat
    requires u > 0
  {
    var q, rem := n / u, n % u;
    if 2 * rem < u || (2 * rem == u && q % 2 == 0) then q * u else (q + 1) * u
  }

  /** The cast to binary64, with the value kept as an integer. */
  function Round53(v: int): int {
    if v < 0 then 0 - RoundTo(-v, Ulp(-v)) else RoundTo(v, Ulp(v))
  }

  /** Some 53-bit significand times a non-negative power of two. */
  ghost predicate Representable(x: int) {
    exists m: int, k: nat :: Abs(m) < TWO53 && x == m * Pow2(k)
  }

  // ---- The rounding step at one fixed unit -----------------------------------------------

  lemma DivMod(n: nat, u: nat)
    requires u > 0
    ensures n == (n / u) * u + n % u && n % u < u
  {}

  lemma MulLe(a: int, b: int, u: nat)
    requires a <= b
    ensures a * u <= b * u
  {}

  lemma {:induction false} MulLt(a: int, b: int, u: nat)
    requires a * u < b * u
    ensures a < b
  {
    if b <= a { MulLe(b, a, u); }
  }

  /** Rounding never crosses a multiple of the unit, and moves by at most half a unit. */
  lemma RoundToStays(n: nat, u: nat, c: int)
    requires u > 0
    ensures n <= c * u ==> RoundTo(n, u) <= c * u
    ensures n >= c * u ==> RoundTo(n, u) >= c * u
  {
    DivMod(n, u);
    var q := n / u;
    if n <= c * u {
      if n == q * u {
        assert n % u == 0;
      } else {
        MulLt(q, c, u);
        MulLe(q + 1, c, u);
      }
      MulLe(q, q + 1, u);
    }
    if n >= c * u {
      assert c * u < (q + 1) * u;
      MulLt(c, q + 1, u);
      MulLe(c, q, u);
      MulLe(q, q + 1, u);
    }
  }

  lemma RoundToHalf(n: nat, u: nat)
    requires u > 0
    ensures 2 * Abs(RoundTo(n, u) - n) <= u
  {
    DivMod(n, u);
    MulSucc(n / u, u);
  }

  lemma RoundToMonotone(a: nat, b: nat, u: nat)
    requires u > 0 && a <= b
    ensures RoundTo(a, u) <= RoundTo(b, u)
  {
    DivMod(a, u);
    DivMod(b, u);
    var p, q := a / u, b / u;
    MulSucc(q, u);
    MulLt(p, q + 1, u);
    if p < q {
      MulLe(p + 1, q, u);
      RoundToStays(a, u, p + 1);
      RoundToStays(b, u, q);
    } else {
      assert p == q;
    }
  }

  // ---- Binades ---------------------------------------------------------------------------

  /** `n` has at most 53 bits above its unit, and exactly 53 once the unit exceeds one. */
  lemma {:induction false} UlpBounds(n: nat)
    ensures n < TWO53 * Ulp(n)
    ensures Ulp(n) == 1 || TWO52 * Ulp(n) <= n
  {
    if n >= TWO53 {
      UlpBounds(n / 2);
      if Ulp(n / 2) == 1 { assert Ulp(n) == 2; }
    }
  }

  /** Units are powers of two: a larger one is a multiple of twice a smaller one. */
  lemma {:induction false} UlpOrder(a: nat, b: nat)
    requires a <= b
    ensures Ulp(a) <= Ulp(b)
    ensures Ulp(a) < Ulp(b) ==> 2 * Ulp(a) <= Ulp(b)
    decreases b
  {
    if a >= TWO53 {
      UlpOrder(a / 2, b / 2);
    }
  }

  lemma {:induction false} UlpAtMost(n: nat, k: nat)
    requires n < TWO53 * Pow2(k)
    ensures Ulp(n) <= Pow2(k)
  {
    if n >= TWO53 {
      UlpAtMost(n / 2, k - 1);
    }
  }

  lemma {:induction false} UlpIsPow2(n: nat) returns (k: nat)
    ensures Ulp(n) == Pow2(k)
  {
    if n < TWO53 {
      k := 0;
    } else {
      k := UlpIsPow2(n / 2);
      k := k + 1;
    }
  }

  lemma {:induction false} Pow2Splits(j: nat, k: nat)
    requires j <= k
    ensures Pow2(k) == Pow2(k - j) * Pow2(j)
    decreases k
  {
    if j < k {
      Pow2Splits(j, k - 1);
      assert 2 * (Pow2(k - 1 - j) * Pow2(j)) == (2 * Pow2(k - 1 - j)) * Pow2(j);
    }
  }

  lemma {:induction false} Pow2Monotone(j: nat, k: nat)
    requires j <= k
    ensures Pow2(j) <= Pow2(k)
    decreases k
  {
    if j < k { Pow2Monotone(j, k - 1); }
  }

  lemma Pow2Of13()
    ensures Pow2(0) == 1 && Pow2(13) == 8192
  {}

  lemma Pow2Of1()
    ensures Pow2(1) == 2
  {}

  lemma PowersOfTwo()
    ensures Pow2(52) == TWO52 && Pow2(53) == TWO53 && Pow2(65) == 0x2_0000_0000_0000_0000
  {
    Pow2Of13();
    hide Pow2;
    Pow2Splits(13, 26);
    Pow2Splits(26, 39);
    Pow2Splits(39, 52);
    Pow2Splits(52, 65);
    Pow2Splits(52, 53);
    Pow2Of1();
  }

  // ---- What the cast guarantees ----------------------------------------------------------

  lemma RoundNatMonotone(a: nat, b: nat)
    requires a <= b
    ensures Round53(a) <= Round53(b)
  {
    UlpOrder(a, b);
    var u, w := Ulp(a), Ulp(b);
    if u == w {
      RoundToMonotone(a, b, u);
    } else {
      UlpBounds(a);
      UlpBounds(b);
      RoundToStays(a, u, TWO53);
      RoundToStays(b, w, TWO52);
      assert TWO53 * u == TWO52 * (2 * u);
      MulLe(2 * u, w, TWO52);
    }
  }

  /** Rounding is monotone, across binades and across zero. */
  lemma RoundMonotone(a: int, b: int)
    requires a <= b
    ensures Round53(a) <= Round53(b)
  {
    if 0 <= a {
      RoundNatMonotone(a, b);
    } else if b < 0 {
      RoundNatMonotone(-b, -a);
    } else {
      RoundToStays(-a, Ulp(-a), 0);
      RoundToStays(b, Ulp(b), 0);
    }
  }

  lemma RoundOdd(v: int)
    ensures Round53(-v) == -Round53(v)
  {
    if v == 0 { RoundToStays(0, Ulp(0), 0); }
  }

  lemma RoundExactBelowTwo53(v: int)
    requires Abs(v) <= TWO53
    ensures Round53(v) == v
  {
    assert forall n: nat :: n / 1 == n && n % 1 == 0;
    if Abs(v) == TWO53 { assert Ulp(TWO53) == 2; }
  }

  lemma RoundFixesNat(x: nat, m: nat, k: nat)
    requires m < TWO53 && x == m * Pow2(k)
    ensures Round53(x) == x
  {
    MulLe(m, TWO53 - 1, Pow2(k));
    UlpAtMost(x, k);
    var j := UlpIsPow2(x);
    if k < j {
      Pow2Monotone(k + 1, j);
      assert false;
    }
    Pow2Splits(j, k);
    var c := m * Pow2(k - j);
    assert x == c * Pow2(j) by { MulAssoc(m, Pow2(k - j), Pow2(j)); }
    RoundToStays(x, Ulp(x), c);
  }

  lemma MulSucc(a: int, u: nat)
    ensures (a + 1) * u == a * u + u
  {}

  lemma MulAssoc(a: int, b: int, c: int)
    ensures a * (b * c) == (a * b) * c
  {}

  /** Rounding fixes every representable value. */
  lemma RoundFixesRepresentable(x: int)
    requires Representable(x)
    ensures Round53(x) == x
  {
    var m, k: nat :| Abs(m) < TWO53 && x == m * Pow2(k);
    if m >= 0 {
      RoundFixesNat(x, m, k);
    } else {
      assert -x == (-m) * Pow2(k);
      RoundFixesNat(-x, -m, k);
      RoundOdd(x);
    }
  }

  lemma RoundNatRepresentable(n: nat)
    ensures Representable(Round53(n))
  {
    var u := Ulp(n);
    var k := UlpIsPow2(n);
    UlpBounds(n);
    DivMod(n, u);
    MulLt(n / u, TWO53, u);
    var c := Round53(n);
    if c == (n / u + 1) * u && n / u + 1 == TWO53 {
      assert u == Pow2(k) && TWO53 * u == TWO52 * (2 * u);
      assert Abs(TWO52) < TWO53 && c == TWO52 * Pow2(k + 1);
    } else if c == (n / u) * u {
      assert Abs(n / u) < TWO53 && c == (n / u) * Pow2(k);
    } else {
      assert Abs(n / u + 1) < TWO53 && c == (n / u + 1) * Pow2(k);
    }
  }

  lemma RoundRepresentable(v: int)
    ensures Representable(Round53(v))
  {
    if v >= 0 {
      RoundNatRepresentable(v);
    } else {
      RoundNatRepresentable(-v);
      var m, k: nat :| Abs(m) < TWO53 && Round53(-v) == m * Pow2(k);
      assert Abs(-m) < TWO53 && Round53(v) == (-m) * Pow2(k);
    }
  }

  /** A representable value between a number and its binade's grid point lies on the grid. */
  lemma RepresentableOnGrid(x: nat, u: nat)
    requires Representable(x) && Ulp(x) == u
    ensures x == (x / u) * u
  {
    RoundFixesRepresentable(x);
    DivMod(x, u);
    if x % u != 0 {
      MulSucc(x / u, u);
    }
  }

  /** No representable value lies strictly between two neighbouring multiples of the unit. */
  lemma RepresentableSkipsGap(n: nat, x: nat)
    requires Representable(x)
    ensures x <= (n / Ulp(n)) * Ulp(n) || (n / Ulp(n) + 1) * Ulp(n) <= x
  {
    hide Ulp, RoundTo, Representable;
    var u := Ulp(n);
    var q := n / u;
    if q * u < x < (q + 1) * u {
      DivMod(n, u);
      UlpBounds(n);
      MulLt(q, TWO53, u);
      MulLe(q + 1, TWO53, u);
      if u > 1 {
        MulLt(TWO52, q + 1, u);
        MulLe(TWO52, q, u);
      }
      SameBinade(n, x);
      RepresentableOnGrid(x, u);
      MulLt(q, x / u, u);
      MulLt(x / u, q + 1, u);
    }
  }

  lemma RoundToNearest(n: nat, u: nat, q: nat, x: nat)
    requires u > 0 && q == n / u
    requires x <= q * u || (q + 1) * u <= x
    ensures Abs(RoundTo(n, u) - n) <= Abs(x - n)
    ensures Abs(RoundTo(n, u) - n) == Abs(x - n) && x != RoundTo(n, u) ==> (RoundTo(n, u) / u) % 2 == 0
  {
    DivMod(n, u);
    MulSucc(q, u);
    var low := q * u;
    var r := RoundTo(n, u);
    NearerNeighbour(n, low, u, q % 2 == 0, x, r);
    if Abs(r - n) == Abs(x - n) && x != r {
      if q % 2 == 0 { DivExact(q, u); } else { DivExact(q + 1, u); }
    }
  }

  lemma RoundNatNearest(n: nat, x: nat)
    requires Representable(x)
    ensures var u := Ulp(n); var r := RoundTo(n, u);
            && Abs(r - n) <= Abs(x - n)
            && (Abs(r - n) == Abs(x - n) && x != r ==> (r / u) % 2 == 0)
  {
    hide Ulp, RoundTo, Representable;
    var u := Ulp(n);
    var q := n / u;
    assert x <= q * u || (q + 1) * u <= x by { RepresentableSkipsGap(n, x); }
    RoundToNearest(n, u, q, x);
  }

  /** Choosing between two neighbours `low` and `low + u` as RoundTo does beats anything outside them. */
  lemma NearerNeighbour(n: int, low: int, u: int, even: bool, x: int, r: int)
    requires low <= n < low + u
    requires x <= low || low + u <= x
    requires r == if 2 * (n - low) < u || (2 * (n - low) == u && even) then low else low + u
    ensures Abs(r - n) <= Abs(x - n)
    ensures Abs(r - n) == Abs(x - n) && x != r ==> r == if even then low else low + u
  {}

  lemma DivExact(q: nat, u: nat)
    requires u > 0
    ensures (q * u) / u == q
  {
    var d := (q * u) / u;
    DivMod(q * u, u);
    MulLt(q, d + 1, u) by { MulSucc(d, u); }
    MulLt(d, q + 1, u) by { MulSucc(q, u); }
  }

  lemma {:induction false} SameBinade(n: nat, x: nat)
    requires x < TWO53 * Ulp(n)
    requires Ulp(n) == 1 || TWO52 * Ulp(n) <= x
    ensures Ulp(x) == Ulp(n)
  {
    if n >= TWO53 {
      if Ulp(n / 2) == 1 { assert Ulp(n) == 2; }
      SameBinade(n / 2, x / 2);
    }
  }

  /**
    roundTiesToEven itself: the cast yields a representable value, none is nearer, and of two
    equally near ones it takes the one whose 53-bit significand is even. This fixes it uniquely.
   */
  lemma RoundIsNearestTiesToEven(v: int, x: int)
    requires Representable(x)
    ensures Representable(Round53(v))
    ensures Abs(Round53(v) - v) <= Abs(x - v)
    ensures Abs(Round53(v) - v) == Abs(x - v) && x != Round53(v)
            ==> (Abs(Round53(v)) / Ulp(Abs(v))) % 2 == 0
  {
    RoundRepresentable(v);
    if v >= 0 {
      if x >= 0 {
        RoundNatNearest(v, x);
      } else {
        ZeroRepresentable();
        RoundNatNearest(v, 0);
      }
    } else {
      var m, k: nat :| Abs(m) < TWO53 && x == m * Pow2(k);
      assert Abs(-m) < TWO53 && -x == (-m) * Pow2(k);
      if x <= 0 {
        RoundNatNearest(-v, -x);
      } else {
        ZeroRepresentable();
        RoundNatNearest(-v, 0);
      }
    }
  }

  lemma ZeroRepresentable()
    ensures Representable(0)
  {
    assert Abs(0) < TWO53 && 0 == 0 * Pow2(0);
  }

  /** Over the whole of i64 the cast moves a value by at most 512. */
  lemma RoundErrorAtMost512(v: i64)
    ensures Abs(Round53(v) - v) <= 512
  {
    var n := Abs(v);
    assert Pow2(10) == 1024;
    if n < TWO53 * 1024 {
      UlpAtMost(n, 10);
      RoundToHalf(n, Ulp(n));
    } else {
      assert Pow2(11) == 2048;
      assert v == (0 - TWO52) * Pow2(11) && Abs(0 - TWO52) < TWO53;
      assert Representable(v);
      RoundFixesRepresentable(v);
    }
  }
}
