/** Exact decimal numbers as java.math.BigDecimal represents them: an
    arbitrary-precision unscaled integer and a scale, with value
    unscaled × 10^(-scale). The scale may be negative (stripping the trailing
    zeros of 100 gives 1 × 10^2, scale -2). Java keeps the scale in 32 bits
    and throws when an operation would push it out of that range; here the
    scale is unbounded and no such exception is modelled. Only the
    operations the receipt service uses are modelled. */
module Decimals {
  import opened Arith

  datatype Decimal = Decimal(unscaled: int, scale: int)

  /** BigDecimal.ZERO */
  const Zero := Decimal(0, 0)
  /** BigDecimal.ONE */
  const One := Decimal(1, 0)
  /** BigDecimal.valueOf(0.25): the double's shortest decimal text "0.25". */
  const Quarter := Decimal(25, 2)
  /** BigDecimal.valueOf(0.2): the double's shortest decimal text "0.2". */
  const Fifth := Decimal(2, 1)

  function Max(a: int, b: int): int
  {
    if a < b then b else a
  }

  function Abs(a: int): nat
  {
    if a < 0 then -a else a
  }

  /** The unscaled value of `d` written at the finer scale `s`. */
  function Align(d: Decimal, s: int): int
    requires s >= d.scale
  {
    d.unscaled * Pow10(s - d.scale)
  }

  /** The value of `d` is a whole number. This is the reference meaning of
      "a round dollar amount", stated on the representation. */
  ghost predicate IsWhole(d: Decimal)
  {
    d.scale <= 0 || d.unscaled % Pow10(d.scale) == 0
  }

  /** BigDecimal.compareTo: compares values, ignoring the scale. The result
      is the sign of a - b, read at any scale fine enough for both. */
  function CompareTo(a: Decimal, b: Decimal): (c: int)
    ensures -1 <= c <= 1
    ensures forall s :: s >= a.scale && s >= b.scale ==>
      && (c < 0 <==> Align(a, s) < Align(b, s))
      && (c == 0 <==> Align(a, s) == Align(b, s))
      && (c > 0 <==> Align(a, s) > Align(b, s))
  {
    var m := Max(a.scale, b.scale);
    forall s | s >= a.scale && s >= b.scale
      ensures Align(a, m) < Align(b, m) <==> Align(a, s) < Align(b, s)
      ensures Align(a, m) == Align(b, m) <==> Align(a, s) == Align(b, s)
    {
      AlignFurther(a, m, s - m);
      AlignFurther(b, m, s - m);
      MulPreservesOrder(Align(a, m), Align(b, m), Pow10(s - m));
    }
    var x := Align(a, m);
    var y := Align(b, m);
    if x < y then -1 else if x == y then 0 else 1
  }

  lemma AlignFurther(d: Decimal, s: int, k: nat)
    requires s >= d.scale
    ensures Align(d, s + k) == Align(d, s) * Pow10(k)
  {
    var a, b := Pow10(s - d.scale), Pow10(k);
    Pow10Add(s - d.scale, k);
    assert Pow10(s + k - d.scale) == a * b;
    calc {
      Align(d, s + k);
      d.unscaled * (a * b);
      { MulAssociates(d.unscaled, a, b); }
      (d.unscaled * a) * b;
    }
  }

  /** Aligning has the sign of the unscaled value. */
  lemma AlignSign(d: Decimal, s: int)
    requires s >= d.scale
    ensures Align(d, s) > 0 <==> d.unscaled > 0
    ensures Align(d, s) == 0 <==> d.unscaled == 0
  {
    MulPreservesOrder(0, d.unscaled, Pow10(s - d.scale));
    MulPreservesOrder(d.unscaled, 0, Pow10(s - d.scale));
  }

  /** Comparing against ZERO reads the sign of the unscaled value. */
  lemma CompareToZero(d: Decimal)
    ensures CompareTo(d, Zero) > 0 <==> d.unscaled > 0
    ensures CompareTo(d, Zero) == 0 <==> d.unscaled == 0
  {
    AlignSign(d, Max(d.scale, 0));
  }

  /** Numerical equality is transitive across representations. */
  lemma SameValueTransitive(a: Decimal, b: Decimal, c: Decimal)
    requires CompareTo(a, b) == 0 && CompareTo(b, c) == 0
    ensures CompareTo(a, c) == 0
  {
    var s := Max(Max(a.scale, b.scale), c.scale);
    assert Align(a, s) == Align(b, s) == Align(c, s);
  }

  /** Writing a number at a finer scale does not change whether it is whole. */
  lemma {:induction false} WholeAtFinerScale(d: Decimal, s: int)
    requires s >= d.scale
    ensures IsWhole(d) <==> IsWhole(Decimal(Align(d, s), s))
  {
    var k := s - d.scale;
    if d.scale >= 0 {
      Pow10Add(d.scale, k);
      assert Pow10(s) == Pow10(k) * Pow10(d.scale);
      assert Align(d, s) == Pow10(k) * d.unscaled;
      ScaledDivisibility(d.unscaled, Pow10(k), Pow10(d.scale));
    } else if s > 0 {
      Pow10Add(s, -d.scale);
      assert Align(d, s) == (d.unscaled * Pow10(-d.scale)) * Pow10(s);
      MultipleMod(d.unscaled * Pow10(-d.scale), Pow10(s));
    }
  }

  /** A multiple of 10^s with s > 0 ends in a zero digit. */
  lemma MultipleOfPowerEndsInZero(u: int, s: int)
    requires s > 0 && u % Pow10(s) == 0
    ensures u % 10 == 0
  {
    ModZeroIsMultiple(u, Pow10(s));
    assert u == ((u / Pow10(s)) * Pow10(s - 1)) * 10;
    MultipleMod((u / Pow10(s)) * Pow10(s - 1), 10);
  }

  /** Dropping one trailing zero keeps the value and its wholeness. */
  lemma StripOneZero(d: Decimal)
    requires d.unscaled % 10 == 0
    ensures CompareTo(Decimal(d.unscaled / 10, d.scale - 1), d) == 0
    ensures IsWhole(d) <==> IsWhole(Decimal(d.unscaled / 10, d.scale - 1))
  {
    var v := d.unscaled / 10;
    var e := Decimal(v, d.scale - 1);
    assert Align(e, d.scale) == d.unscaled == Align(d, d.scale);
    if d.scale >= 1 {
      assert Pow10(d.scale) == 10 * Pow10(d.scale - 1);
      ScaledDivisibility(v, 10, Pow10(d.scale - 1));
    }
  }

  /** BigDecimal.stripTrailingZeros (Java 8 and later: a zero value becomes
      BigDecimal.ZERO). The result is numerically equal, keeps no trailing
      zero digit, and has a non-positive scale exactly when the value is
      whole. */
  function StripTrailingZeros(d: Decimal): (r: Decimal)
    decreases Abs(d.unscaled)
    ensures CompareTo(r, d) == 0
    ensures r.unscaled == 0 ==> r == Zero
    ensures r.unscaled != 0 ==> r.unscaled % 10 != 0
    ensures IsWhole(d) <==> r.scale <= 0
  {
    if d.unscaled == 0 then
      Zero
    else if d.unscaled % 10 == 0 then
      StripOneZero(d);
      var r := StripTrailingZeros(Decimal(d.unscaled / 10, d.scale - 1));
      SameValueTransitive(r, Decimal(d.unscaled / 10, d.scale - 1), d);
      r
    else
      NoTrailingZeroWholeness(d);
      d
  }

  /** Without a trailing zero, a number is whole only at a non-positive
      scale. */
  lemma NoTrailingZeroWholeness(d: Decimal)
    requires d.unscaled % 10 != 0
    ensures IsWhole(d) <==> d.scale <= 0
  {
    if d.scale > 0 && d.unscaled % Pow10(d.scale) == 0 {
      MultipleOfPowerEndsInZero(d.unscaled, d.scale);
    }
  }

  /** The remainder of a division whose quotient is truncated toward zero,
      as Java computes it: smaller than the divisor in magnitude, with the
      sign of the dividend, and differing from the dividend by a multiple of
      the divisor. */
  function TruncatingRemainder(a: int, b: int): (r: int)
    requires b != 0
    ensures Abs(r) < Abs(b)
    ensures a >= 0 ==> r >= 0
    ensures a <= 0 ==> r <= 0
    ensures (a - r) % Abs(b) == 0
    ensures r == 0 <==> a % Abs(b) == 0
  {
    if a >= 0 then
      RemainderOfNonNegative(a, Abs(b));
      a % Abs(b)
    else
      RemainderOfNegative(a, Abs(b));
      -((-a) % Abs(b))
  }

  lemma RemainderOfNonNegative(a: int, m: int)
    requires a >= 0 && m > 0
    ensures 0 <= a % m < m
    ensures (a - a % m) % m == 0
  {
    MultipleMod(a / m, m);
  }

  lemma RemainderOfNegative(a: int, m: int)
    requires a < 0 && m > 0
    ensures var r := -((-a) % m); -m < r <= 0 && (a - r) % m == 0 && (r == 0 <==> a % m == 0)
  {
    NegatedDivisibility(a, m);
    MultipleMod(-((-a) / m), m);
    assert a - -((-a) % m) == -((-a) / m) * m;
  }

  /** BigDecimal.remainder: this - divideToIntegralValue(m) × m, where the
      integral quotient is truncated toward zero. Computed at the finer of
      the two scales; only the value is modelled, which is all compareTo
      reads. Java throws on a zero divisor. */
  function Remainder(d: Decimal, m: Decimal): (r: Decimal)
    requires m.unscaled != 0
    ensures r.scale >= d.scale && r.scale >= m.scale
    ensures Abs(r.unscaled) < Abs(Align(m, r.scale))
    ensures d.unscaled >= 0 ==> r.unscaled >= 0
    ensures d.unscaled <= 0 ==> r.unscaled <= 0
    ensures (Align(d, r.scale) - r.unscaled) % Abs(Align(m, r.scale)) == 0
  {
    var s := Max(d.scale, m.scale);
    AlignSign(d, s);
    AlignSign(m, s);
    Decimal(TruncatingRemainder(Align(d, s), Align(m, s)), s)
  }

  /** The remainder by ONE is zero exactly when the value is whole. */
  lemma RemainderByOne(d: Decimal)
    ensures CompareTo(Remainder(d, One), Zero) == 0 <==> IsWhole(d)
  {
    var s := Max(d.scale, 0);
    CompareToZero(Remainder(d, One));
    assert Align(One, s) == Pow10(s);
    WholeAtFinerScale(d, s);
  }

  /** 4 × the value is whole, i.e. the value is a whole number of quarters:
      the reference meaning of "a multiple of 0.25". */
  ghost predicate IsWholeQuarters(d: Decimal)
  {
    IsWhole(Decimal(4 * d.unscaled, d.scale))
  }

  /** The remainder by valueOf(0.25) is zero exactly when the value is a
      whole number of quarters. */
  lemma RemainderByQuarter(d: Decimal)
    ensures CompareTo(Remainder(d, Quarter), Zero) == 0 <==> IsWholeQuarters(d)
  {
    var s := Max(d.scale, 2);
    var a := Align(d, s);
    var q := Align(Quarter, s);
    CompareToZero(Remainder(d, Quarter));
    assert Remainder(d, Quarter).unscaled == TruncatingRemainder(a, q);
    QuarterAtScale(s);
    assert Abs(q) == q;
    QuarterDivisibility(d, s);
  }

  /** At a scale of at least 2, four quarters make one. */
  lemma QuarterAtScale(s: int)
    requires s >= 2
    ensures Align(Quarter, s) > 0
    ensures 4 * Align(Quarter, s) == Pow10(s)
  {
    Pow10Add(2, s - 2);
  }

  /** Divisibility by a quarter at scale `s` is divisibility of four times
      the value by one. */
  lemma QuarterDivisibility(d: Decimal, s: int)
    requires s >= d.scale && s >= 2
    ensures Align(d, s) % Align(Quarter, s) == 0 <==> IsWholeQuarters(d)
  {
    var a := Align(d, s);
    var q := Align(Quarter, s);
    QuarterAtScale(s);
    ScaledDivisibility(a, 4, q);
    var d4 := Decimal(4 * d.unscaled, d.scale);
    assert Align(d4, s) == 4 * a;
    WholeAtFinerScale(d4, s);
    assert IsWhole(Decimal(4 * a, s)) <==> (4 * a) % Pow10(s) == 0;
  }

  /** A whole value is a whole number of quarters. */
  lemma WholeIsWholeQuarters(d: Decimal)
    requires IsWhole(d)
    ensures IsWholeQuarters(d)
  {
    if d.scale > 0 {
      ModZeroIsMultiple(d.unscaled, Pow10(d.scale));
      assert 4 * d.unscaled == (4 * (d.unscaled / Pow10(d.scale))) * Pow10(d.scale);
      MultipleMod(4 * (d.unscaled / Pow10(d.scale)), Pow10(d.scale));
    }
  }

  /** BigDecimal.multiply: exact, and the scale is the sum of the scales.
      Read at scales s and t, the factors multiply to the product read at
      s + t. */
  function Multiply(a: Decimal, b: Decimal): (r: Decimal)
    ensures r.scale == a.scale + b.scale
    ensures forall s, t :: s >= a.scale && t >= b.scale ==>
      Align(r, s + t) == Align(a, s) * Align(b, t)
  {
    var r := Decimal(a.unscaled * b.unscaled, a.scale + b.scale);
    forall s, t | s >= a.scale && t >= b.scale
      ensures Align(r, s + t) == Align(a, s) * Align(b, t)
    {
      MultiplyAligned(a.unscaled, b.unscaled, s - a.scale, t - b.scale);
    }
    r
  }

  lemma MultiplyAligned(x: int, y: int, i: nat, j: nat)
    ensures (x * y) * Pow10(i + j) == (x * Pow10(i)) * (y * Pow10(j))
  {
    Pow10Add(i, j);
    var p, q := Pow10(i), Pow10(j);
    assert (x * y) * (p * q) == (x * p) * (y * q);
  }

  /** Integer division truncated toward zero, for a positive divisor. */
  function TruncatingQuotient(a: int, b: int): int
    requires b > 0
  {
    if a >= 0 then a / b else -((-a) / b)
  }

  /** Rounding a positive quotient u / p up: the ceiling. */
  lemma CeilingOfQuotient(u: int, p: int)
    requires u > 0 && p > 0
    ensures var q := u / p;
            var r := if q * p == u then q else q + 1;
            (r - 1) * p < u <= r * p && r >= 1
  {
    var q := u / p;
    assert u == q * p + u % p;
    assert (q + 1) * p == q * p + p;
    assert (q - 1) * p == q * p - p;
    if q * p == u {
      MulPreservesOrder(q, 0, p);
    }
  }

  /** What rounding away from zero to a whole number promises. */
  ghost predicate RoundedAwayFromZero(d: Decimal, r: int)
  {
    && (IsWhole(d) ==> CompareTo(Decimal(r, 0), d) == 0)
    && (d.scale > 0 && d.unscaled > 0 ==>
          (r - 1) * Pow10(d.scale) < d.unscaled <= r * Pow10(d.scale))
    && (d.scale > 0 && d.unscaled < 0 ==>
          r * Pow10(d.scale) <= d.unscaled < (r + 1) * Pow10(d.scale))
    && (d.unscaled > 0 ==> r >= 1)
    && (d.unscaled < 0 ==> r <= -1)
    && (d.unscaled == 0 ==> r == 0)
  }

  lemma RoundUpNonPositiveScale(d: Decimal)
    requires d.scale <= 0
    ensures RoundedAwayFromZero(d, d.unscaled * Pow10(-d.scale))
  {
    AlignSign(d, 0);
  }

  lemma RoundUpPositive(d: Decimal)
    requires d.scale > 0 && d.unscaled > 0
    ensures var p := Pow10(d.scale);
            var q := d.unscaled / p;
            RoundedAwayFromZero(d, if q * p == d.unscaled then q else q + 1)
  {
    var p := Pow10(d.scale);
    var q := d.unscaled / p;
    CeilingOfQuotient(d.unscaled, p);
    if IsWhole(d) {
      ModZeroIsMultiple(d.unscaled, p);
    } else {
      MultipleMod(q, p);
    }
  }

  lemma RoundUpNegative(d: Decimal)
    requires d.scale > 0 && d.unscaled < 0
    ensures var p := Pow10(d.scale);
            var q := -((-d.unscaled) / p);
            RoundedAwayFromZero(d, if q * p == d.unscaled then q else q - 1)
  {
    var u, p := d.unscaled, Pow10(d.scale);
    var q' := (-u) / p;
    var m := (-u) % p;
    var q := -q';
    assert -u == q' * p + m;
    assert q * p == -(q' * p);
    assert q * p == u + m;
    NegatedDivisibility(u, p);
    assert IsWhole(d) <==> m == 0;
    if m == 0 {
      MulPreservesOrder(0, q', p);
      assert Align(Decimal(q, 0), d.scale) == q * p;
      assert (q + 1) * p == q * p + p;
    } else {
      assert (q - 1) * p == q * p - p;
      assert (q - 1 + 1) * p == q * p;
    }
  }

  /** setScale(0, ROUND_UP).intValue() without the 32-bit narrowing: the
      value rounded away from zero to a whole number. A positive value goes
      to its ceiling, a negative one to its floor, a whole one is kept. */
  function RoundUpToWhole(d: Decimal): (r: int)
    ensures RoundedAwayFromZero(d, r)
  {
    if d.scale <= 0 then
      RoundUpNonPositiveScale(d);
      d.unscaled * Pow10(-d.scale)
    else
      var p := Pow10(d.scale);
      var q := TruncatingQuotient(d.unscaled, p);
      if d.unscaled > 0 then
        RoundUpPositive(d);
        if q * p == d.unscaled then q else q + 1
      else if d.unscaled < 0 then
        RoundUpNegative(d);
        if q * p == d.unscaled then q else q - 1
      else
        0
  }

  /** `b` is price / 5 rounded up: (b - 1) × 5 < price <= b × 5, counted
      in units of 10^-s for s the price's scale or 0, whichever is larger. */
  ghost predicate IsCeilingOfFifth(b: int, price: Decimal)
  {
    var s := Max(price.scale, 0);
    var p := Pow10(s);
    (b - 1) * (5 * p) < Align(price, s) <= b * (5 * p)
  }

  /** price × valueOf(0.2) rounded up, for a positive price: at least 1,
      and exactly ceil(price / 5) at every scale. */
  lemma FifthRoundedUp(price: Decimal)
    requires price.unscaled > 0
    ensures RoundUpToWhole(Multiply(price, Fifth)) >= 1
    ensures IsCeilingOfFifth(RoundUpToWhole(Multiply(price, Fifth)), price)
  {
    var m := Multiply(price, Fifth);
    var b := RoundUpToWhole(m);
    assert RoundedAwayFromZero(m, b);
    assert m.scale == price.scale + 1 && m.unscaled == 2 * price.unscaled;
    if price.scale >= 0 {
      var p := Pow10(price.scale);
      assert Align(price, price.scale) == price.unscaled;
      assert Pow10(m.scale) == 10 * p;
      assert (b - 1) * (10 * p) < 2 * price.unscaled <= b * (10 * p);
      HalveBounds(b, p, price.unscaled);
    } else {
      // A negative scale makes price / 5 a whole number, which is kept.
      var q := Pow10(-price.scale - 1);
      assert b == 2 * price.unscaled * q;
      assert Pow10(-price.scale) == 10 * q;
      assert 5 * b == Align(price, 0) by {
        MulAssociates(price.unscaled, 10, q);
      }
    }
  }

  lemma HalveBounds(b: int, p: int, u: int)
    requires (b - 1) * (10 * p) < 2 * u <= b * (10 * p)
    ensures (b - 1) * (5 * p) < u <= b * (5 * p)
  {
    assert (b - 1) * (10 * p) == 2 * ((b - 1) * (5 * p));
    assert b * (10 * p) == 2 * (b * (5 * p));
  }
}
