/** Integer facts about powers of ten and divisibility that the decimal
    arithmetic rests on. Dafny's `/` and `%` are Euclidean: for `b > 0`,
    `a % b` lies in `[0, b)` whatever the sign of `a`. */
module Arith {

  /** 10^n. */
  function Pow10(n: nat): (p: nat)
    ensures p >= 1
  {
    if n == 0 then 1 else 10 * Pow10(n - 1)
  }

  lemma {:induction false} Pow10Add(a: nat, b: nat)
    ensures Pow10(a + b) == Pow10(a) * Pow10(b)
  {
    if a > 0 {
      Pow10Add(a - 1, b);
      assert Pow10(a + b) == 10 * Pow10(a - 1 + b);
    }
  }

  lemma MulAssociates(x: int, y: int, z: int)
    ensures x * (y * z) == (x * y) * z
  {
  }

  /** A positive factor preserves order. */
  lemma MulPreservesOrder(x: int, y: int, p: int)
    requires p > 0
    ensures x < y <==> x * p < y * p
    ensures x == y <==> x * p == y * p
  {
    if x < y {
      assert y * p - x * p == (y - x) * p;
    } else if y < x {
      assert x * p - y * p == (x - y) * p;
    }
  }

  /** Division with remainder is unique: q × d + r with 0 <= r < d has
      quotient q and remainder r. */
  lemma DivModOfSum(q: int, r: int, d: int)
    requires d > 0 && 0 <= r < d
    ensures (q * d + r) / d == q
    ensures (q * d + r) % d == r
  {
    var x := q * d + r;
    var q', r' := x / d, x % d;
    assert (q - q') * d == r' - r;
    MulPreservesOrder(q - q', 1, d);
    MulPreservesOrder(-1, q - q', d);
  }

  /** Every multiple of `b` leaves remainder zero. */
  lemma MultipleMod(k: int, b: int)
    requires b > 0
    ensures (k * b) % b == 0
  {
    var q := (k * b) / b;
    var r := (k * b) % b;
    assert (k - q) * b == r;
    if k - q >= 1 {
      MulPreservesOrder(1, k - q, b);
    } else if k - q <= -1 {
      MulPreservesOrder(k - q, 0, b);
    }
  }

  /** Remainder zero means `a` is `a / b` copies of `b`. */
  lemma ModZeroIsMultiple(a: int, b: int)
    requires b > 0 && a % b == 0
    ensures a == (a / b) * b
  {
  }

  /** Divisibility survives multiplying both sides by a positive factor. */
  lemma ScaledDivisibility(v: int, c: int, p: int)
    requires c > 0 && p > 0
    ensures (c * v) % (c * p) == 0 <==> v % p == 0
  {
    if v % p == 0 {
      var k := v / p;
      assert c * v == k * (c * p);
      MultipleMod(k, c * p);
    }
    if (c * v) % (c * p) == 0 {
      var k := (c * v) / (c * p);
      assert c * v == k * (c * p);
      assert c * (v - k * p) == 0;
      assert v == k * p;
      MultipleMod(k, p);
    }
  }

  /** Negating the dividend does not change whether it is a multiple. */
  lemma NegatedDivisibility(a: int, b: int)
    requires b > 0
    ensures (-a) % b == 0 <==> a % b == 0
  {
    if a % b == 0 {
      assert -a == (-(a / b)) * b;
      MultipleMod(-(a / b), b);
    }
    if (-a) % b == 0 {
      assert a == (-((-a) / b)) * b;
      MultipleMod(-((-a) / b), b);
    }
  }
}
