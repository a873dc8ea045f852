/** Kotlin's 32-bit `Int`: the range, two's-complement wrap-around of `+`, `-` and `*`,
    and the saturating conversion `Double.toInt()`. */
module Int32 {

  const INT_MIN: int := -0x8000_0000
  const INT_MAX: int := 0x7FFF_FFFF
  const MODULUS: int := 0x1_0000_0000

  predicate InRange(x: int) {
    INT_MIN <= x <= INT_MAX
  }

  /** The value an `Int` operation yields when its exact result is `x`. */
  function Wrap(x: int): (r: int)
    ensures InRange(r)
    ensures InRange(x) ==> r == x
    ensures (r - x) % MODULUS == 0
  {
    (x - INT_MIN) % MODULUS + INT_MIN
  }

  /** `Double.toInt()` on an integer-valued double: values outside the range are clamped. */
  function Saturate(x: int): (r: int)
    ensures InRange(r)
    ensures InRange(x) ==> r == x
    ensures x > INT_MAX ==> r == INT_MAX
    ensures x < INT_MIN ==> r == INT_MIN
  {
    if x > INT_MAX then INT_MAX else if x < INT_MIN then INT_MIN else x
  }

  /** Adding a whole number of periods does not change the wrapped value. */
  lemma WrapPeriodic(x: int, k: int)
    ensures Wrap(x + k * MODULUS) == Wrap(x)
  {
    var n := x - INT_MIN;
    var q, r := n / MODULUS, n % MODULUS;
    assert n + k * MODULUS == (q + k) * MODULUS + r;
    EuclidUnique(n + k * MODULUS, q + k, r);
  }

  lemma EuclidUnique(n: int, q: int, r: int)
    requires 0 <= r < MODULUS && n == q * MODULUS + r
    ensures n % MODULUS == r
  {
  }

  /** Wrapping the operands of an addition first gives the same `Int` result. */
  lemma WrapAdd(a: int, b: int)
    ensures Wrap(Wrap(a) + Wrap(b)) == Wrap(a + b)
  {
    var ka, kb := (Wrap(a) - a) / MODULUS, (Wrap(b) - b) / MODULUS;
    assert Wrap(a) + Wrap(b) == a + b + (ka + kb) * MODULUS;
    WrapPeriodic(a + b, ka + kb);
  }

  /** Wrapping the operands of a multiplication first gives the same `Int` result. */
  lemma WrapMul(a: int, b: int)
    ensures Wrap(Wrap(a) * Wrap(b)) == Wrap(a * b)
  {
    var ka, kb := (Wrap(a) - a) / MODULUS, (Wrap(b) - b) / MODULUS;
    var k := ka * b + kb * a + ka * kb * MODULUS;
    calc {
      Wrap(a) * Wrap(b);
      (a + ka * MODULUS) * (b + kb * MODULUS);
      { MulExpand(a, b, ka, kb); }
      a * b + k * MODULUS;
    }
    WrapPeriodic(a * b, k);
  }

  lemma MulExpand(a: int, b: int, ka: int, kb: int)
    ensures (a + ka * MODULUS) * (b + kb * MODULUS)
         == a * b + (ka * b + kb * a + ka * kb * MODULUS) * MODULUS
  {
  }
}
