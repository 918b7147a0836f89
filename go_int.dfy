/** Go's `int` on a 64-bit platform: two's-complement values that wrap
    silently on overflow, and the integer quotient `/`, which truncates
    toward zero (unlike Dafny's Euclidean `/`). */
module GoInt {

  const MIN: int := -0x8000_0000_0000_0000
  const MAX: int := 0x7FFF_FFFF_FFFF_FFFF
  /** 2^64: the number of distinct 64-bit values. */
  const MODULUS: int := 0x1_0000_0000_0000_0000

  predicate InRange(x: int) {
    MIN <= x <= MAX
  }

  /** The values a Go `int` can hold. */
  type Int64 = x: int | MIN <= x <= MAX

  /** The value Go stores for an arithmetic result whose exact value is `x`:
      the unique 64-bit value congruent to `x` modulo 2^64. */
  function Wrap(x: int): (r: Int64)
    ensures (x - r) % MODULUS == 0
    ensures InRange(x) ==> r == x
  {
    (x - MIN) % MODULUS + MIN
  }

  /** Any 64-bit value congruent to `x` modulo 2^64 is the wrapped value. */
  lemma WrapUnique(x: int, r: int)
    requires InRange(r) && (x - r) % MODULUS == 0
    ensures Wrap(x) == r
  {
    var w := Wrap(x);
    var k1 := (x - r) / MODULUS;
    var k2 := (x - w) / MODULUS;
    assert x - r == k1 * MODULUS;
    assert x - w == k2 * MODULUS;
    assert w - r == (k1 - k2) * MODULUS;
  }

  /** Wrapping an operand first does not change the wrapped sum: Go's
      wrapping `+` agrees with exact addition modulo 2^64. */
  lemma WrapAdd(x: int, y: int)
    ensures Wrap(Wrap(x) + Wrap(y)) == Wrap(x + y)
  {
    var s := Wrap(Wrap(x) + Wrap(y));
    var kx := (x - Wrap(x)) / MODULUS;
    var ky := (y - Wrap(y)) / MODULUS;
    var ks := (Wrap(x) + Wrap(y) - s) / MODULUS;
    assert x - Wrap(x) == kx * MODULUS;
    assert y - Wrap(y) == ky * MODULUS;
    assert Wrap(x) + Wrap(y) - s == ks * MODULUS;
    assert x + y - s == (kx + ky + ks) * MODULUS;
    WrapUnique(x + y, s);
  }

  /** Go's `a / b` for `b > 0`: the quotient truncated toward zero, so the
      remainder takes the sign of `a`. */
  function Quot(a: int, b: int): (q: int)
    requires b > 0
    ensures a >= 0 ==> 0 <= a - b * q < b
    ensures a < 0 ==> -b < a - b * q <= 0
  {
    if a >= 0 then a / b else -((-a) / b)
  }
}
