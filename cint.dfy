/** Integer arithmetic as the firmware's C++ performs it on a 32-bit target:
    `int` is 32 bits wide, and `/` truncates toward zero. */
module CInt {
  const Two31: int := 0x8000_0000
  const Two32: int := 0x1_0000_0000

  predicate InInt32(x: int) {
    -0x8000_0000 <= x < 0x8000_0000
  }

  /** The value a 32-bit two's-complement `int` holds after arithmetic whose
      exact result is `x` (the target wraps; the language leaves signed
      overflow undefined). */
  function Int32(x: int): (r: int)
    ensures InInt32(r)
    ensures InInt32(x) ==> r == x
  {
    (x + 0x8000_0000) % 0x1_0000_0000 - 0x8000_0000
  }

  /** `y % Two32` is the unique remainder in [0, Two32). */
  lemma ModUnique(y: int, q: int, m: int)
    requires y == q * Two32 + m && 0 <= m < Two32
    ensures y % Two32 == m
  {
  }

  /** Adding a multiple of 2^32 does not change the wrapped value. */
  lemma {:induction false} Int32Congruent(x: int, k: int)
    ensures Int32(x + k * Two32) == Int32(x)
  {
    var y := x + Two31;
    ModUnique(y + k * Two32, y / Two32 + k, y % Two32);
  }

  /** One decimal accumulation step `n = n * 10 + d` wraps the same whether
      the wrap happens at every step or once at the end. */
  lemma {:induction false} Int32MulAdd(a: int, d: int)
    ensures Int32(Int32(a) * 10 + d) == Int32(a * 10 + d)
  {
    var q := (a + Two31) / Two32;
    assert Int32(a) == a - q * Two32;
    assert Int32(a) * 10 + d == a * 10 + d + (-10 * q) * Two32;
    Int32Congruent(a * 10 + d, -10 * q);
  }

  /** C's `a / b` for a positive divisor: the quotient rounded toward zero. */
  function CDiv(a: int, b: int): (q: int)
    requires b > 0
    ensures 0 <= a ==> 0 <= a - q * b < b
    ensures a < 0 ==> -b < a - q * b <= 0
  {
    if a >= 0 then a / b else -((-a) / b)
  }

  /** Truncating division by a positive number is monotone on the
      non-negative numbers. */
  lemma CDivMonotone(a: int, b: int, d: int)
    requires 0 <= a <= b && d > 0
    ensures CDiv(a, d) <= CDiv(b, d)
  {
    var qa, qb := CDiv(a, d), CDiv(b, d);
    assert qa * d <= a && b < (qb + 1) * d;
    MulCancel(qa, qb + 1, d);
  }

  lemma MulCancel(x: int, y: int, d: int)
    requires d > 0 && x * d < y * d
    ensures x < y
  {
  }
}
