/** Java's 32-bit `int` and its truncating division, which the layout code
    applies (always with divisor 2) to differences that can be negative. */
module JavaInt {

  const INT_MIN: int := -0x8000_0000
  const INT_MAX: int := 0x7FFF_FFFF

  /** A value representable as a Java `int`. */
  predicate IsInt(x: int) {
    INT_MIN <= x <= INT_MAX
  }

  function Abs(x: int): nat {
    if x < 0 then -x else x
  }

  /** Java's `a / 2` on `int`. Integer division in Java rounds toward zero
      (section 15.17.2 of the Java Language Specification) whereas Dafny's
      `/` is Euclidean. The contract is that definition: the remainder
      `a - 2 * h` is 0 or 1 and carries the sign of the dividend. */
  function Half(a: int): (h: int)
    ensures a >= 0 ==> a - 2 * h == 0 || a - 2 * h == 1
    ensures a < 0 ==> a - 2 * h == 0 || a - 2 * h == -1
  {
    if a >= 0 then a / 2 else -((-a) / 2)
  }

  /** Rounding toward zero agrees with Dafny's division except on odd
      negative numbers, where it is one larger. */
  lemma HalfVersusEuclidean(a: int)
    ensures Half(a) == if a < 0 && a % 2 == 1 then a / 2 + 1 else a / 2
  {
  }
}
