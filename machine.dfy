/**
 * The C integer types and conversions the library relies on, written out
 * explicitly: Dafny integers are unbounded, C's are not.
 */
module Machine {

  const Two31: int := 0x8000_0000
  const Two32: int := 0x1_0000_0000
  const Two63: int := 0x8000_0000_0000_0000
  const Two64: int := 0x1_0000_0000_0000_0000

  /** `unsigned long` on an LP64 target */
  type ULong = x: int | 0 <= x < Two64

  /** `unsigned int` */
  type UInt = x: int | 0 <= x < Two32

  /** `int` (and `gint`) */
  type Int32 = x: int | -Two31 <= x < Two31

  /** Conversion of any integer value to `unsigned long`: reduction modulo 2^64. */
  function ToULong(v: int): (r: ULong)
    ensures 0 <= v < Two64 ==> r == v
    ensures -Two64 <= v < 0 ==> r == v + Two64
  {
    v % Two64
  }

  /** Conversion of any integer value to `unsigned int`: reduction modulo 2^32. */
  function ToUInt(v: int): (r: UInt)
    ensures 0 <= v < Two32 ==> r == v
    ensures -Two32 <= v < 0 ==> r == v + Two32
  {
    v % Two32
  }

  /**
   * Conversion of a wider integer to `gint`/`int`. C leaves it implementation-defined;
   * GCC keeps the low 32 bits, read as two's complement.
   */
  function ToInt32(v: int): (r: Int32)
    ensures -Two31 <= v < Two31 ==> r == v
    ensures (r - v) % Two32 == 0
  {
    var m := v % Two32;
    if m >= Two31 then m - Two32 else m
  }

  /** Reading the bits of an `unsigned long` as a `long`, as `printf("%ld")` does. */
  function AsLong(x: ULong): (r: int)
    ensures -Two63 <= r < Two63
    ensures x < Two63 ==> r == x
    ensures ToULong(r) == x
  {
    if x < Two63 then x else x - Two64
  }

  /** C division of integers: the quotient is truncated toward zero. */
  function CDiv(a: int, b: int): (q: int)
    requires b > 0
    ensures a >= 0 ==> q == a / b
    ensures a < 0 ==> q == -((-a) / b)
  {
    if a >= 0 then a / b else -((-a) / b)
  }

  /** C remainder: it takes the sign of the dividend, so that `a == CDiv(a, b) * b + CRem(a, b)`. */
  function CRem(a: int, b: int): (r: int)
    requires b > 0
    ensures a == CDiv(a, b) * b + r
    ensures a >= 0 ==> 0 <= r < b
    ensures a < 0 ==> -b < r <= 0
  {
    if a >= 0 then a % b else -((-a) % b)
  }
}
