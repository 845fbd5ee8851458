/** Java's fixed-width integer semantics, written out over Dafny's unbounded integers. */
module JavaInts {

  const TwoTo31: int := 0x8000_0000
  const TwoTo32: int := 0x1_0000_0000
  const TwoTo63: int := 0x8000_0000_0000_0000
  const TwoTo64: int := 0x1_0000_0000_0000_0000

  /** A Java `byte`: a signed 8-bit two's-complement value. */
  newtype Byte = b: int | -128 <= b < 128

  /** True when `x` fits in a Java `int`. */
  predicate IsInt32(x: int) {
    -TwoTo31 <= x < TwoTo31
  }

  /** `b & 0xFF`: the unsigned value of a byte, without sign extension. */
  function Unsigned(b: Byte): (u: int)
    ensures 0 <= u < 256
    ensures b >= 0 ==> u == b as int
    ensures b < 0 ==> u == b as int + 256
  {
    if b < 0 then b as int + 256 else b as int
  }

  /** The signed byte whose unsigned value is `u` (a narrowing cast `(byte) u`). */
  function ToByte(u: int): (b: Byte)
    requires 0 <= u < 256
    ensures Unsigned(b) == u
  {
    if u < 128 then u as Byte else (u - 256) as Byte
  }

  /** The Java `int` congruent to `x` modulo 2^32: what a 32-bit two's-complement result keeps. */
  function ToInt32(x: int): (r: int)
    ensures IsInt32(r)
    ensures 0 <= x < TwoTo31 ==> r == x
    ensures TwoTo31 <= x < TwoTo32 ==> r == x - TwoTo32
    ensures (r - x) % TwoTo32 == 0
  {
    var m := x % TwoTo32;
    if m >= TwoTo31 then m - TwoTo32 else m
  }

  /** The Java `long` congruent to `x` modulo 2^64. */
  function ToInt64(x: int): (r: int)
    ensures -TwoTo63 <= r < TwoTo63
    ensures 0 <= x < TwoTo63 ==> r == x
    ensures (r - x) % TwoTo64 == 0
  {
    var m := x % TwoTo64;
    if m >= TwoTo63 then m - TwoTo64 else m
  }

  /** Java's `a % b` for a positive divisor: it truncates toward zero, so the remainder has the sign of `a`. */
  function JavaRem(a: int, b: int): (r: int)
    requires b > 0
    ensures -b < r < b
    ensures a >= 0 ==> 0 <= r
    ensures a <= 0 ==> r <= 0
    ensures a >= 0 ==> r == a % b
  {
    if a >= 0 then a % b else -((-a) % b)
  }

  /** Java's `Math.abs` on an `int`: the one value without a positive counterpart, -2^31, is returned unchanged. */
  function JavaAbs(x: int): (r: int)
    requires IsInt32(x)
    ensures IsInt32(r)
    ensures x == -TwoTo31 ==> r == x
    ensures x != -TwoTo31 ==> r >= 0 && (r == x || r == -x)
  {
    if x == -TwoTo31 then x else if x < 0 then -x else x
  }
}
