/** Java's fixed-width integers and the few operators of them the model needs:
    two's complement wrap-around, truncating division and remainder, and
    Long.hashCode. */
module JavaInt {
  import opened Wrappers

  const TWO_31: int := 0x8000_0000
  const TWO_32: int := 0x1_0000_0000
  const TWO_63: int := 0x8000_0000_0000_0000
  const TWO_64: int := 0x1_0000_0000_0000_0000

  /** A Java `int`. */
  newtype int32 = x: int | -0x8000_0000 <= x < 0x8000_0000

  /** A Java `long`. */
  newtype int64 = x: int | -0x8000_0000_0000_0000 <= x < 0x8000_0000_0000_0000

  /** `Integer.MIN_VALUE`, which is also the value of the Java expression `1 << 31`. */
  const MIN_INT: int32 := -0x8000_0000

  /** The `int` that Java keeps of the mathematical integer x (two's complement wrap-around). */
  function Wrap32(x: int): (r: int32)
    ensures (r as int - x) % TWO_32 == 0
    ensures -TWO_31 <= x < TWO_31 ==> r as int == x
  {
    (((x + TWO_31) % TWO_32) - TWO_31) as int32
  }

  /** Java's narrowing cast `(int) v` of a long: keeps the low 32 bits. */
  function IntCast(v: int64): (r: int32)
    ensures -TWO_31 <= v as int < TWO_31 ==> r as int == v as int
  {
    Wrap32(v as int)
  }

  /** `Math.toIntExact(v)`: the same value as an int, or None where Java throws ArithmeticException. */
  function ToIntExact(v: int64): (r: Option<int32>)
    ensures r.Some? <==> -TWO_31 <= v as int < TWO_31
    ensures r.Some? ==> r.value as int == v as int
  {
    if -TWO_31 <= v as int < TWO_31 then Some(v as int as int32) else None
  }

  /** Java's integer division, which truncates toward zero (Dafny's `/` is Euclidean). */
  function TruncDiv(a: int, b: int): (q: int)
    requires b != 0
    ensures a >= 0 && b > 0 ==> q == a / b
  {
    if (a < 0) == (b < 0) then Abs(a) / Abs(b) else -(Abs(a) / Abs(b))
  }

  /** Java's remainder `%`, whose sign follows the dividend and whose magnitude
      stays below the divisor's. */
  function TruncRem(a: int, b: int): (r: int)
    requires b != 0
    ensures Abs(r) < Abs(b) && Abs(r) <= Abs(a)
    ensures a >= 0 ==> 0 <= r
    ensures a <= 0 ==> r <= 0
    ensures a >= 0 && b > 0 ==> r == a % b
  {
    if a >= 0 then Abs(a) % Abs(b) else -(Abs(a) % Abs(b))
  }

  function Abs(x: int): nat { if x < 0 then -x else x }

  /** The 64-bit two's complement pattern of a long. */
  function Bits64(v: int64): bv64 {
    (if v < 0 then v as int + TWO_64 else v as int) as bv64
  }

  /** The signed int whose 32-bit pattern is the low half of x. */
  function Low32Signed(x: bv64): int32 {
    var low := ((x & 0xFFFF_FFFF) as bv32) as int;
    (if low >= TWO_31 then low - TWO_32 else low) as int32
  }

  /** `Long.hashCode(v)`, that is `(int) (v ^ (v >>> 32))`. */
  function LongHash(v: int64): (h: int32)
  {
    var x := Bits64(v);
    Low32Signed(x ^ (x >> 32))
  }
}
