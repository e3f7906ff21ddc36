/**
 * Java's fixed-width integer types, as far as the matrix benchmark uses them:
 * `byte` for the matrix buffers and `int` for dimensions and array sizes,
 * with the narrowing conversions Java applies silently.
 */
module JavaInt {

  const MinInt32: int := -0x8000_0000
  const MaxInt32: int := 0x7fff_ffff

  /** Java `byte`: a signed 8-bit integer. */
  type Byte = x: int | -128 <= x < 128

  /** Java `int`: a signed 32-bit integer. */
  type Int32 = x: int | MinInt32 <= x <= MaxInt32

  /**
   * The narrowing conversion `(byte) x`: keep the low 8 bits and read them in
   * two's complement. It is the unique byte congruent to `x` modulo 256.
   */
  function ToByte(x: int): (r: Byte)
    ensures (x - r) % 256 == 0
    ensures -128 <= x < 128 ==> r == x
  {
    (x + 128) % 256 - 128
  }

  /**
   * Narrowing after every step of a sum is the same as narrowing once at the end:
   * `(byte)((byte)x + y) == (byte)(x + y)`.
   */
  lemma ToByteOfSum(x: int, y: int)
    ensures ToByte(ToByte(x) + y) == ToByte(x + y)
  {
  }

  /**
   * The product `x * y` of two Java `int`s: the mathematical product wrapped
   * into the 32-bit two's complement range.
   */
  function Mul32(x: Int32, y: Int32): (r: Int32)
    ensures (x * y - r) % 0x1_0000_0000 == 0
    ensures MinInt32 <= x * y <= MaxInt32 ==> r == x * y
  {
    (x * y + 0x8000_0000) % 0x1_0000_0000 - 0x8000_0000
  }
}
