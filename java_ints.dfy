/** Java's fixed-width integers and the wrap-around of their arithmetic. */
module JavaInts {

  const TWO_32: int := 0x1_0000_0000
  const TWO_64: int := 0x1_0000_0000_0000_0000

  /** Java `int`. */
  type int32 = x: int | -0x8000_0000 <= x < 0x8000_0000

  /** Java `long`. */
  type int64 = x: int | -0x8000_0000_0000_0000 <= x < 0x8000_0000_0000_0000

  /** The `int` that a Java computation yields for the mathematical value `x`. */
  function Wrap32(x: int): (r: int32)
    ensures (r - x) % TWO_32 == 0
    ensures -0x8000_0000 <= x < 0x8000_0000 ==> r == x
  {
    var m := x % TWO_32;
    if m < 0x8000_0000 then m else m - TWO_32
  }

  /** The `long` that a Java computation yields for the mathematical value `x`. */
  function Wrap64(x: int): (r: int64)
    ensures (r - x) % TWO_64 == 0
    ensures -0x8000_0000_0000_0000 <= x < 0x8000_0000_0000_0000 ==> r == x
  {
    var m := x % TWO_64;
    if m < 0x8000_0000_0000_0000 then m else m - TWO_64
  }

  /** Java `a * b` on two `int`s. */
  function Mul32(a: int32, b: int32): (r: int32)
  {
    Wrap32(a * b)
  }

  /** Java `a + b` on two `int`s. */
  function Add32(a: int32, b: int32): (r: int32)
  {
    Wrap32(a + b)
  }

  /** Java `a - b` on two `long`s. */
  function Sub64(a: int64, b: int64): (r: int64)
  {
    Wrap64(a - b)
  }
}
