/** Fixed-width integers of Go and C, and the conversions between them that
    the gateway performs when a value crosses the cgo boundary. Go's and C's
    conversions between integer types keep the low bits, so each conversion
    is written out as a reduction modulo a power of two. */
module FixedWidth {

  const TWO_8: int := 0x100
  const TWO_31: int := 0x8000_0000
  const TWO_32: int := 0x1_0000_0000
  const TWO_64: int := 0x1_0000_0000_0000_0000

  type byte = b: int | 0 <= b < TWO_8
  type uint32 = x: int | 0 <= x < TWO_32
  type uint64 = x: int | 0 <= x < TWO_64
  type int32 = x: int | -TWO_31 <= x < TWO_31

  /** `uint64(x)` on any Go or C integer: the value modulo 2^64. */
  function ToUint64(x: int): (r: uint64)
    ensures 0 <= x < TWO_64 ==> r == x
    ensures (r - x) % TWO_64 == 0
  {
    x % TWO_64
  }

  /** `C.uint(x)`: the low 32 bits. */
  function ToUint32(x: int): (r: uint32)
    ensures 0 <= x < TWO_32 ==> r == x
    ensures (r - x) % TWO_32 == 0
  {
    x % TWO_32
  }

  /** `C.int(x)` and `int32(x)`: the low 32 bits read as two's complement. */
  function ToInt32(x: int): (r: int32)
    ensures -TWO_31 <= x < TWO_31 ==> r == x
    ensures (r - x) % TWO_32 == 0
  {
    var low := x % TWO_32;
    if low < TWO_31 then low else low - TWO_32
  }
}
