/** Fixed-width machine words as integers, with the wrap-around written out. */
module Words {
  const U16_SIZE := 0x1_0000
  const U32_SIZE := 0x1_0000_0000
  const U64_SIZE := 0x1_0000_0000_0000_0000

  type U8 = x: int | 0 <= x < 0x100
  type U16 = x: int | 0 <= x < U16_SIZE
  type U32 = x: int | 0 <= x < U32_SIZE
  type U64 = x: int | 0 <= x < U64_SIZE
  type S32 = x: int | -0x8000_0000 <= x < 0x8000_0000

  /** (uint16_t)x */
  function Wrap16(x: int): (r: U16) { x % U16_SIZE }

  /** (uint32_t)x */
  function Wrap32(x: int): (r: U32) { x % U32_SIZE }

  /** (int32_t)x of an unsigned word */
  function Signed32(x: U32): (r: S32) { if x < 0x8000_0000 then x else x - U32_SIZE }

  /** (int16_t)x of an unsigned word */
  function Signed16(x: U16): (r: int)
    ensures -0x8000 <= r < 0x8000 && Wrap16(r) == x
  {
    if x < 0x8000 then x else x - U16_SIZE
  }

  /** C division, which truncates toward zero. */
  function TruncDiv(a: int, b: int): (r: int)
    requires b != 0
  {
    if a >= 0 then (if b > 0 then a / b else -(a / -b))
    else (if b > 0 then -(-a / b) else -a / -b)
  }

  /** A little-endian 16-bit word of a buffer. */
  function Read16(b: seq<int>, at: nat): (r: U16)
    requires at + 2 <= |b| && 0 <= b[at] < 256 && 0 <= b[at + 1] < 256
  {
    b[at] + 256 * b[at + 1]
  }
}
