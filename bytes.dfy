/**
  Fixed-width integers of the badge firmware (an ESP8266, where `ulong` and
  `uint` are 32 bits) and the wrap-around its integer conversions perform.
 */
module Bytes {

  /** uint8_t */
  type Byte = x: int | 0 <= x < 0x100

  /** uint16_t */
  type U16 = x: int | 0 <= x < 0x1_0000

  /** unsigned long on the ESP8266 */
  type U32 = x: int | 0 <= x < 0x1_0000_0000

  /** int16_t */
  type I16 = x: int | -0x8000 <= x < 0x8000

  /** Storing an int into an int16_t: two's-complement wrap-around. */
  function ToInt16(x: int): (r: I16)
    ensures -0x8000 <= x < 0x8000 ==> r == x
    ensures (x - r) % 0x1_0000 == 0
  {
    (x + 0x8000) % 0x1_0000 - 0x8000
  }

  /** `a - b` on two unsigned 32-bit values. */
  function SubU32(a: U32, b: U32): (r: U32)
    ensures b <= a ==> r == a - b
    ensures a < b ==> r == a - b + 0x1_0000_0000
  {
    (a - b) % 0x1_0000_0000
  }
}
