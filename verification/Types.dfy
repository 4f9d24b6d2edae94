/** Fixed-width integers and the optional value shared by every component. */
module Types {
  type Byte = i: int | 0 <= i < 0x100
  type U16 = i: int | 0 <= i < 0x1_0000
  type U32 = i: int | 0 <= i < 0x1_0000_0000
  type U64 = i: int | 0 <= i < 0x1_0000_0000_0000_0000

  const MAX_U64: U64 := 0xFFFF_FFFF_FFFF_FFFF

  datatype Option<+T> = None | Some(value: T)

  function Min(a: int, b: int): int {
    if a <= b then a else b
  }

  function Max(a: int, b: int): int {
    if a >= b then a else b
  }

  /** The 16-bit word with the given high and low byte. */
  function Word(high: Byte, low: Byte): (w: U16)
    ensures w / 256 == high && w % 256 == low
  {
    (high as int) * 256 + low
  }
}
