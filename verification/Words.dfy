/** Machine words and small wrappers shared by the models. */
module Words {

  /** Addresses, lengths and range bounds are 64-bit unsigned words. */
  type u64 = x: int | 0 <= x < 0x1_0000_0000_0000_0000

  const TWO_64: int := 0x1_0000_0000_0000_0000
  const MAX_U64: u64 := 0xFFFF_FFFF_FFFF_FFFF
  const TWO_32: int := 0x1_0000_0000

  /** The value a 64-bit register holds after an unsigned computation. */
  function Wrap64(x: int): u64 {
    x % TWO_64
  }

  datatype Option<+T> = None | Some(value: T)

  function Max(a: int, b: int): int {
    if a < b then b else a
  }

  function Min(a: int, b: int): int {
    if a < b then a else b
  }

  type u32 = x: int | 0 <= x < TWO_32

  /** Unsigned 32-bit wrap-around. */
  function Wrap32(x: int): u32 {
    x % TWO_32
  }
}
