/**
 * Fixed-width integers of the Particle Photon (a 32-bit ARM core) and a
 * small Option type.
 */
module Types {

  /** `byte`: an unsigned 8-bit integer. */
  newtype u8 = x: int | 0 <= x < 0x100

  /** `unsigned` and `unsigned long`: unsigned 32-bit integers. */
  newtype u32 = x: int | 0 <= x < 0x1_0000_0000

  datatype Option<T> = None | Some(value: T)

  /** The value of a 32-bit pattern read as a two's-complement `int`. */
  function Signed32(x: u32): (v: int)
    ensures -0x8000_0000 <= v < 0x8000_0000
    ensures v % 0x1_0000_0000 == x as int
  {
    if x < 0x8000_0000 then x as int else x as int - 0x1_0000_0000
  }

  /** C's integer division, which truncates toward zero. */
  function Quot(a: int, b: int): (q: int)
    requires b > 0
  {
    if a >= 0 then a / b else -((-a) / b)
  }
}
