/** Machine numbers of the program.

    `u32` is a bounded integer. `f64` values (temperatures, coordinates) are
    only stored, compared for identity and handed to collaborators, so the
    model keeps them as their IEEE-754 bit patterns and never does
    arithmetic on them. */
module Numbers {

  const U32Max: int := 0xFFFF_FFFF

  newtype U32 = x: int | 0 <= x <= U32Max

  /** An `f64`, as its 64-bit IEEE-754 encoding. */
  type F64 = bv64

  /** 6500.0 */
  const F64_6500: F64 := 0x40B9_6400_0000_0000

  /** 4000.0 */
  const F64_4000: F64 := 0x40AF_4000_0000_0000
}
