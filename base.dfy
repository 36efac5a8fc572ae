/** Rust's primitive vocabulary used by the pager: `Option`, the fixed-width
    unsigned and signed integers, and the wrap-around arithmetic of a release
    build (overflow wraps modulo the width instead of panicking). */
module Base {

  datatype Option<+T> = None | Some(value: T)

  /** How the pager's main loop stands: still reading keys, returned `Ok`
      (Escape in normal mode), returned an `io::Error`, or panicked. */
  datatype Status = Running | Exited | Failed | Panicked

  const TWO_16: int := 0x1_0000
  const TWO_64: int := 0x1_0000_0000_0000_0000

  /** `u16`: terminal coordinates and sizes. */
  type u16 = x: int | 0 <= x < 0x1_0000
  /** `u64`, also used for `usize` (a 64-bit target). */
  type u64 = x: int | 0 <= x < 0x1_0000_0000_0000_0000
  /** `i16`. */
  type i16 = x: int | -0x8000 <= x < 0x8000

  /** `x as u16` for an unsigned `x`: keeps the low 16 bits. */
  function AsU16(x: u64): u16 { x % TWO_16 }

  /** `x as i16` for a `u16`: reinterprets the bits as two's complement. */
  function AsI16(x: u16): i16 { if x < 0x8000 then x else x - TWO_16 }

  /** `a + b` and `a - b` on `u16` in a release build. */
  function Add16(a: u16, b: u16): u16 { (a + b) % TWO_16 }
  function Sub16(a: u16, b: u16): u16 { (a - b) % TWO_16 }

  /** `a + b` and `a - b` on `u64`/`usize` in a release build. */
  function Add64(a: u64, b: u64): u64 { (a + b) % TWO_64 }
  function Sub64(a: u64, b: u64): u64 { (a - b) % TWO_64 }

  /** `a - b` on `i16` in a release build. */
  function SubI16(a: i16, b: i16): i16 { (a - b + 0x8000) % TWO_16 - 0x8000 }

  /** `usize::saturating_sub`. */
  function SaturatingSub(a: u64, b: u64): u64 { if a >= b then a - b else 0 }

  function Min(a: int, b: int): int { if a <= b then a else b }
  function Max(a: int, b: int): int { if a >= b then a else b }
}
