/** The fixed-width integer types of the Rust program, as ranges of unbounded integers. */
module MachineInts {
  type i8 = x: int | -0x80 <= x < 0x80
  type u8 = x: int | 0 <= x < 0x100
  type u16 = x: int | 0 <= x < 0x1_0000
  type u32 = x: int | 0 <= x < 0x1_0000_0000
  type i32 = x: int | -0x8000_0000 <= x < 0x8000_0000

  predicate InI8(x: int) { -0x80 <= x < 0x80 }
  predicate InI32(x: int) { -0x8000_0000 <= x < 0x8000_0000 }

  /** `x as i32`: keeps the low 32 bits of `x`, read as two's complement. */
  function WrapI32(x: int): (r: i32)
    ensures InI32(x) ==> r == x
    ensures (x - r) % 0x1_0000_0000 == 0
  {
    (x + 0x8000_0000) % 0x1_0000_0000 - 0x8000_0000
  }
}

/** Rust's Option. */
module Maybe {
  datatype Option<T> = None | Some(value: T) {
    /** `unwrap_or`: the payload, or `default` when there is none. */
    function UnwrapOr(default: T): T {
      match this
      case Some(v) => v
      case None => default
    }
  }
}
