/**
 * Bytes, machine integers and the abstraction of a Rust type used by every box.
 *
 * A Rust type `T` is known to the boxes only through `size_of::<T>()`,
 * `align_of::<T>()` and `type_name::<T>()`; a value of `T` only through its
 * byte image of `size_of::<T>()` bytes.
 */
module Mem {

  /** An unsigned 8-bit byte (`u8`). */
  type byte = b: int | 0 <= b < 256

  const USIZE_LIMIT: int := 0x1_0000_0000_0000_0000
  /** `isize::MAX` on a 64-bit target: no Rust type or allocation is larger. */
  const ISIZE_MAX: int := 0x7FFF_FFFF_FFFF_FFFF

  /** The largest alignment the compiler accepts for a type (`#[repr(align(2^29))]`). */
  const MAX_ALIGN: int := 0x2000_0000

  /** `usize` on a 64-bit target. */
  type Usize = n: int | 0 <= n < USIZE_LIMIT

  /** `n` zero bytes. */
  function Zeros(n: nat): seq<byte>
  {
    seq(n, _ => 0)
  }

  predicate IsPowerOfTwo(n: nat)
    decreases n
  {
    n == 1 || (n > 1 && n % 2 == 0 && IsPowerOfTwo(n / 2))
  }

  /**
   * What the boxes can learn about a type `T`: `type_name::<T>()`,
   * `size_of::<T>()` and `align_of::<T>()`.
   */
  datatype TypeDesc = TypeDesc(name: string, size: nat, align: nat) {
    /**
     * What Rust guarantees of every sized type: a power-of-two alignment, a
     * size that is a multiple of it, and a size that stays within
     * `isize::MAX` when rounded up to the alignment.
     */
    predicate WellFormed() {
      && IsPowerOfTwo(align)
      && align <= MAX_ALIGN
      && size % align == 0
      && size <= ISIZE_MAX - (align - 1)
    }
  }

  /** The unit type `()`: zero bytes, alignment one. */
  const UNIT: TypeDesc := TypeDesc("()", 0, 1)

  /** A value of some type, seen as its byte image. */
  datatype Value = Value(ty: TypeDesc, bytes: seq<byte>) {
    predicate Valid() {
      ty.WellFormed() && |bytes| == ty.size
    }
  }

  /** A call that either panics or returns a value. */
  datatype Outcome<T> = Panicked | Returned(value: T)
}
