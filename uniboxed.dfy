/**
 * The interface every unibox implements (src/uniboxed.rs).
 *
 * Construction either returns a box or a recoverable `Err(())`; typed access
 * with the wrong type is a panic, not an error value. The interface's one
 * body is the default `new`, which is `new_with_id` with identifier 0: each
 * box class below has a `New` that calls its `NewWithId` with `DEFAULT_ID`.
 */
module Uniboxed {
  import opened Mem

  /** Rust's `Result<Self, ()>` returned by the constructors. */
  datatype Result<T> = Ok(value: T) | Err

  /** The identifier the default `new` passes to `new_with_id`. */
  const DEFAULT_ID: Usize := 0
}
