/** Result and option types shared by every component. */
module Prelude {

  datatype Option<+T> = None | Some(value: T)

  datatype Result<+T, +E> = Ok(value: T) | Err(error: E)

  /** Rust's fixed-width integers, as ranges. */
  newtype u32 = x: int | 0 <= x < 0x1_0000_0000
  newtype i32 = x: int | -0x8000_0000 <= x < 0x8000_0000

  type Bytes = seq<bv8>

  function Min(a: nat, b: nat): nat {
    if a <= b then a else b
  }
}
