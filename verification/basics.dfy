/** Shared vocabulary of the checker model: fixed-width unsigned integers and
    the optional and fallible values used at the boundary with the file system. */
module Basics {

  /** One more than the largest `uint64_t` (and `size_t`) value. */
  const U64Limit: int := 0x1_0000_0000_0000_0000

  /** `uint64_t`: the width of the depth and color timestamps. */
  type u64 = x: int | 0 <= x < U64Limit

  datatype Option<+T> = None | Some(value: T)

  datatype Result<+T, +E> = Ok(value: T) | Err(error: E)
}
