/** Optional values, results, and the 16-bit words of the configuration. */
module Wrappers {
  datatype Option<+T> = None | Some(value: T)

  datatype Result<+T, +E> = Ok(value: T) | Err(error: E)

  newtype u16 = x: int | 0 <= x < 0x1_0000
}
