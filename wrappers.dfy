/** Option and Result values, the byte type and `Math.min`, shared by the other modules. */
module Wrappers {

  /** One octet of a file or archive buffer (`Uint8Array` element, Python `bytes` item). */
  type byte = x: int | 0 <= x < 256

  datatype Option<+T> = None | Some(value: T)

  datatype Result<+T, +E> = Ok(value: T) | Err(error: E)

  /** `Math.min` / `min` of two integers. */
  function Min(a: int, b: int): int { if a < b then a else b }
}
