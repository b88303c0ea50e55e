/** Result types, bytes and numeric bounds shared by every module. */
module Prelude {
  datatype Option<+T> = None | Some(value: T)

  datatype Result<+T, +E> = Ok(value: T) | Err(error: E)

  type Byte = b: int | 0 <= b < 256

  /** Number.MAX_SAFE_INTEGER: the bound of every schema-valid integer. */
  const MAX_SAFE := 9007199254740991

  function Max(a: int, b: int): int {
    if a < b then b else a
  }
}
