/** Value types shared by the whole model: optional values, results, bytes and Go's int64. */
module Basics {

  datatype Option<T> = None | Some(value: T)

  datatype Result<T, E> = Ok(value: T) | Err(error: E)

  /** One byte of a Go []byte. */
  type Byte = b: int | 0 <= b < 256

  const Two63: int := 0x8000_0000_0000_0000
  const Two64: int := 0x1_0000_0000_0000_0000

  /** Go's int64: chat ids, message ids and unix timestamps. */
  type Int64 = x: int | -Two63 <= x < Two63

  /** Go's uint64. */
  type Uint64 = x: int | 0 <= x < Two64

  function Min(a: int, b: int): int {
    if a <= b then a else b
  }
}
