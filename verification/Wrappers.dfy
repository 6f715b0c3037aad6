/** Result types and the program's integer types, shared by the components. */
module Wrappers {

  datatype Option<+T> = None | Some(value: T)

  datatype Result<+T, +E> = Ok(value: T) | Err(error: E)

  type int8 = x: int | -0x80 <= x < 0x80
  type int16 = x: int | -0x8000 <= x < 0x8000
  type int32 = x: int | -0x8000_0000 <= x < 0x8000_0000
  type int64 = x: int | -0x8000_0000_0000_0000 <= x < 0x8000_0000_0000_0000
  type uint32 = x: int | 0 <= x < 0x1_0000_0000

  function Min(a: int, b: int): int {
    if a < b then a else b
  }
}
