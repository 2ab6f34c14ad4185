/** Bytes and the optional values shared by the other modules. */
module Bytes {
  type byte = x: int | 0 <= x < 256

  const TWO_64 := 0x1_0000_0000_0000_0000
  const TWO_63 := 0x8000_0000_0000_0000

  datatype Option<+T> = None | Some(value: T)

  function Max(a: int, b: int): int { if a < b then b else a }

  function Min(a: int, b: int): int { if a < b then a else b }

  function Single(x: byte): seq<byte> { [x] }
}
