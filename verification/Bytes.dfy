// The machine's integer widths and the small vocabulary every module shares.
module Bytes {
  type byte = x: int | 0 <= x < 0x100
  type halfword = x: int | 0 <= x < 0x1_0000
  type addr24 = x: int | 0 <= x < 0x100_0000

  datatype Option<+T> = None | Some(value: T)

  function Min(a: int, b: int): int {
    if a < b then a else b
  }

  function Max(a: int, b: int): int {
    if a < b then b else a
  }

  // Big-endian halfword and its two bytes, the guest's order.
  function High(v: halfword): byte {
    v / 0x100
  }

  function Low(v: halfword): byte {
    v % 0x100
  }

  function Half(high: byte, low: byte): halfword {
    high * 0x100 + low
  }

  function Repeat<T>(x: T, n: nat): seq<T> {
    seq(n, _ => x)
  }
}
