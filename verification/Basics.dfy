/**
 Machine integers and a few shapes used throughout.
 */
module Basics {
  type byte = x: int | 0 <= x < 256
  type bytes = seq<byte>
  type int32 = x: int | -0x8000_0000 <= x < 0x8000_0000
  type uint64 = x: int | 0 <= x < 0x1_0000_0000_0000_0000

  const TWO_31 := 0x8000_0000
  const TWO_32 := 0x1_0000_0000
  const TWO_64 := 0x1_0000_0000_0000_0000

  datatype Option<+T> = None | Some(value: T)

  function Last<X>(s: seq<X>): X
    requires s != []
  {
    s[|s| - 1]
  }

  function Before<X>(s: seq<X>): seq<X>
    requires s != []
  {
    s[..|s| - 1]
  }
}
