/** Bytes, byte strings and the optional values shared by every component. */
module Bytes {
  newtype byte = x: int | 0 <= x < 256
  type bytes = seq<byte>

  const U64: nat := 0x1_0000_0000_0000_0000
  type u64 = v: nat | v < U64
  type u16 = v: nat | v < 65536

  datatype Option<+T> = None | Some(value: T)

  function Zeros(n: nat): (z: bytes)
    ensures |z| == n
  {
    seq(n, _ => 0)
  }

  /** The difference of two unsigned 64-bit numbers, with wrap-around. */
  function Minus64(a: nat, b: nat): (d: nat)
    requires a < U64 && b < U64
    ensures d < U64 && (b <= a ==> d == a - b) && (a < b ==> d == U64 + a - b)
  {
    (U64 + a - b) % U64
  }
}
