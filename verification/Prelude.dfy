/** Bytes, fixed-width digests and the two result types the other modules share. */
module Prelude {
  type byte = b: int | 0 <= b < 256

  type Bytes = seq<byte>

  /** A 32-byte value: SHA-256 output, tree hash or path element. */
  type Digest = d: Bytes | |d| == 32 witness seq(32, _ => 0)

  /** The hash is a parameter everywhere: nothing is assumed of it, not even that collisions are rare. */
  type HashFn = Bytes -> Digest

  const TWO_TO_THE_32: int := 0x1_0000_0000
  const TWO_TO_THE_63: int := 0x8000_0000_0000_0000
  const TWO_TO_THE_64: int := 0x1_0000_0000_0000_0000

  type uint32 = n: int | 0 <= n < TWO_TO_THE_32
  type uint64 = n: int | 0 <= n < TWO_TO_THE_64

  datatype Option<+T> = None | Some(value: T) {
    function GetOr(default: T): T {
      if Some? then value else default
    }
  }

  datatype Result<+T, +E> = Ok(value: T) | Err(error: E)

  function Max(a: int, b: int): int {
    if a < b then b else a
  }

  function Min(a: int, b: int): int {
    if a < b then a else b
  }
}
