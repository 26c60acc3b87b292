/** Types the modules share. */
module Common {
  /** One byte of a file, a stream or a buffer. */
  type byte = x: int | 0 <= x < 256

  datatype Option<+T> = None | Some(value: T)

  function Min(a: int, b: int): int {
    if a <= b then a else b
  }

  function Max(a: int, b: int): int {
    if a >= b then a else b
  }

  /** The number whose bytes b holds, the lowest first. */
  function LittleEndian(b: seq<byte>): nat {
    if |b| == 0 then 0 else b[0] + 256 * LittleEndian(b[1..])
  }
}
