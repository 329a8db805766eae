/** Types, constants and functions that several modules share. */
module Common {
  const UINT_LIMIT := 0x1_0000_0000
  const PGSIZE := 4096

  type Byte = x: int | 0 <= x < 256
  type Word = x: int | 0 <= x < UINT_LIMIT

  datatype Option<T> = None | Some(value: T)

  function Min(a: int, b: int): int {
    if a < b then a else b
  }

  /** The sequence without its element k. */
  function Without<T>(s: seq<T>, k: nat): seq<T>
    requires k < |s|
  {
    s[..k] + s[k + 1..]
  }
}
