/** What several modules share. */
module Common {
  datatype Option<T> = None | Some(value: T)

  type Byte = b: int | 0 <= b < 256

  type Bytes = seq<Byte>

  function Min(a: int, b: int): int { if a <= b then a else b }

  /** The sequence without its element at `k`. */
  function Without<T>(s: seq<T>, k: nat): seq<T>
    requires k < |s|
  {
    s[..k] + s[k + 1..]
  }
}
