/** Small shared definitions: bytes, optional values and integer helpers. */
module Base {

  /** One byte of pixel data (the source's `unsigned char`). */
  type Byte = x: int | 0 <= x < 256

  datatype Option<T> = None | Some(value: T)

  function Min(a: int, b: int): int { if a <= b then a else b }

  function Max(a: int, b: int): int { if a >= b then a else b }

  /** The byte at index `k` of `s`, or 0 when `k` is outside `s`; lets the
      resampling specifications be stated without preconditions. */
  function ByteAt(s: seq<Byte>, k: int): Byte
  {
    if 0 <= k < |s| then s[k] else 0
  }
}
