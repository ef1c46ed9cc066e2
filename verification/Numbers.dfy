/** Bytes, and the larger and smaller of two numbers. */
module Numbers {
  type Byte = b: int | 0 <= b < 256

  function Max(a: int, b: int): (r: int)
    ensures a <= r && b <= r && (r == a || r == b)
  {
    if a < b then b else a
  }

  function Min(a: int, b: int): (r: int)
    ensures r <= a && r <= b && (r == a || r == b)
  {
    if a < b then a else b
  }
}
