/** Small shared vocabulary: optional values, bytes and terminal dimensions. */
module Common {

  /** A present or absent value; stands in for C's nullable pointers and handles. */
  datatype Option<+T> = None | Some(value: T)

  /** One octet of a pipe or buffer. */
  newtype byte = x: int | 0 <= x < 0x100

  /** A terminal size in character cells, as carried by the C `int` pair width/height. */
  datatype Size = Size(width: int, height: int)

  /** Both dimensions strictly positive: the guard every resize path applies. */
  predicate Positive(s: Size) {
    s.width > 0 && s.height > 0
  }

  const MinInt32: int := -0x8000_0000
  const MaxInt32: int := 0x7FFF_FFFF

  /** The range of a C `int` on the platforms the bridge targets. */
  predicate IsInt32(x: int) {
    MinInt32 <= x <= MaxInt32
  }

  function Min(a: nat, b: nat): nat {
    if a < b then a else b
  }

  function Max(a: nat, b: nat): nat {
    if a < b then b else a
  }
}
