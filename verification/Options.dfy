/** The optional value used throughout the project. */
module Options {
  datatype Option<+T> = None | Some(value: T)
}

/** Fixed-width integers of the source, written out with their wrap-around. */
module Words {
  const TWO64: int := 0x1_0000_0000_0000_0000
  const MAX_U64: int := 0xFFFF_FFFF_FFFF_FFFF

  type U64 = n: int | 0 <= n < TWO64

  /** `a + b` on Go's uint64. */
  function Add64(a: U64, b: U64): (r: U64)
    ensures a + b < TWO64 ==> r == a + b
    ensures a + b >= TWO64 ==> r == a + b - TWO64
  {
    if a + b < TWO64 then a + b else a + b - TWO64
  }

  /** `a * b` on Go's uint64. */
  function Mul64(a: U64, b: U64): U64 {
    (a * b) % TWO64
  }

  /** Reads any integer back as Go's int64. */
  function WrapInt64(n: int): (r: int)
    ensures -0x8000_0000_0000_0000 <= r < 0x8000_0000_0000_0000
    ensures -0x8000_0000_0000_0000 <= n < 0x8000_0000_0000_0000 ==> r == n
  {
    (n + 0x8000_0000_0000_0000) % TWO64 - 0x8000_0000_0000_0000
  }
}
