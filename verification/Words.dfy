/** Fixed-width integers of Go and Rust as mathematical integers after wrap-around. */
module Words {
  const TWO_63: int := 0x8000_0000_0000_0000
  const TWO_64: int := 0x1_0000_0000_0000_0000
  const TWO_32: int := 0x1_0000_0000

  /** A 64-bit signed integer after wrap-around; also what big.Int.Int64 keeps of a big integer. */
  function Int64(x: int): int {
    (x + TWO_63) % TWO_64 - TWO_63
  }

  function UInt32(x: int): int { x % TWO_32 }

  /** The one representable number that differs from x by a multiple of 2 to the 64. */
  lemma Int64Laws(x: int, y: int)
    ensures -TWO_63 <= Int64(x) < TWO_63
    ensures -TWO_63 <= x < TWO_63 <==> Int64(x) == x
    ensures -TWO_63 <= y < TWO_63 && (x - y) % TWO_64 == 0 ==> Int64(x) == y
  {
  }
}
