/** Go's 64-bit int, and time.Duration, which is one. */
module GoInts {
  const TWO_63 := 0x8000_0000_0000_0000
  const TWO_64 := 0x1_0000_0000_0000_0000
  const MAX_INT := TWO_63 - 1

  predicate IsInt(x: int) { -TWO_63 <= x <= MAX_INT }

  type Int = x: int | IsInt(x)

  /** Two's complement wrap-around. */
  function Wrap(x: int): (d: int)
    ensures IsInt(d)
    ensures IsInt(x) ==> d == x
    ensures x == MAX_INT + 1 ==> d == -TWO_63
  {
    (x + TWO_63) % TWO_64 - TWO_63
  }
}
