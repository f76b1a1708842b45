/** Go's int64: its range and the two's-complement wrap-around of sums and differences. */
module Int64 {
  const MAX_INT64: int := 0x7fff_ffff_ffff_ffff

  predicate IsInt64(x: int) {
    -MAX_INT64 - 1 <= x <= MAX_INT64
  }

  function Wrap64(x: int): int {
    (x + MAX_INT64 + 1) % (2 * (MAX_INT64 + 1)) - MAX_INT64 - 1
  }

  lemma WrapInRange(x: int)
    requires IsInt64(x)
    ensures Wrap64(x) == x
  {
  }
}
