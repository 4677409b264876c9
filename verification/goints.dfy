/** Go's fixed-width integers as they matter to the echo session handler:
    the `int32` failure counter, the `uint32` command identifier and the
    `int64` nanosecond durations of package `time`. */
module GoInts {

  const MinInt32: int := -0x8000_0000
  const MaxInt32: int := 0x7fff_ffff
  const MinInt64: int := -0x8000_0000_0000_0000
  const MaxInt64: int := 0x7fff_ffff_ffff_ffff

  newtype int32 = x: int | -0x8000_0000 <= x < 0x8000_0000
  newtype int64 = x: int | -0x8000_0000_0000_0000 <= x < 0x8000_0000_0000_0000
  newtype uint32 = x: int | 0 <= x < 0x1_0000_0000

  /** `x++` on a Go `int32`: the result is congruent to x + 1 modulo 2^32,
      which wraps the largest value around to the smallest. */
  function Inc32(x: int32): (r: int32)
    ensures (r as int - x as int - 1) % 0x1_0000_0000 == 0
    ensures x as int < MaxInt32 ==> r as int == x as int + 1
  {
    if x as int == MaxInt32 then MinInt32 as int32 else (x as int + 1) as int32
  }

  /** Only the largest `int32` wraps: the counter goes down only there. */
  lemma Inc32WrapsOnlyAtMax(x: int32)
    ensures Inc32(x) < x <==> x as int == MaxInt32
    ensures x as int == MaxInt32 ==> Inc32(x) as int == MinInt32
  {
  }

  /** `time.Since(active)` evaluated at the instant `now`, both in
      nanoseconds: the difference saturates at the bounds of `int64`
      instead of overflowing, as Go's `Time.Sub` does. */
  function Since(now: int, active: int): (d: int64)
    ensures MinInt64 <= now - active <= MaxInt64 ==> d as int == now - active
    ensures now - active > MaxInt64 ==> d as int == MaxInt64
    ensures now - active < MinInt64 ==> d as int == MinInt64
  {
    var diff := now - active;
    if diff > MaxInt64 then MaxInt64 as int64
    else if diff < MinInt64 then MinInt64 as int64
    else diff as int64
  }

  /** Saturation never flips a comparison against an `int64` bound that is
      below the maximum: `bound < Since(now, active)` is exactly
      `bound < now - active` then. */
  lemma SinceComparesExactly(now: int, active: int, bound: int64)
    requires bound as int < MaxInt64
    ensures bound < Since(now, active) <==> bound as int < now - active
  {
  }
}
