/**
  Instants and durations as Go's `time` package computes with them: an instant
  is a number of nanoseconds from the Unix epoch, a duration is a 64-bit number
  of nanoseconds.
 */
module Clock {
  const SECOND := 1_000_000_000

  // The zero value of time.Time, 1 January of year 1.
  const ZERO_TIME := -62135596800 * SECOND

  const INT64_MAX := 0x7FFF_FFFF_FFFF_FFFF
  const INT64_MIN := -0x8000_0000_0000_0000

  // Two's complement wrap-around of a 64-bit product.
  function Wrap64(x: int): int {
    (x - INT64_MIN) % 0x1_0000_0000_0000_0000 + INT64_MIN
  }

  // time.Time.Sub saturates.
  function Saturate64(x: int): int {
    if x > INT64_MAX then INT64_MAX else if x < INT64_MIN then INT64_MIN else x
  }

  // time.Time.Unix truncates an instant to whole seconds, downwards.
  function UnixSeconds(t: int): int {
    t / SECOND
  }
}
