/** Time is counted in whole nanoseconds throughout. */
module Clock {
  const SECOND: int := 1_000_000_000
}
