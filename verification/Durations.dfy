// Lengths of time, in seconds.
module Durations {
  const MINUTE: int := 60
  const HOUR: int := 3600
  const WEEK: int := 7 * 24 * HOUR
}
