/** Bounds of log timestamps, which are stored as nanoseconds. */
module TimeLimits {
  const MAX_LOG_TIMESTAMP_MS: int := 9223372036854
  const NANOS_PER_MILLI: int := 1000000
}
