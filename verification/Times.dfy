/** Instants. */
module Times {

  /** Nanoseconds since Go's zero instant, so that `IsZero` is `== 0`. */
  type Time = nat

  const NANOS_PER_SECOND: nat := 1_000_000_000
  const NANOS_PER_HOUR: nat := 3600 * NANOS_PER_SECOND
}
