/** The intervals that the lease of a registered kite depends on
    (kontrol/kontrol.go). Durations are nanoseconds. */
module Intervals {

  const SECOND: int := 1_000_000_000

  /** window is HeartbeatInterval + HeartbeatDelay, ttl is KeyTTL. */
  datatype Config = Config(updateInterval: int, window: int, ttl: int)

  /** The shipped intervals: 60s, 10s + 20s and 90s. */
  const SHIPPED: Config := Config(60 * SECOND, 10 * SECOND + 20 * SECOND, 90 * SECOND)
}
