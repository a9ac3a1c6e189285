/**
 * The part of Go's time.Time that the OCSP package relies on: an instant is a
 * count of seconds since January 1 of year 1, 00:00:00 UTC, a nanosecond part
 * and a location. The zero value time.Time{} is the first instant of year 1 in
 * UTC. IsZero and Equal look at the instant only, never at the location.
 */
module Time {

  type Nanos = n: int | 0 <= n < 1_000_000_000

  /** Go stores UTC as a nil location; every other location is named. */
  datatype Location = Utc | Zone(name: string, offset: int)

  datatype Instant = Instant(seconds: int, nanos: Nanos, location: Location)

  /** time.Time{} */
  const Zero: Instant := Instant(0, 0, Utc)

  /** time.Time.IsZero: the instant is the first instant of year 1. */
  predicate IsZero(t: Instant) {
    t.seconds == 0 && t.nanos == 0
  }

  /** time.Time.Equal: the same instant, whatever the locations. */
  predicate Equal(t: Instant, u: Instant) {
    t.seconds == u.seconds && t.nanos == u.nanos
  }
}
