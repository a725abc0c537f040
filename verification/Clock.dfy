/** Instants and durations, in whole nanoseconds.
    An instant counts from Go's zero time (1 January of year 1, UTC), so the zero
    value of a timestamp field is 0 and every clock reading is a `nat`. */
module Clock {
  type Instant = nat
  type Duration = int

  const SECOND: Duration := 1_000_000_000
  const MINUTE: Duration := 60 * SECOND
  const HOUR: Duration := 60 * MINUTE
  const ZERO_TIME: Instant := 0

  // Seconds between year 1 and the Unix epoch.
  const UNIX_EPOCH := 62_135_596_800

  /** Time.Unix: floor to whole seconds, counted from the Unix epoch. */
  function Unix(t: Instant): (s: int)
    ensures forall e: int {:trigger e * SECOND} :: s <= e <==> t < (e + 1 + UNIX_EPOCH) * SECOND
  {
    var s := t / SECOND - UNIX_EPOCH;
    assert forall e: int {:trigger e * SECOND} :: s <= e <==> t < (e + 1 + UNIX_EPOCH) * SECOND;
    s
  }
}
