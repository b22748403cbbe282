/** The time as the API keeps it. */
module Clock {
  const SECOND := 1_000_000_000

  /** Timestamps are written with a precision of one second. */
  function ToSecond(t: int): (r: int)
    ensures r <= t < r + SECOND
  {
    t / SECOND * SECOND
  }
}
