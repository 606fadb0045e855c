/** What the metric analyses share. */
module Series {

  const HOUR_MS := 3_600_000

  /** Below this the analyses treat a spread as zero. */
  const TINY := 0.000000001

  /** A stored sample: Unix milliseconds and value. */
  datatype Sample = Sample(t: int, v: real)
}
