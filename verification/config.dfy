/** The two windowing constants of the configuration module. */
module Config {
  /** Eight minutes, in milliseconds. */
  const SegmentDuration: int := 8 * 60 * 1000
  /** Ten seconds, in milliseconds. */
  const OverlapDuration: int := 10 * 1000
}
