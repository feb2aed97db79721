/** The launch-parameter rule of `handle_launch_params`: how the tick interval is chosen. */
module Launch {
  import opened Wrappers

  /** Seconds between ticks when no usable `--time_interval` is given. */
  const DefaultInterval: int := 3

  /** `--time_interval` is an optional int; Python's truthiness test lets any
      non-zero value through (negative ones included) and falls back on 3 for
      an absent flag or an explicit 0. */
  function TickInterval(flag: Option<int>): (t: int)
    ensures t != 0
    ensures flag == Some(t) || (t == DefaultInterval && (flag == None || flag == Some(0)))
  {
    match flag
    case Some(v) => if v != 0 then v else DefaultInterval
    case None => DefaultInterval
  }
}
