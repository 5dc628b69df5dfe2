/** Building a time interval from an optional Start, End and Duration
 *  (`makeTimeInterval`). */
module TimeIntervalConfig {
  import opened Wrappers
  import opened TimeIntervals

  datatype Config = Config(start: Option<real>, end: Option<real>, duration: Option<real>)

  /** Start and End are taken verbatim, Duration fills in the missing end;
   *  ends that nothing determines stay at the default 0. All three together
   *  is an error.  So the result honours every parameter that is given,
   *  fails exactly when all three are, and puts a bound that no parameter
   *  fixes at 0. */
  function MakeTimeInterval(config: Config): (r: Result<Interval>)
    ensures r.Err? <==> config.start.Some? && config.end.Some? && config.duration.Some?
    ensures r.Ok? ==>
      && (config.start.Some? ==> r.value.start == config.start.value)
      && (config.end.Some? ==> r.value.stop == config.end.value)
      && (config.duration.Some? ==> r.value.Duration() == config.duration.value)
      && (config.start.None? && (config.end.None? || config.duration.None?) ==> r.value.start == 0.0)
      && (config.end.None? && config.duration.None? ==> r.value.stop == 0.0)
  {
    if config.start.Some? then
      if config.end.Some? then
        if config.duration.Some? then Err("only up to two among Start, End and Duration")
        else Ok(Interval(config.start.value, config.end.value))
      else if config.duration.Some? then
        Ok(Interval(config.start.value, config.start.value + config.duration.value))
      else Ok(Interval(config.start.value, 0.0))
    else if config.end.Some? then
      if config.duration.Some? then
        Ok(Interval(config.end.value - config.duration.value, config.end.value))
      else Ok(Interval(0.0, config.end.value))
    else if config.duration.Some? then Ok(Interval(0.0, config.duration.value))
    else Ok(Interval(0.0, 0.0))
  }

  /** The overload on an optional configuration: absent configuration, no
   *  interval. */
  function MakeOptionalTimeInterval(config: Option<Config>): (r: Result<Option<Interval>>)
    ensures config.None? <==> r == Ok(None)
    ensures config.Some? && MakeTimeInterval(config.value).Ok? ==>
      r == Ok(Some(MakeTimeInterval(config.value).value))
    ensures config.Some? && MakeTimeInterval(config.value).Err? ==> r.Err?
  {
    if config.None? then Ok(None)
    else match MakeTimeInterval(config.value)
      case Ok(i) => Ok(Some(i))
      case Err(e) => Err(e)
  }
}
