/**
 * The subscription usage checks: a rolling window of some hours and a calendar week, each
 * reporting whether the customer is rate-limited, the usage as a percentage of the limit and
 * the seconds until the limit resets. Times are milliseconds since the epoch; the current
 * time, the week's bounds, the configured limits and the cents-to-micro-cents conversion are
 * parameters.
 */
module Black {
  /** The `ZEN_BLACK` configuration. */
  datatype BlackConfig = BlackConfig(fixedLimit: int, rollingLimit: int, rollingWindow: int)

  datatype Status = Ok | RateLimited

  /** A percentage: `Math.ceil` of a quotient, which is `-Infinity` for a negative usage over a zero limit. */
  datatype Percent = Value(p: int) | MinusInfinity

  datatype Usage = Usage(status: Status, resetInSec: int, usagePercent: Percent)

  /** `Math.ceil(x / d)` for a positive divisor. */
  function CeilDiv(x: int, d: int): (r: int)
    requires d > 0
    ensures (r - 1) * d < x <= r * d
  {
    -((-x) / d)
  }

  /**
   * `Math.ceil(Math.min(100, usage / limit * 100))` below the limit, computed exactly: a negative
   * limit puts the quotient above 1, and a zero limit puts a negative usage at `-Infinity`.
   */
  function UsagePercent(usage: int, limit: int): (r: Percent)
    requires usage < limit
    ensures limit == 0 ==> r == MinusInfinity
    ensures limit < 0 ==> r == Value(100)
    ensures limit > 0 ==> r.Value? && (r.p - 1) * limit < usage * 100 <= r.p * limit
  {
    if limit == 0 then MinusInfinity
    else if limit < 0 then Value(100)
    else Value(CeilDiv(usage * 100, limit))
  }

  /** Below the limit the percentage is between 0 and 100 for a non-negative usage. */
  lemma PercentBounds(usage: int, limit: int)
    requires 0 <= usage < limit
    ensures UsagePercent(usage, limit).Value? && 0 <= UsagePercent(usage, limit).p <= 100
    ensures usage > 0 ==> UsagePercent(usage, limit).p >= 1
  {
    var p := UsagePercent(usage, limit).p;
    assert (p - 1) * limit < usage * 100 <= p * limit;
  }

  /** `analyzeRollingUsage`. */
  function AnalyzeRollingUsage(config: BlackConfig, toMicroCents: int -> int, usage: int, timeUpdated: int, now: int): (r: Usage)
    ensures var windowMs := config.rollingWindow * 3600 * 1000;
      var limit := toMicroCents(config.rollingLimit * 100);
      && (timeUpdated < now - windowMs ==> r == Usage(Ok, config.rollingWindow * 3600, Value(0)))
      && (timeUpdated >= now - windowMs ==>
        && (r.status == Ok <==> usage < limit)
        && r.resetInSec == CeilDiv(timeUpdated + windowMs - now, 1000)
        && (r.status == Ok ==> r.usagePercent == UsagePercent(usage, limit))
        && (r.status == RateLimited ==> r.usagePercent == Value(100)))
  {
    var rollingWindowMs := config.rollingWindow * 3600 * 1000;
    var rollingLimit := toMicroCents(config.rollingLimit * 100);
    var windowStart := now - rollingWindowMs;
    if timeUpdated < windowStart then Usage(Ok, config.rollingWindow * 3600, Value(0))
    else
      var windowEnd := timeUpdated + rollingWindowMs;
      if usage < rollingLimit then Usage(Ok, CeilDiv(windowEnd - now, 1000), UsagePercent(usage, rollingLimit))
      else Usage(RateLimited, CeilDiv(windowEnd - now, 1000), Value(100))
  }

  /** Inside the window, with the last update not in the future, the reset is at most one window away. */
  lemma RollingResetWithinWindow(config: BlackConfig, toMicroCents: int -> int, usage: int, timeUpdated: int, now: int)
    requires now - config.rollingWindow * 3600 * 1000 <= timeUpdated <= now
    ensures 0 <= AnalyzeRollingUsage(config, toMicroCents, usage, timeUpdated, now).resetInSec <= config.rollingWindow * 3600
  {
    var x := timeUpdated + config.rollingWindow * 3600 * 1000 - now;
    var r := CeilDiv(x, 1000);
    assert 0 <= x <= config.rollingWindow * 3600 * 1000;
    assert r * 1000 < x + 1000;
    assert r * 1000 < (config.rollingWindow * 3600 + 1) * 1000;
  }

  /** `analyzeWeeklyUsage`, for the week `[weekStart, weekEnd)` that contains `now`. */
  function AnalyzeWeeklyUsage(
    config: BlackConfig, toMicroCents: int -> int, usage: int, timeUpdated: int, now: int, weekStart: int, weekEnd: int): (r: Usage)
    ensures r.resetInSec == CeilDiv(weekEnd - now, 1000)
    ensures timeUpdated < weekStart ==> r.status == Ok && r.usagePercent == Value(0)
    ensures var limit := toMicroCents(config.fixedLimit * 100);
      timeUpdated >= weekStart ==>
        && (r.status == Ok <==> usage < limit)
        && (r.status == Ok ==> r.usagePercent == UsagePercent(usage, limit))
        && (r.status == RateLimited ==> r.usagePercent == Value(100))
  {
    var fixedLimit := toMicroCents(config.fixedLimit * 100);
    var reset := CeilDiv(weekEnd - now, 1000);
    if timeUpdated < weekStart then Usage(Ok, reset, Value(0))
    else if usage < fixedLimit then Usage(Ok, reset, UsagePercent(usage, fixedLimit))
    else Usage(RateLimited, reset, Value(100))
  }

  /** A usage recorded before the week started never limits, whatever its size. */
  lemma WeeklyStaleNeverLimits(
    config: BlackConfig, toMicroCents: int -> int, u1: int, u2: int, timeUpdated: int, now: int, weekStart: int, weekEnd: int)
    requires timeUpdated < weekStart
    ensures AnalyzeWeeklyUsage(config, toMicroCents, u1, timeUpdated, now, weekStart, weekEnd)
      == AnalyzeWeeklyUsage(config, toMicroCents, u2, timeUpdated, now, weekStart, weekEnd)
  {
  }

  /** More usage never lifts a rate limit: the status is monotone in the usage. */
  lemma RollingMonotone(config: BlackConfig, toMicroCents: int -> int, u1: int, u2: int, timeUpdated: int, now: int)
    requires u1 <= u2
    ensures AnalyzeRollingUsage(config, toMicroCents, u1, timeUpdated, now).status == RateLimited ==>
      AnalyzeRollingUsage(config, toMicroCents, u2, timeUpdated, now).status == RateLimited
  {
  }
}
