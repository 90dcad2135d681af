/**
 * Retrying with exponential backoff. Float64 is modelled by the reals, and the conversion to a
 * time.Duration by truncation. What the function answers, when the context is cancelled and what
 * the random numbers are is arbitrary.
 */
module Retry {
  import opened Common

  datatype Config = Config(
    maxAttempts: int, initialInterval: Time, maxInterval: Time, multiplier: real, randomization: real)

  /** What one call of fn gives. */
  datatype Answer<+T> = Ok(value: T) | Fail(error: Id)

  datatype Error = FromCall(error: Id) | FromContext

  /** What is returned (no result stands for the zero value), the number of calls, and the waits begun. */
  datatype Outcome<+T> = Outcome(result: Option<T>, err: Option<Error>, calls: nat, delays: seq<Time>)

  /** A product, under a name so that products of products stay readable to the solver. */
  function Mul(a: real, b: real): real {
    a * b
  }

  /** Conversion of a float64 to an integer: towards zero. */
  function Trunc(x: real): int {
    if x < 0.0 then -((-x).Floor) else x.Floor
  }

  /** A delay of `delay` nanoseconds with jitter; `draw` is what rand.Float64 gives, at least 0 and below 1. */
  function Jittered(delay: real, randomization: real, draw: real): Time {
    var jittered := if randomization > 0.0 then Mul(delay, 1.0 + Mul(draw * 2.0 - 1.0, randomization)) else delay;
    Trunc(if jittered < 0.0 then 0.0 else jittered)
  }

  function CalculateDelay(base: Time, multiplier: real, randomization: real, draw: real): Time {
    Jittered(Mul(base as real, multiplier), randomization, draw)
  }

  function NextInterval(cfg: Config, interval: Time): Time {
    var next := Trunc(Mul(interval as real, cfg.multiplier));
    if next > cfg.maxInterval then cfg.maxInterval else next
  }

  /** The interval at attempt `k`, from 1. */
  function Interval(cfg: Config, k: nat): Time {
    if k <= 1 then cfg.initialInterval else NextInterval(cfg, Interval(cfg, k - 1))
  }

  /** The delay after attempt `k`. */
  function Delay(cfg: Config, draws: nat -> real, k: nat): Time {
    CalculateDelay(Interval(cfg, k), cfg.multiplier, cfg.randomization, draws(k))
  }

  function DelaysOf(cfg: Config, draws: nat -> real): nat -> Time {
    (k: nat) => Delay(cfg, draws, k)
  }

  /**
   * The attempts from number `attempt` on, with `wait(k)` the delay after attempt k. The context is
   * looked at before each attempt, look 2 * (attempt - 1), and during the wait after it, look 2 * attempt - 1.
   */
  function Attempts<T>(ctx: Ctx, maxAttempts: int, fn: nat -> Answer<T>, wait: nat -> Time, attempt: nat): Outcome<T>
    requires attempt >= 1
    decreases maxAttempts - attempt
  {
    if attempt > maxAttempts then Outcome(None, None, 0, [])
    else if !ctx.Live(2 * (attempt - 1)) then Outcome(None, Some(FromContext), 0, [])
    else match fn(attempt)
      case Ok(v) => Outcome(Some(v), None, 1, [])
      case Fail(e) =>
        if attempt == maxAttempts then Outcome(None, Some(FromCall(e)), 1, [])
        else if !ctx.Live(2 * attempt - 1) then Outcome(None, Some(FromContext), 1, [wait(attempt)])
        else After(wait(attempt), Attempts(ctx, maxAttempts, fn, wait, attempt + 1))
  }

  /** One more failed call and completed wait, first. */
  function After<T>(delay: Time, rest: Outcome<T>): Outcome<T> {
    rest.(calls := 1 + rest.calls, delays := [delay] + rest.delays)
  }

  /** All attempts. */
  function Whole<T>(ctx: Ctx, cfg: Config, fn: nat -> Answer<T>, draws: nat -> real): Outcome<T> {
    Attempts(ctx, cfg.maxAttempts, fn, DelaysOf(cfg, draws), 1)
  }

  /** An outcome after `calls` failed calls and the waits `delays`. */
  function Prepend<T>(calls: nat, delays: seq<Time>, rest: Outcome<T>): Outcome<T> {
    rest.(calls := calls + rest.calls, delays := delays + rest.delays)
  }

  lemma PrependAfter<T>(calls: nat, delays: seq<Time>, delay: Time, rest: Outcome<T>)
    ensures Prepend(calls, delays, After(delay, rest)) == Prepend(calls + 1, delays + [delay], rest)
  {
    assert delays + ([delay] + rest.delays) == delays + [delay] + rest.delays;
  }

  predicate SameButResult<S, T>(o: Outcome<S>, p: Outcome<T>) {
    o.err == p.err && o.calls == p.calls && o.delays == p.delays
  }

  /** The delays as a function, without their definition. */
  lemma Delays<T>(ctx: Ctx, cfg: Config, fn: nat -> Answer<T>, draws: nat -> real) returns (wait: nat -> Time)
    ensures Whole(ctx, cfg, fn, draws) == Attempts(ctx, cfg.maxAttempts, fn, wait, 1)
    ensures forall k {:trigger Delay(cfg, draws, k)} :: wait(k) == Delay(cfg, draws, k)
  {
    wait := DelaysOf(cfg, draws);
  }

  /** Here fn gives only an error, or Ok for nil. */
  method Do(ctx: Ctx, cfg: Config, fn: nat -> Answer<()>, draws: nat -> real)
    returns (err: Option<Error>, calls: nat, delays: seq<Time>)
    ensures var o := Whole(ctx, cfg, fn, draws); o == Outcome(o.result, err, calls, delays)
  {
    calls, delays := 0, [];
    var lastErr: Option<Error> := None;
    var interval := cfg.initialInterval;
    ghost var wait := Delays(ctx, cfg, fn, draws);
    var attempt := 1;
    while attempt <= cfg.maxAttempts
      invariant attempt == 1 || 1 < attempt <= cfg.maxAttempts
      invariant attempt == 1 ==> lastErr == None
      invariant interval == Interval(cfg, attempt)
      invariant Attempts(ctx, cfg.maxAttempts, fn, wait, 1) ==
                Prepend(calls, delays, Attempts(ctx, cfg.maxAttempts, fn, wait, attempt))
    {
      if !ctx.Live(2 * (attempt - 1)) {
        return Some(FromContext), calls, delays;
      }
      var answer := fn(attempt);
      calls := calls + 1;
      if answer.Ok? {
        return None, calls, delays;
      }
      lastErr := Some(FromCall(answer.error));
      if attempt == cfg.maxAttempts {
        return lastErr, calls, delays;
      }
      var delay := CalculateDelay(interval, cfg.multiplier, cfg.randomization, draws(attempt));
      assert delay == Delay(cfg, draws, attempt) == wait(attempt);
      if !ctx.Live(2 * attempt - 1) {
        return Some(FromContext), calls, delays + [delay];
      }
      PrependAfter(calls - 1, delays, delay, Attempts(ctx, cfg.maxAttempts, fn, wait, attempt + 1));
      delays := delays + [delay];
      interval := NextInterval(cfg, interval);
      attempt := attempt + 1;
    }
    return lastErr, calls, delays;
  }

  method DoWithResult<T>(ctx: Ctx, cfg: Config, fn: nat -> Answer<T>, draws: nat -> real)
    returns (result: Option<T>, err: Option<Error>, calls: nat, delays: seq<Time>)
    ensures Outcome(result, err, calls, delays) == Whole(ctx, cfg, fn, draws)
  {
    calls, delays := 0, [];
    var lastErr: Option<Error> := None;
    var interval := cfg.initialInterval;
    ghost var wait := Delays(ctx, cfg, fn, draws);
    var attempt := 1;
    while attempt <= cfg.maxAttempts
      invariant attempt == 1 || 1 < attempt <= cfg.maxAttempts
      invariant attempt == 1 ==> lastErr == None
      invariant interval == Interval(cfg, attempt)
      invariant Attempts(ctx, cfg.maxAttempts, fn, wait, 1) ==
                Prepend(calls, delays, Attempts(ctx, cfg.maxAttempts, fn, wait, attempt))
    {
      if !ctx.Live(2 * (attempt - 1)) {
        return None, Some(FromContext), calls, delays;
      }
      var answer := fn(attempt);
      calls := calls + 1;
      if answer.Ok? {
        return Some(answer.value), None, calls, delays;
      }
      lastErr := Some(FromCall(answer.error));
      if attempt == cfg.maxAttempts {
        return None, lastErr, calls, delays;
      }
      var delay := CalculateDelay(interval, cfg.multiplier, cfg.randomization, draws(attempt));
      assert delay == Delay(cfg, draws, attempt) == wait(attempt);
      if !ctx.Live(2 * attempt - 1) {
        return None, Some(FromContext), calls, delays + [delay];
      }
      PrependAfter(calls - 1, delays, delay, Attempts(ctx, cfg.maxAttempts, fn, wait, attempt + 1));
      delays := delays + [delay];
      interval := NextInterval(cfg, interval);
      attempt := attempt + 1;
    }
    return None, lastErr, calls, delays;
  }

  // ----- The outcome -----

  /** The same function without its results. */
  function Erased<T>(fn: nat -> Answer<T>): nat -> Answer<()> {
    (i: nat) => match fn(i) case Ok(_) => Ok(()) case Fail(e) => Fail(e)
  }

  lemma {:induction false} AttemptsOfErased<T>(
    ctx: Ctx, maxAttempts: int, fn: nat -> Answer<T>, wait: nat -> Time, attempt: nat)
    requires attempt >= 1
    ensures var (o, p) := (Attempts(ctx, maxAttempts, fn, wait, attempt),
                           Attempts(ctx, maxAttempts, Erased(fn), wait, attempt));
      SameButResult(o, p) && (o.result.Some? <==> p.result.Some?)
    decreases maxAttempts - attempt
  {
    if attempt < maxAttempts {
      AttemptsOfErased(ctx, maxAttempts, fn, wait, attempt + 1);
    }
  }

  /** Do and DoWithResult make the same calls and waits, and return the same error. */
  lemma SameCallsAndWaits<T>(ctx: Ctx, cfg: Config, fn: nat -> Answer<T>, draws: nat -> real)
    ensures var (o, p) := (Whole(ctx, cfg, fn, draws), Whole(ctx, cfg, Erased(fn), draws));
      SameButResult(o, p) && (o.result.Some? <==> p.result.Some?)
  {
    AttemptsOfErased(ctx, cfg.maxAttempts, fn, DelaysOf(cfg, draws), 1);
  }

  /** The context lets that many attempts start. */
  predicate Allows(ctx: Ctx, attempts: nat) {
    ctx.Background? || attempts <= (ctx.look + 1) / 2
  }

  predicate FailsBefore<T>(fn: nat -> Answer<T>, from: nat, n: nat) {
    forall i :: from <= i < n ==> fn(i).Fail?
  }

  /** `o` is what the attempts from number `from` on should come to. */
  ghost predicate IsOutcome<T>(ctx: Ctx, maxAttempts: int, fn: nat -> Answer<T>, from: nat, o: Outcome<T>)
    requires from >= 1
  {
    var n := from - 1 + o.calls;
    && FailsBefore(fn, from, n) && n <= maxAttempts && Allows(ctx, n)
    && (if n >= from && fn(n).Ok? then o.result == Some(fn(n).value) && o.err == None
        else if n == maxAttempts then n >= from && o.result == None && o.err == Some(FromCall(fn(n).error))
        else o.result == None && o.err == Some(FromContext) && !Allows(ctx, n + 1))
    && (o.err != Some(FromContext) ==> |o.delays| == o.calls - 1)
  }

  lemma {:induction false} AttemptsOutcome<T>(
    ctx: Ctx, maxAttempts: int, fn: nat -> Answer<T>, wait: nat -> Time, attempt: nat)
    requires 1 <= attempt <= maxAttempts
    requires ctx.CancelledFrom? ==> ctx.look >= 2 * (attempt - 1)
    ensures IsOutcome(ctx, maxAttempts, fn, attempt, Attempts(ctx, maxAttempts, fn, wait, attempt))
    decreases maxAttempts - attempt
  {
    if ctx.Live(2 * attempt - 1) && fn(attempt).Fail? && attempt < maxAttempts {
      AttemptsOutcome(ctx, maxAttempts, fn, wait, attempt + 1);
    }
  }

  /**
   * With at least one attempt allowed, fn is called until it first succeeds, the attempts are
   * used up, or the context is found cancelled, whichever is first; and what is returned is the
   * last call's result, or the context's error.
   */
  lemma RetryOutcome<T>(ctx: Ctx, cfg: Config, fn: nat -> Answer<T>, draws: nat -> real)
    requires cfg.maxAttempts >= 1
    ensures IsOutcome(ctx, cfg.maxAttempts, fn, 1, Whole(ctx, cfg, fn, draws))
  {
    AttemptsOutcome(ctx, cfg.maxAttempts, fn, DelaysOf(cfg, draws), 1);
  }

  /** With a live context, the number of calls is that of the first success, or all. */
  lemma LiveCalls<T>(cfg: Config, fn: nat -> Answer<T>, draws: nat -> real, first: nat)
    requires cfg.maxAttempts >= 1 && first >= 1 && FailsBefore(fn, 1, first) && fn(first).Ok?
    ensures var o := Whole(Background, cfg, fn, draws);
      && o.calls == (if first <= cfg.maxAttempts then first else cfg.maxAttempts)
      && (o.err == None <==> first <= cfg.maxAttempts)
      && |o.delays| == o.calls - 1
  {
    RetryOutcome(Background, cfg, fn, draws);
    var n := Whole(Background, cfg, fn, draws).calls;
    assert n > first ==> fn(first).Fail?;
    assert 1 <= n < first ==> fn(n).Fail?;
  }

  /** No error and no call: what a configuration without attempts gives, and only that. */
  lemma NoErrorWithoutACall<T>(ctx: Ctx, cfg: Config, fn: nat -> Answer<T>, draws: nat -> real)
    ensures var o := Whole(ctx, cfg, fn, draws);
      o.err == None && o.calls == 0 <==> cfg.maxAttempts < 1
  {
    if cfg.maxAttempts >= 1 {
      RetryOutcome(ctx, cfg, fn, draws);
    }
  }

  // ----- The backoff -----

  /** What the bounds need of a configuration. */
  predicate Sensible(cfg: Config) {
    cfg.initialInterval > 0 && cfg.maxInterval > 0 && cfg.multiplier >= 1.0 && cfg.randomization >= 0.0
  }

  predicate IsDraw(x: real) {
    0.0 <= x < 1.0
  }

  function Power(m: real, k: nat): real {
    if k == 0 then 1.0 else Mul(m, Power(m, k - 1))
  }

  lemma Scale(a: real, b: real, c: real)
    requires a <= b && c >= 0.0
    ensures Mul(a, c) <= Mul(b, c)
  {
  }

  lemma ScaleTwice(a: real, b: real, c: real, d: real)
    requires a <= b && c >= 0.0 && d >= 0.0
    ensures Mul(Mul(a, c), d) <= Mul(Mul(b, c), d)
  {
    Scale(a, b, c);
    Scale(Mul(a, c), Mul(b, c), d);
  }

  lemma Regroup(a: real, p: real, m: real)
    ensures Mul(Mul(a, p), m) == Mul(a, Mul(m, p))
  {
  }

  lemma TruncNear(x: real, n: int)
    requires x >= 0.0
    ensures 0 <= Trunc(x) && Trunc(x) as real <= x < Trunc(x) as real + 1.0
    ensures n as real <= x ==> n <= Trunc(x)
  {
  }

  /**
   * The next interval is Multiplier times this one, less a fraction, unless that exceeds MaxInterval;
   * truncation never undoes the growth.
   */
  lemma IntervalGrows(cfg: Config, interval: Time)
    requires Sensible(cfg) && interval > 0
    ensures NextInterval(cfg, interval) as real <= Mul(interval as real, cfg.multiplier)
    ensures NextInterval(cfg, interval) as real > Mul(interval as real, cfg.multiplier) - 1.0
            || (NextInterval(cfg, interval) == cfg.maxInterval
                && cfg.maxInterval as real <= Mul(interval as real, cfg.multiplier))
    ensures NextInterval(cfg, interval) >= interval || NextInterval(cfg, interval) == cfg.maxInterval
    ensures NextInterval(cfg, interval) <= cfg.maxInterval
  {
    Scale(1.0, cfg.multiplier, interval as real);
    TruncNear(Mul(interval as real, cfg.multiplier), interval);
  }

  /** From the second on the intervals are at most MaxInterval, and none is below both it and Initial. */
  lemma {:induction false} IntervalRange(cfg: Config, k: nat)
    requires Sensible(cfg) && k >= 1
    ensures Interval(cfg, k) >= cfg.initialInterval || Interval(cfg, k) == cfg.maxInterval
    ensures k >= 2 ==> Interval(cfg, k) <= cfg.maxInterval
  {
    if k >= 2 {
      IntervalRange(cfg, k - 1);
      IntervalGrows(cfg, Interval(cfg, k - 1));
    }
  }

  /** The k-th interval is at most Initial * Multiplier^(k-1). */
  lemma {:induction false} IntervalBound(cfg: Config, k: nat)
    requires Sensible(cfg) && k >= 1
    ensures Interval(cfg, k) as real <= Mul(cfg.initialInterval as real, Power(cfg.multiplier, k - 1))
  {
    if k >= 2 {
      IntervalBound(cfg, k - 1);
      IntervalRange(cfg, k - 1);
      NextIsBounded(cfg, Interval(cfg, k - 1), Power(cfg.multiplier, k - 2));
    }
  }

  lemma NextIsBounded(cfg: Config, interval: Time, p: real)
    requires Sensible(cfg) && 0 < interval && interval as real <= Mul(cfg.initialInterval as real, p)
    ensures NextInterval(cfg, interval) as real <= Mul(cfg.initialInterval as real, Mul(cfg.multiplier, p))
  {
    IntervalGrows(cfg, interval);
    Scale(interval as real, Mul(cfg.initialInterval as real, p), cfg.multiplier);
    Regroup(cfg.initialInterval as real, p, cfg.multiplier);
  }

  /** From the second on, the intervals never shrink. */
  lemma IntervalsDoNotShrink(cfg: Config, k: nat)
    requires Sensible(cfg) && k >= 2
    ensures Interval(cfg, k) <= Interval(cfg, k + 1)
  {
    IntervalRange(cfg, k);
    IntervalGrows(cfg, Interval(cfg, k));
  }

  /** A delay is within Randomization of what it was before the jitter, up to truncation, and not negative. */
  lemma JitterBounds(x: real, r: real, draw: real)
    requires x >= 0.0 && r >= 0.0 && IsDraw(draw)
    ensures 0 <= Jittered(x, r, draw) && Jittered(x, r, draw) as real <= Mul(x, 1.0 + r)
    ensures Jittered(x, r, draw) as real > Mul(x, 1.0 - r) - 1.0
  {
    var j := draw * 2.0 - 1.0;
    Scale(j, 1.0, r);
    Scale(-1.0, j, r);
    Scale(1.0 + Mul(j, r), 1.0 + r, x);
    Scale(1.0 - r, 1.0 + Mul(j, r), x);
    Scale(1.0, 1.0 + r, x);
    var jittered := if r > 0.0 then Mul(x, 1.0 + Mul(j, r)) else x;
    TruncNear(if jittered < 0.0 then 0.0 else jittered, 0);
  }

  lemma DelayBounds(base: Time, multiplier: real, randomization: real, draw: real)
    requires base > 0 && multiplier >= 1.0 && randomization >= 0.0 && IsDraw(draw)
    ensures var d := CalculateDelay(base, multiplier, randomization, draw);
      && 0 <= d && d as real <= Mul(Mul(base as real, multiplier), 1.0 + randomization)
      && d as real > Mul(Mul(base as real, multiplier), 1.0 - randomization) - 1.0
  {
    Scale(0.0, multiplier, base as real);
    JitterBounds(Mul(base as real, multiplier), randomization, draw);
  }

  function LongestInterval(cfg: Config): Time {
    if cfg.initialInterval > cfg.maxInterval then cfg.initialInterval else cfg.maxInterval
  }

  /** The delay's bound that does not depend on the attempt. */
  function LargestDelay(cfg: Config): real {
    Mul(Mul(LongestInterval(cfg) as real, cfg.multiplier), 1.0 + cfg.randomization)
  }

  /** The bound on the k-th delay by the growth of the intervals. */
  function GrownDelay(cfg: Config, p: real): real {
    Mul(Mul(cfg.initialInterval as real, p), 1.0 + cfg.randomization)
  }

  lemma DelayIsBoundedBy(cfg: Config, interval: Time, p: real, draw: real)
    requires Sensible(cfg) && IsDraw(draw)
    requires 0 < interval <= LongestInterval(cfg) && interval as real <= Mul(cfg.initialInterval as real, p)
    ensures var d := CalculateDelay(interval, cfg.multiplier, cfg.randomization, draw);
      0 <= d && d as real <= LargestDelay(cfg) && d as real <= GrownDelay(cfg, Mul(cfg.multiplier, p))
  {
    var (i, a, m, r) := (interval as real, cfg.initialInterval as real, cfg.multiplier, 1.0 + cfg.randomization);
    DelayBounds(interval, m, cfg.randomization, draw);
    ScaleTwice(i, LongestInterval(cfg) as real, m, r);
    ScaleTwice(i, Mul(a, p), m, r);
    Regroup(a, p, m);
  }

  /** The k-th delay is bounded whatever k is, and by the growth of the intervals. */
  lemma DelayIsBounded(cfg: Config, draws: nat -> real, k: nat)
    requires Sensible(cfg) && k >= 1 && IsDraw(draws(k))
    ensures 0 <= Delay(cfg, draws, k)
    ensures Delay(cfg, draws, k) as real <= LargestDelay(cfg)
    ensures Delay(cfg, draws, k) as real <= GrownDelay(cfg, Power(cfg.multiplier, k))
  {
    IntervalRange(cfg, k);
    IntervalBound(cfg, k);
    DelayIsBoundedBy(cfg, Interval(cfg, k), Power(cfg.multiplier, k - 1), draws(k));
  }

  /** The waits of a run are the delays after attempts 1, 2, 3 and so on. */
  lemma {:induction false} WaitsInOrder<T>(
    ctx: Ctx, maxAttempts: int, fn: nat -> Answer<T>, wait: nat -> Time, attempt: nat, j: nat)
    requires attempt >= 1
    ensures var delays := Attempts(ctx, maxAttempts, fn, wait, attempt).delays;
      && (j < |delays| ==> delays[j] == wait(attempt + j))
      && |delays| <= (if maxAttempts > attempt then maxAttempts - attempt else 0)
    decreases maxAttempts - attempt
  {
    if attempt < maxAttempts {
      WaitsInOrder(ctx, maxAttempts, fn, wait, attempt + 1, if j == 0 then 0 else j - 1);
    }
  }

  function Sum(s: seq<Time>): Time {
    if s == [] then 0 else Sum(s[..|s| - 1]) + s[|s| - 1]
  }

  /** m + m^2 + ... + m^n */
  function Geometric(m: real, n: nat): real {
    if n == 0 then 0.0 else Geometric(m, n - 1) + Power(m, n)
  }

  lemma {:induction false} LinearSum(delays: seq<Time>, top: real)
    requires forall j :: 0 <= j < |delays| ==> delays[j] as real <= top
    ensures Sum(delays) as real <= Mul(|delays| as real, top)
  {
    var n := |delays|;
    if n > 0 {
      LinearSum(delays[..n - 1], top);
      Distribute(1.0, (n - 1) as real, 1.0, top);
    }
  }

  lemma {:induction false} GeometricSum(delays: seq<Time>, a: real, m: real, r: real)
    requires forall j :: 0 <= j < |delays| ==> delays[j] as real <= Mul(Mul(a, Power(m, j + 1)), r)
    ensures Sum(delays) as real <= Mul(Mul(a, Geometric(m, |delays|)), r)
  {
    var n := |delays|;
    if n > 0 {
      GeometricSum(delays[..n - 1], a, m, r);
      Distribute(a, Geometric(m, n - 1), Power(m, n), r);
    }
  }

  lemma Distribute(a: real, b: real, c: real, d: real)
    ensures Mul(Mul(a, b + c), d) == Mul(Mul(a, b), d) + Mul(Mul(a, c), d)
  {
  }

  /** The delays of a run, in order and each bounded. */
  lemma EachWait<T>(ctx: Ctx, cfg: Config, fn: nat -> Answer<T>, draws: nat -> real, j: nat)
    requires Sensible(cfg) && j < |Whole(ctx, cfg, fn, draws).delays| && IsDraw(draws(1 + j))
    ensures var d := Whole(ctx, cfg, fn, draws).delays[j];
      && d == Delay(cfg, draws, j + 1) && 0 <= d
      && d as real <= LargestDelay(cfg)
      && d as real <= GrownDelay(cfg, Power(cfg.multiplier, j + 1))
  {
    WaitsInOrder(ctx, cfg.maxAttempts, fn, DelaysOf(cfg, draws), 1, j);
    DelayIsBounded(cfg, draws, j + 1);
  }

  /**
   * However the calls answer and whenever the context is cancelled: the waits are fewer than the
   * attempts, and the time slept is bounded linearly and geometrically in their number.
   */
  lemma TotalSleep<T>(ctx: Ctx, cfg: Config, fn: nat -> Answer<T>, draws: nat -> real)
    requires Sensible(cfg) && forall k: nat :: IsDraw(draws(k))
    ensures var delays := Whole(ctx, cfg, fn, draws).delays;
      && |delays| <= (if cfg.maxAttempts > 1 then cfg.maxAttempts - 1 else 0)
      && Sum(delays) as real <= Mul(|delays| as real, LargestDelay(cfg))
      && Sum(delays) as real <= GrownDelay(cfg, Geometric(cfg.multiplier, |delays|))
  {
    var delays := Whole(ctx, cfg, fn, draws).delays;
    var top := LargestDelay(cfg);
    var (a, m, r) := (cfg.initialInterval as real, cfg.multiplier, 1.0 + cfg.randomization);
    forall j | 0 <= j < |delays|
      ensures delays[j] as real <= top && delays[j] as real <= Mul(Mul(a, Power(m, j + 1)), r)
    {
      EachWait(ctx, cfg, fn, draws, j);
    }
    WaitsInOrder(ctx, cfg.maxAttempts, fn, DelaysOf(cfg, draws), 1, 0);
    LinearSum(delays, top);
    GeometricSum(delays, a, m, r);
  }

  // ----- How fast the waits grow -----

  /** 1 + m + ... + m^(n-1): what truncating n times can take off. */
  function Partial(m: real, n: nat): real {
    if n == 0 then 0.0 else Partial(m, n - 1) + Power(m, n - 1)
  }

  lemma {:induction false} PartialStep(m: real, n: nat)
    ensures Partial(m, n + 1) == Mul(m, Partial(m, n)) + 1.0
  {
    if n > 0 {
      PartialStep(m, n - 1);
      Spread(m, Partial(m, n - 1), Power(m, n - 1));
    }
  }

  lemma Spread(m: real, a: real, b: real)
    ensures Mul(m, a + b) == Mul(m, a) + Mul(m, b)
  {
  }

  /** A lower bound grows by one multiplication and loses one truncation. */
  lemma GrowsBelow(i: real, a: real, p: real, q: real, m: real)
    requires i >= Mul(a, p) - q && m >= 1.0
    ensures Mul(i, m) - 1.0 >= Mul(a, Mul(m, p)) - (Mul(m, q) + 1.0)
  {
    Scale(Mul(a, p) - q, i, m);
    Minus(Mul(a, p), q, m);
    Regroup(a, p, m);
  }

  lemma Minus(a: real, b: real, m: real)
    ensures Mul(a - b, m) == Mul(a, m) - Mul(m, b)
  {
  }

  /**
   * The k-th interval is MaxInterval, or as much as Initial * Multiplier^(k-1) less what truncating k - 1 times can
   * take off; so it does grow.
   */
  lemma {:induction false} IntervalLowerBound(cfg: Config, k: nat)
    requires Sensible(cfg) && k >= 2
    ensures var grown := Mul(cfg.initialInterval as real, Power(cfg.multiplier, k - 1));
      Interval(cfg, k) == cfg.maxInterval || Interval(cfg, k) as real > grown - Partial(cfg.multiplier, k - 1)
  {
    var (m, a, before) := (cfg.multiplier, cfg.initialInterval as real, Interval(cfg, k - 1));
    IntervalRange(cfg, k - 1);
    IntervalGrows(cfg, before);
    if k > 2 {
      IntervalLowerBound(cfg, k - 1);
    }
    if before != cfg.maxInterval || k == 2 {
      GrowsBelow(before as real, a, Power(m, k - 2), Partial(m, k - 2), m);
      PartialStep(m, k - 2);
    }
  }

  /** Without jitter, so does the wait after attempt k. */
  lemma WaitLowerBound(cfg: Config, draws: nat -> real, k: nat)
    requires Sensible(cfg) && cfg.randomization == 0.0 && k >= 1 && IsDraw(draws(k))
    ensures Delay(cfg, draws, k) as real >= LeastWait(cfg, k)
  {
    var (m, a, i) := (cfg.multiplier, cfg.initialInterval as real, Interval(cfg, k));
    IntervalRange(cfg, k);
    DelayBounds(i, m, cfg.randomization, draws(k));
    One(Mul(i as real, m));
    if k >= 2 {
      IntervalLowerBound(cfg, k);
    }
    if i != cfg.maxInterval || k == 1 {
      GrowsBelow(i as real, a, Power(m, k - 1), Partial(m, k - 1), m);
      PartialStep(m, k - 1);
    }
  }

  lemma One(x: real)
    ensures Mul(x, 1.0 - 0.0) == x && Mul(x, 1.0) == x
  {
  }

  /** The smaller of MaxInterval * Multiplier and Initial * Multiplier^k, less the truncations. */
  function LeastWait(cfg: Config, k: nat): real {
    var (cap, grown) :=
      (Mul(cfg.maxInterval as real, cfg.multiplier) - 1.0,
       Mul(cfg.initialInterval as real, Power(cfg.multiplier, k)) - Partial(cfg.multiplier, k));
    if cap < grown then cap else grown
  }

  function LeastTotal(cfg: Config, n: nat): real {
    if n == 0 then 0.0 else LeastTotal(cfg, n - 1) + LeastWait(cfg, n)
  }

  lemma {:induction false} LeastSum(cfg: Config, delays: seq<Time>)
    requires forall j :: 0 <= j < |delays| ==> delays[j] as real >= LeastWait(cfg, j + 1)
    ensures Sum(delays) as real >= LeastTotal(cfg, |delays|)
  {
    if delays != [] {
      LeastSum(cfg, delays[..|delays| - 1]);
    }
  }

  /** When every call fails, the context stays live and there is no jitter, the time slept is at least that. */
  lemma TotalSleepAtLeast<T>(cfg: Config, fn: nat -> Answer<T>, draws: nat -> real)
    requires Sensible(cfg) && cfg.randomization == 0.0 && cfg.maxAttempts >= 1 && AllDraws(draws)
    requires forall k: nat :: fn(k).Fail?
    ensures var delays := Whole(Background, cfg, fn, draws).delays;
      && |delays| == cfg.maxAttempts - 1
      && (forall j :: 0 <= j < |delays| ==> delays[j] as real >= LeastWait(cfg, j + 1))
      && Sum(delays) as real >= LeastTotal(cfg, cfg.maxAttempts - 1)
  {
    var delays := Whole(Background, cfg, fn, draws).delays;
    EveryWaitHappens(cfg.maxAttempts, fn, DelaysOf(cfg, draws), 1);
    forall j | 0 <= j < |delays| ensures delays[j] as real >= LeastWait(cfg, j + 1) {
      assert IsDraw(draws(1 + j));
      EachWait(Background, cfg, fn, draws, j);
      WaitLowerBound(cfg, draws, j + 1);
    }
    LeastSum(cfg, delays);
  }

  function IntPower(m: int, k: nat): int {
    if k == 0 then 1 else m * IntPower(m, k - 1)
  }

  function IntMin(a: int, b: int): int {
    if a < b then a else b
  }

  lemma TruncInt(a: int, b: int)
    ensures Mul(a as real, b as real) == (a * b) as real && Trunc((a * b) as real) == a * b
  {
  }

  lemma CapGrows(cap: int, x: int, m: int)
    requires cap > 0 && x > 0 && m >= 1
    ensures IntMin(cap, IntMin(cap, x) * m) == IntMin(cap, x * m)
  {
    if x > cap {
      assert cap * m >= cap;
      assert x * m >= cap * m;
    }
  }

  /** With a whole Multiplier, from the second on the k-th interval is exactly min(MaxInterval, Initial * m^(k-1)). */
  lemma {:induction false} WholeMultiplier(cfg: Config, m: int, k: nat)
    requires Sensible(cfg) && m >= 1 && cfg.multiplier == m as real && k >= 2
    ensures Interval(cfg, k) == IntMin(cfg.maxInterval, cfg.initialInterval * IntPower(m, k - 1))
    ensures cfg.initialInterval * IntPower(m, k - 1) > 0
  {
    var x := cfg.initialInterval * IntPower(m, k - 2);
    TruncInt(Interval(cfg, k - 1), m);
    if k == 2 {
      assert IntPower(m, 0) == 1 && IntPower(m, 1) == m;
      IntPositive(cfg.initialInterval, m);
    } else {
      WholeMultiplier(cfg, m, k - 1);
      CapGrows(cfg.maxInterval, x, m);
      IntRegroup(cfg.initialInterval, IntPower(m, k - 2), m);
      IntPositive(x, m);
    }
  }

  lemma IntPositive(a: int, b: int)
    requires a > 0 && b > 0
    ensures a * b > 0
  {
  }

  lemma IntRegroup(a: int, p: int, m: int)
    ensures (a * p) * m == a * (m * p)
  {
  }

  /** And without jitter every wait is exactly Multiplier times its interval. */
  lemma WholeWait(cfg: Config, m: int, draws: nat -> real, k: nat)
    requires Sensible(cfg) && cfg.randomization == 0.0 && m >= 1 && cfg.multiplier == m as real && k >= 1
    ensures Delay(cfg, draws, k) ==
      m * if k == 1 then cfg.initialInterval else IntMin(cfg.maxInterval, cfg.initialInterval * IntPower(m, k - 1))
  {
    if k >= 2 {
      WholeMultiplier(cfg, m, k);
    }
    IntervalRange(cfg, k);
    TruncInt(Interval(cfg, k), m);
    IntPositive(Interval(cfg, k), m);
  }

  /** 100 ms, doubled, up to 10 s: four failing calls are 200, 400 and 800 ms apart. */
  lemma BackoffDoubles<T>(fn: nat -> Answer<T>, draws: nat -> real)
    requires AllDraws(draws) && forall k: nat :: fn(k).Fail?
    ensures Whole(Background, Config(4, 100_000_000, 10_000_000_000, 2.0, 0.0), fn, draws).delays
      == [200_000_000, 400_000_000, 800_000_000]
  {
    var cfg := Config(4, 100_000_000, 10_000_000_000, 2.0, 0.0);
    EveryWaitHappens(4, fn, DelaysOf(cfg, draws), 1);
    assert IsDraw(draws(1)) && IsDraw(draws(2)) && IsDraw(draws(3));
    EachWait(Background, cfg, fn, draws, 0);
    EachWait(Background, cfg, fn, draws, 1);
    EachWait(Background, cfg, fn, draws, 2);
    WholeWait(cfg, 2, draws, 1);
    WholeWait(cfg, 2, draws, 2);
    WholeWait(cfg, 2, draws, 3);
    assert IntPower(2, 1) == 2 && IntPower(2, 2) == 4;
  }

  /** The jitter runs linearly from 1 - Randomization, for the draw 0, to 1 + Randomization, for the draw 1. */
  lemma JitterIsLinear(x: real, r: real, draw: real)
    requires x >= 0.0 && r > 0.0 && IsDraw(draw)
    ensures var y := Mul(x, 1.0 - r) + Mul(Mul(x, r), 2.0 * draw);
      Jittered(x, r, draw) as real > y - 1.0 && (y >= 0.0 ==> Jittered(x, r, draw) as real <= y)
  {
    Linear(x, r, draw);
    var jittered := Mul(x, 1.0 + Mul(draw * 2.0 - 1.0, r));
    TruncNear(if jittered < 0.0 then 0.0 else jittered, 0);
  }

  lemma Linear(x: real, r: real, draw: real)
    ensures Mul(x, 1.0 + Mul(draw * 2.0 - 1.0, r)) == Mul(x, 1.0 - r) + Mul(Mul(x, r), 2.0 * draw)
  {
  }

  /** Whatever the configuration, no wait is negative, and without a positive Randomization the draw does not matter. */
  lemma WaitsInGeneral(base: Time, multiplier: real, randomization: real, draw: real, other: real)
    ensures CalculateDelay(base, multiplier, randomization, draw) >= 0
    ensures randomization <= 0.0 ==>
      CalculateDelay(base, multiplier, randomization, draw) == CalculateDelay(base, multiplier, 0.0, other)
  {
    TruncNear(if Mul(base as real, multiplier) < 0.0 then 0.0 else Mul(base as real, multiplier), 0);
    var delay := Mul(base as real, multiplier);
    var jittered :=
      if randomization > 0.0 then Mul(delay, 1.0 + Mul(draw * 2.0 - 1.0, randomization)) else delay;
    TruncNear(if jittered < 0.0 then 0.0 else jittered, 0);
  }

  // ----- When MaxInterval bounds the waits -----

  /** Multiplier times the interval, with the largest jitter, does not reach MaxInterval + 1 ns. */
  predicate Fits(cfg: Config, interval: Time) {
    var x := Mul(interval as real, cfg.multiplier);
    if cfg.randomization > 0.0 then Mul(x, 1.0 + cfg.randomization) <= cfg.maxInterval as real + 1.0
    else x < cfg.maxInterval as real + 1.0
  }

  lemma ScaleStrictly(a: real, b: real, c: real)
    requires a < b && c > 0.0
    ensures Mul(a, c) < Mul(b, c) && Mul(c, a) < Mul(c, b)
  {
  }

  lemma Expand(x: real, r: real, g: real)
    ensures Mul(x, 1.0 + Mul((1.0 - g) * 2.0 - 1.0, r)) == Mul(x, 1.0 + r) - Mul(g, 2.0 * Mul(r, x))
  {
  }

  lemma Quotient(n: real, d: real)
    requires d > 0.0
    ensures Mul(n / d, d) == n
  {
  }

  /** A draw that brings the jittered delay up to `top`, if the largest jitter would exceed it. */
  lemma LargeDraw(x: real, r: real, top: real) returns (draw: real)
    requires x > 0.0 && r > 0.0 && Mul(x, 1.0 + r) > top
    ensures IsDraw(draw) && Mul(x, 1.0 + Mul(draw * 2.0 - 1.0, r)) >= top
  {
    ScaleStrictly(0.0, r, x);
    var (excess, width) := (Mul(x, 1.0 + r) - top, 2.0 * Mul(r, x));
    var g := excess / width;
    Quotient(excess, width);
    Expand(x, r, if g > 1.0 then 1.0 else g);
    if g > 1.0 {
      ScaleStrictly(1.0, g, width);
      draw := 0.0;
    } else {
      PositiveQuotient(excess, width);
      draw := 1.0 - g;
    }
  }

  lemma PositiveQuotient(n: real, d: real)
    requires n > 0.0 && d > 0.0
    ensures n / d > 0.0
  {
  }

  lemma FittingDelay(cfg: Config, interval: Time, draw: real)
    requires Sensible(cfg) && interval > 0 && IsDraw(draw) && Fits(cfg, interval)
    ensures CalculateDelay(interval, cfg.multiplier, cfg.randomization, draw) <= cfg.maxInterval
  {
    var (x, r) := (Mul(interval as real, cfg.multiplier), cfg.randomization);
    ScaleStrictly(0.0, cfg.multiplier, interval as real);
    if r > 0.0 {
      ScaleStrictly(draw * 2.0 - 1.0, 1.0, r);
      ScaleStrictly(1.0 + Mul(draw * 2.0 - 1.0, r), 1.0 + r, x);
    }
    var jittered := if r > 0.0 then Mul(x, 1.0 + Mul(draw * 2.0 - 1.0, r)) else x;
    TruncNear(if jittered < 0.0 then 0.0 else jittered, cfg.maxInterval + 1);
  }

  lemma OverlongDelay(cfg: Config, interval: Time) returns (draw: real)
    requires Sensible(cfg) && interval > 0 && !Fits(cfg, interval)
    ensures IsDraw(draw) && CalculateDelay(interval, cfg.multiplier, cfg.randomization, draw) > cfg.maxInterval
  {
    var (x, r, top) := (Mul(interval as real, cfg.multiplier), cfg.randomization, cfg.maxInterval as real + 1.0);
    ScaleStrictly(0.0, cfg.multiplier, interval as real);
    draw := 0.0;
    if r > 0.0 {
      draw := LargeDraw(x, r, top);
    }
    TruncNear(if r > 0.0 then Mul(x, 1.0 + Mul(draw * 2.0 - 1.0, r)) else x, cfg.maxInterval + 1);
  }

  lemma FitsBelow(cfg: Config, a: Time, b: Time)
    requires Sensible(cfg) && 0 < a <= b && Fits(cfg, b)
    ensures Fits(cfg, a)
  {
    Scale(a as real, b as real, cfg.multiplier);
    Scale(Mul(a as real, cfg.multiplier), Mul(b as real, cfg.multiplier), 1.0 + cfg.randomization);
  }

  lemma {:induction false} LaterIntervalsAreLonger(cfg: Config, k: nat, n: nat)
    requires Sensible(cfg) && 2 <= k <= n
    ensures 0 < Interval(cfg, k) <= Interval(cfg, n)
  {
    IntervalRange(cfg, k);
    if k < n {
      LaterIntervalsAreLonger(cfg, k, n - 1);
      IntervalsDoNotShrink(cfg, n - 1);
    }
  }

  /** Every number drawn is one that rand.Float64 can give. */
  ghost predicate AllDraws(draws: nat -> real) {
    forall k: nat :: IsDraw(draws(k))
  }

  /** The delay after attempt k is within MaxInterval for every draw, if and only if its interval fits. */
  lemma WaitWithinMaxExactlyWhen(cfg: Config, k: nat)
    requires Sensible(cfg) && k >= 1
    ensures (forall draws: nat -> real :: AllDraws(draws) ==> Delay(cfg, draws, k) <= cfg.maxInterval)
            <==> Fits(cfg, Interval(cfg, k))
  {
    IntervalRange(cfg, k);
    if Fits(cfg, Interval(cfg, k)) {
      forall draws: nat -> real | AllDraws(draws) ensures Delay(cfg, draws, k) <= cfg.maxInterval {
        assert IsDraw(draws(k));
        FittingDelay(cfg, Interval(cfg, k), draws(k));
      }
    } else {
      var draws := OverlongWait(cfg, k);
    }
  }

  lemma OverlongWait(cfg: Config, k: nat) returns (draws: nat -> real)
    requires Sensible(cfg) && k >= 1 && !Fits(cfg, Interval(cfg, k))
    ensures AllDraws(draws) && Delay(cfg, draws, k) > cfg.maxInterval
  {
    IntervalRange(cfg, k);
    var draw := OverlongDelay(cfg, Interval(cfg, k));
    draws := (_: nat) => draw;
    assert draws(k) == draw;
  }

  /**
   * MaxInterval bounds every wait of every run, whatever is drawn, if and only if the first and the last interval
   * that is waited for fit.
   */
  lemma AllWaitsWithinMaxExactlyWhen(cfg: Config)
    requires Sensible(cfg) && cfg.maxAttempts >= 2
    ensures (forall draws: nat -> real, k: nat :: AllDraws(draws) && 1 <= k < cfg.maxAttempts ==>
               Delay(cfg, draws, k) <= cfg.maxInterval)
            <==> Fits(cfg, Interval(cfg, 1)) && Fits(cfg, Interval(cfg, cfg.maxAttempts - 1))
  {
    var last := cfg.maxAttempts - 1;
    WaitWithinMaxExactlyWhen(cfg, 1);
    WaitWithinMaxExactlyWhen(cfg, last);
    if Fits(cfg, Interval(cfg, 1)) && Fits(cfg, Interval(cfg, last)) {
      forall draws: nat -> real, k: nat | AllDraws(draws) && 1 <= k < cfg.maxAttempts
        ensures Delay(cfg, draws, k) <= cfg.maxInterval
      {
        if k >= 2 {
          LaterIntervalsAreLonger(cfg, k, last);
          FitsBelow(cfg, Interval(cfg, k), Interval(cfg, last));
        }
        WaitWithinMaxExactlyWhen(cfg, k);
      }
    }
  }

  /** Such a run: when every call fails and the context stays live, every wait happens. */
  lemma {:induction false} EveryWaitHappens<T>(maxAttempts: int, fn: nat -> Answer<T>, wait: nat -> Time, attempt: nat)
    requires 1 <= attempt <= maxAttempts && forall k: nat :: fn(k).Fail?
    ensures |Attempts(Background, maxAttempts, fn, wait, attempt).delays| == maxAttempts - attempt
    decreases maxAttempts - attempt
  {
    assert fn(attempt).Fail?;
    if attempt < maxAttempts {
      EveryWaitHappens(maxAttempts, fn, wait, attempt + 1);
    }
  }

  /** MaxInterval does not bound the waits: even without jitter the first is already Multiplier times Initial. */
  lemma FirstWaitCanExceedMaxInterval(draws: nat -> real)
    ensures var cfg := Config(3, 10 * SECOND, 10 * SECOND, 2.0, 0.0);
      && Sensible(cfg) && Delay(cfg, draws, 1) == 2 * cfg.maxInterval && !Fits(cfg, Interval(cfg, 1))
  {
  }
}
