/** The resilience utilities of backend/utils/resilience.js: a circuit
    breaker (a three-state machine over two counters and the time of the
    last failure), a retry loop with exponential back-off that gives up at
    once on client errors, and a registry of named health checks.

    The wrapped operation is not run: what it does is an input (it succeeds
    with a value, fails with an error, or loses the race against its
    timeout), and every clock reading is a parameter. */
module Resilience {
  import opened Common

  /** A thrown JavaScript error: its message and its `statusCode`, when the
      error has one. */
  datatype Error = Error(message: string, statusCode: Option<int>)

  /** `options.x || fallback`: an absent option, and also an explicit 0,
      takes the default. */
  function OrDefault(option: Option<int>, default: int): (r: int)
    ensures option.Some? && option.value != 0 ==> r == option.value
    ensures option.None? || option.value == 0 ==> r == default
  {
    if option.Some? && option.value != 0 then option.value else default
  }

  /* ---------------------------------------------------------------- */
  /* Circuit breaker                                                   */

  datatype BreakerState = Closed | Open | HalfOpen

  /** The fields of a `CircuitBreaker` that change. */
  datatype Breaker = Breaker(state: BreakerState, failureCount: nat, successCount: nat,
                             lastFailureTime: Option<int>)

  /** The four settings, after defaults are applied. */
  datatype Config = Config(failureThreshold: int, successThreshold: int, timeout: int, resetTimeout: int)

  /** How the wrapped call ended: it resolved, it rejected, or the timer of
      the race rejected first. */
  datatype Outcome<T> = Succeeded(value: T) | Failed(error: Error) | TimedOut

  /** What `execute` hands back: a value (the call's or the fallback's),
      `null`, or a rethrown error. */
  datatype Response<T> = Value(value: T) | Null | Thrown(error: Error)

  const DefaultFailureThreshold: int := 5
  const DefaultSuccessThreshold: int := 2
  const DefaultTimeoutMs: int := 60000
  const DefaultResetTimeoutMs: int := 30000

  /** The error the race's timer rejects with. */
  const BreakerTimeoutError: Error := Error("Circuit breaker timeout", None)

  function ConfigOf(failureThreshold: Option<int>, successThreshold: Option<int>,
                    timeout: Option<int>, resetTimeout: Option<int>): Config
  {
    Config(OrDefault(failureThreshold, DefaultFailureThreshold),
           OrDefault(successThreshold, DefaultSuccessThreshold),
           OrDefault(timeout, DefaultTimeoutMs),
           OrDefault(resetTimeout, DefaultResetTimeoutMs))
  }

  /** A new or reset breaker. */
  const InitialBreaker: Breaker := Breaker(Closed, 0, 0, None)

  /** `lastFailureTime` as a number in the subtraction `Date.now() -
      lastFailureTime`, where `null` counts as 0. */
  function LastFailureOrZero(b: Breaker): int {
    if b.lastFailureTime.Some? then b.lastFailureTime.value else 0
  }

  /** `onSuccess`. */
  function AfterSuccess(b: Breaker, successThreshold: int): Breaker {
    if b.state == HalfOpen then
      if b.successCount + 1 >= successThreshold then b.(state := Closed, failureCount := 0, successCount := 0)
      else b.(failureCount := 0, successCount := b.successCount + 1)
    else
      b.(failureCount := 0)
  }

  /** `onFailure`, at time `now`; only a closed breaker opens. */
  function AfterFailure(b: Breaker, failureThreshold: int, now: int): Breaker {
    var counted := b.(lastFailureTime := Some(now), failureCount := b.failureCount + 1);
    if counted.failureCount >= failureThreshold && b.state == Closed then counted.(state := Open)
    else counted
  }

  /** The error `execute` sees when the call does not succeed. */
  function FailureError<T>(outcome: Outcome<T>): Error {
    match outcome
    case Failed(e) => e
    case _ => BreakerTimeoutError
  }

  /** `execute` called at `now`, the call settling at `settledAt`. The
      result is the new breaker, the response, and whether the wrapped
      call was made at all. */
  function ExecuteOp<T>(b: Breaker, cfg: Config, outcome: Outcome<T>, fallback: Option<T>,
                        now: int, settledAt: int): (Breaker, Response<T>, bool)
  {
    if b.state == Open && now - LastFailureOrZero(b) <= cfg.resetTimeout then
      (b, if fallback.Some? then Value(fallback.value) else Null, false)
    else
      var trial := if b.state == Open then b.(state := HalfOpen) else b;
      match outcome
      case Succeeded(v) => (AfterSuccess(trial, cfg.successThreshold), Value(v), true)
      case _ =>
        var error := FailureError(outcome);
        var after := AfterFailure(trial, cfg.failureThreshold, settledAt);
        (after, if after.state == Open && fallback.Some? then Value(fallback.value) else Thrown(error), true)
  }

  /** What every operation keeps: a closed breaker is below its failure
      threshold (when that threshold is positive), only a half-open breaker
      counts successes, and an open breaker has a recorded failure. */
  predicate BreakerInv(b: Breaker, cfg: Config) {
    && (b.state == Closed && cfg.failureThreshold >= 1 ==> b.failureCount < cfg.failureThreshold)
    && (b.state != HalfOpen ==> b.successCount == 0)
    && (b.state == HalfOpen && cfg.successThreshold >= 1 ==> b.successCount < cfg.successThreshold)
    && (b.state == Open ==> b.lastFailureTime.Some?)
  }

  /** The status report: `lastFailure` is null when `lastFailureTime` is
      falsy (null, or the instant 0). */
  datatype BreakerStatus = BreakerStatus(name: string, state: BreakerState, failureCount: nat,
                                         successCount: nat, lastFailure: Option<int>)

  function StatusOf(name: string, b: Breaker): (st: BreakerStatus)
    ensures st.lastFailure.Some? <==> b.lastFailureTime.Some? && b.lastFailureTime.value != 0
    ensures st.lastFailure.Some? ==> st.lastFailure == b.lastFailureTime
    ensures st.state == b.state && st.failureCount == b.failureCount && st.successCount == b.successCount
  {
    BreakerStatus(name, b.state, b.failureCount, b.successCount,
                  if b.lastFailureTime.Some? && b.lastFailureTime.value != 0 then b.lastFailureTime else None)
  }

  lemma InitialBreakerInv(cfg: Config)
    ensures BreakerInv(InitialBreaker, cfg)
    ensures StatusOf("", InitialBreaker).lastFailure.None?
  {
  }

  /** `onFailure` records the time, counts the failure, and opens the
      breaker exactly when it was closed and the count reaches the
      threshold; it never moves a half-open or open breaker. */
  lemma FailureTransitions(b: Breaker, failureThreshold: int, now: int)
    ensures var a := AfterFailure(b, failureThreshold, now);
      && a.lastFailureTime == Some(now)
      && a.failureCount == b.failureCount + 1
      && a.successCount == b.successCount
      && (a.state == Open <==> b.state == Open || (b.state == Closed && b.failureCount + 1 >= failureThreshold))
      && (b.state != Closed ==> a.state == b.state)
  {
  }

  /** `onSuccess` always clears the failure count; a half-open breaker
      counts the success and closes, with the count back at 0, once it
      reaches the threshold; other states keep their success count. */
  lemma SuccessTransitions(b: Breaker, successThreshold: int)
    ensures var a := AfterSuccess(b, successThreshold);
      && a.failureCount == 0
      && a.lastFailureTime == b.lastFailureTime
      && (b.state != HalfOpen ==> a.state == b.state && a.successCount == b.successCount)
      && (b.state == HalfOpen && b.successCount + 1 >= successThreshold ==> a.state == Closed && a.successCount == 0)
      && (b.state == HalfOpen && b.successCount + 1 < successThreshold ==>
            a.state == HalfOpen && a.successCount == b.successCount + 1)
  {
  }

  /** `execute` keeps the breaker invariant. */
  lemma ExecuteKeepsInv<T>(b: Breaker, cfg: Config, outcome: Outcome<T>, fallback: Option<T>,
                           now: int, settledAt: int)
    requires BreakerInv(b, cfg)
    ensures BreakerInv(ExecuteOp(b, cfg, outcome, fallback, now, settledAt).0, cfg)
  {
  }

  /** While open and within `resetTimeout` of the last failure, `execute`
      does not call the wrapped operation, changes nothing, and answers
      with the fallback's value or null. */
  lemma OpenShortCircuits<T>(b: Breaker, cfg: Config, outcome: Outcome<T>, fallback: Option<T>,
                             now: int, settledAt: int)
    requires b.state == Open && now - LastFailureOrZero(b) <= cfg.resetTimeout
    ensures var (a, r, invoked) := ExecuteOp(b, cfg, outcome, fallback, now, settledAt);
      && !invoked && a == b
      && (fallback.Some? ==> r == Value(fallback.value))
      && (fallback.None? ==> r == Null)
  {
  }

  /** Once more than `resetTimeout` has passed since the last failure, an
      open breaker goes half-open and the call is made, exactly as a call
      on the half-open breaker. */
  lemma OpenProbesAfterReset<T>(b: Breaker, cfg: Config, outcome: Outcome<T>, fallback: Option<T>,
                                now: int, settledAt: int)
    requires b.state == Open && now - LastFailureOrZero(b) > cfg.resetTimeout
    ensures ExecuteOp(b, cfg, outcome, fallback, now, settledAt)
         == ExecuteOp(b.(state := HalfOpen), cfg, outcome, fallback, now, settledAt)
    ensures ExecuteOp(b, cfg, outcome, fallback, now, settledAt).2
  {
  }

  /** A closed or half-open breaker always makes the call: half-open
      admits any number of trial calls. */
  lemma NotOpenInvokes<T>(b: Breaker, cfg: Config, outcome: Outcome<T>, fallback: Option<T>,
                          now: int, settledAt: int)
    requires b.state != Open
    ensures ExecuteOp(b, cfg, outcome, fallback, now, settledAt).2
  {
  }

  /** A failed half-open trial does not reopen the breaker: it stays half
      open, the failure is counted, and the error is rethrown even when a
      fallback is given. */
  lemma HalfOpenFailureStaysHalfOpen<T>(b: Breaker, cfg: Config, outcome: Outcome<T>, fallback: Option<T>,
                                        now: int, settledAt: int)
    requires b.state == HalfOpen && !outcome.Succeeded?
    ensures var (a, r, _) := ExecuteOp(b, cfg, outcome, fallback, now, settledAt);
      && a.state == HalfOpen
      && a.failureCount == b.failureCount + 1
      && r.Thrown?
  {
  }

  /** A failed call answers with the fallback exactly when the breaker is
      open afterwards and a fallback was given, and that happens exactly
      when the breaker was closed and this failure reached the threshold;
      otherwise the call's own error (or the timeout error) is rethrown. */
  lemma FailedCallResponse<T>(b: Breaker, cfg: Config, outcome: Outcome<T>, fallback: Option<T>,
                              now: int, settledAt: int)
    requires b.state != Open && !outcome.Succeeded?
    ensures var (a, r, _) := ExecuteOp(b, cfg, outcome, fallback, now, settledAt);
      && (a.state == Open <==> b.state == Closed && b.failureCount + 1 >= cfg.failureThreshold)
      && (r.Value? <==> a.state == Open && fallback.Some?)
      && (r.Value? ==> r.value == fallback.value)
      && (!r.Value? ==> r == Thrown(if outcome.Failed? then outcome.error else BreakerTimeoutError))
      && a.lastFailureTime == Some(settledAt)
  {
  }

  /** `n` failures in a row, all at time `now`. */
  function FailTimes(b: Breaker, failureThreshold: int, n: nat, now: int): Breaker {
    if n == 0 then b else AfterFailure(FailTimes(b, failureThreshold, n - 1, now), failureThreshold, now)
  }

  /** From a closed breaker, failures open it as soon as the count reaches
      the threshold, and it stays open under further failures. */
  lemma {:induction false} FailuresOpen(b: Breaker, failureThreshold: int, n: nat, now: int)
    requires b.state == Closed && n >= 1 && b.failureCount + n >= failureThreshold
    ensures FailTimes(b, failureThreshold, n, now).state == Open
    ensures FailTimes(b, failureThreshold, n, now).failureCount == b.failureCount + n
  {
    if n > 1 {
      var prev := FailTimes(b, failureThreshold, n - 1, now);
      if b.failureCount + n - 1 >= failureThreshold {
        FailuresOpen(b, failureThreshold, n - 1, now);
      } else {
        FailuresBelowThresholdStayClosed(b, failureThreshold, n - 1, now);
      }
    }
  }

  /** Failures that leave the count below the threshold keep a closed
      breaker closed. */
  lemma {:induction false} FailuresBelowThresholdStayClosed(b: Breaker, failureThreshold: int, n: nat, now: int)
    requires b.state == Closed && b.failureCount + n < failureThreshold
    ensures FailTimes(b, failureThreshold, n, now).state == Closed
    ensures FailTimes(b, failureThreshold, n, now).failureCount == b.failureCount + n
  {
    if n > 0 {
      FailuresBelowThresholdStayClosed(b, failureThreshold, n - 1, now);
    }
  }

  /** `n` successes in a row. */
  function SucceedTimes(b: Breaker, successThreshold: int, n: nat): Breaker {
    if n == 0 then b else AfterSuccess(SucceedTimes(b, successThreshold, n - 1), successThreshold)
  }

  /** A half-open breaker that has counted no success yet stays half-open
      for `successThreshold - 1` successes and closes on the next one. */
  lemma {:induction false} HalfOpenRecovers(b: Breaker, successThreshold: int, n: nat)
    requires b.state == HalfOpen && b.successCount == 0 && 1 <= n <= successThreshold
    ensures var a := SucceedTimes(b, successThreshold, n);
      && (n < successThreshold ==> a.state == HalfOpen && a.successCount == n)
      && (n == successThreshold ==> a.state == Closed && a.successCount == 0)
      && a.failureCount == 0
  {
    if n > 1 {
      HalfOpenRecovers(b, successThreshold, n - 1);
    }
  }

  /** After `reset`, the status report is that of a new breaker. */
  lemma ResetStatus(name: string)
    ensures StatusOf(name, InitialBreaker) == BreakerStatus(name, Closed, 0, 0, None)
  {
  }

  class CircuitBreaker {
    const name: string
    var state: BreakerState
    var failureCount: nat
    var successCount: nat
    var lastFailureTime: Option<int>
    const failureThreshold: int
    const successThreshold: int
    /** The race timeout of each call; the race itself is an input (`TimedOut`). */
    const timeout: int
    const resetTimeout: int

    function State(): Breaker
      reads this
    {
      Breaker(state, failureCount, successCount, lastFailureTime)
    }

    function Settings(): Config {
      Config(failureThreshold, successThreshold, timeout, resetTimeout)
    }

    ghost predicate Valid()
      reads this
    {
      BreakerInv(State(), Settings())
    }

    /** `new CircuitBreaker(name, options)`; each option is absent or given. */
    constructor (name: string, failureThreshold: Option<int>, successThreshold: Option<int>,
                 timeout: Option<int>, resetTimeout: Option<int>)
      ensures Valid()
      ensures State() == InitialBreaker && this.name == name
      ensures Settings() == ConfigOf(failureThreshold, successThreshold, timeout, resetTimeout)
    {
      this.name := name;
      state := Closed;
      failureCount := 0;
      successCount := 0;
      lastFailureTime := None;
      this.failureThreshold := OrDefault(failureThreshold, DefaultFailureThreshold);
      this.successThreshold := OrDefault(successThreshold, DefaultSuccessThreshold);
      this.timeout := OrDefault(timeout, DefaultTimeoutMs);
      this.resetTimeout := OrDefault(resetTimeout, DefaultResetTimeoutMs);
    }

    method OnSuccess()
      modifies this
      ensures State() == AfterSuccess(old(State()), successThreshold)
    {
      failureCount := 0;
      if state == HalfOpen {
        successCount := successCount + 1;
        if successCount >= successThreshold {
          state := Closed;
          successCount := 0;
        }
      }
    }

    method OnFailure(now: int)
      modifies this
      ensures State() == AfterFailure(old(State()), failureThreshold, now)
    {
      lastFailureTime := Some(now);
      failureCount := failureCount + 1;
      if failureCount >= failureThreshold && state == Closed {
        state := Open;
      }
    }

    method Execute<T>(outcome: Outcome<T>, fallback: Option<T>, now: int, settledAt: int)
      returns (r: Response<T>, invoked: bool)
      requires Valid()
      modifies this
      ensures Valid()
      ensures (State(), r, invoked) == ExecuteOp(old(State()), Settings(), outcome, fallback, now, settledAt)
    {
      if state == Open {
        if now - LastFailureOrZero(State()) > resetTimeout {
          state := HalfOpen;
        } else {
          r := if fallback.Some? then Value(fallback.value) else Null;
          invoked := false;
          return;
        }
      }
      invoked := true;
      match outcome {
        case Succeeded(v) =>
          OnSuccess();
          r := Value(v);
        case _ =>
          var error := FailureError(outcome);
          OnFailure(settledAt);
          if state == Open && fallback.Some? {
            r := Value(fallback.value);
          } else {
            r := Thrown(error);
          }
      }
      ExecuteKeepsInv(old(State()), Settings(), outcome, fallback, now, settledAt);
    }

    function GetStatus(): (st: BreakerStatus)
      reads this
      ensures st == StatusOf(name, State())
    {
      StatusOf(name, State())
    }

    method Reset()
      modifies this
      ensures Valid()
      ensures State() == InitialBreaker
      ensures GetStatus() == BreakerStatus(name, Closed, 0, 0, None)
    {
      state := Closed;
      failureCount := 0;
      successCount := 0;
      lastFailureTime := None;
    }
  }

  /* ---------------------------------------------------------------- */
  /* Retry with exponential back-off                                   */

  /** How one call of the wrapped function settled. */
  datatype Settled<T> = Resolved(value: T) | Rejected(error: Error)

  /** How `RetryManager.execute` ends: with a value, or by throwing the
      last error; `None` stands for `undefined`, thrown when the loop never
      ran because `maxRetries` is negative. */
  datatype RetryOutcome<T> = Returned(value: T) | Threw(error: Option<Error>)

  /** The outcome and the number of calls made in total. */
  datatype RetryRun<T> = RetryRun(outcome: RetryOutcome<T>, calls: nat)

  const DefaultMaxRetries: int := 3
  const DefaultBaseDelayMs: int := 100

  /** A 4xx status: the request is at fault and retrying cannot help. */
  predicate IsClientError(e: Error) {
    e.statusCode.Some? && 400 <= e.statusCode.value < 500
  }

  /** Call `i` failed with an error worth retrying. */
  predicate Transient<T>(s: Settled<T>) {
    s.Rejected? && !IsClientError(s.error)
  }

  /** Every call numbered `lo` up to `hi - 1` failed with an error worth
      retrying. */
  predicate AllTransient<T>(fn: nat -> Settled<T>, lo: nat, hi: nat) {
    forall i :: lo <= i < hi ==> Transient(fn(i))
  }

  function Pow2(n: nat): (p: nat)
    ensures p >= 1
  {
    if n == 0 then 1 else 2 * Pow2(n - 1)
  }

  /** The wait after failed call `attempt`, before jitter. */
  function Backoff(baseDelay: int, attempt: nat): int {
    baseDelay * Pow2(attempt)
  }

  /** The loop from call `attempt` on, with `lastError` the error of the
      call before it: `fn(i)` is how the `i`-th call settles. */
  function RetryFrom<T>(fn: nat -> Settled<T>, maxRetries: int, attempt: nat, lastError: Option<Error>): RetryRun<T>
    decreases if attempt <= maxRetries then maxRetries + 1 - attempt else 0
  {
    if attempt > maxRetries then RetryRun(Threw(lastError), attempt)
    else match fn(attempt)
      case Resolved(v) => RetryRun(Returned(v), attempt + 1)
      case Rejected(e) =>
        if IsClientError(e) then RetryRun(Threw(Some(e)), attempt + 1)
        else RetryFrom(fn, maxRetries, attempt + 1, Some(e))
  }

  /** The whole of `execute`. */
  function RetryOp<T>(fn: nat -> Settled<T>, maxRetries: int): RetryRun<T> {
    RetryFrom(fn, maxRetries, 0, None)
  }

  /** If call `k` is the first that does not fail transiently, the loop
      ends there: with its value, or by throwing its client error. */
  lemma {:induction false} RetryStopsAtFirstDecisive<T>(fn: nat -> Settled<T>, maxRetries: int,
                                                       attempt: nat, lastError: Option<Error>, k: nat)
    requires attempt <= k <= maxRetries
    requires AllTransient(fn, attempt, k) && !Transient(fn(k))
    ensures RetryFrom(fn, maxRetries, attempt, lastError)
         == RetryRun(if fn(k).Resolved? then Returned(fn(k).value) else Threw(Some(fn(k).error)), k + 1)
    decreases k - attempt
  {
    if attempt < k {
      assert Transient(fn(attempt));
      RetryStopsAtFirstDecisive(fn, maxRetries, attempt + 1, Some(fn(attempt).error), k);
    }
  }

  /** If every call fails transiently, the loop makes `maxRetries + 1`
      calls and throws the last one's error. */
  lemma {:induction false} RetryExhausts<T>(fn: nat -> Settled<T>, maxRetries: int,
                                           attempt: nat, lastError: Option<Error>)
    requires attempt <= maxRetries && AllTransient(fn, attempt, maxRetries + 1)
    ensures RetryFrom(fn, maxRetries, attempt, lastError)
         == RetryRun(Threw(Some(fn(maxRetries).error)), maxRetries + 1)
    decreases maxRetries - attempt
  {
    assert Transient(fn(attempt));
    if attempt < maxRetries {
      RetryExhausts(fn, maxRetries, attempt + 1, Some(fn(attempt).error));
    }
  }

  /** The loop makes at most `maxRetries + 1` calls, and none when
      `maxRetries` is negative (it then throws `undefined`). */
  lemma {:induction false} RetryCallsBound<T>(fn: nat -> Settled<T>, maxRetries: int,
                                             attempt: nat, lastError: Option<Error>)
    requires attempt <= maxRetries + 1
    ensures var run := RetryFrom(fn, maxRetries, attempt, lastError);
      attempt <= run.calls <= maxRetries + 1
    decreases maxRetries + 1 - attempt
  {
    if attempt <= maxRetries && Transient(fn(attempt)) {
      RetryCallsBound(fn, maxRetries, attempt + 1, Some(fn(attempt).error));
    }
  }

  /** `execute` returns `v` exactly when some call `k` within the budget
      resolved with `v` and every call before it failed transiently. */
  lemma ReturnsFirstSuccess<T>(fn: nat -> Settled<T>, maxRetries: int, v: T)
    ensures RetryOp(fn, maxRetries).outcome == Returned(v) <==>
      exists k: nat :: k <= maxRetries && AllTransient(fn, 0, k) && fn(k) == Resolved(v)
  {
    if maxRetries < 0 {
      return;
    }
    var k := FirstDecisive(fn, 0, maxRetries + 1);
    if k <= maxRetries {
      RetryStopsAtFirstDecisive(fn, maxRetries, 0, None, k);
    } else {
      RetryExhausts(fn, maxRetries, 0, None);
    }
  }

  /** A client error ends `execute` at once: it throws a 4xx error exactly
      when some call `k` within the budget failed with it and every call
      before it failed transiently, after `k + 1` calls. */
  lemma ClientErrorStops<T>(fn: nat -> Settled<T>, maxRetries: int, k: nat)
    requires k <= maxRetries && AllTransient(fn, 0, k)
    requires fn(k).Rejected? && IsClientError(fn(k).error)
    ensures RetryOp(fn, maxRetries) == RetryRun(Threw(Some(fn(k).error)), k + 1)
  {
    RetryStopsAtFirstDecisive(fn, maxRetries, 0, None, k);
  }

  /** The first call in `lo .. hi - 1` that does not fail transiently, or
      `hi` when there is none. */
  function FirstDecisive<T>(fn: nat -> Settled<T>, lo: nat, hi: nat): (k: nat)
    requires lo <= hi
    ensures lo <= k <= hi && AllTransient(fn, lo, k)
    ensures k < hi ==> !Transient(fn(k))
    decreases hi - lo
  {
    if lo == hi || !Transient(fn(lo)) then lo else FirstDecisive(fn, lo + 1, hi)
  }

  /** The pause after a failed call: `delay` plus a jitter of
      `random * delay * 0.1`. */
  function Wait(delay: int, random: real): real {
    delay as real + random * delay as real * 0.1
  }

  /** For a non-negative delay the pause lies in `[delay, 1.1 * delay]`,
      strictly below the upper end when the delay is positive. */
  lemma JitterBounds(delay: int, random: real)
    requires 0 <= delay && 0.0 <= random < 1.0
    ensures delay as real <= Wait(delay, random) <= delay as real * 1.1
    ensures delay > 0 ==> Wait(delay, random) < delay as real * 1.1
  {
    var d := delay as real;
    assert 0.0 <= random * d <= d;
    assert d * 1.1 == d + d * 0.1;
    assert Wait(delay, random) == d + random * d * 0.1;
    assert 0.0 <= random * d * 0.1 <= d * 0.1;
    if delay > 0 {
      assert random * d < d;
      assert random * d * 0.1 < d * 0.1;
    }
  }

  class RetryManager {
    const maxRetries: int
    const baseDelay: int

    /** `new RetryManager(maxRetries, baseDelay)`; defaults apply only to
        arguments that are left out. */
    constructor (maxRetries: Option<int>, baseDelay: Option<int>)
      ensures this.maxRetries == if maxRetries.Some? then maxRetries.value else DefaultMaxRetries
      ensures this.baseDelay == if baseDelay.Some? then baseDelay.value else DefaultBaseDelayMs
    {
      this.maxRetries := if maxRetries.Some? then maxRetries.value else DefaultMaxRetries;
      this.baseDelay := if baseDelay.Some? then baseDelay.value else DefaultBaseDelayMs;
    }

    /** `execute(fn)`: `fn(i)` is how call `i` settles and `random(i)` the
        value `Math.random()` gives for the wait after it; `waits` are the
        pauses taken between calls, in order. */
    method Execute<T>(fn: nat -> Settled<T>, random: nat -> real) returns (r: RetryOutcome<T>, waits: seq<real>)
      requires forall i :: 0.0 <= random(i) < 1.0
      ensures var run := RetryOp(fn, maxRetries);
        r == run.outcome && |waits| == (if run.calls == 0 then 0 else run.calls - 1)
      ensures baseDelay >= 0 ==> forall i :: 0 <= i < |waits| ==>
        Backoff(baseDelay, i) as real <= waits[i] <= Backoff(baseDelay, i) as real * 1.1
    {
      var lastError: Option<Error> := None;
      var attempt: nat := 0;
      waits := [];
      while attempt <= maxRetries
        invariant RetryOp(fn, maxRetries) == RetryFrom(fn, maxRetries, attempt, lastError)
        invariant attempt == 0 || attempt <= maxRetries
        invariant |waits| == attempt
        invariant baseDelay >= 0 ==> forall i :: 0 <= i < |waits| ==>
          Backoff(baseDelay, i) as real <= waits[i] <= Backoff(baseDelay, i) as real * 1.1
        decreases maxRetries + 1 - attempt
      {
        var settled := fn(attempt);
        if settled.Resolved? {
          return Returned(settled.value), waits;
        }
        lastError := Some(settled.error);
        if IsClientError(settled.error) {
          return Threw(lastError), waits;
        }
        if attempt < maxRetries {
          var delay := Backoff(baseDelay, attempt);
          if baseDelay >= 0 {
            JitterBounds(delay, random(attempt));
          }
          waits := waits + [Wait(delay, random(attempt))];
        } else {
          assert RetryFrom(fn, maxRetries, attempt + 1, lastError).calls == attempt + 1;
          return Threw(lastError), waits;
        }
        attempt := attempt + 1;
      }
      r := Threw(lastError);
    }
  }

  /* ---------------------------------------------------------------- */
  /* Health checks                                                     */

  datatype CheckStatus = Unknown | Healthy | Unhealthy

  /** A registered check's record; the check function itself is supplied
      to `RunChecks` as the way each named check settles. */
  datatype Check = Check(lastStatus: CheckStatus, lastCheck: Option<int>)

  /** How a named check settled: it resolved, it rejected with a message,
      or its 3-second timer rejected first. `finish` is the clock reading
      stored as `lastCheck` once it settled; a passing check started at
      `start` and reads the clock once more, at `measured`, for its
      response time. */
  datatype Probe =
    | Passed(start: int, finish: int, measured: int)
    | Failed(message: string, finish: int)
    | TimedOut(finish: int)

  /** One entry of `runChecks`' result. */
  datatype CheckResult = HealthyIn(responseTime: int) | UnhealthyWith(error: string)

  /** One entry of `getStatus`: `lastCheck` is null when it is falsy. */
  datatype CheckView = CheckView(status: CheckStatus, lastCheck: Option<int>)

  const HealthTimeoutMs: int := 3000
  const HealthTimeoutMessage: string := "Health check timeout"

  function ResultOf(p: Probe): CheckResult {
    match p
    case Passed(start, _, measured) => HealthyIn(measured - start)
    case Failed(message, _) => UnhealthyWith(message)
    case TimedOut(_) => UnhealthyWith(HealthTimeoutMessage)
  }

  function CheckedBy(p: Probe): Check {
    Check(if p.Passed? then Healthy else Unhealthy, Some(p.finish))
  }

  function ViewOf(c: Check): CheckView {
    CheckView(c.lastStatus, if c.lastCheck.Some? && c.lastCheck.value != 0 then c.lastCheck else None)
  }

  /** `getStatus` of a registry. */
  function StatusMap(checks: map<string, Check>): map<string, CheckView> {
    map n | n in checks :: ViewOf(checks[n])
  }

  /** The records after `runChecks`. */
  function RanChecks(checks: map<string, Check>, probe: string -> Probe): map<string, Check> {
    map n | n in checks :: CheckedBy(probe(n))
  }

  /** The result of `runChecks`. */
  function RunResults(checks: map<string, Check>, probe: string -> Probe): map<string, CheckResult> {
    map n | n in checks :: ResultOf(probe(n))
  }

  /** After `runChecks`, every registered check is reported, and each is
      healthy exactly when it resolved, with the time from its start to
      the last clock reading, and
      unhealthy with its error message (or the timeout message)
      otherwise; `getStatus` then shows the same verdict with the instant
      it was taken. */
  lemma RunChecksSpec(checks: map<string, Check>, probe: string -> Probe, n: string)
    ensures RunResults(checks, probe).Keys == checks.Keys
    ensures RanChecks(checks, probe).Keys == checks.Keys
    ensures n in checks ==>
      && (RunResults(checks, probe)[n].HealthyIn? <==> probe(n).Passed?)
      && (probe(n).Passed? ==> RunResults(checks, probe)[n].responseTime == probe(n).measured - probe(n).start)
      && (probe(n).Failed? ==> RunResults(checks, probe)[n] == UnhealthyWith(probe(n).message))
      && (probe(n).TimedOut? ==> RunResults(checks, probe)[n] == UnhealthyWith(HealthTimeoutMessage))
      && StatusMap(RanChecks(checks, probe))[n].status == (if probe(n).Passed? then Healthy else Unhealthy)
      && (probe(n).finish != 0 ==> StatusMap(RanChecks(checks, probe))[n].lastCheck == Some(probe(n).finish))
  {
  }

  /** Registering a name (again) makes its status unknown and never
      checked, and leaves the other records alone. */
  lemma RegisterSpec(checks: map<string, Check>, name: string, n: string)
    ensures var after := checks[name := Check(Unknown, None)];
      && StatusMap(after)[name] == CheckView(Unknown, None)
      && after.Keys == checks.Keys + {name}
      && (n in checks && n != name ==> StatusMap(after)[n] == StatusMap(checks)[n])
  {
  }

  class HealthChecker {
    /** The registration order of the names (the iteration order of the
        source's `Map`). */
    var names: seq<string>
    var checks: map<string, Check>

    ghost predicate Valid()
      reads this
    {
      forall n :: n in names <==> n in checks
    }

    constructor ()
      ensures Valid() && names == [] && checks == map[]
    {
      names := [];
      checks := map[];
    }

    method RegisterCheck(name: string)
      requires Valid()
      modifies this
      ensures Valid()
      ensures checks == old(checks)[name := Check(Unknown, None)]
      ensures names == if name in old(checks) then old(names) else old(names) + [name]
    {
      if name !in checks {
        names := names + [name];
      }
      checks := checks[name := Check(Unknown, None)];
    }

    /** `runChecks`, one check after the other; `probe(n)` is how the check
        named `n` settles. */
    method RunChecks(probe: string -> Probe) returns (results: map<string, CheckResult>)
      requires Valid()
      modifies this
      ensures Valid() && names == old(names)
      ensures checks == RanChecks(old(checks), probe)
      ensures results == RunResults(old(checks), probe)
    {
      results := map[];
      var i := 0;
      while i < |names|
        invariant 0 <= i <= |names|
        invariant checks.Keys == old(checks).Keys && names == old(names)
        invariant forall n :: n in results <==> n in names[..i]
        invariant forall n :: n in names[..i] ==> checks[n] == CheckedBy(probe(n)) && results[n] == ResultOf(probe(n))
        invariant forall n :: n in checks && n !in names[..i] ==> checks[n] == old(checks)[n]
      {
        var name := names[i];
        var outcome := probe(name);
        checks := checks[name := CheckedBy(outcome)];
        results := results[name := ResultOf(outcome)];
        assert names[..i + 1] == names[..i] + [name];
        i := i + 1;
      }
      assert names[..i] == names;
    }

    function GetStatus(): (status: map<string, CheckView>)
      reads this
      ensures status.Keys == checks.Keys
      ensures status == StatusMap(checks)
    {
      StatusMap(checks)
    }
  }
}
