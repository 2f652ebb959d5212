/**
 * `retryOperation`: runs an operation up to `maxRetries` times with linear
 * back-off. The operation is given as the outcomes its successive calls would
 * produce; waiting is recorded as the list of delays instead of elapsed time.
 */
module Retry {
  import opened Base
  import opened Strings

  /** What one call of the operation does: return a value or throw an error with a message. */
  datatype Attempt<T> = Success(value: T) | Failure(message: string)

  /** What `retryOperation` does in the end: return a value or rethrow. `Rethrown(None)` is
      `throw null`, which happens when not a single attempt is made. */
  datatype RetryOutcome<T> = Returned(value: T) | Rethrown(error: Option<string>)

  /** The outcome together with the number of calls made and the delays waited, in order. */
  datatype RetryRun<T> = RetryRun(outcome: RetryOutcome<T>, attempts: nat, delays: seq<int>)

  const DefaultMaxRetries: int := 3
  const DefaultDelay: int := 2000

  /** The terminal classification: the message merely contains `400`, `401` or `403`. */
  predicate IsNonRetryable(message: string) {
    Contains(message, "400") || Contains(message, "401") || Contains(message, "403")
  }

  /** A failure the loop moves past. */
  predicate IsRetryable<T>(a: Attempt<T>) {
    a.Failure? && !IsNonRetryable(a.message)
  }

  /** How `retryOperation` ends on an attempt it does not move past. */
  function Settle<T>(a: Attempt<T>): RetryOutcome<T> {
    match a
    case Success(v) => Returned(v)
    case Failure(m) => Rethrown(Some(m))
  }

  /** The back-off schedule for `n` waits: `delay * 1, ..., delay * n`. */
  function Backoff(delay: int, n: nat): (ds: seq<int>)
    ensures |ds| == n
    ensures forall k | 0 <= k < n :: ds[k] == delay * (k + 1)
  {
    seq(n, k => delay * (k + 1))
  }

  /** The loop from iteration `i` on, having waited `delays` and last caught `lastError`. */
  function RunFrom<T>(outcomes: seq<Attempt<T>>, maxRetries: int, delay: int, i: nat,
                      lastError: Option<string>, delays: seq<int>): (r: RetryRun<T>)
    requires maxRetries <= |outcomes|
    requires i <= |outcomes|
    requires delays == Backoff(delay, if i < maxRetries || i == 0 then i else i - 1)
    requires (i == 0) == lastError.None?
    ensures i <= r.attempts
    ensures r.attempts <= if maxRetries <= i then i else maxRetries
    ensures r.delays == Backoff(delay, if r.attempts == 0 then 0 else r.attempts - 1)
    ensures r.outcome.Returned? ==> 0 < r.attempts && outcomes[r.attempts - 1] == Success(r.outcome.value)
    ensures r.outcome.Rethrown? ==> (r.outcome.error.Some? <==> 0 < r.attempts)
    ensures 0 < maxRetries ==> 0 < r.attempts
    decreases |outcomes| - i
  {
    if maxRetries <= i then RetryRun(Rethrown(lastError), i, delays)
    else
      match outcomes[i]
      case Success(v) => RetryRun(Returned(v), i + 1, delays)
      case Failure(m) =>
        if IsNonRetryable(m) then RetryRun(Rethrown(Some(m)), i + 1, delays)
        else
          var waited := if i < maxRetries - 1 then delays + [delay * (i + 1)] else delays;
          RunFrom(outcomes, maxRetries, delay, i + 1, Some(m), waited)
  }

  /** `retryOperation(operation, maxRetries, delay)`, where call `k` (from 0) of
      `operation` has outcome `outcomes[k]`. At most `maxRetries` calls are made,
      a success is returned as it is, and there is one wait fewer than calls. */
  function Run<T>(outcomes: seq<Attempt<T>>, maxRetries: int, delay: int): (r: RetryRun<T>)
    requires maxRetries <= |outcomes|
    ensures r.attempts <= if maxRetries <= 0 then 0 else maxRetries
    ensures r.delays == Backoff(delay, if r.attempts == 0 then 0 else r.attempts - 1)
    ensures r.outcome.Returned? ==> 0 < r.attempts && outcomes[r.attempts - 1] == Success(r.outcome.value)
    ensures r.outcome.Rethrown? ==> (r.outcome.error.Some? <==> 0 < r.attempts)
    ensures 0 < maxRetries ==> 0 < r.attempts
  {
    RunFrom(outcomes, maxRetries, delay, 0, None, [])
  }

  /** The loop stops at the first call that succeeds or fails with a 400/401/403
      message: every earlier call was a retryable failure and was followed by a wait. */
  lemma {:induction false} RunStopsAtFirstDecisive<T>(outcomes: seq<Attempt<T>>, maxRetries: int,
                                                      delay: int, k: nat)
    requires k < maxRetries <= |outcomes|
    requires forall j | 0 <= j < k :: IsRetryable(outcomes[j])
    requires !IsRetryable(outcomes[k])
    ensures Run(outcomes, maxRetries, delay) == RetryRun(Settle(outcomes[k]), k + 1, Backoff(delay, k))
  {
    RunFromStops(outcomes, maxRetries, delay, 0, k, None, []);
  }

  lemma {:induction false} RunFromStops<T>(outcomes: seq<Attempt<T>>, maxRetries: int, delay: int,
                                          i: nat, k: nat, lastError: Option<string>, delays: seq<int>)
    requires i <= k < maxRetries <= |outcomes|
    requires delays == Backoff(delay, i)
    requires (i == 0) == lastError.None?
    requires forall j | i <= j < k :: IsRetryable(outcomes[j])
    requires !IsRetryable(outcomes[k])
    ensures RunFrom(outcomes, maxRetries, delay, i, lastError, delays)
         == RetryRun(Settle(outcomes[k]), k + 1, Backoff(delay, k))
    decreases k - i
  {
    if i < k {
      var m := outcomes[i].message;
      var waited := delays + [delay * (i + 1)];
      assert waited == Backoff(delay, i + 1);
      RunFromStops(outcomes, maxRetries, delay, i + 1, k, Some(m), waited);
    }
  }

  /** When every call fails retryably, all `maxRetries` calls are made, the waits are
      `delay * 1` up to `delay * (maxRetries - 1)`, and the last error is rethrown. */
  lemma {:induction false} RunExhausts<T>(outcomes: seq<Attempt<T>>, maxRetries: int, delay: int)
    requires 0 < maxRetries <= |outcomes|
    requires forall j | 0 <= j < maxRetries :: IsRetryable(outcomes[j])
    ensures Run(outcomes, maxRetries, delay)
         == RetryRun(Settle(outcomes[maxRetries - 1]), maxRetries, Backoff(delay, maxRetries - 1))
  {
    RunFromExhausts(outcomes, maxRetries, delay, 0, None, []);
  }

  lemma {:induction false} RunFromExhausts<T>(outcomes: seq<Attempt<T>>, maxRetries: int, delay: int,
                                             i: nat, lastError: Option<string>, delays: seq<int>)
    requires i <= maxRetries <= |outcomes|
    requires 0 < maxRetries
    requires delays == Backoff(delay, if i < maxRetries then i else i - 1)
    requires (i == 0) == lastError.None?
    requires i == maxRetries ==> Rethrown(lastError) == Settle(outcomes[maxRetries - 1])
    requires forall j | 0 <= j < maxRetries :: IsRetryable(outcomes[j])
    ensures RunFrom(outcomes, maxRetries, delay, i, lastError, delays)
         == RetryRun(Settle(outcomes[maxRetries - 1]), maxRetries, Backoff(delay, maxRetries - 1))
    decreases maxRetries - i
  {
    if i < maxRetries {
      var m := outcomes[i].message;
      var waited := if i < maxRetries - 1 then delays + [delay * (i + 1)] else delays;
      assert waited == Backoff(delay, if i + 1 < maxRetries then i + 1 else i);
      RunFromExhausts(outcomes, maxRetries, delay, i + 1, Some(m), waited);
    }
  }

  /** With no attempt allowed the operation is never called and `null` is thrown. */
  lemma NoAttemptsThrowsNull<T>(outcomes: seq<Attempt<T>>, maxRetries: int, delay: int)
    requires maxRetries <= 0
    ensures Run(outcomes, maxRetries, delay) == RetryRun(Rethrown(None), 0, [])
  {
  }

  /** With the defaults, three calls that all fail transiently wait 2000 and then 4000
      before the third error is rethrown. */
  lemma DefaultScheduleWhenAllFail<T>(outcomes: seq<Attempt<T>>)
    requires |outcomes| >= DefaultMaxRetries
    requires forall j | 0 <= j < DefaultMaxRetries :: IsRetryable(outcomes[j])
    ensures Run(outcomes, DefaultMaxRetries, DefaultDelay)
         == RetryRun(Settle(outcomes[2]), 3, [2000, 4000])
  {
    RunExhausts(outcomes, DefaultMaxRetries, DefaultDelay);
    assert Backoff(DefaultDelay, 2) == [2000, 4000];
  }

  /** Two transient failures followed by a success return that success after waits of
      `delay * 1` and `delay * 2`. */
  lemma SucceedsOnThirdAttempt<T>(outcomes: seq<Attempt<T>>, maxRetries: int, delay: int, v: T)
    requires 3 <= maxRetries <= |outcomes|
    requires IsRetryable(outcomes[0]) && IsRetryable(outcomes[1])
    requires outcomes[2] == Success(v)
    ensures Run(outcomes, maxRetries, delay) == RetryRun(Returned(v), 3, [delay, delay * 2])
  {
    RunStopsAtFirstDecisive(outcomes, maxRetries, delay, 2);
    assert Backoff(delay, 2) == [delay * 1, delay * 2];
  }

  /** The classification looks at text, not status: any message mentioning `4000`
      (a delay in milliseconds, say) is treated as a client error and is not retried. */
  lemma MessageMentioning4000IsTerminal<T>(outcomes: seq<Attempt<T>>, maxRetries: int, delay: int)
    requires 1 <= maxRetries <= |outcomes|
    requires outcomes[0] == Failure("timeout after 4000ms")
    ensures Run(outcomes, maxRetries, delay) == RetryRun(Rethrown(Some("timeout after 4000ms")), 1, [])
  {
    OccursAtContains("timeout after 4000ms", "400", 14);
    RunStopsAtFirstDecisive(outcomes, maxRetries, delay, 0);
  }
}
