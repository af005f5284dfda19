/** The `retry_async` decorator of the Twitter service: up to `maxRetries`
    invocations of an operation, with exponential backoff between them.
    Each invocation's outcome is an input (the sequence `outcomes`), waits are
    recorded instead of slept, and delays are natural numbers of milliseconds. */
module Retry {
  import opened Strings

  /** The exceptions the wrapper tells apart. */
  datatype Failure =
    | RateLimited(message: string)   // tweepy.errors.TooManyRequests
    | ServerError(message: string)   // tweepy.errors.TwitterServerError
    | Other(message: string)         // any other exception

  /** What one invocation of the wrapped operation does. */
  datatype Attempt<+T> = Ok(value: T) | Raised(failure: Failure)

  /** How a call of the wrapper ends: the operation's result, the last error
      re-raised, or the generic "Unknown error after retries" exception. */
  datatype Settled<+T> = Returned(value: T) | Reraised(failure: Failure) | UnknownError

  /** A run of the wrapper: its outcome, how many times it invoked the
      operation, and the waits it slept, in order. */
  datatype Run<+T> = Run(result: Settled<T>, invocations: nat, waits: seq<nat>)

  function Pow(b: nat, e: nat): nat
  {
    if e == 0 then 1 else b * Pow(b, e - 1)
  }

  function Min(a: nat, b: nat): nat
  {
    if a <= b then a else b
  }

  /** Rate limits back off by powers of 3, every other error by powers of 2. */
  function Growth(f: Failure): nat
  {
    if f.RateLimited? then 3 else 2
  }

  /** The wait after failure `f` on attempt `attempt` (0-based). */
  function Backoff(f: Failure, attempt: nat, base: nat, maxDelay: nat): (wait: nat)
    ensures wait <= maxDelay
    ensures base * Pow(Growth(f), attempt) <= maxDelay ==> wait == base * Pow(Growth(f), attempt)
    ensures base * Pow(Growth(f), attempt) > maxDelay ==> wait == maxDelay
  {
    Min(base * Pow(Growth(f), attempt), maxDelay)
  }

  /** The error raised once the loop is over. */
  function GiveUp<T>(lastError: Option<Failure>): Settled<T>
  {
    if lastError.Some? then Reraised(lastError.value) else UnknownError
  }

  /** The wrapper's loop from attempt `attempt` on, `lastError` being the last
      error seen before it. */
  function RetryFrom<T>(outcomes: seq<Attempt<T>>, maxRetries: nat, base: nat, maxDelay: nat,
                        attempt: nat, lastError: Option<Failure>): Run<T>
    requires attempt <= maxRetries <= |outcomes|
    decreases maxRetries - attempt
  {
    if attempt == maxRetries then Run(GiveUp(lastError), attempt, [])
    else match outcomes[attempt]
      case Ok(v) => Run(Returned(v), attempt + 1, [])
      case Raised(f) =>
        if f.Other? && attempt == maxRetries - 1 then Run(Reraised(f), attempt + 1, [])
        else
          var rest := RetryFrom(outcomes, maxRetries, base, maxDelay, attempt + 1, Some(f));
          Run(rest.result, rest.invocations, [Backoff(f, attempt, base, maxDelay)] + rest.waits)
  }

  /** A whole call of the wrapper. */
  function Retry<T>(outcomes: seq<Attempt<T>>, maxRetries: nat, base: nat, maxDelay: nat): Run<T>
    requires maxRetries <= |outcomes|
  {
    RetryFrom(outcomes, maxRetries, base, maxDelay, 0, None)
  }

  /** The decorator's wrapper: a `for attempt` loop that returns the first
      result, records a wait after each failure (none after a generic error on
      the last attempt, which breaks out), and finally raises the last error. */
  method RetryWrapper<T>(outcomes: seq<Attempt<T>>, maxRetries: nat, base: nat, maxDelay: nat)
    returns (result: Settled<T>, invocations: nat, waits: seq<nat>)
    requires maxRetries <= |outcomes|
    ensures Run(result, invocations, waits) == Retry(outcomes, maxRetries, base, maxDelay)
  {
    var lastError: Option<Failure> := None;
    invocations, waits := 0, [];
    var attempt := 0;
    while attempt < maxRetries
      invariant attempt <= maxRetries && invocations == attempt
      invariant var rest := RetryFrom(outcomes, maxRetries, base, maxDelay, attempt, lastError);
        Retry(outcomes, maxRetries, base, maxDelay) == Run(rest.result, rest.invocations, waits + rest.waits)
    {
      invocations := invocations + 1;
      match outcomes[attempt]
      case Ok(v) =>
        result := Returned(v);
        return;
      case Raised(f) =>
        if f.RateLimited? {
          // rate limited: wait base * 3^attempt, capped
          RetryStep(outcomes, maxRetries, base, maxDelay, attempt, lastError, waits);
          lastError := Some(f);
          waits := waits + [Backoff(f, attempt, base, maxDelay)];
        } else if f.ServerError? {
          // server error: wait base * 2^attempt, capped
          RetryStep(outcomes, maxRetries, base, maxDelay, attempt, lastError, waits);
          lastError := Some(f);
          waits := waits + [Backoff(f, attempt, base, maxDelay)];
        } else if attempt < maxRetries - 1 {
          // other error with attempts left: wait base * 2^attempt, capped
          RetryStep(outcomes, maxRetries, base, maxDelay, attempt, lastError, waits);
          lastError := Some(f);
          waits := waits + [Backoff(f, attempt, base, maxDelay)];
        } else {
          // other error on the last attempt: no wait
          lastError := Some(f);
          break;
        }
      attempt := attempt + 1;
    }
    result := GiveUp(lastError);
  }

  /** One turn of the loop after a failure it waits on: the rest of the run
      from `attempt` is that wait followed by the run from the next attempt. */
  lemma RetryStep<T>(outcomes: seq<Attempt<T>>, maxRetries: nat, base: nat, maxDelay: nat,
                     attempt: nat, lastError: Option<Failure>, waits: seq<nat>)
    requires attempt < maxRetries <= |outcomes| && outcomes[attempt].Raised?
    requires !(outcomes[attempt].failure.Other? && attempt == maxRetries - 1)
    ensures var f := outcomes[attempt].failure;
      var rest := RetryFrom(outcomes, maxRetries, base, maxDelay, attempt, lastError);
      var next := RetryFrom(outcomes, maxRetries, base, maxDelay, attempt + 1, Some(f));
      && rest.result == next.result && rest.invocations == next.invocations
      && waits + rest.waits == (waits + [Backoff(f, attempt, base, maxDelay)]) + next.waits
  {
    var f := outcomes[attempt].failure;
    var next := RetryFrom(outcomes, maxRetries, base, maxDelay, attempt + 1, Some(f));
    assert waits + ([Backoff(f, attempt, base, maxDelay)] + next.waits)
        == (waits + [Backoff(f, attempt, base, maxDelay)]) + next.waits;
  }

  /** Every wait the wrapper records is bounded by `maxDelay`, it never
      invokes the operation more than `maxRetries` times, and it records at
      most one wait per invocation. */
  lemma {:induction false} RetryFromBounded<T>(outcomes: seq<Attempt<T>>, maxRetries: nat, base: nat,
                                               maxDelay: nat, attempt: nat, lastError: Option<Failure>)
    requires attempt <= maxRetries <= |outcomes|
    ensures var run := RetryFrom(outcomes, maxRetries, base, maxDelay, attempt, lastError);
      && attempt <= run.invocations <= maxRetries
      && |run.waits| <= run.invocations - attempt
      && forall i :: 0 <= i < |run.waits| ==> run.waits[i] <= maxDelay
    decreases maxRetries - attempt
  {
    if attempt < maxRetries && outcomes[attempt].Raised? {
      var f := outcomes[attempt].failure;
      if !(f.Other? && attempt == maxRetries - 1) {
        RetryFromBounded(outcomes, maxRetries, base, maxDelay, attempt + 1, Some(f));
      }
    }
  }

  lemma RetryBounded<T>(outcomes: seq<Attempt<T>>, maxRetries: nat, base: nat, maxDelay: nat)
    requires maxRetries <= |outcomes|
    ensures var run := Retry(outcomes, maxRetries, base, maxDelay);
      && run.invocations <= maxRetries
      && (run.invocations == 0 <==> maxRetries == 0)
      && |run.waits| <= run.invocations
      && forall i :: 0 <= i < |run.waits| ==> run.waits[i] <= maxDelay
  {
    RetryFromBounded(outcomes, maxRetries, base, maxDelay, 0, None);
  }

  lemma {:induction false} RetryFromSucceeds<T>(outcomes: seq<Attempt<T>>, maxRetries: nat, base: nat,
                                                maxDelay: nat, attempt: nat, lastError: Option<Failure>, k: nat)
    requires attempt <= k < maxRetries <= |outcomes|
    requires outcomes[k].Ok? && forall j :: attempt <= j < k ==> outcomes[j].Raised?
    ensures var run := RetryFrom(outcomes, maxRetries, base, maxDelay, attempt, lastError);
      && run.result == Returned(outcomes[k].value)
      && run.invocations == k + 1
      && |run.waits| == k - attempt
      && forall i :: 0 <= i < k - attempt ==>
           run.waits[i] == Backoff(outcomes[attempt + i].failure, attempt + i, base, maxDelay)
    decreases k - attempt
  {
    if attempt < k {
      RetryFromSucceeds(outcomes, maxRetries, base, maxDelay, attempt + 1,
                        Some(outcomes[attempt].failure), k);
    }
  }

  /** When attempt `k` is the first that succeeds, the wrapper returns its
      value unchanged after exactly k + 1 invocations, having waited once after
      each of the k failures, with the backoff that failure calls for. */
  lemma RetryReturnsFirstSuccess<T>(outcomes: seq<Attempt<T>>, maxRetries: nat, base: nat, maxDelay: nat, k: nat)
    requires k < maxRetries <= |outcomes|
    requires outcomes[k].Ok? && forall j :: 0 <= j < k ==> outcomes[j].Raised?
    ensures var run := Retry(outcomes, maxRetries, base, maxDelay);
      && run.result == Returned(outcomes[k].value)
      && run.invocations == k + 1
      && |run.waits| == k
      && forall i :: 0 <= i < k ==> run.waits[i] == Backoff(outcomes[i].failure, i, base, maxDelay)
  {
    RetryFromSucceeds(outcomes, maxRetries, base, maxDelay, 0, None, k);
  }

  lemma {:induction false} RetryFromExhausted<T>(outcomes: seq<Attempt<T>>, maxRetries: nat, base: nat,
                                                 maxDelay: nat, attempt: nat, lastError: Option<Failure>)
    requires attempt <= maxRetries <= |outcomes|
    requires forall j :: attempt <= j < maxRetries ==> outcomes[j].Raised?
    ensures var run := RetryFrom(outcomes, maxRetries, base, maxDelay, attempt, lastError);
      && run.invocations == maxRetries
      && run.result == (if attempt == maxRetries then GiveUp(lastError)
                        else Reraised(outcomes[maxRetries - 1].failure))
      && |run.waits| == (if attempt < maxRetries && outcomes[maxRetries - 1].failure.Other?
                         then maxRetries - 1 - attempt else maxRetries - attempt)
      && forall i :: 0 <= i < |run.waits| ==>
           run.waits[i] == Backoff(outcomes[attempt + i].failure, attempt + i, base, maxDelay)
    decreases maxRetries - attempt
  {
    if attempt < maxRetries {
      var f := outcomes[attempt].failure;
      if !(f.Other? && attempt == maxRetries - 1) {
        RetryFromExhausted(outcomes, maxRetries, base, maxDelay, attempt + 1, Some(f));
      }
    }
  }

  /** When no attempt succeeds, the wrapper invokes the operation exactly
      `maxRetries` times and raises the error of the last attempt; with
      `maxRetries == 0` it never invokes it and raises the generic error. It
      waits after every failure, except after a generic error on the last
      attempt. */
  lemma RetryRaisesLastError<T>(outcomes: seq<Attempt<T>>, maxRetries: nat, base: nat, maxDelay: nat)
    requires maxRetries <= |outcomes|
    requires forall j :: 0 <= j < maxRetries ==> outcomes[j].Raised?
    ensures var run := Retry(outcomes, maxRetries, base, maxDelay);
      && run.invocations == maxRetries
      && run.result == (if maxRetries == 0 then UnknownError else Reraised(outcomes[maxRetries - 1].failure))
      && |run.waits| == (if maxRetries > 0 && outcomes[maxRetries - 1].failure.Other?
                         then maxRetries - 1 else maxRetries)
      && forall i :: 0 <= i < |run.waits| ==> run.waits[i] == Backoff(outcomes[i].failure, i, base, maxDelay)
  {
    RetryFromExhausted(outcomes, maxRetries, base, maxDelay, 0, None);
  }

  lemma {:induction false} RetryFromReturnsOutcome<T>(outcomes: seq<Attempt<T>>, maxRetries: nat, base: nat,
                                                      maxDelay: nat, attempt: nat, lastError: Option<Failure>)
    requires attempt <= maxRetries <= |outcomes|
    ensures var run := RetryFrom(outcomes, maxRetries, base, maxDelay, attempt, lastError);
      run.result.Returned? ==> exists k :: attempt <= k < maxRetries && outcomes[k] == Ok(run.result.value)
    decreases maxRetries - attempt
  {
    if attempt < maxRetries && outcomes[attempt].Raised? {
      var f := outcomes[attempt].failure;
      if !(f.Other? && attempt == maxRetries - 1) {
        RetryFromReturnsOutcome(outcomes, maxRetries, base, maxDelay, attempt + 1, Some(f));
      }
    }
  }

  /** The wrapper returns nothing but a value some invocation returned: a
      property every invocation's result has is a property of the wrapper's. */
  lemma RetryReturnsAnOutcome<T>(outcomes: seq<Attempt<T>>, maxRetries: nat, base: nat, maxDelay: nat)
    requires maxRetries <= |outcomes|
    ensures var run := Retry(outcomes, maxRetries, base, maxDelay);
      run.result.Returned? ==> exists k :: 0 <= k < maxRetries && outcomes[k] == Ok(run.result.value)
  {
    RetryFromReturnsOutcome(outcomes, maxRetries, base, maxDelay, 0, None);
  }

  lemma {:induction false} PowMonotone(b: nat, i: nat, j: nat)
    requires 1 <= b && i <= j
    ensures Pow(b, i) <= Pow(b, j)
    decreases j
  {
    if i < j {
      PowMonotone(b, i, j - 1);
      assert Pow(b, j - 1) <= b * Pow(b, j - 1);
    }
  }

  lemma {:induction false} ScaleMonotone(a: nat, p: nat, q: nat)
    requires p <= q
    ensures a * p <= a * q
    decreases a
  {
    if a > 0 {
      ScaleMonotone(a - 1, p, q);
      assert a * p == (a - 1) * p + p && a * q == (a - 1) * q + q;
    }
  }

  /** Backoff never shrinks from one attempt to a later one for the same kind
      of failure, and until the cap is reached each step multiplies the wait by
      that kind's growth factor (3 for rate limits, 2 otherwise). */
  lemma BackoffGrows(f: Failure, i: nat, j: nat, base: nat, maxDelay: nat)
    requires i <= j
    ensures Backoff(f, i, base, maxDelay) <= Backoff(f, j, base, maxDelay)
    ensures base * Pow(Growth(f), i + 1) <= maxDelay ==>
      Backoff(f, i + 1, base, maxDelay) == Growth(f) * Backoff(f, i, base, maxDelay)
  {
    var g := Growth(f);
    PowMonotone(g, i, j);
    ScaleMonotone(base, Pow(g, i), Pow(g, j));
    var p := Pow(g, i);
    assert Pow(g, i + 1) == g * p;
    assert base * (g * p) == g * (base * p);
    PowMonotone(g, i, i + 1);
    ScaleMonotone(base, p, g * p);
  }
}
