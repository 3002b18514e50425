/** `with_retry`: call an operation until it succeeds, at most `max_retries`
    times more after the first failure, sleeping `backoff_base * tries`
    seconds before each new try. The operation is a function from the
    0-based attempt number to its outcome, and every sleep is recorded as its
    length in seconds instead of being slept. */
module Retry {
  import opened Wrappers

  /** What a run of `with_retry` amounts to: the value returned or the error
      re-raised, how many times the operation was called, and the sleeps. */
  datatype Retried<T> = Retried(outcome: Result<T, string>, calls: nat, sleeps: seq<nat>)

  /** The rest of a run once `tries` attempts have failed. */
  function RetryFrom<T>(attempt: nat -> Result<T, string>, tries: nat, maxRetries: nat, backoffBase: nat): Retried<T>
    requires tries <= maxRetries
    decreases maxRetries - tries
  {
    match attempt(tries)
    case Success(v) => Retried(Success(v), tries + 1, [])
    case Failure(e) =>
      if tries + 1 > maxRetries then Retried(Failure(e), tries + 1, [])
      else
        var rest := RetryFrom(attempt, tries + 1, maxRetries, backoffBase);
        Retried(rest.outcome, rest.calls, [backoffBase * (tries + 1)] + rest.sleeps)
  }

  function Retry<T>(attempt: nat -> Result<T, string>, maxRetries: nat, backoffBase: nat): Retried<T> {
    RetryFrom(attempt, 0, maxRetries, backoffBase)
  }

  /** The sleeps made after attempts `from` to `to - 1` failed: the one after
      the k-th failure lasts `backoffBase * k` seconds. */
  predicate Backoffs(sleeps: seq<nat>, from: nat, backoffBase: nat) {
    forall k :: 0 <= k < |sleeps| ==> sleeps[k] == backoffBase * (from + k + 1)
  }

  lemma {:induction false} RetryFromCharacterised<T>(attempt: nat -> Result<T, string>, tries: nat, maxRetries: nat, backoffBase: nat)
    requires tries <= maxRetries
    ensures var r := RetryFrom(attempt, tries, maxRetries, backoffBase);
      && tries + 1 <= r.calls <= maxRetries + 1
      && (forall t :: tries <= t < r.calls - 1 ==> attempt(t).Failure?)
      && r.outcome == attempt(r.calls - 1)
      && (r.outcome.Failure? ==> r.calls == maxRetries + 1)
      && |r.sleeps| == r.calls - 1 - tries
      && Backoffs(r.sleeps, tries, backoffBase)
    decreases maxRetries - tries
  {
    var r := RetryFrom(attempt, tries, maxRetries, backoffBase);
    if attempt(tries).Failure? && tries + 1 <= maxRetries {
      RetryFromCharacterised(attempt, tries + 1, maxRetries, backoffBase);
      var rest := RetryFrom(attempt, tries + 1, maxRetries, backoffBase);
      assert r.sleeps == [backoffBase * (tries + 1)] + rest.sleeps;
      forall k | 0 <= k < |r.sleeps|
        ensures r.sleeps[k] == backoffBase * (tries + k + 1)
      {
        if k > 0 {
          assert r.sleeps[k] == rest.sleeps[k - 1];
        }
      }
    }
  }

  /** `with_retry` calls the operation between 1 and `maxRetries + 1` times;
      every call but the last failed; what it returns or re-raises is the last
      call's outcome; it only gives up after `maxRetries + 1` failed calls; and
      it sleeps once between consecutive calls, `backoffBase * k` seconds after
      the k-th failure. */
  lemma RetryCharacterised<T>(attempt: nat -> Result<T, string>, maxRetries: nat, backoffBase: nat)
    ensures var r := Retry(attempt, maxRetries, backoffBase);
      && 1 <= r.calls <= maxRetries + 1
      && (forall t :: 0 <= t < r.calls - 1 ==> attempt(t).Failure?)
      && r.outcome == attempt(r.calls - 1)
      && (r.outcome.Failure? ==> r.calls == maxRetries + 1)
      && |r.sleeps| == r.calls - 1
      && (forall k :: 0 <= k < |r.sleeps| ==> r.sleeps[k] == backoffBase * (k + 1))
  {
    RetryFromCharacterised(attempt, 0, maxRetries, backoffBase);
  }

  /** The first success within the budget is returned, after `j` failures
      and `j` sleeps. */
  lemma RetryFirstSuccess<T>(attempt: nat -> Result<T, string>, maxRetries: nat, backoffBase: nat, j: nat)
    requires j <= maxRetries
    requires forall t :: 0 <= t < j ==> attempt(t).Failure?
    requires attempt(j).Success?
    ensures var r := Retry(attempt, maxRetries, backoffBase);
      r.outcome == attempt(j) && r.calls == j + 1 && |r.sleeps| == j
  {
    RetryCharacterised(attempt, maxRetries, backoffBase);
  }

  /** When every attempt fails, the last error is re-raised after exactly
      `maxRetries + 1` calls and `maxRetries` sleeps. */
  lemma RetryExhausted<T>(attempt: nat -> Result<T, string>, maxRetries: nat, backoffBase: nat)
    requires forall t :: 0 <= t <= maxRetries ==> attempt(t).Failure?
    ensures var r := Retry(attempt, maxRetries, backoffBase);
      r.outcome == attempt(maxRetries) && r.calls == maxRetries + 1 && |r.sleeps| == maxRetries
  {
    RetryCharacterised(attempt, maxRetries, backoffBase);
  }

  /** `with_retry(fn)`, with the counter `tries` of failed calls. */
  method WithRetry<T>(attempt: nat -> Result<T, string>, maxRetries: nat, backoffBase: nat)
    returns (outcome: Result<T, string>, calls: nat, sleeps: seq<nat>)
    ensures Retried(outcome, calls, sleeps) == Retry(attempt, maxRetries, backoffBase)
  {
    var tries := 0;
    sleeps := [];
    while true
      invariant tries <= maxRetries
      invariant var rest := RetryFrom(attempt, tries, maxRetries, backoffBase);
        Retry(attempt, maxRetries, backoffBase) == Retried(rest.outcome, rest.calls, sleeps + rest.sleeps)
      decreases maxRetries - tries
    {
      var result := attempt(tries);
      if result.Success? {
        assert sleeps + [] == sleeps;
        return result, tries + 1, sleeps;
      }
      tries := tries + 1;
      if tries > maxRetries {
        assert sleeps + [] == sleeps;
        return result, tries, sleeps;
      }
      ghost var rest := RetryFrom(attempt, tries, maxRetries, backoffBase);
      assert sleeps + ([backoffBase * tries] + rest.sleeps) == (sleeps + [backoffBase * tries]) + rest.sleeps;
      sleeps := sleeps + [backoffBase * tries];
    }
  }
}
