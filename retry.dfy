/**
 * The retry-until-success combinator of retry.py.
 *
 * The operation (`doer`) is not code here: what it does on its k-th call is the k-th element
 * of a script of attempt outcomes.  A script is finite, so a run that would go on calling the
 * operation after the script ends stops with `StillTrying`.
 */
module Retry {
  import opened Common

  /** What one call of the operation does: a truthy success flag with its result, a falsy
    * flag (its result is ignored), or an exception, which counts as `(None, None)`. */
  datatype Attempt<T> = Succeeded(value: T) | Failed | Raised

  /** How `until_success` ends: it returns a result, it raises `RetryError`, or it would
    * still be calling the operation when the script of attempts runs out. */
  datatype RetryOutcome<T> = Returned(value: T) | RetryError | StillTrying

  const MaxBackoffSeconds: nat := 30 * 60

  function Min(a: int, b: int): int { if a <= b then a else b }

  /** The wait `backoff(tries)` sleeps for, in seconds. */
  method Backoff(tries: nat) returns (sleepTime: nat)
    ensures sleepTime == Min(tries * 60, MaxBackoffSeconds)
    ensures sleepTime <= MaxBackoffSeconds
    ensures tries < 30 ==> sleepTime == tries * 60
  {
    if tries < 30 {
      sleepTime := tries * 60;
    } else {
      sleepTime := 30 * 60;
    }
  }

  /** The counters 1, 2, ..., n that the failure hook receives, in order. */
  function Counting(n: nat): (r: seq<nat>)
    ensures |r| == n
    ensures forall i :: 0 <= i < n ==> r[i] == i + 1
  {
    seq(n, i => i + 1)
  }

  /**
   * `until_success(doer, failure_fn=..., max_attempts=maxAttempts)`.  `tries` is how many times
   * the operation was called and `failures` lists the arguments of the calls of `failure_fn`.
   */
  method UntilSuccess<T>(attempts: seq<Attempt<T>>, maxAttempts: Option<nat>)
    returns (r: RetryOutcome<T>, tries: nat, failures: seq<nat>)
    ensures tries <= |attempts|
    ensures maxAttempts.Some? ==> tries <= maxAttempts.value
    // the result is that of the first successful attempt, and nothing runs after it
    ensures r.Returned? ==> 0 < tries && attempts[tries - 1] == Succeeded(r.value)
    ensures forall i :: 0 <= i < tries && (r.Returned? ==> i < tries - 1) ==> !attempts[i].Succeeded?
    // every failed attempt, the last one included, is followed by one call of the hook
    ensures failures == Counting(if r.Returned? then tries - 1 else tries)
    // the cap is the only source of RetryError
    ensures r.RetryError? ==> maxAttempts == Some(tries)
    ensures r.StillTrying? ==> tries == |attempts| && (maxAttempts.None? || tries < maxAttempts.value)
  {
    tries := 0;
    failures := [];
    while maxAttempts.None? || tries < maxAttempts.value
      invariant tries <= |attempts|
      invariant maxAttempts.Some? ==> tries <= maxAttempts.value
      invariant forall i :: 0 <= i < tries ==> !attempts[i].Succeeded?
      invariant failures == Counting(tries)
      decreases |attempts| - tries
    {
      if tries == |attempts| {
        return StillTrying, tries, failures;
      }
      tries := tries + 1;
      var outcome := attempts[tries - 1];
      if outcome.Succeeded? {
        return Returned(outcome.value), tries, failures;
      }
      failures := failures + [tries];
      assert failures == Counting(tries);
    }
    r := RetryError;
  }

  /** With no cap and an operation that never succeeds, the script is used up, never cut short. */
  method NeverSucceeding<T>(attempts: seq<Attempt<T>>, maxAttempts: Option<nat>)
    returns (r: RetryOutcome<T>, tries: nat)
    requires forall i :: 0 <= i < |attempts| ==> !attempts[i].Succeeded?
    ensures maxAttempts.None? ==> r == StillTrying && tries == |attempts|
    ensures maxAttempts.Some? && maxAttempts.value <= |attempts| ==> r == RetryError && tries == maxAttempts.value
    ensures maxAttempts == Some(0) ==> tries == 0
  {
    var failures;
    r, tries, failures := UntilSuccess(attempts, maxAttempts);
  }
}
