/** `Divider._execute`: run one remote request, retrying on `HttpError`. */
module Executor {

  /** Retries granted by default, and the default failure policy. */
  const DEFAULT_RETRIES: int := 2
  const DEFAULT_FAIL_HARD: bool := true

  /** An `HttpError` raised by the mailbox client library. */
  datatype HttpError = HttpError(status: nat)

  /** What one call of the request's `execute()` does. */
  datatype Attempt<T> = Succeeded(value: T) | Failed(error: HttpError)

  /** How `_execute` ends: it returns the response, raises the last error,
      returns the `{'error': True}` marker (soft failure), or falls off the end of
      the function and returns `None` (a negative retry count). */
  datatype Outcome<T> = Returned(value: T) | Raised(error: HttpError) | SoftError | NoValue

  /** The outcome together with the number of `execute()` calls made. */
  datatype Execution<T> = Execution(outcome: Outcome<T>, calls: nat)

  /** `_execute(fn, retries, fail_hard)` where `attempt(k + i)` is the result of the
      (i+1)-th `execute()` of this invocation and `k` counts the calls made before it. */
  function Execute<T>(attempt: nat -> Attempt<T>, k: nat, retries: int, failHard: bool): (r: Execution<T>)
    ensures 1 <= r.calls
    ensures retries >= 0 ==> r.calls <= retries + 1
    ensures retries < 0 ==> r.calls == 1
    ensures forall j | k <= j < k + r.calls - 1 :: attempt(j).Failed?
    ensures r.outcome.Returned? <==> attempt(k + r.calls - 1).Succeeded?
    ensures r.outcome.Returned? ==> r.outcome.value == attempt(k + r.calls - 1).value
    ensures r.outcome.Raised? <==> failHard && retries >= 0 && r.calls == retries + 1 && attempt(k + retries).Failed?
    ensures r.outcome.Raised? ==> r.outcome.error == attempt(k + retries).error
    ensures r.outcome.SoftError? <==> !failHard && retries >= 0 && r.calls == retries + 1 && attempt(k + retries).Failed?
    ensures r.outcome.NoValue? <==> retries < 0 && attempt(k).Failed?
    decreases if retries > 0 then retries else 0
  {
    match attempt(k)
    case Succeeded(v) => Execution(Returned(v), 1)
    case Failed(e) =>
      if retries == 0 then
        if failHard then Execution(Raised(e), 1) else Execution(SoftError, 1)
      else if retries > 0 then
        var rest := Execute(attempt, k + 1, retries - 1, failHard);
        Execution(rest.outcome, rest.calls + 1)
      else
        Execution(NoValue, 1)
  }

  /** The first successful attempt within the budget is the one returned, and no
      further `execute()` call is made after it. */
  lemma FirstSuccessReturned<T>(attempt: nat -> Attempt<T>, retries: int, failHard: bool, j: nat)
    requires j <= retries
    requires attempt(j).Succeeded?
    requires forall i | 0 <= i < j :: attempt(i).Failed?
    ensures Execute(attempt, 0, retries, failHard) == Execution(Returned(attempt(j).value), j + 1)
  {
    var r := Execute(attempt, 0, retries, failHard);
    assert attempt(r.calls - 1).Succeeded?;
  }

  /** When all `retries + 1` attempts fail under the fail-hard policy, the last
      error is raised after exactly `retries + 1` calls. */
  lemma ExhaustedRaises<T>(attempt: nat -> Attempt<T>, retries: int)
    requires retries >= 0
    requires forall i | 0 <= i <= retries :: attempt(i).Failed?
    ensures Execute(attempt, 0, retries, true) == Execution(Raised(attempt(retries).error), retries + 1)
  {
    var r := Execute(attempt, 0, retries, true);
    assert r.calls - 1 <= retries;
  }

  /** With the default arguments a request is tried at most three times, and when all
      three tries fail the third error is raised. */
  lemma DefaultBudget<T>(attempt: nat -> Attempt<T>)
    ensures Execute(attempt, 0, DEFAULT_RETRIES, DEFAULT_FAIL_HARD).calls <= 3
    ensures attempt(0).Failed? && attempt(1).Failed? && attempt(2).Failed? ==>
      Execute(attempt, 0, DEFAULT_RETRIES, DEFAULT_FAIL_HARD) == Execution(Raised(attempt(2).error), 3)
  {
    if attempt(0).Failed? && attempt(1).Failed? && attempt(2).Failed? {
      ExhaustedRaises(attempt, DEFAULT_RETRIES);
    }
  }
}
