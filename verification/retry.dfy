/**
 * `python-decorators-0x01/3-retry_on_failure.py`: `retry_on_failure(retries,
 * delay)` calls the wrapped function until a call returns, sleeping `delay`
 * seconds between failed attempts, and re-raises the last exception once
 * `retries` attempts have failed; `fetch_users_with_retry` is that wrapper
 * with 4 retries, run inside `with_db_connection`.
 *
 * The wrapped function's calls are given by `attempt`: `attempt(k)` is how the
 * call numbered k (from 0) ends. Sleeps are counted; their length is not
 * modelled.
 */
module Retry {
  import opened Wrappers
  import opened Calls

  /** How one call of the retrying wrapper ended, with the number of calls and sleeps it made. */
  datatype RetryRun<+V> = RetryRun(result: Outcome<Option<V>>, calls: nat, sleeps: nat)

  /** The calls numbered 0 to n - 1 all raise an exception that `except Exception` catches. */
  predicate AllCaught<V>(attempt: nat -> Outcome<V>, n: nat)
  {
    forall k :: 0 <= k < n ==> attempt(k).Raised? && IsException(attempt(k).exc)
  }

  /**
   * What a call of the wrapper does: with `retries <= 0` it calls nothing and
   * returns None; otherwise it makes between 1 and `retries` calls, every call
   * but the last raising a caught exception and each followed by one sleep,
   * and it ends as the last call ended; a caught exception ends it only when
   * it is the exception of call number `retries`.
   */
  ghost predicate RetrySpec<V>(retries: int, attempt: nat -> Outcome<V>, run: RetryRun<V>)
  {
    if retries <= 0 then run == RetryRun(Returned(None), 0, 0)
    else
      && 1 <= run.calls <= retries
      && run.sleeps == run.calls - 1
      && AllCaught(attempt, run.calls - 1)
      && match attempt(run.calls - 1)
         case Returned(v) => run.result == Returned(Some(v))
         case Raised(e) => run.result == Raised(e) && (IsException(e) ==> run.calls == retries)
  }

  /** The wrapper returned by `retry_on_failure(retries, delay)(func)`, called once. */
  method RetryOnFailure<V>(retries: int, attempt: nat -> Outcome<V>) returns (run: RetryRun<V>)
    ensures RetrySpec(retries, attempt, run)
    ensures run.calls <= if retries < 0 then 0 else retries
  {
    var remaining := retries;
    var calls: nat := 0;
    var sleeps: nat := 0;
    while remaining > 0
      invariant remaining <= 0 ==> calls == 0 && retries <= 0
      invariant remaining > 0 ==> calls + remaining == retries
      invariant sleeps == calls && AllCaught(attempt, calls)
      decreases remaining
    {
      var outcome := attempt(calls);
      calls := calls + 1;
      match outcome {
        case Returned(v) =>
          return RetryRun(Returned(Some(v)), calls, sleeps);
        case Raised(e) =>
          if !IsException(e) {
            return RetryRun(Raised(e), calls, sleeps);
          }
          remaining := remaining - 1;
          if remaining > 0 {
            sleeps := sleeps + 1;
          } else {
            return RetryRun(Raised(e), calls, sleeps);
          }
      }
    }
    run := RetryRun(Returned(None), 0, 0);
  }

  /** `RetrySpec` leaves no choice: every call of the wrapper on the same attempts ends the same way. */
  lemma RetrySpecDeterministic<V>(retries: int, attempt: nat -> Outcome<V>, r1: RetryRun<V>, r2: RetryRun<V>)
    requires RetrySpec(retries, attempt, r1) && RetrySpec(retries, attempt, r2)
    ensures r1 == r2
  {
  }

  /** If call number k is the first to return, its value is returned after exactly k + 1 calls and k sleeps. */
  lemma FirstSuccessReturned<V>(retries: int, attempt: nat -> Outcome<V>, run: RetryRun<V>, k: nat)
    requires RetrySpec(retries, attempt, run)
    requires k < retries && AllCaught(attempt, k) && attempt(k).Returned?
    ensures run == RetryRun(Returned(Some(attempt(k).value)), k + 1, k)
  {
  }

  /** When all `retries` calls raise caught exceptions, the last one is re-raised after `retries - 1` sleeps. */
  lemma AllFailedReraisesLast<V>(retries: int, attempt: nat -> Outcome<V>, run: RetryRun<V>)
    requires RetrySpec(retries, attempt, run)
    requires retries > 0 && AllCaught(attempt, retries)
    ensures run == RetryRun(Raised(attempt(retries - 1).exc), retries, retries - 1)
  {
    assert attempt(run.calls - 1).Raised? && IsException(attempt(run.calls - 1).exc);
  }

  /** An exception outside `Exception` is not retried: it escapes from the call that raised it. */
  lemma UncaughtEscapesAtOnce<V>(retries: int, attempt: nat -> Outcome<V>, run: RetryRun<V>, k: nat)
    requires RetrySpec(retries, attempt, run)
    requires k < retries && AllCaught(attempt, k) && attempt(k).Raised? && !IsException(attempt(k).exc)
    ensures run == RetryRun(Raised(attempt(k).exc), k + 1, k)
  {
  }

  /** `retries=4` in the decorator of `fetch_users_with_retry`. */
  const FetchRetries: int := 4

  /**
   * `fetch_users_with_retry()`: `with_db_connection` opens a connection
   * (`connectError` is the exception `sqlite3.connect` raises, if any), runs
   * the retrying fetch, and closes the connection it opened on every path; a
   * sqlite3 error becomes a None result.
   */
  method FetchUsersWithRetry<V>(connectError: Option<Exc>, database: seq<Statement>, attempt: nat -> Outcome<V>)
    returns (r: Outcome<Option<V>>, run: RetryRun<V>, conn: Connection?)
    ensures connectError.Some? ==> conn == null && r == CatchDbError(Raised(connectError.value))
    ensures connectError.None? ==> RetrySpec(FetchRetries, attempt, run) && r == CatchDbError(run.result)
    ensures connectError.None? ==> conn != null && fresh(conn) && conn.closed && conn.durable == database
  {
    if connectError.Some? {
      conn := null;
      run := RetryRun(Returned(None), 0, 0);
      r := CatchDbError(Raised(connectError.value));
      return;
    }
    conn := new Connection(database);
    run := RetryOnFailure(FetchRetries, attempt);
    conn.Close();
    r := CatchDbError(run.result);
  }

  /**
   * A sqlite3 error that survives all four attempts reaches the caller of
   * `fetch_users_with_retry` as None; no sqlite3 error ever reaches it.
   */
  lemma FetchSqliteFailureIsNone<V>(attempt: nat -> Outcome<V>, run: RetryRun<V>)
    requires RetrySpec(FetchRetries, attempt, run)
    ensures AllCaught(attempt, 4) && IsSqliteError(attempt(3).exc) ==> CatchDbError(run.result) == Returned(None)
    ensures CatchDbError(run.result).Raised? ==> !IsSqliteError(CatchDbError(run.result).exc)
  {
    if AllCaught(attempt, 4) {
      AllFailedReraisesLast(FetchRetries, attempt, run);
    }
  }
}
