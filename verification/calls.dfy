/**
 * Calls to wrapped functions and the sqlite3 connections they run on, as the
 * decorators in `python-decorators-0x01` see them.
 *
 * A wrapped function is not run: what one call of it does is given as a value
 * (it returns a value or raises an exception). Python's exception hierarchy is
 * reduced to the three kinds the decorators tell apart.
 */
module Calls {
  import opened Wrappers

  /**
   * `sqlite3.Error` (caught by `with_db_connection`), any other `Exception`
   * (caught by `retry_on_failure` and `transactional`), or a `BaseException`
   * outside `Exception` such as `KeyboardInterrupt` (caught by none of them).
   */
  datatype ExcKind = SqliteError | OtherException | NonException

  datatype Exc = Exc(kind: ExcKind, message: string)

  /** What `except Exception` catches. */
  predicate IsException(e: Exc)
  {
    e.kind != NonException
  }

  /** What `except sqlite3.Error` catches. */
  predicate IsSqliteError(e: Exc)
  {
    e.kind == SqliteError
  }

  /** How one call ends: it returns a value or raises. */
  datatype Outcome<+V> = Returned(value: V) | Raised(exc: Exc)

  /** A write statement a wrapped function executes on its connection. */
  datatype Statement =
    | SetEmail(userId: int, email: string)   // UPDATE users SET email = ? WHERE id = ?
    | OtherWrite(sql: string)

  /** One call of a function that runs on a connection: the writes it executes, then how it ends. */
  datatype ConnCall<+V> = ConnCall(writes: seq<Statement>, outcome: Outcome<V>)

  /**
   * An open `sqlite3.Connection`: the writes of the open transaction, the
   * writes made durable by commits, and whether it has been closed.
   */
  class Connection {
    var pending: seq<Statement>
    var durable: seq<Statement>
    var closed: bool
    /** The number of `commit()` and `rollback()` calls made on it. */
    var commits: nat
    var rollbacks: nat

    /** `sqlite3.connect(...)` that succeeds: an open connection to a database holding `durable`. */
    constructor (durable: seq<Statement>)
      ensures this.durable == durable && pending == [] && !closed
      ensures commits == 0 && rollbacks == 0
    {
      this.durable := durable;
      pending := [];
      closed := false;
      commits := 0;
      rollbacks := 0;
    }

    /** `cursor.execute(statement)` of writes: they join the open transaction. */
    method Execute(writes: seq<Statement>)
      modifies this
      ensures pending == old(pending) + writes
      ensures durable == old(durable) && closed == old(closed)
      ensures commits == old(commits) && rollbacks == old(rollbacks)
    {
      pending := pending + writes;
    }

    /**
     * `commit()`: when it succeeds (`failure` is None) the open transaction
     * becomes durable; when it raises, nothing changes.
     */
    method Commit(failure: Option<Exc>) returns (raised: Option<Exc>)
      modifies this
      ensures raised == failure && commits == old(commits) + 1 && rollbacks == old(rollbacks)
      ensures failure.None? ==> durable == old(durable) + old(pending) && pending == []
      ensures failure.Some? ==> durable == old(durable) && pending == old(pending)
      ensures closed == old(closed)
    {
      commits := commits + 1;
      raised := failure;
      if failure.None? {
        durable := durable + pending;
        pending := [];
      }
    }

    /** `rollback()`: the open transaction is discarded. */
    method Rollback()
      modifies this
      ensures pending == [] && durable == old(durable) && closed == old(closed)
      ensures rollbacks == old(rollbacks) + 1 && commits == old(commits)
    {
      rollbacks := rollbacks + 1;
      pending := [];
    }

    /** `close()`: an uncommitted transaction is lost with the connection. */
    method Close()
      modifies this
      ensures closed && pending == [] && durable == old(durable)
      ensures commits == old(commits) && rollbacks == old(rollbacks)
    {
      closed := true;
      pending := [];
    }
  }

  /**
   * The `except sqlite3.Error: return None` rule of `with_db_connection`: a
   * sqlite3 error becomes a None result, any other ending passes through.
   */
  function CatchDbError<V>(o: Outcome<Option<V>>): (r: Outcome<Option<V>>)
    ensures r.Raised? ==> o.Raised? && !IsSqliteError(o.exc) && r == o
    ensures o.Raised? && IsSqliteError(o.exc) ==> r == Returned(None)
    ensures o.Returned? ==> r == o
  {
    if o.Raised? && IsSqliteError(o.exc) then Returned(None) else o
  }
}
