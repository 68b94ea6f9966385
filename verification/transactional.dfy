/**
 * `python-decorators-0x01/2-transactional.py`: `transactional` runs the wrapped
 * function on the connection it is given, commits when it returns and rolls
 * back (returning None) when it or the commit raises an `Exception`;
 * `update_user_email` is that wrapper run inside a `with_db_connection` that
 * turns a sqlite3 error into None and always closes the connection it opened.
 */
module Transactional {
  import opened Wrappers
  import opened Calls

  /** How a transaction run by the wrapper ends. */
  datatype TxEnd<+V> =
    | Committed(value: V)                       // `func` returned and `commit()` succeeded
    | RolledBack(cause: Exc)                    // `func` or `commit()` raised an Exception
    | Escaped(exc: Exc, commitTried: bool)      // a BaseException outside Exception passes through

  /** The transaction's ending, from how `func` ends and how `commit()` would end if it were called. */
  function TxEnding<V>(outcome: Outcome<V>, commitFailure: Option<Exc>): (t: TxEnd<V>)
    ensures t.Committed? <==> outcome.Returned? && commitFailure.None?
    ensures t.Committed? ==> t.value == outcome.value
    ensures t.RolledBack? <==>
              || (outcome.Raised? && IsException(outcome.exc))
              || (outcome.Returned? && commitFailure.Some? && IsException(commitFailure.value))
    ensures t.Escaped? ==> !IsException(t.exc) && t.commitTried == outcome.Returned?
  {
    match outcome
    case Raised(e) => if IsException(e) then RolledBack(e) else Escaped(e, false)
    case Returned(v) =>
      match commitFailure
      case None => Committed(v)
      case Some(e) => if IsException(e) then RolledBack(e) else Escaped(e, true)
  }

  /**
   * What the wrapper hands back: the function's own result, None after a
   * rollback, or the escaping exception. A Python value that may be None is an
   * `Option` here, so a function that returns None after a commit hands back
   * the same None as a rollback does.
   */
  function TxResult<V>(t: TxEnd<Option<V>>): (r: Outcome<Option<V>>)
  {
    match t
    case Committed(v) => Returned(v)
    case RolledBack(_) => Returned(None)
    case Escaped(e, _) => Raised(e)
  }

  /**
   * No `Exception` escapes the wrapper: it returns `func`'s value exactly when
   * the commit went through, None when it rolled back, and raises only a
   * BaseException outside `Exception`.
   */
  lemma NoExceptionEscapes<V>(outcome: Outcome<Option<V>>, commitFailure: Option<Exc>)
    ensures var t := TxEnding(outcome, commitFailure);
            var r := TxResult(t);
            && (r.Raised? ==> !IsException(r.exc))
            && (t.Committed? ==> r == Returned(outcome.value))
            && (t.RolledBack? ==> r == Returned(None))
  {
  }

  /**
   * The wrapper returned by `transactional(func)`, called with `conn`: `func`
   * runs on `conn` itself (its writes join `conn`'s open transaction), then
   * `commit()`, or `rollback()` after an Exception.
   * The transaction is all or nothing: the writes become durable together
   * with what was pending exactly when it commits, and a rollback discards
   * them all.
   */
  method Transactional<V>(conn: Connection, call: ConnCall<Option<V>>, commitFailure: Option<Exc>)
    returns (r: Outcome<Option<V>>)
    modifies conn
    ensures r == TxResult(TxEnding(call.outcome, commitFailure))
    ensures TxEnding(call.outcome, commitFailure).Committed? ==>
              conn.durable == old(conn.durable) + old(conn.pending) + call.writes && conn.pending == []
    ensures TxEnding(call.outcome, commitFailure).RolledBack? ==>
              conn.durable == old(conn.durable) && conn.pending == []
    ensures TxEnding(call.outcome, commitFailure).Escaped? ==>
              conn.durable == old(conn.durable) && conn.pending == old(conn.pending) + call.writes
    ensures conn.commits == old(conn.commits) + (if call.outcome.Returned? then 1 else 0)
    ensures conn.rollbacks == old(conn.rollbacks) + (if TxEnding(call.outcome, commitFailure).RolledBack? then 1 else 0)
    ensures conn.closed == old(conn.closed)
  {
    conn.Execute(call.writes);
    match call.outcome {
      case Raised(e) =>
        if IsException(e) {
          conn.Rollback();
          r := Returned(None);
        } else {
          r := Raised(e);
        }
      case Returned(v) =>
        var failed := conn.Commit(commitFailure);
        match failed {
          case None =>
            r := Returned(v);
          case Some(e) =>
            if IsException(e) {
              conn.Rollback();
              r := Returned(None);
            } else {
              r := Raised(e);
            }
        }
    }
  }

  /**
   * `update_user_email(user_id=..., new_email=...)`: `with_db_connection`
   * connects (`connectError` is what `sqlite3.connect` raises, if anything),
   * the transactional wrapper runs the UPDATE (`executeError` is what
   * `cursor.execute` raises, if anything), and the connection is closed on
   * every path; a sqlite3 error that reaches `with_db_connection` becomes None.
   * The undecorated function has no `return`, so a commit hands back None too.
   */
  method UpdateUserEmail(connectError: Option<Exc>, database: seq<Statement>, userId: int, newEmail: string,
                         executeError: Option<Exc>, commitFailure: Option<Exc>)
    returns (r: Outcome<Option<()>>, conn: Connection?)
    ensures connectError.Some? ==> conn == null && r == CatchDbError(Raised(connectError.value))
    ensures connectError.None? ==> conn != null && fresh(conn) && conn.closed
    ensures connectError.None? ==> r == CatchDbError(TxResult(TxEnding(UpdateCall(userId, newEmail, executeError).outcome, commitFailure)))
    ensures connectError.None? ==>
              conn.durable == database +
                (if TxEnding(UpdateCall(userId, newEmail, executeError).outcome, commitFailure).Committed?
                 then [SetEmail(userId, newEmail)] else [])
    ensures r.Returned? ==> r.value.None?
  {
    if connectError.Some? {
      conn := null;
      r := CatchDbError(Raised(connectError.value));
      return;
    }
    conn := new Connection(database);
    var tx := Transactional(conn, UpdateCall(userId, newEmail, executeError), commitFailure);
    conn.Close();
    r := CatchDbError(tx);
  }

  /** One call of the undecorated `update_user_email`: one UPDATE, then it returns None. */
  function UpdateCall(userId: int, newEmail: string, executeError: Option<Exc>): ConnCall<Option<()>>
  {
    match executeError
    case None => ConnCall([SetEmail(userId, newEmail)], Returned(None))
    case Some(e) => ConnCall([], Raised(e))
  }

  /**
   * The new email is stored exactly when the statement ran and the commit
   * succeeded. Whether the transaction committed or rolled back, the caller
   * gets None, so the result does not tell the two apart.
   */
  lemma UpdateAllOrNothing(userId: int, newEmail: string, executeError: Option<Exc>, commitFailure: Option<Exc>)
    ensures var t := TxEnding(UpdateCall(userId, newEmail, executeError).outcome, commitFailure);
            && (t.Committed? <==> executeError.None? && commitFailure.None?)
            && (t.Committed? || t.RolledBack? ==> CatchDbError(TxResult(t)) == Returned(None))
  {
  }
}
