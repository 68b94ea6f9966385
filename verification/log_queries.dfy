/**
 * `python-decorators-0x01/0-log_queries.py`: `log_queries` finds the query of
 * a call (the `query` keyword argument, else the first positional argument),
 * writes it to the log when it is truthy, then calls the wrapped function with
 * the same arguments and returns what it returns.
 *
 * The log line is an output value; the wrapped call's outcome is a parameter.
 */
module LogQueries {
  import opened Wrappers
  import opened Calls

  /** The Python values a call's arguments can hold, as far as truthiness goes. */
  datatype PyValue =
    | PyNone
    | PyBool(b: bool)
    | PyInt(i: int)
    | PyStr(s: string)
    | PyList(items: seq<PyValue>)

  /** Python truthiness: None, False, 0, '' and [] are false. */
  predicate Truthy(v: PyValue)
  {
    match v
    case PyNone => false
    case PyBool(b) => b
    case PyInt(i) => i != 0
    case PyStr(s) => s != []
    case PyList(items) => items != []
  }

  /** The positional and keyword arguments of one call. */
  datatype Invocation = Invocation(args: seq<PyValue>, kwargs: map<string, PyValue>)

  /** What one call of the logging wrapper does. */
  datatype LogRun<+V> = LogRun(logged: Option<PyValue>, forwarded: seq<Invocation>, result: Outcome<V>)

  /** The `query` local of the wrapper once it has looked at the arguments. */
  function QueryOf(inv: Invocation): Option<PyValue>
  {
    if "query" in inv.kwargs then Some(inv.kwargs["query"])
    else if inv.args != [] then Some(inv.args[0])
    else None
  }

  /**
   * The wrapper of `log_queries(func)` called with `inv`, where `call` is how
   * `func(*args, **kwargs)` ends: the query is logged only when truthy, and
   * `func` is called once, with the same arguments, its ending passed on.
   */
  function LogQueries<V>(inv: Invocation, call: Outcome<V>): (r: LogRun<V>)
    ensures r.forwarded == [inv] && r.result == call
    ensures r.logged.Some? ==> Truthy(r.logged.value)
    ensures r.logged.Some? ==>
              ("query" in inv.kwargs && r.logged.value == inv.kwargs["query"])
              || ("query" !in inv.kwargs && inv.args != [] && r.logged.value == inv.args[0])
  {
    var q := QueryOf(inv);
    var logged := if q.Some? && Truthy(q.value) then q else None;
    LogRun(logged, [inv], call)
  }

  /** A `query` keyword wins over the positional arguments: they do not affect the log. */
  lemma KeywordQueryWins<V>(args1: seq<PyValue>, args2: seq<PyValue>, kwargs: map<string, PyValue>, call: Outcome<V>)
    requires "query" in kwargs
    ensures LogQueries(Invocation(args1, kwargs), call).logged == LogQueries(Invocation(args2, kwargs), call).logged
    ensures LogQueries(Invocation(args1, kwargs), call).logged.Some? <==> Truthy(kwargs["query"])
  {
  }

  /** Without a `query` keyword the first positional argument is logged, when it is truthy. */
  lemma FirstArgumentLogged<V>(args: seq<PyValue>, kwargs: map<string, PyValue>, call: Outcome<V>)
    requires "query" !in kwargs && args != []
    ensures LogQueries(Invocation(args, kwargs), call).logged == if Truthy(args[0]) then Some(args[0]) else None
  {
  }

  /**
   * Nothing is logged for a call with no `query` keyword and no positional
   * arguments, nor for a falsy query such as ''.
   */
  lemma NothingLogged<V>(inv: Invocation, call: Outcome<V>)
    ensures ("query" !in inv.kwargs && inv.args == []) ==> LogQueries(inv, call).logged == None
    ensures (QueryOf(inv).Some? && !Truthy(QueryOf(inv).value)) ==> LogQueries(inv, call).logged == None
  {
  }
}
