/**
 * `python-decorators-0x01/4-cache_query.py`: `cache_query` keeps the results of
 * the wrapped function in the module-wide dict `query_cache`, keyed by the
 * `query` argument; `fetch_users_with_cache` is that wrapper run inside a
 * `with_db_connection` that opens an in-memory database and always closes it.
 *
 * Queries are strings; the wrapped call's outcome is a parameter.
 */
module CacheQuery {
  import opened Wrappers
  import opened Calls

  /** What one call of the caching wrapper leaves behind: the new cache, its result, whether `func` ran. */
  datatype CacheStep<V> = CacheStep(cache: map<string, V>, result: Outcome<V>, called: bool)

  /**
   * One call of the caching wrapper with `query` on cache `cache`, where
   * `call` is how `func(conn, query, ...)` would end.
   */
  function CacheCall<V>(cache: map<string, V>, query: string, call: Outcome<V>): CacheStep<V>
  {
    if query in cache then CacheStep(cache, Returned(cache[query]), false)
    else match call
      case Returned(v) => CacheStep(cache[query := v], call, true)
      case Raised(_) => CacheStep(cache, call, true)
  }

  /** The global `query_cache`. */
  class QueryCache<V> {
    var entries: map<string, V>

    /** `query_cache = {}` at import time. */
    constructor ()
      ensures entries == map[]
    {
      entries := map[];
    }

    /** The wrapper `cache_query(func)` called with `query`; `conn` and the other arguments only reach `call`. */
    method Call(query: string, call: Outcome<V>) returns (result: Outcome<V>, called: bool)
      modifies this
      ensures CacheStep(entries, result, called) == CacheCall(old(entries), query, call)
    {
      if query in entries {
        return Returned(entries[query]), false;
      }
      result, called := call, true;
      if call.Returned? {
        entries := entries[query := call.value];
      }
    }
  }

  /**
   * A hit returns the stored value, leaves the cache alone and does not call
   * `func`; so its result does not depend on `conn` or the other arguments.
   */
  lemma HitReturnsStored<V>(cache: map<string, V>, query: string, c1: Outcome<V>, c2: Outcome<V>)
    requires query in cache
    ensures CacheCall(cache, query, c1) == CacheStep(cache, Returned(cache[query]), false)
    ensures CacheCall(cache, query, c1) == CacheCall(cache, query, c2)
  {
  }

  /**
   * A miss calls `func` once; when it returns, its value is both the result
   * and the new entry for `query`; when it raises, the exception passes
   * through and the cache is unchanged.
   */
  lemma MissCallsOnce<V>(cache: map<string, V>, query: string, call: Outcome<V>)
    requires query !in cache
    ensures var s := CacheCall(cache, query, call);
            && s.called && s.result == call
            && (call.Returned? ==> s.cache == cache[query := call.value])
            && (call.Raised? ==> s.cache == cache)
  {
  }

  /**
   * Entries are never removed or overwritten: the cache only grows, and
   * after a call that returns, `query_cache[query]` is the returned value.
   */
  lemma CacheOnlyGrows<V>(cache: map<string, V>, query: string, call: Outcome<V>)
    ensures var s := CacheCall(cache, query, call);
            && (forall q :: q in cache ==> q in s.cache && s.cache[q] == cache[q])
            && s.cache.Keys <= cache.Keys + {query}
            && (s.result.Returned? ==> query in s.cache && s.cache[query] == s.result.value)
  {
  }

  /** Once a call with `query` has returned, a second call with it returns the same value without calling `func`. */
  lemma SecondCallHits<V>(cache: map<string, V>, query: string, first: Outcome<V>, second: Outcome<V>)
    requires CacheCall(cache, query, first).result.Returned?
    ensures var s1 := CacheCall(cache, query, first);
            var s2 := CacheCall(s1.cache, query, second);
            s2 == CacheStep(s1.cache, s1.result, false)
  {
  }

  /**
   * `fetch_users_with_cache(query=...)`: open an in-memory database, run the
   * caching fetch, close the connection whatever happened. Nothing is caught.
   */
  method FetchUsersWithCache<V>(cache: QueryCache<V>, query: string, call: Outcome<V>)
    returns (result: Outcome<V>, called: bool, conn: Connection)
    modifies cache
    ensures CacheStep(cache.entries, result, called) == CacheCall(old(cache.entries), query, call)
    ensures fresh(conn) && conn.closed
  {
    conn := new Connection([]);
    result, called := cache.Call(query, call);
    conn.Close();
  }
}
