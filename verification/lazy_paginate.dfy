/**
 * `python-generators-0x00/2-lazy_paginate.py`: `paginate_users` fetches one
 * page with `LIMIT page_size OFFSET offset`; the generator `lazy_pagination`
 * fetches pages at offsets 0, page_size, 2 * page_size, ... and yields each one
 * until a fetch comes back empty.
 *
 * The page query has no ORDER BY; the model reads `table` in one fixed order,
 * the same for every fetch.
 */
module LazyPaginate {
  import opened Wrappers
  import opened UserData
  import opened Chunking

  /** The only way the page query fails here: MySQL rejects `LIMIT` with a negative count. */
  datatype DbError = NegativeLimit

  /**
   * `paginate_users(page_size, offset)`: the rows of `table` from position
   * `offset` on, at most `page_size` of them.
   */
  function PaginateUsers(table: seq<UserRow>, pageSize: int, offset: nat): (r: Result<seq<UserRow>, DbError>)
    ensures r.Failure? <==> pageSize < 0
    ensures r.Success? ==> |r.value| == if offset < |table| then Min(pageSize, |table| - offset) else 0
    ensures r.Success? ==> forall i :: 0 <= i < |r.value| ==> r.value[i] == table[offset + i]
    ensures r.Success? ==> (r.value == [] <==> offset >= |table| || pageSize == 0)
  {
    if pageSize < 0 then Failure(NegativeLimit) else Success(Slice(table, offset, pageSize))
  }

  /** Where the generator's body is: not started, suspended at `yield`, or returned. */
  datatype GenState = Created | Suspended | Finished

  /** What one `next()` on the generator gives the caller. */
  datatype Step = Yield(page: seq<UserRow>) | StopIteration | Raise(error: DbError)

  /** A `lazy_pagination(page_size)` generator object. */
  class LazyPagination {
    const table: seq<UserRow>
    const pageSize: int
    var offset: int
    var state: GenState
    /** The pages yielded so far, in order. */
    ghost var emitted: seq<seq<UserRow>>
    /** The number of `paginate_users` calls made so far. */
    ghost var fetches: nat

    ghost predicate Valid()
      reads this
    {
      match state
      case Created =>
        offset == 0 && emitted == [] && fetches == 0
      case Suspended =>
        && pageSize > 0 && 0 < |emitted| && fetches == |emitted|
        && offset == (|emitted| - 1) * pageSize
        && emitted + Chunks(table, pageSize, offset + pageSize) == Chunks(table, pageSize, 0)
      case Finished =>
        && fetches == |emitted| + 1
        && (pageSize >= 0 ==> emitted == Chunks(table, pageSize, 0))
        && (pageSize < 0 ==> emitted == [])
    }

    /** Calling `lazy_pagination(page_size)` runs none of its body. */
    constructor (table: seq<UserRow>, pageSize: int)
      ensures Valid()
      ensures this.table == table && this.pageSize == pageSize
      ensures state == Created && offset == 0 && emitted == []
    {
      this.table := table;
      this.pageSize := pageSize;
      offset := 0;
      state := Created;
      emitted := [];
      fetches := 0;
    }

    /**
     * `next()`: resume after the last `yield` (adding `page_size` to the
     * offset), fetch the page at the offset, and yield it unless it is empty.
     */
    method Next() returns (s: Step)
      requires Valid()
      modifies this
      ensures Valid()
      ensures old(state) == Finished ==> s == StopIteration && state == Finished
      ensures old(state) == Finished ==> emitted == old(emitted) && fetches == old(fetches)
      ensures old(state) != Finished ==> fetches == old(fetches) + 1
      ensures old(state) == Created ==> offset == 0
      ensures old(state) == Suspended ==> offset == old(offset) + pageSize
      ensures s.Yield? ==> state == Suspended && emitted == old(emitted) + [s.page]
      ensures s.Yield? ==> s != Yield([]) && |s.page| <= pageSize
      ensures s.Yield? ==> PaginateUsers(table, pageSize, offset) == Success(s.page)
      ensures s.StopIteration? ==> state == Finished && emitted == old(emitted)
      ensures s.Raise? ==> old(state) == Created && pageSize < 0 && state == Finished
    {
      if state == Finished {
        return StopIteration;
      }
      if state == Suspended {
        Resume();
      }
      var fetched := PaginateUsers(table, pageSize, offset);
      if fetched.Failure? {
        Finish();
        return Raise(fetched.error);
      }
      var page := fetched.value;
      if page == [] {
        Finish();
        return StopIteration;
      }
      Suspend(page);
      s := Yield(page);
    }

    /** The body is about to fetch the page at `offset`. */
    ghost predicate ReadyToFetch()
      reads this
    {
      && 0 <= offset
      && match state
         case Created => offset == 0 && emitted == [] && fetches == 0
         case Suspended =>
           && pageSize > 0 && fetches == |emitted| && offset == |emitted| * pageSize
           && emitted + Chunks(table, pageSize, offset) == Chunks(table, pageSize, 0)
         case Finished => false
    }

    /** Resuming after `yield page`: `offset += page_size`, before the fetch. */
    method Resume()
      requires Valid() && state == Suspended
      modifies this
      ensures ReadyToFetch() && state == Suspended && offset == old(offset) + pageSize
      ensures emitted == old(emitted) && fetches == old(fetches)
    {
      MulStep(|emitted|, pageSize);
      offset := offset + pageSize;
    }

    /** The fetch raised or came back empty: the generator's body ends. */
    method Finish()
      requires ReadyToFetch()
      requires pageSize < 0 || PaginateUsers(table, pageSize, offset) == Success([])
      modifies this
      ensures Valid() && state == Finished
      ensures emitted == old(emitted) && fetches == old(fetches) + 1 && offset == old(offset)
    {
      if pageSize >= 0 {
        ReadEnd(table, pageSize, offset, emitted);
      }
      fetches := fetches + 1;
      state := Finished;
    }

    /** The fetch returned the non-empty `page`: the body suspends at `yield page`. */
    method Suspend(page: seq<UserRow>)
      requires ReadyToFetch()
      requires PaginateUsers(table, pageSize, offset) == Success(page) && page != []
      modifies this
      ensures Valid() && state == Suspended
      ensures emitted == old(emitted) + [page] && fetches == old(fetches) + 1 && offset == old(offset)
    {
      ReadNext(table, pageSize, offset, emitted);
      fetches := fetches + 1;
      state := Suspended;
      emitted := emitted + [page];
    }
  }

  /**
   * For a positive page size the yielded pages, put back together, are the
   * whole table in order, and there are ceil(N / page_size) of them.
   */
  lemma PagesCoverTable(table: seq<UserRow>, pageSize: nat)
    requires pageSize > 0
    ensures Flatten(Chunks(table, pageSize, 0)) == table
    ensures |Chunks(table, pageSize, 0)| == (|table| + pageSize - 1) / pageSize
  {
    ChunksConcat(table, pageSize, 0);
    ChunksCount(table, pageSize, 0);
  }

  /** With page size 0 the first fetch is `LIMIT 0`, which is empty: nothing is yielded. */
  lemma ZeroPageSizeYieldsNothing(table: seq<UserRow>)
    ensures Chunks(table, 0, 0) == []
  {
    ChunksOfZero(table, 0);
  }

  /**
   * The last page holds N mod page_size rows, or page_size rows when N is a
   * multiple of it.
   */
  lemma {:induction false} LastPageSize(table: seq<UserRow>, pageSize: nat)
    requires pageSize > 0 && |table| > 0
    ensures var pages := Chunks(table, pageSize, 0);
            |pages| > 0 &&
            |pages[|pages| - 1]| == if |table| % pageSize == 0 then pageSize else |table| % pageSize
  {
    var pages := Chunks(table, pageSize, 0);
    ChunksCount(table, pageSize, 0);
    var c := |pages|;
    var start := (c - 1) * pageSize;
    assert start < |table| <= start + pageSize by { MulStep(c, pageSize); }
    ChunkAt(table, pageSize, 0, c - 1);
    var rest := |table| - start;
    assert |pages[c - 1]| == rest;
    ModOfSplit(|table|, pageSize, c - 1, rest);
  }

  /** If m == q * n + r with 0 < r <= n, then m % n is r, or 0 when r == n. */
  lemma ModOfSplit(m: nat, n: nat, q: nat, r: nat)
    requires n > 0 && 0 < r <= n && m == q * n + r
    ensures m % n == if r == n then 0 else r
  {
    if r == n {
      assert m == (q + 1) * n;
      ModMultiple(q + 1, n);
    } else {
      ModUnique(m, n, q, r);
    }
  }

  lemma ModMultiple(k: nat, n: nat)
    requires n > 0
    ensures (k * n) % n == 0
  {
    ModUnique(k * n, n, k, 0);
  }

  lemma ModUnique(m: nat, n: nat, q: nat, r: nat)
    requires n > 0 && 0 <= r < n && m == q * n + r
    ensures m % n == r
  {
    var q', r' := m / n, m % n;
    assert m == q' * n + r';
    if q' < q {
      MulMono(q' + 1, q, n);
      assert false;
    }
    if q' > q {
      MulMono(q + 1, q', n);
      assert false;
    }
  }
}
