/**
 * `python-generators-0x00/1-batch_processing.py`: the generator
 * `stream_users_in_batches` runs `SELECT user_id, name, email, age FROM
 * user_data ORDER BY user_id` and yields `fetchmany(batch_size)` batches until
 * one is empty; `batch_processing` walks those batches row by row and prints
 * every user whose age is over 25.
 *
 * The ordered result set of the query is the parameter `resultSet`.
 */
module BatchProcessing {
  import opened Wrappers
  import opened Chunking

  /** A row as the dictionary cursor returns it; `age` is None when the dictionary has no `age` key. */
  datatype StreamedRow = StreamedRow(userId: string, name: string, email: string, age: Option<int>)

  /** The cursor's default `arraysize`. */
  const ArraySize: nat := 1

  /**
   * How many rows `fetchmany(size)` reads: `size or arraysize`, and nothing
   * when that count is not positive.
   */
  function FetchCount(size: int): nat
  {
    if size == 0 then ArraySize else if size < 0 then 0 else size
  }

  /** `user.get('age', 0)`. */
  function AgeOrZero(row: StreamedRow): int
  {
    match row.age
    case Some(a) => a
    case None => 0
  }

  /** The rows `batch_processing` prints: those with age over 25, in stream order. */
  function Over25(rows: seq<StreamedRow>): seq<StreamedRow>
  {
    if rows == [] then []
    else
      var last := rows[|rows| - 1];
      Over25(rows[..|rows| - 1]) + if AgeOrZero(last) > 25 then [last] else []
  }

  datatype GenState = Created | Suspended | Finished

  datatype Step = Yield(batch: seq<StreamedRow>) | StopIteration

  /** A `stream_users_in_batches(batch_size)` generator object; `pos` is the cursor position. */
  class BatchStream {
    const resultSet: seq<StreamedRow>
    const batchSize: int
    var pos: nat
    var state: GenState
    ghost var emitted: seq<seq<StreamedRow>>

    ghost predicate Valid()
      reads this
    {
      && pos <= |resultSet|
      && match state
         case Created => pos == 0 && emitted == []
         case Suspended =>
           && FetchCount(batchSize) > 0 && emitted != []
           && emitted + Chunks(resultSet, FetchCount(batchSize), pos) == Chunks(resultSet, FetchCount(batchSize), 0)
         case Finished => emitted == Chunks(resultSet, FetchCount(batchSize), 0)
    }

    constructor (resultSet: seq<StreamedRow>, batchSize: int)
      ensures Valid()
      ensures this.resultSet == resultSet && this.batchSize == batchSize
      ensures state == Created && emitted == []
    {
      this.resultSet := resultSet;
      this.batchSize := batchSize;
      pos := 0;
      state := Created;
      emitted := [];
    }

    /** `next()`: one `fetchmany(batch_size)`; an empty batch ends the generator. */
    method Next() returns (s: Step)
      requires Valid()
      modifies this
      ensures Valid()
      ensures old(state) == Finished ==> s == StopIteration && emitted == old(emitted) && pos == old(pos)
      ensures s.Yield? ==> state == Suspended && emitted == old(emitted) + [s.batch]
      ensures s.Yield? ==> s != Yield([]) && |s.batch| <= FetchCount(batchSize)
      ensures state == Finished || pos > old(pos)
      ensures s.Yield? ==> s.batch == resultSet[old(pos)..pos]
      ensures s.StopIteration? ==> state == Finished && emitted == old(emitted)
    {
      if state == Finished {
        return StopIteration;
      }
      var batch := Slice(resultSet, pos, FetchCount(batchSize));
      if batch == [] {
        Finish();
        return StopIteration;
      }
      SliceIsWindow(resultSet, pos, FetchCount(batchSize));
      Advance(batch);
      s := Yield(batch);
    }

    /** The fetch came back empty: the generator's body returns. */
    method Finish()
      requires Valid() && state != Finished && Slice(resultSet, pos, FetchCount(batchSize)) == []
      modifies this
      ensures Valid() && state == Finished && emitted == old(emitted) && pos == old(pos)
    {
      ReadEnd(resultSet, FetchCount(batchSize), pos, emitted);
      state := Finished;
    }

    /** The fetch returned `batch`: the cursor moves past it and the body suspends at `yield batch`. */
    method Advance(batch: seq<StreamedRow>)
      requires Valid() && state != Finished
      requires batch == Slice(resultSet, pos, FetchCount(batchSize)) && batch != []
      requires pos + |batch| <= |resultSet|
      modifies this
      ensures Valid() && state == Suspended
      ensures emitted == old(emitted) + [batch] && pos == old(pos) + |batch|
    {
      ReadNextWindow(resultSet, FetchCount(batchSize), pos, emitted);
      pos := pos + |batch|;
      state := Suspended;
      emitted := emitted + [batch];
    }
  }

  /** A non-empty window is a contiguous run of rows. */
  lemma SliceIsWindow<T>(rows: seq<T>, pos: nat, n: nat)
    requires Slice(rows, pos, n) != []
    ensures pos + |Slice(rows, pos, n)| <= |rows| && Slice(rows, pos, n) == rows[pos..pos + |Slice(rows, pos, n)|]
  {
  }

  /**
   * `batch_processing(batch_size)`: for each batch of the stream, for each
   * user in it, print the user when `user.get('age', 0) > 25`.
   */
  method BatchProcess(resultSet: seq<StreamedRow>, batchSize: int) returns (printed: seq<StreamedRow>)
    ensures FetchCount(batchSize) > 0 ==> printed == Over25(resultSet)
    ensures FetchCount(batchSize) == 0 ==> printed == []
  {
    var stream := new BatchStream(resultSet, batchSize);
    printed := [];
    while true
      invariant stream.Valid() && stream.resultSet == resultSet && stream.batchSize == batchSize
      invariant stream.state != Finished
      invariant printed == Over25(Flatten(stream.emitted))
      decreases |resultSet| - stream.pos + (if stream.state == Created then 1 else 0)
    {
      ghost var before := stream.emitted;
      var step := stream.Next();
      if step.StopIteration? {
        break;
      }
      var shown := ProcessBatch(step.batch);
      printed := printed + shown;
      PrintedGrows(before, step.batch);
    }
    if FetchCount(batchSize) > 0 {
      ChunksConcat(resultSet, FetchCount(batchSize), 0);
    } else {
      ChunksOfZero(resultSet, 0);
    }
  }

  /** The inner loop of `batch_processing`: the users of one batch it prints, in order. */
  method ProcessBatch(batch: seq<StreamedRow>) returns (printed: seq<StreamedRow>)
    ensures printed == Over25(batch)
  {
    printed := [];
    for i := 0 to |batch|
      invariant printed == Over25(batch[..i])
    {
      assert batch[..i + 1] == batch[..i] + [batch[i]];
      if AgeOrZero(batch[i]) > 25 {
        printed := printed + [batch[i]];
      }
    }
    assert batch[..|batch|] == batch;
  }

  /** What is printed for one more batch is what is printed for its rows. */
  lemma PrintedGrows(before: seq<seq<StreamedRow>>, batch: seq<StreamedRow>)
    ensures Over25(Flatten(before + [batch])) == Over25(Flatten(before)) + Over25(batch)
  {
    FlattenAppend(before, batch);
    Over25Append(Flatten(before), batch);
  }

  /** Filtering a concatenation filters each part. */
  lemma {:induction false} Over25Append(a: seq<StreamedRow>, b: seq<StreamedRow>)
    ensures Over25(a + b) == Over25(a) + Over25(b)
    decreases |b|
  {
    if b != [] {
      var b' := b[..|b| - 1];
      assert (a + b)[..|a + b| - 1] == a + b';
      Over25Append(a, b');
    } else {
      assert a + b == a;
    }
  }

  /**
   * `batch_processing` prints exactly the rows whose age is over 25, each as
   * often as it occurs in the stream: a row without an `age` key counts as age
   * 0 and is never printed.
   */
  lemma {:induction false} Over25Exactly(rows: seq<StreamedRow>)
    ensures forall x :: multiset(Over25(rows))[x] == if AgeOrZero(x) > 25 then multiset(rows)[x] else 0
    ensures forall x :: x in Over25(rows) ==> x.age.Some? && x.age.value > 25
  {
    if rows != [] {
      var init := rows[..|rows| - 1];
      Over25Exactly(init);
      assert rows == init + [rows[|rows| - 1]];
    }
  }

  /** The printed rows keep the order of the stream: they form a subsequence of it. */
  lemma {:induction false} Over25IsSubsequence(rows: seq<StreamedRow>)
    ensures IsSubsequence(Over25(rows), rows)
  {
    if rows != [] {
      var init := rows[..|rows| - 1];
      var last := rows[|rows| - 1];
      Over25IsSubsequence(init);
      SubsequenceExtend(Over25(init), init, last, AgeOrZero(last) > 25);
      assert rows == init + [last];
    } else {
      assert Picks([], Over25(rows), rows);
    }
  }

  /** `s` is `t` with some elements left out and the rest in order. */
  ghost predicate IsSubsequence<T>(s: seq<T>, t: seq<T>)
  {
    exists picks: seq<nat> :: Picks(picks, s, t)
  }

  /** `picks` lists, in increasing order, the positions of `t` that `s` keeps. */
  ghost predicate Picks<T>(picks: seq<nat>, s: seq<T>, t: seq<T>)
  {
    && |picks| == |s|
    && (forall i :: 0 <= i < |picks| ==> picks[i] < |t| && s[i] == t[picks[i]])
    && (forall i, j :: 0 <= i < j < |picks| ==> picks[i] < picks[j])
  }

  lemma SubsequenceExtend<T>(s: seq<T>, t: seq<T>, x: T, keep: bool)
    requires IsSubsequence(s, t)
    ensures IsSubsequence(s + if keep then [x] else [], t + [x])
  {
    var picks: seq<nat> :| Picks(picks, s, t);
    if keep {
      PicksKeep(picks, s, t, x);
    } else {
      PicksDrop(picks, s, t, x);
      assert s + [] == s;
    }
  }

  lemma PicksKeep<T>(picks: seq<nat>, s: seq<T>, t: seq<T>, x: T)
    requires Picks(picks, s, t)
    ensures Picks(picks + [|t|], s + [x], t + [x])
  {
    var p', s', t' := picks + [|t|], s + [x], t + [x];
    forall i | 0 <= i < |p'| ensures p'[i] < |t'| && s'[i] == t'[p'[i]] {
      if i < |picks| {
        assert p'[i] == picks[i] && s'[i] == s[i] && t'[picks[i]] == t[picks[i]];
      }
    }
    forall i, j | 0 <= i < j < |p'| ensures p'[i] < p'[j] {
      assert p'[i] == picks[i];
    }
  }

  lemma PicksDrop<T>(picks: seq<nat>, s: seq<T>, t: seq<T>, x: T)
    requires Picks(picks, s, t)
    ensures Picks(picks, s, t + [x])
  {
    var t' := t + [x];
    forall i | 0 <= i < |picks| ensures picks[i] < |t'| && s[i] == t'[picks[i]] {
      assert t'[picks[i]] == t[picks[i]];
    }
  }
}
