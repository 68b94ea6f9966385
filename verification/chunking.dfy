/**
 * Reading an ordered result set a bounded number of rows at a time.
 *
 * Both `LIMIT n OFFSET pos` and a cursor's `fetchmany(n)` return the window of
 * at most `n` rows that starts at position `pos`. Reading windows of one fixed
 * size until the first empty one is `Chunks`; the lemmas here say what that
 * sequence of windows is, once, for both callers.
 */
module Chunking {

  function Min(a: int, b: int): int { if a <= b then a else b }

  /** The window of at most `n` rows of `rows` that starts at `pos`. */
  function Slice<T>(rows: seq<T>, pos: nat, n: nat): (r: seq<T>)
    ensures |r| == if pos < |rows| then Min(n, |rows| - pos) else 0
    ensures forall i :: 0 <= i < |r| ==> r[i] == rows[pos + i]
    ensures r == [] <==> pos >= |rows| || n == 0
  {
    if pos >= |rows| then [] else rows[pos..Min(pos + n, |rows|)]
  }

  /** All the windows of size `n`, starting at `pos`, up to (and without) the first empty one. */
  function Chunks<T>(rows: seq<T>, n: nat, pos: nat): seq<seq<T>>
    decreases if pos < |rows| then |rows| - pos else 0
  {
    var w := Slice(rows, pos, n);
    if w == [] then [] else [w] + Chunks(rows, n, pos + n)
  }

  /** Concatenation of a sequence of sequences, in order. */
  function Flatten<T>(ss: seq<seq<T>>): (r: seq<T>)
    ensures ss == [] ==> r == []
  {
    if ss == [] then [] else ss[0] + Flatten(ss[1..])
  }

  lemma {:induction false} FlattenAppend<T>(ss: seq<seq<T>>, s: seq<T>)
    ensures Flatten(ss + [s]) == Flatten(ss) + s
  {
    if ss == [] {
      assert ss + [s] == [s];
    } else {
      assert (ss + [s])[1..] == ss[1..] + [s];
      FlattenAppend(ss[1..], s);
    }
  }

  /**
   * Reading a non-empty window moves the cursor past exactly the rows read;
   * the windows after it are those that start at the new position.
   */
  lemma ChunksAdvance<T>(rows: seq<T>, n: nat, pos: nat)
    requires Slice(rows, pos, n) != []
    ensures var w := Slice(rows, pos, n);
            Chunks(rows, n, pos) == [w] + Chunks(rows, n, pos + |w|)
  {
    var w := Slice(rows, pos, n);
    if |w| < n {
      assert Slice(rows, pos + n, n) == [];
      assert Slice(rows, pos + |w|, n) == [];
    }
  }

  /** After an empty window, the windows read so far are all the windows there are. */
  lemma ReadEnd<T>(rows: seq<T>, n: nat, pos: nat, read: seq<seq<T>>)
    requires Slice(rows, pos, n) == []
    requires (pos == 0 && read == []) || read + Chunks(rows, n, pos) == Chunks(rows, n, 0)
    ensures read == Chunks(rows, n, 0)
  {
    assert Chunks(rows, n, pos) == [];
    assert read + [] == read;
  }

  /**
   * A non-empty window joins the windows read so far; the rest are those from
   * `n` rows further on.
   */
  lemma ReadNext<T>(rows: seq<T>, n: nat, pos: nat, read: seq<seq<T>>)
    requires Slice(rows, pos, n) != []
    requires (pos == 0 && read == []) || read + Chunks(rows, n, pos) == Chunks(rows, n, 0)
    ensures (read + [Slice(rows, pos, n)]) + Chunks(rows, n, pos + n) == Chunks(rows, n, 0)
  {
    ChunksUnfold(rows, n, pos);
    AppendAssoc(read, [Slice(rows, pos, n)], Chunks(rows, n, pos + n));
  }

  /** The same, with the cursor moved past exactly the rows read. */
  lemma ReadNextWindow<T>(rows: seq<T>, n: nat, pos: nat, read: seq<seq<T>>)
    requires Slice(rows, pos, n) != []
    requires (pos == 0 && read == []) || read + Chunks(rows, n, pos) == Chunks(rows, n, 0)
    ensures (read + [Slice(rows, pos, n)]) + Chunks(rows, n, pos + |Slice(rows, pos, n)|) == Chunks(rows, n, 0)
  {
    var w := Slice(rows, pos, n);
    ChunksAdvance(rows, n, pos);
    AppendAssoc(read, [w], Chunks(rows, n, pos + |w|));
  }

  lemma AppendAssoc<T>(a: seq<T>, b: seq<T>, c: seq<T>)
    ensures (a + b) + c == a + (b + c) && [] + b == b
  {
  }

  /** A window of size zero is empty, so nothing is read at all. */
  lemma ChunksOfZero<T>(rows: seq<T>, pos: nat)
    ensures Chunks(rows, 0, pos) == []
  {
  }

  /** The windows put back together give the rows from `pos` on, in order. */
  lemma {:induction false} ChunksConcat<T>(rows: seq<T>, n: nat, pos: nat)
    requires n > 0 && pos <= |rows|
    ensures Flatten(Chunks(rows, n, pos)) == rows[pos..]
    decreases |rows| - pos
  {
    var w := Slice(rows, pos, n);
    if w != [] {
      var next := Min(pos + n, |rows|);
      ChunksUnfold(rows, n, pos);
      if pos + n <= |rows| {
        ChunksConcat(rows, n, pos + n);
      } else {
        assert Slice(rows, pos + n, n) == [];
      }
      FlattenCons(w, Chunks(rows, n, pos + n));
      SplitAt(rows, pos, next);
    }
  }

  lemma SplitAt<T>(rows: seq<T>, pos: nat, next: nat)
    requires pos <= next <= |rows|
    ensures rows[pos..] == rows[pos..next] + rows[next..]
  {
  }

  /** A non-empty window is followed by the windows from the next position. */
  lemma ChunksUnfold<T>(rows: seq<T>, n: nat, pos: nat)
    requires Slice(rows, pos, n) != []
    ensures Chunks(rows, n, pos) == [Slice(rows, pos, n)] + Chunks(rows, n, pos + n)
  {
  }

  lemma FlattenCons<T>(s: seq<T>, ss: seq<seq<T>>)
    ensures Flatten([s] + ss) == s + Flatten(ss)
  {
    assert ([s] + ss)[1..] == ss;
  }

  /** Every window is non-empty and holds at most `n` rows. */
  lemma {:induction false} ChunksBounded<T>(rows: seq<T>, n: nat, pos: nat)
    ensures forall k :: 0 <= k < |Chunks(rows, n, pos)| ==>
              0 < |Chunks(rows, n, pos)[k]| <= n
    decreases if pos < |rows| then |rows| - pos else 0
  {
    var w := Slice(rows, pos, n);
    if w != [] {
      ChunksBounded(rows, n, pos + n);
      var cs := Chunks(rows, n, pos);
      forall k | 0 <= k < |cs| ensures 0 < |cs[k]| <= n {
        if k > 0 { assert cs[k] == Chunks(rows, n, pos + n)[k - 1]; }
      }
    }
  }

  /** Window `k` starts `k * n` rows after `pos`: it is the slice a fetch at that offset returns. */
  lemma ChunkAt<T>(rows: seq<T>, n: nat, pos: nat, k: nat)
    requires k < |Chunks(rows, n, pos)|
    ensures Chunks(rows, n, pos)[k] == Slice(rows, pos + k * n, n)
  {
    ChunkAtOffset(rows, n, pos, k);
    OffsetIsProduct(pos, k, n);
  }

  /** The position `k` windows of size `n` after `pos`. */
  function Offset(pos: nat, k: nat, n: nat): nat
    decreases k
  {
    if k == 0 then pos else Offset(pos + n, k - 1, n)
  }

  lemma {:induction false} OffsetIsProduct(pos: nat, k: nat, n: nat)
    ensures Offset(pos, k, n) == pos + k * n
    decreases k
  {
    if k > 0 {
      OffsetIsProduct(pos + n, k - 1, n);
      MulStep(k, n);
    }
  }

  lemma {:induction false} ChunkAtOffset<T>(rows: seq<T>, n: nat, pos: nat, k: nat)
    requires k < |Chunks(rows, n, pos)|
    ensures Chunks(rows, n, pos)[k] == Slice(rows, Offset(pos, k, n), n)
    decreases k
  {
    if k == 0 {
      ChunkHead(rows, n, pos);
    } else {
      ChunkTail(rows, n, pos, k);
      ChunkAtOffset(rows, n, pos + n, k - 1);
    }
  }

  /** The first window is the one at `pos`. */
  lemma ChunkHead<T>(rows: seq<T>, n: nat, pos: nat)
    requires 0 < |Chunks(rows, n, pos)|
    ensures Chunks(rows, n, pos)[0] == Slice(rows, pos, n)
  {
  }

  /** Window `k > 0` from `pos` is window `k - 1` from the next position. */
  lemma ChunkTail<T>(rows: seq<T>, n: nat, pos: nat, k: nat)
    requires 0 < k < |Chunks(rows, n, pos)|
    ensures k - 1 < |Chunks(rows, n, pos + n)| && Chunks(rows, n, pos)[k] == Chunks(rows, n, pos + n)[k - 1]
  {
  }

  lemma MulStep(k: nat, n: nat)
    requires k > 0
    ensures (k - 1) * n + n == k * n
  {
  }

  /**
   * There are exactly ceil((|rows| - pos) / n) windows: the last one still holds
   * a row, and together they reach the end of the rows.
   */
  lemma {:induction false} ChunksCount<T>(rows: seq<T>, n: nat, pos: nat)
    requires n > 0 && pos <= |rows|
    ensures (|Chunks(rows, n, pos)| - 1) * n < |rows| - pos <= |Chunks(rows, n, pos)| * n
              || (pos == |rows| && Chunks(rows, n, pos) == [])
    ensures |Chunks(rows, n, pos)| == (|rows| - pos + n - 1) / n
    decreases |rows| - pos
  {
    var c := |Chunks(rows, n, pos)|;
    if pos < |rows| {
      ChunksUnfold(rows, n, pos);
      if pos + n <= |rows| {
        ChunksCount(rows, n, pos + n);
        CountStep(|rows| - pos, n, |Chunks(rows, n, pos + n)|);
      } else {
        assert Chunks(rows, n, pos + n) == [];
      }
      DivCeil(|rows| - pos, n, c);
    }
  }

  /** One more window of `n` rows: the bounds for `m - n` rows with `c` windows give those for `m` rows with `c + 1`. */
  lemma CountStep(m: nat, n: nat, c: nat)
    requires 0 < n <= m
    requires ((c - 1) * n < m - n <= c * n) || (m == n && c == 0)
    ensures c * n < m <= (c + 1) * n
  {
    if c > 0 {
      MulStep(c, n);
      MulStep(c + 1, n);
    }
  }

  /** If (c - 1) * n < m <= c * n then c is ceil(m / n). */
  lemma DivCeil(m: nat, n: nat, c: nat)
    requires n > 0 && (c - 1) * n < m <= c * n
    ensures (m + n - 1) / n == c
  {
    var x := m + n - 1;
    assert c * n <= x < (c + 1) * n;
    var q, r := x / n, x % n;
    assert x == q * n + r && 0 <= r < n;
    if q < c {
      MulMono(q + 1, c, n);
      assert false;
    }
    if q > c {
      MulMono(c + 1, q, n);
      assert false;
    }
  }

  lemma MulMono(a: int, b: int, n: nat)
    requires a <= b
    ensures a * n <= b * n
  {
    assert b * n - a * n == (b - a) * n;
  }
}
