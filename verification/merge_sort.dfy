/**
 * `0x01-python_async_function/1-concurrent_coroutines.py`: `merge_sort(arr)`
 * sorts a list in place. It copies the two halves into new lists, sorts each
 * recursively, then merges them back into `arr` position by position; when the
 * two heads are equal the right half's element is written first.
 *
 * The list is an `array<int>` here (the source sorts floats; any total order
 * behaves the same). `MergeSorted` is the value the method leaves in the array.
 */
module MergeSort {

  predicate Sorted(s: seq<int>)
  {
    forall i, j :: 0 <= i < j < |s| ==> s[i] <= s[j]
  }

  /** The merge loop of `merge_sort` on two lists: the left head is taken only when strictly smaller. */
  function Merge(l: seq<int>, r: seq<int>): seq<int>
    decreases |l| + |r|
  {
    if l == [] then r
    else if r == [] then l
    else if l[0] < r[0] then [l[0]] + Merge(l[1..], r)
    else [r[0]] + Merge(l, r[1..])
  }

  /** What `merge_sort` leaves in a list holding `s`. */
  function MergeSorted(s: seq<int>): seq<int>
  {
    if |s| <= 1 then s
    else
      var mid := |s| / 2;
      Merge(MergeSorted(s[..mid]), MergeSorted(s[mid..]))
  }

  /** `merge_sort(arr)`. */
  method MergeSortInPlace(arr: array<int>)
    modifies arr
    decreases arr.Length
    ensures arr[..] == MergeSorted(old(arr[..]))
    ensures Sorted(arr[..]) && multiset(arr[..]) == multiset(old(arr[..]))
  {
    ghost var original := arr[..];
    if arr.Length > 1 {
      var mid := arr.Length / 2;
      var left := new int[mid](i requires 0 <= i < mid reads arr => arr[i]);
      var right := new int[arr.Length - mid](i requires 0 <= i < arr.Length - mid reads arr => arr[mid + i]);
      assert left[..] == original[..mid];
      assert right[..] == original[mid..];
      MergeSortInPlace(left);
      MergeSortInPlace(right);
      MergeInto(arr, left, right);
    }
    MergeSortedSorted(original);
    MergeSortedPermutes(original);
  }

  /** The three `while` loops that merge the sorted halves back into `arr`. */
  method MergeInto(arr: array<int>, left: array<int>, right: array<int>)
    requires arr != left && arr != right
    requires arr.Length == left.Length + right.Length
    modifies arr
    ensures arr[..] == Merge(left[..], right[..])
  {
    ghost var L, R := left[..], right[..];
    var i, j := MergeHeads(arr, left, right);
    ghost var done := arr[..i + j];
    assert done + (L[i..] + R[j..]) == Merge(L, R) by {
      MergeRest(L, R, i, j);
    }
    CopyRest(arr, left, i, i + j);
    ghost var withLeft := arr[..left.Length + j];
    CopyRest(arr, right, j, left.Length + j);
    assert arr[..] == withLeft + R[j..] && withLeft == done + L[i..];
  }

  /** Once one half is used up, merging the rests just appends them. */
  lemma MergeRest(L: seq<int>, R: seq<int>, i: nat, j: nat)
    requires i <= |L| && j <= |R| && (i == |L| || j == |R|)
    ensures Merge(L[i..], R[j..]) == L[i..] + R[j..]
  {
    if i == |L| {
      assert L[i..] + R[j..] == R[j..];
    } else {
      assert L[i..] + R[j..] == L[i..];
    }
  }

  /** The first loop: while both halves have elements left, write the smaller head (the right one on ties). */
  method MergeHeads(arr: array<int>, left: array<int>, right: array<int>) returns (i: nat, j: nat)
    requires arr != left && arr != right
    requires arr.Length == left.Length + right.Length
    modifies arr
    ensures i <= left.Length && j <= right.Length && (i == left.Length || j == right.Length)
    ensures arr[..i + j] + Merge(left[i..], right[j..]) == Merge(left[..], right[..])
  {
    ghost var L, R := left[..], right[..];
    i, j := 0, 0;
    var k := 0;
    while i < left.Length && j < right.Length
      invariant 0 <= i <= left.Length && 0 <= j <= right.Length && k == i + j
      invariant arr[..k] + Merge(L[i..], R[j..]) == Merge(L, R)
      decreases left.Length + right.Length - k
    {
      ghost var done := arr[..k];
      if left[i] < right[j] {
        TakeLeft(done, L, R, i, j);
        arr[k] := left[i];
        i := i + 1;
      } else {
        TakeRight(done, L, R, i, j);
        arr[k] := right[j];
        j := j + 1;
      }
      assert arr[..k + 1] == done + [arr[k]];
      k := k + 1;
    }
  }

  /** One of the last two loops: copy what is left of `src`, from `from` on, into `arr` from `k` on. */
  method CopyRest(arr: array<int>, src: array<int>, from: nat, k: nat)
    requires arr != src && from <= src.Length && k + (src.Length - from) <= arr.Length
    modifies arr
    ensures arr[..k + (src.Length - from)] == old(arr[..k]) + src[from..]
  {
    var i, n := from, k;
    while i < src.Length
      invariant from <= i <= src.Length && n == k + (i - from)
      invariant arr[..n] == old(arr[..k]) + src[from..i]
      decreases src.Length - i
    {
      arr[n] := src[i];
      assert src[from..i + 1] == src[from..i] + [src[i]];
      i := i + 1;
      n := n + 1;
    }
    assert src[from..i] == src[from..];
  }

  /** Writing the left head moves it from the unmerged rest to the merged prefix. */
  lemma TakeLeft(done: seq<int>, L: seq<int>, R: seq<int>, i: nat, j: nat)
    requires i < |L| && j <= |R| && (j == |R| || L[i] < R[j])
    ensures done + Merge(L[i..], R[j..]) == (done + [L[i]]) + Merge(L[i + 1..], R[j..])
  {
    assert L[i..][1..] == L[i + 1..];
  }

  /** Writing the right head moves it from the unmerged rest to the merged prefix. */
  lemma TakeRight(done: seq<int>, L: seq<int>, R: seq<int>, i: nat, j: nat)
    requires i <= |L| && j < |R| && (i == |L| || !(L[i] < R[j]))
    ensures done + Merge(L[i..], R[j..]) == (done + [R[j]]) + Merge(L[i..], R[j + 1..])
  {
    assert R[j..][1..] == R[j + 1..];
  }

  /** Merging keeps every element of both lists, each as often as it occurs. */
  lemma {:induction false} MergePermutes(l: seq<int>, r: seq<int>)
    ensures multiset(Merge(l, r)) == multiset(l) + multiset(r)
    decreases |l| + |r|
  {
    if l != [] && r != [] {
      if l[0] < r[0] {
        MergePermutes(l[1..], r);
        assert l == [l[0]] + l[1..];
      } else {
        MergePermutes(l, r[1..]);
        assert r == [r[0]] + r[1..];
      }
    }
  }

  /** Merging two sorted lists gives a sorted list. */
  lemma {:induction false} MergeOfSortedIsSorted(l: seq<int>, r: seq<int>)
    requires Sorted(l) && Sorted(r)
    ensures Sorted(Merge(l, r))
    decreases |l| + |r|
  {
    if l != [] && r != [] {
      MergePermutes(l, r);
      if l[0] < r[0] {
        MergeOfSortedIsSorted(l[1..], r);
        MergePermutes(l[1..], r);
        ConsSorted(l[0], Merge(l[1..], r), l[1..], r);
      } else {
        MergeOfSortedIsSorted(l, r[1..]);
        MergePermutes(l, r[1..]);
        ConsSorted(r[0], Merge(l, r[1..]), l, r[1..]);
      }
    }
  }

  /** A sorted list stays sorted when an element no larger than anything in it is put in front. */
  lemma ConsSorted(x: int, s: seq<int>, a: seq<int>, b: seq<int>)
    requires Sorted(s) && multiset(s) == multiset(a) + multiset(b)
    requires forall i :: 0 <= i < |a| ==> x <= a[i]
    requires forall i :: 0 <= i < |b| ==> x <= b[i]
    ensures Sorted([x] + s)
  {
    forall i | 0 <= i < |s| ensures x <= s[i] {
      assert s[i] in multiset(s);
      assert s[i] in multiset(a) || s[i] in multiset(b);
    }
  }

  /** `merge_sort` leaves its list sorted. */
  lemma {:induction false} MergeSortedSorted(s: seq<int>)
    ensures Sorted(MergeSorted(s))
  {
    if |s| > 1 {
      var mid := |s| / 2;
      MergeSortedSorted(s[..mid]);
      MergeSortedSorted(s[mid..]);
      MergeOfSortedIsSorted(MergeSorted(s[..mid]), MergeSorted(s[mid..]));
    }
  }

  /** `merge_sort` leaves a permutation of its list: same length, same elements, same counts. */
  lemma MergeSortedPermutes(s: seq<int>)
    ensures multiset(MergeSorted(s)) == multiset(s)
    ensures |MergeSorted(s)| == |s|
  {
    MergeSortedSameElements(s);
    assert |multiset(MergeSorted(s))| == |MergeSorted(s)|;
  }

  /** The elements of the sorted list, counted, are those of the input. */
  lemma {:induction false} MergeSortedSameElements(s: seq<int>)
    ensures multiset(MergeSorted(s)) == multiset(s)
  {
    if |s| > 1 {
      var mid := |s| / 2;
      MergeSortedSameElements(s[..mid]);
      MergeSortedSameElements(s[mid..]);
      MergePermutes(MergeSorted(s[..mid]), MergeSorted(s[mid..]));
      SplitMultiset(s, mid);
    }
  }

  /** Cutting a list in two splits its elements. */
  lemma SplitMultiset(s: seq<int>, mid: nat)
    requires mid <= |s|
    ensures multiset(s) == multiset(s[..mid]) + multiset(s[mid..])
  {
    assert s == s[..mid] + s[mid..];
  }

  /** A list of at most one element is left as it is. */
  lemma ShortListUntouched(s: seq<int>)
    requires |s| <= 1
    ensures MergeSorted(s) == s
  {
  }
}
