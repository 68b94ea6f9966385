/**
 * `0x00-python_variable_annotations/9-element_length.py`: `element_length(lst)`
 * pairs every element of `lst` with its length, in order. The elements are
 * sequences of any item type.
 */
module ElementLength {

  /** `[(i, len(i)) for i in lst]`. */
  function ElementLength<T>(lst: seq<seq<T>>): (r: seq<(seq<T>, nat)>)
    ensures |r| == |lst|
    ensures forall i :: 0 <= i < |r| ==> r[i].0 == lst[i] && r[i].1 == |lst[i]|
  {
    if lst == [] then [] else [(lst[0], |lst[0]|)] + ElementLength(lst[1..])
  }

  /** The first components, in order. */
  function Elements<T>(pairs: seq<(seq<T>, nat)>): (r: seq<seq<T>>)
    ensures |r| == |pairs|
  {
    if pairs == [] then [] else [pairs[0].0] + Elements(pairs[1..])
  }

  /**
   * The input elements themselves come back, in their order: dropping the
   * lengths from the result gives the input list again.
   */
  lemma {:induction false} ElementsRoundTrip<T>(lst: seq<seq<T>>)
    ensures Elements(ElementLength(lst)) == lst
  {
    if lst != [] {
      ElementsRoundTrip(lst[1..]);
      assert ElementLength(lst)[1..] == ElementLength(lst[1..]);
    }
  }

  /** The result of a concatenation is the concatenation of the results. */
  lemma ElementLengthAppend<T>(a: seq<seq<T>>, b: seq<seq<T>>)
    ensures ElementLength(a + b) == ElementLength(a) + ElementLength(b)
  {
    var l, r := ElementLength(a + b), ElementLength(a) + ElementLength(b);
    forall i | 0 <= i < |l| ensures l[i] == r[i] {
      if i < |a| {
        assert (a + b)[i] == a[i];
      } else {
        assert (a + b)[i] == b[i - |a|];
      }
    }
  }
}
