/**
 * `python-generators-0x00/is_palindrom.py`: `is_palindrome(num)` reverses the
 * decimal digits of `num` in a loop and compares; numbers below 10 are never
 * palindromes. The generator `is_infinite` counts up from 0 and yields every
 * palindrome it meets; a value sent into it restarts the count just after
 * that value.
 *
 * Decimal digits are a sequence, least significant first. A palindrome is a
 * number of at least two digits whose digit sequence reads the same both
 * ways; the digit-reversal loop is proved to decide exactly that.
 */
module Palindrome {
  import opened Wrappers
  import opened Sequences

  function Pow10(k: nat): (p: nat)
    ensures p >= 1
  {
    if k == 0 then 1 else 10 * Pow10(k - 1)
  }

  /** The decimal digits of `n`, least significant first; 0 has none. */
  function Digits(n: nat): (ds: seq<nat>)
    ensures n > 0 ==> |ds| > 0 && ds[|ds| - 1] != 0
    ensures n == 0 <==> ds == []
  {
    if n == 0 then [] else [n % 10] + Digits(n / 10)
  }

  /** The number whose digits, least significant first, are `ds`. */
  function Value(ds: seq<nat>): nat
  {
    if ds == [] then 0 else ds[0] + 10 * Value(ds[1..])
  }

  predicate AllDecimal(ds: seq<nat>)
  {
    forall i :: 0 <= i < |ds| ==> ds[i] < 10
  }

  lemma {:induction false} DigitsAreDecimal(n: nat)
    ensures AllDecimal(Digits(n))
  {
    if n > 0 {
      DigitsAreDecimal(n / 10);
    }
  }

  /** The number written with the digits of `n` in reverse order. */
  function Reversal(n: nat): nat
  {
    Value(Reverse(Digits(n)))
  }

  /** A palindrome: at least two digits, and the digits read the same both ways. */
  predicate Palindromic(n: nat)
  {
    n >= 10 && Digits(n) == Reverse(Digits(n))
  }

  // ------------------------------------------------------------ is_palindrome

  /**
   * `is_palindrome(num)`. A negative `num` is excluded: floor division
   * keeps `temp` at -1 and the loop never ends.
   */
  method IsPalindrome(num: int) returns (b: bool)
    requires num >= 0
    ensures b == Palindromic(num)
    ensures num <= 9 ==> !b
  {
    if num / 10 == 0 {
      return false;
    }
    var reverse := 0;
    var temp := num;
    while temp != 0
      invariant temp >= 0 && reverse >= 0
      invariant reverse * Pow10(|Digits(temp)|) + Reversal(temp) == Reversal(num)
      decreases temp
    {
      ReversalStep(temp);
      ShiftDigit(reverse, temp % 10, Pow10(|Digits(temp / 10)|));
      reverse := reverse * 10 + temp % 10;
      temp := temp / 10;
    }
    b := num == reverse;
    PalindromicIffEqualsReversal(num);
  }

  lemma ShiftDigit(rev: nat, d: nat, p: nat)
    ensures rev * (10 * p) + d * p == (rev * 10 + d) * p
  {
  }

  lemma {:induction false} ValueAppend(ds: seq<nat>, d: nat)
    ensures Value(ds + [d]) == Value(ds) + d * Pow10(|ds|)
  {
    if ds != [] {
      assert (ds + [d])[1..] == ds[1..] + [d];
      ValueAppend(ds[1..], d);
      assert 10 * (d * Pow10(|ds| - 1)) == d * Pow10(|ds|);
    }
  }

  /** Reversing the digits of `t` puts its last digit in front of the reversal of the rest. */
  lemma ReversalStep(t: nat)
    requires t > 0
    ensures |Digits(t)| == |Digits(t / 10)| + 1
    ensures Reversal(t) == (t % 10) * Pow10(|Digits(t / 10)|) + Reversal(t / 10)
  {
    var ds := Digits(t);
    assert ds[1..] == Digits(t / 10) && ds[0] == t % 10;
    assert Reverse(ds) == Reverse(ds[1..]) + [ds[0]];
    ValueAppend(Reverse(ds[1..]), ds[0]);
  }

  // ------------------------------------------------------------ digit sequences

  predicate Canonical(ds: seq<nat>)
  {
    AllDecimal(ds) && (ds == [] || ds[|ds| - 1] != 0)
  }

  lemma {:induction false} ValueOfDigits(n: nat)
    ensures Value(Digits(n)) == n
  {
    if n > 0 {
      ValueOfDigits(n / 10);
      assert Digits(n)[1..] == Digits(n / 10);
    }
  }

  lemma {:induction false} DigitsOfValue(ds: seq<nat>)
    requires Canonical(ds)
    ensures Digits(Value(ds)) == ds
  {
    if ds != [] {
      var rest := ds[1..];
      assert Canonical(rest);
      DigitsOfValue(rest);
      var v := Value(ds);
      DivMod10(ds[0], Value(rest));
      assert v > 0;
    }
  }

  lemma DivMod10(d: nat, q: nat)
    requires d < 10
    ensures (d + 10 * q) % 10 == d && (d + 10 * q) / 10 == q
  {
    var x := d + 10 * q;
    assert x == 10 * (x / 10) + x % 10;
    assert 10 * (q - x / 10) == x % 10 - d;
  }

  lemma {:induction false} ValueBound(ds: seq<nat>)
    requires AllDecimal(ds)
    ensures Value(ds) < Pow10(|ds|)
  {
    if ds != [] {
      ValueBound(ds[1..]);
    }
  }

  lemma {:induction false} DigitsLowerBound(n: nat)
    requires n > 0
    ensures Pow10(|Digits(n)| - 1) <= n
  {
    if n >= 10 {
      DigitsLowerBound(n / 10);
    }
  }

  /**
   * A number of at least two digits is a palindrome exactly when it equals
   * the number its digits make in reverse order: the comparison
   * `is_palindrome` ends with.
   */
  lemma PalindromicIffEqualsReversal(n: nat)
    ensures Palindromic(n) <==> n >= 10 && n == Reversal(n)
  {
    var ds := Digits(n);
    if n >= 10 && ds == Reverse(ds) {
      ValueOfDigits(n);
    }
    if n >= 10 && n == Reversal(n) {
      TrailingZeroShrinks(n);
      DigitsAreDecimal(n);
      ReverseAt(ds);
      DigitsOfValue(Reverse(ds));
    }
  }

  /** A number ending in 0 loses a digit when reversed, so it differs from its reversal. */
  lemma TrailingZeroShrinks(n: nat)
    ensures n > 0 && n % 10 == 0 ==> Reversal(n) < n
  {
    if n > 0 && n % 10 == 0 {
      var ds := Digits(n);
      var init := Reverse(ds[1..]);
      assert Reverse(ds) == init + [0];
      ValueAppend(init, 0);
      DigitsAreDecimal(n);
      assert AllDecimal(ds[1..]);
      ReverseAt(ds[1..]);
      ValueBound(init);
      DigitsLowerBound(n);
    }
  }

  // ------------------------------------------------------------ is_infinite

  lemma {:induction false} NinesDigits(k: nat, m: nat)
    requires m == Pow10(k) - 1
    ensures |Digits(m)| == k
    ensures forall i :: 0 <= i < k ==> Digits(m)[i] == 9
  {
    if k > 0 {
      assert m == 9 + 10 * (Pow10(k - 1) - 1);
      DivMod10(9, Pow10(k - 1) - 1);
      NinesDigits(k - 1, m / 10);
    }
  }

  lemma Pow10Mono(j: nat, k: nat)
    requires j <= k
    ensures Pow10(j) <= Pow10(k)
    decreases k
  {
    if j < k {
      Pow10Mono(j, k - 1);
    }
  }

  /**
   * There is a palindrome at or above every `m`: the all-nines number with at
   * least two digits and at least as many as `m`. So the generator's count
   * always reaches its next `yield`.
   */
  lemma PalindromeAbove(m: nat) returns (p: nat)
    ensures m <= p && Palindromic(p)
  {
    var k := if |Digits(m)| < 2 then 2 else |Digits(m)|;
    p := Pow10(k) - 1;
    NinesDigits(k, p);
    var ds := Digits(p);
    ReverseAt(ds);
    assert ds == Reverse(ds);
    Pow10Mono(2, k);
    DigitsAreDecimal(m);
    ValueOfDigits(m);
    ValueBound(Digits(m));
    Pow10Mono(|Digits(m)|, k);
  }

  /** `p` is the first palindrome met when counting up from `from`. */
  predicate LeastPalindromeFrom(p: nat, from: nat)
  {
    from <= p && Palindromic(p) && forall k :: from <= k < p ==> !Palindromic(k)
  }

  /** The generator's `while True` loop from `num == from` up to the next `yield`. */
  method CountToPalindrome(from: nat) returns (p: nat)
    ensures LeastPalindromeFrom(p, from)
  {
    p := from;
    ghost var bound := PalindromeAbove(from);
    while true
      invariant from <= p <= bound
      invariant forall k :: from <= k < p ==> !Palindromic(k)
      decreases bound - p
    {
      var found := IsPalindrome(p);
      if found {
        return;
      }
      assert p != bound;
      p := p + 1;
    }
  }

  /** The first value the generator yields: 11. */
  lemma FirstPalindromeIs11()
    ensures LeastPalindromeFrom(11, 0)
  {
    assert Digits(11) == [1, 1];
    assert Reverse(Digits(11)) == [1, 1];
    forall k | 0 <= k < 11 ensures !Palindromic(k) {
      if k == 10 {
        assert Digits(10) == [0, 1];
        assert Reverse(Digits(10)) == [1, 0];
      }
    }
  }

  /** The value of `send(i)` on a generator that has not started yet is refused. */
  datatype SendError = TypeError

  /** An `is_infinite()` generator object. */
  class PalindromeGenerator {
    /** The generator's local `num`: while suspended, the value it last yielded. */
    var num: int
    var started: bool
    /** The values yielded so far. */
    ghost var emitted: seq<nat>

    ghost predicate Valid()
      reads this
    {
      && (!started ==> emitted == [])
      && (started ==> emitted != [] && num == emitted[|emitted| - 1])
      && (forall i :: 0 <= i < |emitted| ==> Palindromic(emitted[i]))
    }

    constructor ()
      ensures Valid() && !started && emitted == []
    {
      num := 0;
      started := false;
      emitted := [];
    }

    /**
     * `send(value)`, with `next()` as `send(None)`: resume (or start) the
     * generator; a sent value replaces `num`, then the count goes on from
     * `num + 1` to the next palindrome, which is yielded. A sent value below
     * -1 is excluded: the count would reach a negative number, where
     * `is_palindrome` never returns.
     */
    method Send(value: Option<int>) returns (r: Result<nat, SendError>)
      requires Valid()
      requires value.Some? ==> value.value >= -1
      modifies this
      ensures Valid()
      ensures !old(started) && value.Some? ==>
                r == Failure(TypeError) && !started && emitted == old(emitted)
      ensures r.Success? ==> started && num == r.value && emitted == old(emitted) + [r.value]
      ensures !old(started) && value.None? ==> r.Success? && LeastPalindromeFrom(r.value, 0)
      ensures old(started) && value.None? ==> r.Success? && LeastPalindromeFrom(r.value, old(num) + 1)
      ensures old(started) && value.Some? ==> r.Success? && LeastPalindromeFrom(r.value, value.value + 1)
    {
      var from: nat;
      if !started {
        if value.Some? {
          return Failure(TypeError);
        }
        from := 0;
      } else {
        if value.Some? {
          num := value.value;
        }
        from := num + 1;
      }
      var p := CountToPalindrome(from);
      num := p;
      started := true;
      emitted := emitted + [p];
      r := Success(p);
    }
  }
}
