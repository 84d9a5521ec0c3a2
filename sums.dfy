/** Sums over sequences, and the regrouping of concatenations they rely on. */
module Sums {
  /** Concatenation regroups freely. */
  lemma ConcatAssoc<T>(a: seq<T>, b: seq<T>, c: seq<T>)
    ensures (a + b) + c == a + (b + c)
  {
  }

  /** The sum of `f` over the elements of `s`, in order. */
  function SumOf<T>(s: seq<T>, f: T -> int): int {
    if s == [] then 0 else f(s[0]) + SumOf(s[1..], f)
  }

  lemma {:induction false} SumOfAppend<T>(s: seq<T>, x: T, f: T -> int)
    ensures SumOf(s + [x], f) == SumOf(s, f) + f(x)
  {
    if s == [] {
      assert s + [x] == [x];
      assert SumOf([x], f) == f(x) + SumOf([], f);
    } else {
      assert (s + [x])[0] == s[0] && (s + [x])[1..] == s[1..] + [x];
      SumOfAppend(s[1..], x, f);
    }
  }

  /** The sum of a real-valued `f` over the elements of `s`, in order. */
  function RealSumOf<T>(s: seq<T>, f: T -> real): real {
    if s == [] then 0.0 else f(s[0]) + RealSumOf(s[1..], f)
  }

  lemma {:induction false} RealSumOfAppend<T>(s: seq<T>, x: T, f: T -> real)
    ensures RealSumOf(s + [x], f) == RealSumOf(s, f) + f(x)
  {
    if s == [] {
      assert s + [x] == [x];
      assert RealSumOf([x], f) == f(x) + RealSumOf([], f);
    } else {
      assert (s + [x])[0] == s[0] && (s + [x])[1..] == s[1..] + [x];
      RealSumOfAppend(s[1..], x, f);
    }
  }
}
