/** Sums over sequences, used for leaderboard totals and per-viewer scores. */
module Sums {

  function SumBy<T>(s: seq<T>, f: T -> int): int {
    if |s| == 0 then 0 else f(s[0]) + SumBy(s[1..], f)
  }

  lemma {:induction false} SumByConcat<T>(a: seq<T>, b: seq<T>, f: T -> int)
    ensures SumBy(a + b, f) == SumBy(a, f) + SumBy(b, f)
    decreases |a|
  {
    if |a| == 0 {
      assert a + b == b;
    } else {
      assert (a + b)[1..] == a[1..] + b;
      SumByConcat(a[1..], b, f);
    }
  }

  /** Replacing one element changes the sum by exactly the difference of the two values. */
  lemma {:induction false} SumByUpdate<T>(s: seq<T>, i: int, y: T, f: T -> int)
    requires 0 <= i < |s|
    ensures SumBy(s[i := y], f) == SumBy(s, f) - f(s[i]) + f(y)
    decreases |s|
  {
    if i > 0 {
      assert s[i := y][1..] == s[1..][i - 1 := y];
      SumByUpdate(s[1..], i - 1, y, f);
    } else {
      assert s[i := y][1..] == s[1..];
    }
  }
}
