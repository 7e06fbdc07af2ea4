/** Finite sums of integers and the few facts about products that the proofs need. */
module Sums {
  /** Sum of the first n elements. */
  function SumTo(s: seq<int>, n: nat): int
    requires n <= |s|
  {
    if n == 0 then 0 else SumTo(s, n - 1) + s[n - 1]
  }

  function Sum(s: seq<int>): int
  {
    SumTo(s, |s|)
  }

  lemma {:induction false} SumToPrefix(a: seq<int>, b: seq<int>, n: nat)
    requires n <= |a| && n <= |b|
    requires forall i :: 0 <= i < n ==> a[i] == b[i]
    ensures SumTo(a, n) == SumTo(b, n)
  {
    if n > 0 { SumToPrefix(a, b, n - 1); }
  }

  lemma {:induction false} SumToAtMost(a: seq<int>, b: seq<int>, n: nat)
    requires n <= |a| == |b|
    requires forall i :: 0 <= i < n ==> a[i] + b[i] <= 0
    ensures SumTo(a, n) + SumTo(b, n) <= 0
  {
    if n > 0 { SumToAtMost(a, b, n - 1); }
  }

  /** Non-negative summands: the sum bounds each of them and vanishes only with all of them. */
  lemma {:induction false} SumToNonNegative(s: seq<int>, n: nat)
    requires n <= |s|
    requires forall i :: 0 <= i < n ==> s[i] >= 0
    ensures SumTo(s, n) >= 0
    ensures forall i :: 0 <= i < n ==> s[i] <= SumTo(s, n)
  {
    if n > 0 { SumToNonNegative(s, n - 1); }
  }

  /** Distributivity, stated once so that no other proof has to meet products of unknowns. */
  lemma Distribute(a: int, b: int, c: int)
    ensures (a + b) * c == a * c + b * c
    ensures c * (a + b) == c * a + c * b
    ensures (a - b) * c == a * c - b * c
  {
  }

  /** A product with a positive factor has the sign of the other factor. */
  lemma SignOfProduct(d: int, c: int)
    requires c > 0
    ensures d >= 0 <==> d * c >= 0
    ensures d <= -1 <==> d * c <= -c
    ensures d == 0 <==> d * c == 0
  {
  }
}
