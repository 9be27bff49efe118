/** Finite sums and orderings over sequences, as used by the Revised Simos procedure. */
module Sums {

  /** The sum of a sequence of naturals, accumulated from the front (as a running total would be). */
  function Sum(s: seq<nat>): nat
  {
    if |s| == 0 then 0 else Sum(s[..|s| - 1]) + s[|s| - 1]
  }

  /** Sum distributes over concatenation. */
  lemma {:induction false} SumAppend(a: seq<nat>, b: seq<nat>)
    ensures Sum(a + b) == Sum(a) + Sum(b)
    decreases |b|
  {
    if |b| == 0 {
      assert a + b == a;
    } else {
      assert (a + b)[..|a + b| - 1] == a + b[..|b| - 1];
      SumAppend(a, b[..|b| - 1]);
    }
  }

  /** A sequence whose entries are all at least 1 sums to at least its length. */
  lemma {:induction false} SumAtLeastLength(s: seq<nat>)
    requires forall i :: 0 <= i < |s| ==> s[i] >= 1
    ensures Sum(s) >= |s|
    decreases |s|
  {
    if |s| > 0 {
      SumAtLeastLength(s[..|s| - 1]);
    }
  }

  /** The weight x counted n times. */
  function Term(x: real, n: nat): real
  {
    x * (n as real)
  }

  lemma TermSucc(x: real, n: nat)
    ensures Term(x, n + 1) == Term(x, n) + x
  {
    assert ((n + 1) as real) == (n as real) + 1.0;
  }

  lemma TermScale(a: real, x: real, n: nat)
    ensures Term(a * x, n) == a * Term(x, n)
  {
  }

  lemma TermAtLeast(x: real, n: nat)
    requires x >= 1.0
    ensures Term(x, n) >= n as real
  {
    assert (x - 1.0) * (n as real) >= 0.0;
  }

  /** The sum of k[i] * c[i] over the common length of k and c. */
  function Dot(k: seq<real>, c: seq<nat>): real
    requires |k| == |c|
  {
    if |k| == 0 then 0.0
    else Dot(k[..|k| - 1], c[..|c| - 1]) + Term(k[|k| - 1], c[|c| - 1])
  }

  /** Peeling off the last term of a weighted total. */
  lemma DotLast(k: seq<real>, c: seq<nat>)
    requires |k| == |c| > 0
    ensures Dot(k, c) == Dot(k[..|k| - 1], c[..|c| - 1]) + Term(k[|k| - 1], c[|c| - 1])
  {
  }

  /** Extending both prefixes by one index adds that index's term. */
  lemma DotPrefixStep(k: seq<real>, c: seq<nat>, i: nat)
    requires |k| == |c| && i < |k|
    ensures Dot(k[..i + 1], c[..i + 1]) == Dot(k[..i], c[..i]) + Term(k[i], c[i])
  {
    assert k[..i + 1][..i] == k[..i] && c[..i + 1][..i] == c[..i];
  }

  /** Every entry of k multiplied by a. */
  function Scale(a: real, k: seq<real>): seq<real>
  {
    seq(|k|, i requires 0 <= i < |k| => a * k[i])
  }

  /** Scaling every weight scales the weighted total by the same factor. */
  lemma {:induction false} DotScale(a: real, k: seq<real>, c: seq<nat>)
    requires |k| == |c|
    ensures Dot(Scale(a, k), c) == a * Dot(k, c)
    decreases |k|
  {
    if |k| > 0 {
      var n := |k| - 1;
      ScalePrefix(a, k, n);
      DotScale(a, k[..n], c[..n]);
      TermScale(a, k[n], c[n]);
      Distribute(a, Dot(k[..n], c[..n]), Term(k[n], c[n]));
    }
  }

  lemma ScalePrefix(a: real, k: seq<real>, n: nat)
    requires n <= |k|
    ensures Scale(a, k)[..n] == Scale(a, k[..n])
  {
    assert forall i :: 0 <= i < n ==> Scale(a, k)[..n][i] == Scale(a, k[..n])[i];
  }

  lemma Distribute(a: real, x: real, y: real)
    ensures a * x + a * y == a * (x + y)
  {
  }

  /** With every weight at least 1, the weighted total is at least the plain total of c. */
  lemma {:induction false} DotAtLeastSum(k: seq<real>, c: seq<nat>)
    requires |k| == |c|
    requires forall i :: 0 <= i < |k| ==> k[i] >= 1.0
    ensures Dot(k, c) >= Sum(c) as real
    decreases |k|
  {
    if |k| > 0 {
      var n := |k| - 1;
      DotAtLeastSum(k[..n], c[..n]);
      TermAtLeast(k[n], c[n]);
    }
  }

  predicate NonDecreasing(s: seq<real>)
  {
    forall i, j :: 0 <= i < j < |s| ==> s[i] <= s[j]
  }

  predicate StrictlyIncreasing(s: seq<real>)
  {
    forall i, j :: 0 <= i < j < |s| ==> s[i] < s[j]
  }
}
