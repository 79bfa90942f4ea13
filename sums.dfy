/** Integer sums over a sequence of records, and the fact that such a sum
    does not depend on the order of the records. */
module Sums {

  /** The sum of f over xs, accumulated from the front as a `for` loop does. */
  function SumOf<T>(xs: seq<T>, f: T -> int): int
  {
    if xs == [] then 0 else SumOf(xs[..|xs| - 1], f) + f(xs[|xs| - 1])
  }

  /** Sums split over concatenation. */
  lemma {:induction false} SumOfAppend<T>(xs: seq<T>, ys: seq<T>, f: T -> int)
    ensures SumOf(xs + ys, f) == SumOf(xs, f) + SumOf(ys, f)
    decreases |ys|
  {
    if ys != [] {
      var n := |ys| - 1;
      assert (xs + ys)[..|xs + ys| - 1] == xs + ys[..n];
      SumOfAppend(xs, ys[..n], f);
    } else {
      assert xs + ys == xs;
    }
  }

  /** A sum is the same for any reordering of the records. */
  lemma {:induction false} SumOfPermutation<T>(xs: seq<T>, ys: seq<T>, f: T -> int)
    requires multiset(xs) == multiset(ys)
    ensures SumOf(xs, f) == SumOf(ys, f)
    decreases |xs|
  {
    if xs == [] {
      assert |ys| == |multiset(ys)| == 0;
    } else {
      var n := |xs| - 1;
      var x := xs[n];
      assert xs == xs[..n] + [x];
      assert x in multiset(ys);
      var k :| 0 <= k < |ys| && ys[k] == x;
      var rest := ys[..k] + ys[k + 1..];
      assert ys == ys[..k] + [x] + ys[k + 1..];
      assert multiset(xs[..n]) == multiset(xs) - multiset{x};
      assert multiset(rest) == multiset(ys) - multiset{x};
      SumOfPermutation(xs[..n], rest, f);
      SumOfAt(ys, k, f);
      SumOfAppend(ys[..k], ys[k + 1..], f);
    }
  }

  /** Two summands that agree on every record give the same sum. */
  lemma {:induction false} SumOfAgree<T>(xs: seq<T>, f: T -> int, g: T -> int)
    requires forall i :: 0 <= i < |xs| ==> f(xs[i]) == g(xs[i])
    ensures SumOf(xs, f) == SumOf(xs, g)
    decreases |xs|
  {
    if xs != [] {
      var n := |xs| - 1;
      assert forall i :: 0 <= i < n ==> xs[..n][i] == xs[i];
      SumOfAgree(xs[..n], f, g);
    }
  }

  /** A sum split around the record at position k. */
  lemma SumOfAt<T>(xs: seq<T>, k: nat, f: T -> int)
    requires k < |xs|
    ensures SumOf(xs, f) == SumOf(xs[..k], f) + f(xs[k]) + SumOf(xs[k + 1..], f)
  {
    assert xs == xs[..k] + [xs[k]] + xs[k + 1..];
    SumOfAppend(xs[..k] + [xs[k]], xs[k + 1..], f);
    SumOfAppend(xs[..k], [xs[k]], f);
    assert [xs[k]][..0] == [];
  }

  /** Changing the summand at one record changes the sum by that record's
      difference alone. */
  lemma SumOfExcept<T>(xs: seq<T>, k: nat, f: T -> int, g: T -> int)
    requires k < |xs|
    requires forall i :: 0 <= i < |xs| && i != k ==> f(xs[i]) == g(xs[i])
    ensures SumOf(xs, g) == SumOf(xs, f) - f(xs[k]) + g(xs[k])
  {
    SumOfAt(xs, k, f);
    SumOfAt(xs, k, g);
    var front, back := xs[..k], xs[k + 1..];
    forall i | 0 <= i < |front| ensures f(front[i]) == g(front[i]) {
      assert front[i] == xs[i];
    }
    SumOfAgree(front, f, g);
    forall i | 0 <= i < |back| ensures f(back[i]) == g(back[i]) {
      assert back[i] == xs[k + 1 + i];
    }
    SumOfAgree(back, f, g);
  }
}
