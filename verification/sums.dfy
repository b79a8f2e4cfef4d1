/** Sums over sequences, and how they react to a change of some of the elements. */
module Sums {

  /** The total weight of the elements of a sequence. */
  function Sum<T>(xs: seq<T>, weight: T -> int): int
  {
    if |xs| == 0 then 0 else Sum(xs[..|xs| - 1], weight) + weight(xs[|xs| - 1])
  }

  lemma SumAppend<T>(xs: seq<T>, x: T, weight: T -> int)
    ensures Sum(xs + [x], weight) == Sum(xs, weight) + weight(x)
  {
  }

  /** Two sums that differ position by position by the entries of `delta` differ by its total. */
  lemma {:induction false} SumDelta<T, U>(xs: seq<T>, weight: T -> int, ys: seq<U>, other: U -> int, delta: seq<int>)
    requires |xs| == |ys| == |delta|
    requires forall i :: 0 <= i < |xs| ==> other(ys[i]) == weight(xs[i]) + delta[i]
    ensures Sum(ys, other) == Sum(xs, weight) + Sum(delta, (d: int) => d)
  {
    if |xs| > 0 {
      var n := |xs| - 1;
      SumDelta(xs[..n], weight, ys[..n], other, delta[..n]);
    }
  }

  lemma {:induction false} SumSame<T, U>(xs: seq<T>, weight: T -> int, ys: seq<U>, other: U -> int)
    requires |xs| == |ys|
    requires forall i :: 0 <= i < |xs| ==> other(ys[i]) == weight(xs[i])
    ensures Sum(ys, other) == Sum(xs, weight)
  {
    if |xs| > 0 {
      SumSame(xs[..|xs| - 1], weight, ys[..|xs| - 1], other);
    }
  }

  lemma {:induction false} SumMonotone<T, U>(xs: seq<T>, weight: T -> int, ys: seq<U>, other: U -> int)
    requires |xs| == |ys|
    requires forall i :: 0 <= i < |xs| ==> weight(xs[i]) <= other(ys[i])
    ensures Sum(xs, weight) <= Sum(ys, other)
  {
    if |xs| > 0 {
      SumMonotone(xs[..|xs| - 1], weight, ys[..|xs| - 1], other);
    }
  }

  lemma {:induction false} SumStrict<T, U>(xs: seq<T>, weight: T -> int, ys: seq<U>, other: U -> int, k: nat)
    requires |xs| == |ys| && k < |xs|
    requires forall i :: 0 <= i < |xs| ==> weight(xs[i]) <= other(ys[i])
    requires weight(xs[k]) < other(ys[k])
    ensures Sum(xs, weight) < Sum(ys, other)
  {
    var n := |xs| - 1;
    if k < n {
      SumStrict(xs[..n], weight, ys[..n], other, k);
    } else {
      SumMonotone(xs[..n], weight, ys[..n], other);
    }
  }

  lemma {:induction false} SumNonNegative<T>(xs: seq<T>, weight: T -> int)
    requires forall i :: 0 <= i < |xs| ==> 0 <= weight(xs[i])
    ensures 0 <= Sum(xs, weight)
  {
    if |xs| > 0 {
      SumNonNegative(xs[..|xs| - 1], weight);
    }
  }

  /** A sum splits into what stays behind in `ys` and what is taken out of `xs`. */
  lemma {:induction false} SumSplit<T, U>(xs: seq<T>, whole: T -> int, ys: seq<U>, left: U -> int, taken: T -> int)
    requires |xs| == |ys|
    requires forall i :: 0 <= i < |xs| ==> left(ys[i]) == whole(xs[i]) - taken(xs[i])
    ensures Sum(ys, left) == Sum(xs, whole) - Sum(xs, taken)
  {
    if |xs| > 0 {
      SumSplit(xs[..|xs| - 1], whole, ys[..|xs| - 1], left, taken);
    }
  }

  lemma {:induction false} SumJoin<T, U>(xs: seq<T>, base: T -> int, added: T -> int, ys: seq<U>, joined: U -> int)
    requires |xs| == |ys|
    requires forall i :: 0 <= i < |xs| ==> joined(ys[i]) == base(xs[i]) + added(xs[i])
    ensures Sum(ys, joined) == Sum(xs, base) + Sum(xs, added)
  {
    if |xs| > 0 {
      SumJoin(xs[..|xs| - 1], base, added, ys[..|xs| - 1], joined);
    }
  }

  /** Replacing one element changes the sum by the difference of the two weights. */
  lemma {:induction false} SumUpdate<T>(xs: seq<T>, i: nat, x: T, weight: T -> int)
    requires i < |xs|
    ensures Sum(xs[i := x], weight) == Sum(xs, weight) - weight(xs[i]) + weight(x)
  {
    var n := |xs| - 1;
    if i == n {
      assert xs[i := x][..n] == xs[..n];
    } else {
      assert xs[i := x][..n] == xs[..n][i := x];
      SumUpdate(xs[..n], i, x, weight);
    }
  }

  /** With weights of 0 or more, one element never weighs more than the sum, and two never more together. */
  lemma {:induction false} SumCovers<T>(xs: seq<T>, i: nat, j: nat, weight: T -> int)
    requires i < |xs| && j < |xs|
    requires forall k :: 0 <= k < |xs| ==> 0 <= weight(xs[k])
    ensures weight(xs[i]) <= Sum(xs, weight)
    ensures i != j ==> weight(xs[i]) + weight(xs[j]) <= Sum(xs, weight)
  {
    var n := |xs| - 1;
    SumNonNegative(xs[..n], weight);
    if i < n && j < n {
      SumCovers(xs[..n], i, j, weight);
    } else if i < n {
      SumCovers(xs[..n], i, i, weight);
    } else if j < n {
      SumCovers(xs[..n], j, j, weight);
    }
  }

  /** A sum over a sequence of distinct keys, when only the weight of one key changes. */
  lemma {:induction false} SumOneKey<K>(keys: seq<K>, key: K, before: K -> int, after: K -> int)
    requires forall i, j :: 0 <= i < j < |keys| ==> keys[i] != keys[j]
    requires key in keys
    requires forall k :: k in keys && k != key ==> after(k) == before(k)
    ensures Sum(keys, after) == Sum(keys, before) - before(key) + after(key)
  {
    var n := |keys| - 1;
    if keys[n] == key {
      SumSame(keys[..n], before, keys[..n], after);
    } else {
      SumOneKey(keys[..n], key, before, after);
    }
  }
}
