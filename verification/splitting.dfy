/** Splitting an amount over denominations greedily, largest first. A denomination of 0 is one that is skipped. */
module Splitting {
  import opened Arithmetic
  import opened Lists

  function Total(parts: seq<nat>): nat
  {
    if parts == [] then 0 else parts[0] + Total(parts[1..])
  }

  /** The parts that are taken when the denominations are tried in this order. */
  function Greedy(ds: seq<nat>, amount: nat): seq<nat>
    decreases |ds|, amount
  {
    if ds == [] then []
    else if ds[0] == 0 || amount < ds[0] then Greedy(ds[1..], amount)
    else [ds[0]] + Greedy(ds, amount - ds[0])
  }

  /** What is left over. */
  function Rest(ds: seq<nat>, amount: nat): nat
    decreases |ds|, amount
  {
    if ds == [] then amount
    else if ds[0] == 0 || amount < ds[0] then Rest(ds[1..], amount)
    else Rest(ds, amount - ds[0])
  }

  predicate Descending(ds: seq<nat>)
  {
    forall i, j :: 0 <= i < j < |ds| ==> ds[i] >= ds[j]
  }

  /** The parts are denominations, and add up to the amount. */
  predicate Represents(parts: seq<nat>, ds: seq<nat>, amount: nat)
  {
    (forall i :: 0 <= i < |parts| ==> parts[i] in ds && parts[i] > 0) && Total(parts) == amount
  }

  ghost predicate Representable(ds: seq<nat>, amount: nat)
  {
    exists parts :: Represents(parts, ds, amount)
  }

  /** Nothing is lost: parts and rest make up the amount, and every part is a denomination. */
  lemma {:induction false} GreedyConserves(ds: seq<nat>, amount: nat)
    ensures Total(Greedy(ds, amount)) + Rest(ds, amount) == amount
    ensures Represents(Greedy(ds, amount), ds, amount - Rest(ds, amount))
    decreases |ds|, amount
  {
    if ds != [] {
      if ds[0] == 0 || amount < ds[0] {
        GreedyConserves(ds[1..], amount);
      } else {
        GreedyConserves(ds, amount - ds[0]);
        var parts := Greedy(ds, amount - ds[0]);
        assert ([ds[0]] + parts)[1..] == parts;
      }
    }
  }

  /** The rest is less than every denomination. */
  lemma {:induction false} RestIsSmall(ds: seq<nat>, amount: nat)
    ensures Rest(ds, amount) <= amount
    ensures forall d :: d in ds && d > 0 ==> Rest(ds, amount) < d
    decreases |ds|, amount
  {
    if ds != [] {
      if ds[0] == 0 || amount < ds[0] {
        RestIsSmall(ds[1..], amount);
        assert forall d :: d in ds ==> d == ds[0] || d in ds[1..];
      } else {
        RestIsSmall(ds, amount - ds[0]);
      }
    }
  }

  /** The loop's progress: the parts so far, and what is still to be split over the denominations from `n` on. */
  ghost predicate Reached(parts: seq<nat>, ds: seq<nat>, n: nat, remaining: nat, amount: nat)
    requires n <= |ds|
  {
    && parts + Greedy(ds[n..], remaining) == Greedy(ds, amount)
    && Rest(ds[n..], remaining) == Rest(ds, amount)
  }

  lemma ReachedByTaking(parts: seq<nat>, ds: seq<nat>, n: nat, remaining: nat, amount: nat)
    requires n < |ds| && 0 < ds[n] <= remaining && Reached(parts, ds, n, remaining, amount)
    ensures Reached(parts + [ds[n]], ds, n, remaining - ds[n], amount)
  {
  }

  lemma ReachedBySkipping(parts: seq<nat>, ds: seq<nat>, n: nat, remaining: nat, amount: nat)
    requires n < |ds| && (ds[n] == 0 || remaining < ds[n]) && Reached(parts, ds, n, remaining, amount)
    ensures Reached(parts, ds, n + 1, remaining, amount)
  {
  }

  ghost predicate AllFrom<T>(plan: seq<T>, items: seq<T>, worth: T -> nat)
  {
    forall i :: 0 <= i < |plan| ==> plan[i] in items && worth(plan[i]) > 0
  }

  /** The greedy loop over items that are worth something: each is taken as often as it fits. */
  method TakeGreedily<T>(items: seq<T>, worth: T -> nat, amount: nat) returns (plan: seq<T>, remaining: nat)
    ensures Mapped(plan, worth) == Greedy(Mapped(items, worth), amount)
    ensures remaining == Rest(Mapped(items, worth), amount)
    ensures AllFrom(plan, items, worth)
  {
    plan, remaining := [], amount;
    ghost var ds := Mapped(items, worth);
    assert ds[0..] == ds;
    for n := 0 to |items|
      invariant Reached(Mapped(plan, worth), ds, n, remaining, amount)
      invariant AllFrom(plan, items, worth)
    {
      var denomination := worth(items[n]);
      if denomination > 0 {
        while remaining >= denomination
          invariant Reached(Mapped(plan, worth), ds, n, remaining, amount)
          invariant AllFrom(plan, items, worth)
        {
          ReachedByTaking(Mapped(plan, worth), ds, n, remaining, amount);
          MappedAppend(plan, items[n], worth);
          plan := plan + [items[n]];
          remaining := remaining - denomination;
        }
      }
      ReachedBySkipping(Mapped(plan, worth), ds, n, remaining, amount);
    }
  }

  // ----- When is every representable amount accepted? -----

  ghost predicate IsLeast(ds: seq<nat>, m: nat)
  {
    m > 0 && m in ds && forall d :: d in ds && d > 0 ==> m <= d
  }

  ghost predicate LeastDividesAll(ds: seq<nat>)
  {
    forall m: nat, d: nat :: IsLeast(ds, m) && d in ds ==> Divides(m, d)
  }

  /** An amount is split without a rest exactly when some parts add up to it. */
  ghost predicate AcceptsAllRepresentable(ds: seq<nat>)
  {
    forall amount: nat :: Rest(ds, amount) == 0 <==> Representable(ds, amount)
  }

  lemma {:induction false} TotalIsMultiple(parts: seq<nat>, m: nat) returns (k: int)
    requires forall i :: 0 <= i < |parts| ==> Divides(m, parts[i])
    ensures Total(parts) == m * k
  {
    if parts == [] {
      k := 0;
    } else {
      var q := TotalIsMultiple(parts[1..], m);
      var p: int :| parts[0] == m * p;
      k := p + q;
      assert m * k == m * p + m * q;
    }
  }

  lemma {:induction false} LeastExists(ds: seq<nat>, d: nat) returns (m: nat)
    requires d in ds && d > 0
    ensures IsLeast(ds, m)
    decreases d
  {
    if e :| e in ds && 0 < e < d {
      m := LeastExists(ds, e);
    } else {
      m := d;
    }
  }

  /** If the smallest denomination divides the others, what is left of a representable amount is a multiple of it,
      and less than it. */
  lemma RepresentableIsAccepted(ds: seq<nat>, parts: seq<nat>, amount: nat)
    requires LeastDividesAll(ds) && Represents(parts, ds, amount)
    ensures Rest(ds, amount) == 0
  {
    GreedyConserves(ds, amount);
    RestIsSmall(ds, amount);
    if parts == [] {
      assert amount == 0;
    } else {
      var m := LeastExists(ds, parts[0]);
      var k := TotalIsMultiple(parts, m);
      var j := TotalIsMultiple(Greedy(ds, amount), m);
      DifferenceOfMultiples(m, k, j, Rest(ds, amount));
    }
  }

  lemma DifferenceOfMultiples(m: nat, k: int, j: int, rest: nat)
    requires m * k == m * j + rest && rest < m
    ensures rest == 0
  {
    assert m * (k - j) == rest;
    if k - j >= 1 {
      ProductOfNats(m, k - j - 1);
    } else if k - j <= -1 {
      ProductOfNats(m, j - k - 1);
    }
  }

  /** Amounts in one class modulo the first denomination leave the same rest. */
  lemma {:induction false} RestModuloFirst(ds: seq<nat>, amount: nat, k: nat, r: nat)
    requires ds != [] && ds[0] > r && amount == k * ds[0] + r
    ensures Rest(ds, amount) == Rest(ds[1..], r)
    ensures |Greedy(ds, amount)| == k + |Greedy(ds[1..], r)|
    decreases k
  {
    if k > 0 {
      OneTimeMore(k - 1, ds[0]);
      ProductOfNats(k - 1, ds[0]);
      RestModuloFirst(ds, amount - ds[0], k - 1, r);
    }
  }

  lemma {:induction false} TooSmallIsLeft(ds: seq<nat>, r: nat)
    requires forall d :: d in ds && d > 0 ==> r < d
    ensures Rest(ds, r) == r
  {
    if ds != [] {
      assert ds[0] in ds;
      assert forall d :: d in ds[1..] ==> d in ds;
      TooSmallIsLeft(ds[1..], r);
    }
  }

  function Copies(m: nat, n: nat): (parts: seq<nat>)
    ensures |parts| == n && forall i :: 0 <= i < n ==> parts[i] == m
    ensures Total(parts) == n * m
  {
    if n == 0 then []
    else
      assert ([m] + Copies(m, n - 1))[1..] == Copies(m, n - 1);
      [m] + Copies(m, n - 1)
  }

  lemma FirstIsLargest(ds: seq<nat>, d: nat)
    requires Descending(ds) && d in ds
    ensures ds != [] && ds[0] >= d
  {
  }

  /** If the smallest denomination `m` does not divide `d`, then `d` and enough copies of `m` make an amount that
      leaves the remainder of `d` by `m`. */
  lemma SomeRepresentableIsRefused(ds: seq<nat>, m: nat, d: nat) returns (amount: nat)
    requires Descending(ds) && IsLeast(ds, m) && d in ds && d > 0 && !Divides(m, d)
    ensures Representable(ds, amount) && Rest(ds, amount) != 0
  {
    var q, r := d / m, d % m;
    assert d == m * q + r;
    var first := ds[0];
    FirstIsLargest(ds, d);
    assert r > 0;
    var n := (first - 1) * q;
    var parts := [d] + Copies(m, n);
    amount := Total(parts);
    assert parts[1..] == Copies(m, n);
    assert Represents(parts, ds, amount);
    Rearranged(first, m, q, r);
    assert amount == (m * q) * first + r;
    RestModuloFirst(ds, amount, m * q, r);
    assert forall e :: e in ds[1..] ==> e in ds;
    TooSmallIsLeft(ds[1..], r);
  }

  lemma Rearranged(first: nat, m: nat, q: nat, r: nat)
    requires first > 0
    ensures m * q + r + ((first - 1) * q) * m == (m * q) * first + r
  {
  }

  /** Greedy splitting accepts every amount that can be split at all, exactly when the smallest denomination divides
      all of them. */
  lemma AcceptsAllIffLeastDivides(ds: seq<nat>)
    requires Descending(ds)
    ensures AcceptsAllRepresentable(ds) <==> LeastDividesAll(ds)
  {
    if LeastDividesAll(ds) {
      forall amount: nat ensures Rest(ds, amount) == 0 <==> Representable(ds, amount) {
        GreedyConserves(ds, amount);
        if Representable(ds, amount) {
          var parts :| Represents(parts, ds, amount);
          RepresentableIsAccepted(ds, parts, amount);
        }
      }
    } else {
      var m: nat, d: nat :| IsLeast(ds, m) && d in ds && !Divides(m, d);
      assert d > 0 by {
        assert 0 == m * 0;
      }
      var amount := SomeRepresentableIsRefused(ds, m, d);
    }
  }

  // ----- How many parts? -----

  /** Of any two denominations the smaller divides the larger. */
  ghost predicate Chain(ds: seq<nat>)
  {
    forall d, e :: d in ds && e in ds && 0 < d <= e ==> Divides(d, e)
  }

  lemma ChainLeastDivides(ds: seq<nat>)
    requires Chain(ds)
    ensures LeastDividesAll(ds)
  {
    forall m: nat, d: nat | IsLeast(ds, m) && d in ds ensures Divides(m, d) {
      if d == 0 {
        assert d == m * 0;
      }
    }
  }

  lemma PositiveQuotient(e: nat, d: nat) returns (t: nat)
    requires Divides(d, e) && 0 < d <= e
    ensures e == t * d && t >= 1
  {
    var k: int :| e == d * k;
    ProductSign(d, k);
    t := k;
  }

  lemma TailOfChain(ds: seq<nat>)
    requires Descending(ds) && Chain(ds) && ds != []
    ensures Descending(ds[1..]) && Chain(ds[1..])
  {
  }

  /** Adding multiples of a denomination to an amount below it never takes fewer parts. */
  lemma {:induction false} MultiplesTakeMore(ds: seq<nat>, i: nat, r: nat, t: nat)
    requires Descending(ds) && Chain(ds) && i < |ds| && r < ds[i]
    ensures |Greedy(ds, r)| <= |Greedy(ds, t * ds[i] + r)|
  {
    var first, d := ds[0], ds[i];
    assert first >= d;
    ProductOfNats(t, d);
    RestModuloFirst(ds, r, 0, r);
    if i == 0 {
      RestModuloFirst(ds, t * d + r, t, r);
    } else {
      var k, s := Divide(t * d + r, first);
      RestModuloFirst(ds, t * d + r, k, s);
      assert Divides(d, first);
      var u := PositiveQuotient(first, d);
      var left := SameRemainder(t, d, r, k, u, s);
      TailOfChain(ds);
      MultiplesTakeMore(ds[1..], i - 1, r, left);
    }
  }

  lemma SameRemainder(t: nat, d: nat, r: nat, k: nat, u: nat, s: nat) returns (left: nat)
    requires r < d && t * d + r == k * (u * d) + s
    ensures s == left * d + r
  {
    assert s == (t - k * u) * d + r;
    if t - k * u < 0 {
      ProductOfNats(k * u - t - 1, d);
    }
    left := t - k * u;
  }

  /** Parts that come to the first denomination when one more is added are replaced by that one. */
  lemma CarryIntoFirst(ds: seq<nat>, i: nat, amount: nat, k: nat, r: nat)
    requires Descending(ds) && Chain(ds) && 0 < i < |ds| && ds[i] > 0
    requires r < ds[0] <= r + ds[i] && amount == k * ds[0] + r + ds[i]
    ensures |Greedy(ds, amount)| <= k + 1 + |Greedy(ds[1..], r)|
  {
    var first, d := ds[0], ds[i];
    assert first >= d;
    var over := r + d - first;
    OneTimeMore(k, first);
    RestModuloFirst(ds, amount, k + 1, over);
    assert Divides(d, first);
    var t := PositiveQuotient(first, d);
    OneTimeMore(t - 1, d);
    TailOfChain(ds);
    MultiplesTakeMore(ds[1..], i - 1, over, t - 1);
  }

  lemma OneMoreFirst(ds: seq<nat>, x: nat, k: nat, r: nat)
    requires ds != [] && ds[0] > r && x == k * ds[0] + r
    ensures |Greedy(ds, x + ds[0])| == k + 1 + |Greedy(ds[1..], r)|
  {
    OneTimeMore(k, ds[0]);
    RestModuloFirst(ds, x + ds[0], k + 1, r);
  }

  /** One more denomination's worth costs at most one more part. */
  lemma {:induction false} OneMorePart(ds: seq<nat>, i: nat, x: nat)
    requires Descending(ds) && Chain(ds) && i < |ds| && ds[i] > 0
    ensures |Greedy(ds, x + ds[i])| <= |Greedy(ds, x)| + 1
  {
    var first, d := ds[0], ds[i];
    assert first >= d;
    var k, r := Divide(x, first);
    RestModuloFirst(ds, x, k, r);
    if i == 0 {
      OneMoreFirst(ds, x, k, r);
    } else if r + d < first {
      TailOfChain(ds);
      RestModuloFirst(ds, x + d, k, r + d);
      OneMorePart(ds[1..], i - 1, r);
    } else {
      CarryIntoFirst(ds, i, x + d, k, r);
    }
  }

  lemma {:induction false} NoFewerParts(ds: seq<nat>, parts: seq<nat>)
    requires Descending(ds) && Chain(ds)
    requires forall i :: 0 <= i < |parts| ==> parts[i] in ds && parts[i] > 0
    ensures |Greedy(ds, Total(parts))| <= |parts|
  {
    if parts == [] {
      EmptySplit(ds);
    } else {
      NoFewerParts(ds, parts[1..]);
      assert parts[0] in ds;
      var i :| 0 <= i < |ds| && ds[i] == parts[0];
      OneMorePart(ds, i, Total(parts[1..]));
    }
  }

  lemma {:induction false} EmptySplit(ds: seq<nat>)
    ensures Greedy(ds, 0) == []
  {
    if ds != [] {
      EmptySplit(ds[1..]);
    }
  }

  /** When the denominations form a chain of divisors, an amount is accepted exactly when some parts add up to it,
      and no such parts are fewer. */
  lemma ChainSplitsMinimally(ds: seq<nat>, amount: nat)
    requires Descending(ds) && Chain(ds)
    ensures Rest(ds, amount) == 0 <==> Representable(ds, amount)
    ensures forall parts :: Represents(parts, ds, amount) ==> |Greedy(ds, amount)| <= |parts|
  {
    ChainLeastDivides(ds);
    AcceptsAllIffLeastDivides(ds);
    assert AcceptsAllRepresentable(ds);
    forall parts | Represents(parts, ds, amount) ensures |Greedy(ds, amount)| <= |parts| {
      NoFewerParts(ds, parts);
    }
  }

  /** What amounts can be represented does not depend on the order of the denominations. */
  lemma SameDenominations(ds: seq<nat>, es: seq<nat>)
    requires forall d :: d in ds <==> d in es
    ensures forall parts, amount :: Represents(parts, ds, amount) <==> Represents(parts, es, amount)
    ensures LeastDividesAll(ds) ==> LeastDividesAll(es)
    ensures Chain(ds) ==> Chain(es)
  {
  }

  /** Everything at once, for denominations `es` that are tried in the order `ds`. */
  lemma SplitInOrder(ds: seq<nat>, es: seq<nat>, amount: nat)
    requires Descending(ds) && forall d :: d in ds <==> d in es
    ensures Total(Greedy(ds, amount)) + Rest(ds, amount) == amount
    ensures forall d :: d in es && d > 0 ==> Rest(ds, amount) < d
    ensures Rest(ds, amount) == 0 ==> Representable(es, amount)
    ensures LeastDividesAll(es) && Representable(es, amount) ==> Rest(ds, amount) == 0
    ensures Chain(es) ==> forall parts :: Represents(parts, es, amount) ==> |Greedy(ds, amount)| <= |parts|
  {
    GreedyConserves(ds, amount);
    RestIsSmall(ds, amount);
    SameDenominations(ds, es);
    SameDenominations(es, ds);
    if Rest(ds, amount) == 0 {
      assert Represents(Greedy(ds, amount), es, amount);
    }
    if LeastDividesAll(es) && Representable(es, amount) {
      var parts :| Represents(parts, es, amount);
      RepresentableIsAccepted(ds, parts, amount);
    }
    if Chain(es) {
      ChainSplitsMinimally(ds, amount);
    }
  }

  /** A smallest denomination that divides the others is not enough for the fewest parts. */
  lemma LeastDividesIsNotMinimal()
    ensures LeastDividesAll([4, 3, 1]) && Greedy([4, 3, 1], 6) == [4, 1, 1] && Represents([3, 3], [4, 3, 1], 6)
  {
    forall m: nat, d: nat | IsLeast([4, 3, 1], m) && d in [4, 3, 1] ensures Divides(m, d) {
      assert 1 in [4, 3, 1];
      assert d == m * d;
    }
    var ds := [4, 3, 1];
    assert ds[1..] == [3, 1] && ds[1..][1..] == [1] && ds[1..][1..][1..] == [];
    assert Greedy(ds, 2) == Greedy(ds[1..], 2) == Greedy([1], 2);
    assert Greedy([1], 2) == [1] + Greedy([1], 1) == [1] + ([1] + Greedy([1], 0));
    assert Greedy([1], 0) == [];
    assert [3, 3][1..] == [3] && Total([3]) == 3;
  }
}
