/** Lists: applying a function to every element, dropping repetitions, and sorting. */
module Lists {
  import opened Wrappers

  function Mapped<T, U>(xs: seq<T>, f: T -> U): (ys: seq<U>)
    ensures |ys| == |xs|
    ensures forall i :: 0 <= i < |xs| ==> ys[i] == f(xs[i])
  {
    if xs == [] then [] else Mapped(xs[..|xs| - 1], f) + [f(xs[|xs| - 1])]
  }

  lemma MappedAppend<T, U>(xs: seq<T>, x: T, f: T -> U)
    ensures Mapped(xs + [x], f) == Mapped(xs, f) + [f(x)]
  {
  }

  lemma MappedMembers<T, U>(xs: seq<T>, ys: seq<T>, f: T -> U)
    requires forall x :: x in xs ==> x in ys
    ensures forall u :: u in Mapped(xs, f) ==> u in Mapped(ys, f)
  {
    forall u | u in Mapped(xs, f) ensures u in Mapped(ys, f) {
      var i :| 0 <= i < |xs| && Mapped(xs, f)[i] == u;
      assert xs[i] in ys;
      var j :| 0 <= j < |ys| && ys[j] == xs[i];
      assert Mapped(ys, f)[j] == u;
    }
  }

  lemma SameMembers<T>(xs: seq<T>, ys: seq<T>)
    requires multiset(xs) == multiset(ys)
    ensures forall x :: x in xs <==> x in ys
  {
    assert forall x :: x in xs <==> x in multiset(xs);
    assert forall x :: x in ys <==> x in multiset(ys);
  }

  // ----- One element for a key -----

  /** The elements to keep, each only at the first occurrence of its key. */
  function Distinct<T, K(==)>(xs: seq<T>, keep: T -> bool, key: T -> K): seq<T>
  {
    if xs == [] then []
    else
      var kept, x := Distinct(xs[..|xs| - 1], keep, key), xs[|xs| - 1];
      if !keep(x) || key(x) in Mapped(kept, key) then kept else kept + [x]
  }

  ghost predicate KeysDiffer<T, K>(kept: seq<T>, key: T -> K)
  {
    forall i, j :: 0 <= i < j < |kept| ==> key(kept[i]) != key(kept[j])
  }

  ghost predicate AreKept<T>(kept: seq<T>, xs: seq<T>, keep: T -> bool)
  {
    forall i :: 0 <= i < |kept| ==> kept[i] in xs && keep(kept[i])
  }

  ghost predicate EveryKeyIsKept<T, K>(kept: seq<T>, xs: seq<T>, keep: T -> bool, key: T -> K)
  {
    forall i :: 0 <= i < |xs| && keep(xs[i]) ==> key(xs[i]) in Mapped(kept, key)
  }

  lemma NewKeyDiffers<T, K>(kept: seq<T>, x: T, key: T -> K)
    requires KeysDiffer(kept, key) && key(x) !in Mapped(kept, key)
    ensures KeysDiffer(kept + [x], key)
  {
    forall i | 0 <= i < |kept| ensures key(kept[i]) != key(x) {
      assert Mapped(kept, key)[i] == key(kept[i]);
    }
  }

  lemma MoreAreKept<T>(kept: seq<T>, xs: seq<T>, x: T, keep: T -> bool)
    requires AreKept(kept, xs, keep)
    ensures AreKept(kept, xs + [x], keep)
    ensures keep(x) ==> AreKept(kept + [x], xs + [x], keep)
  {
    assert (xs + [x])[|xs|] == x;
  }

  lemma MoreKeysAreKept<T, K>(kept: seq<T>, xs: seq<T>, x: T, keep: T -> bool, key: T -> K)
    requires EveryKeyIsKept(kept, xs, keep, key)
    ensures !keep(x) || key(x) in Mapped(kept, key) ==> EveryKeyIsKept(kept, xs + [x], keep, key)
    ensures EveryKeyIsKept(kept + [x], xs + [x], keep, key)
  {
    MappedAppend(kept, x, key);
    assert (Mapped(kept, key) + [key(x)])[|kept|] == key(x);
  }

  lemma {:induction false} DistinctKeepsEveryKeyOnce<T, K>(xs: seq<T>, keep: T -> bool, key: T -> K)
    ensures KeysDiffer(Distinct(xs, keep, key), key)
    ensures AreKept(Distinct(xs, keep, key), xs, keep)
    ensures EveryKeyIsKept(Distinct(xs, keep, key), xs, keep, key)
  {
    if xs != [] {
      var n := |xs| - 1;
      DistinctKeepsEveryKeyOnce(xs[..n], keep, key);
      var before, x := Distinct(xs[..n], keep, key), xs[n];
      assert xs == xs[..n] + [x];
      MoreAreKept(before, xs[..n], x, keep);
      MoreKeysAreKept(before, xs[..n], x, keep, key);
      if keep(x) && key(x) !in Mapped(before, key) {
        NewKeyDiffers(before, x, key);
      }
    }
  }

  // ----- The first fault -----

  /** The first fault that a check finds in a list. */
  function FirstFault<T, E>(xs: seq<T>, check: T -> Option<E>): Option<E>
  {
    if xs == [] then None
    else
      var before := FirstFault(xs[..|xs| - 1], check);
      if before.Some? then before else check(xs[|xs| - 1])
  }

  lemma {:induction false} FaultStays<T, E>(xs: seq<T>, n: nat, check: T -> Option<E>)
    requires n <= |xs| && FirstFault(xs[..n], check).Some?
    ensures FirstFault(xs, check) == FirstFault(xs[..n], check)
    decreases |xs| - n
  {
    if n == |xs| {
      assert xs[..n] == xs;
    } else {
      assert xs[..n + 1][..n] == xs[..n];
      FaultStays(xs, n + 1, check);
    }
  }

  /** Cleans the elements one after the other, and stops at the first that has a fault. */
  method CleanAndCheck<T, U, E>(xs: seq<T>, clean: T -> U, check: U -> Option<E>) returns (result: Result<seq<U>, E>)
    ensures var fault := FirstFault(Mapped(xs, clean), check);
      result == if fault.Some? then Err(fault.value) else Ok(Mapped(xs, clean))
  {
    var cleaned: seq<U> := [];
    ghost var all := Mapped(xs, clean);
    for n := 0 to |xs|
      invariant cleaned == all[..n] && FirstFault(all[..n], check).None?
    {
      var x := clean(xs[n]);
      var fault := check(x);
      assert all[..n + 1][..n] == all[..n];
      if fault.Some? {
        FaultStays(all, n + 1, check);
        return Err(fault.value);
      }
      cleaned := cleaned + [x];
    }
    assert all[..|all|] == all;
    return Ok(cleaned);
  }

  // ----- Sorting -----

  ghost predicate IsDescending<T>(xs: seq<T>, rank: T -> int)
  {
    forall i, j :: 0 <= i < j < |xs| ==> rank(xs[i]) >= rank(xs[j])
  }

  lemma InsertedAt<T>(xs: seq<T>, i: nat, x: T, k: nat)
    requires i <= |xs| && k <= |xs|
    ensures (xs[..i] + [x] + xs[i..])[k] == if k < i then xs[k] else if k == i then x else xs[k - 1]
  {
  }

  lemma NotBelow<T>(xs: seq<T>, i: nat, x: T, rank: T -> int, a: nat, b: nat)
    requires IsDescending(xs, rank) && i <= |xs| && a < b <= |xs|
    requires forall k :: 0 <= k < i ==> rank(xs[k]) >= rank(x)
    requires i < |xs| ==> rank(xs[i]) < rank(x)
    ensures var left := if a < i then xs[a] else if a == i then x else xs[a - 1];
      var right := if b < i then xs[b] else if b == i then x else xs[b - 1];
      rank(left) >= rank(right)
  {
  }

  lemma InsertedIsDescending<T>(xs: seq<T>, i: nat, x: T, rank: T -> int)
    requires IsDescending(xs, rank) && i <= |xs|
    requires forall k :: 0 <= k < i ==> rank(xs[k]) >= rank(x)
    requires i < |xs| ==> rank(xs[i]) < rank(x)
    ensures IsDescending(xs[..i] + [x] + xs[i..], rank)
    ensures multiset(xs[..i] + [x] + xs[i..]) == multiset(xs) + multiset{x}
  {
    assert xs == xs[..i] + xs[i..];
    var ys := xs[..i] + [x] + xs[i..];
    forall a, b | 0 <= a < b < |ys| ensures rank(ys[a]) >= rank(ys[b]) {
      InsertedAt(xs, i, x, a);
      InsertedAt(xs, i, x, b);
      NotBelow(xs, i, x, rank, a, b);
    }
  }

  method Insert<T>(xs: seq<T>, x: T, rank: T -> int) returns (longer: seq<T>)
    requires IsDescending(xs, rank)
    ensures IsDescending(longer, rank) && multiset(longer) == multiset(xs) + multiset{x}
  {
    var i := 0;
    while i < |xs| && rank(xs[i]) >= rank(x)
      invariant i <= |xs|
      invariant forall k :: 0 <= k < i ==> rank(xs[k]) >= rank(x)
    {
      i := i + 1;
    }
    InsertedIsDescending(xs, i, x, rank);
    longer := xs[..i] + [x] + xs[i..];
  }

  /** Sorts in descending order; nothing is promised about the order of equals. */
  method SortDescending<T>(xs: seq<T>, rank: T -> int) returns (sorted: seq<T>)
    ensures multiset(sorted) == multiset(xs)
    ensures IsDescending(sorted, rank)
  {
    sorted := [];
    for n := 0 to |xs|
      invariant multiset(sorted) == multiset(xs[..n])
      invariant IsDescending(sorted, rank)
    {
      assert xs[..n + 1] == xs[..n] + [xs[n]];
      sorted := Insert(sorted, xs[n], rank);
    }
    assert xs[..|xs|] == xs;
  }
}
