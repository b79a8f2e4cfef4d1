/** Matching a list of wanted keys against offered items, first fit, each item used at most once. */
module Matching {
  import opened Lists
  import opened Wrappers

  /** The keys of the items that are not used yet. */
  function Unused<K>(keys: seq<K>, used: seq<bool>): multiset<K>
    requires |used| == |keys|
  {
    if keys == [] then multiset{}
    else
      var n := |keys| - 1;
      Unused(keys[..n], used[..n]) + if used[n] then multiset{} else multiset{keys[n]}
  }

  lemma {:induction false} UseOne<K>(keys: seq<K>, used: seq<bool>, i: nat)
    requires |used| == |keys| && i < |keys| && !used[i]
    ensures Unused(keys, used) == Unused(keys, used[i := true]) + multiset{keys[i]}
  {
    var n := |keys| - 1;
    if i == n {
      assert used[i := true][..n] == used[..n];
    } else {
      assert used[i := true][..n] == used[..n][i := true];
      UseOne(keys[..n], used[..n], i);
    }
  }

  lemma {:induction false} NothingUsed<K>(keys: seq<K>, used: seq<bool>)
    requires |used| == |keys| && forall i :: 0 <= i < |used| ==> !used[i]
    ensures Unused(keys, used) == multiset(keys)
  {
    if keys != [] {
      var n := |keys| - 1;
      NothingUsed(keys[..n], used[..n]);
      assert keys == keys[..n] + [keys[n]];
    }
  }

  lemma {:induction false} NoneLeft<K>(keys: seq<K>, used: seq<bool>, key: K)
    requires |used| == |keys| && forall i :: 0 <= i < |keys| && keys[i] == key ==> used[i]
    ensures Unused(keys, used)[key] == 0
  {
    if keys != [] {
      var n := |keys| - 1;
      NoneLeft(keys[..n], used[..n], key);
    }
  }

  /** Each position holds the key that is wanted there, and no position is used twice. */
  ghost predicate IsMatching<K>(positions: seq<nat>, wanted: seq<K>, offered: seq<K>)
  {
    && |positions| == |wanted|
    && (forall i :: 0 <= i < |positions| ==> positions[i] < |offered| && offered[positions[i]] == wanted[i])
    && (forall i, j :: 0 <= i < j < |positions| ==> positions[i] != positions[j])
  }

  /** The first unused item with the wanted key, if there is one. */
  method FindUnused<K(==)>(offered: seq<K>, used: seq<bool>, key: K) returns (found: Option<nat>)
    requires |used| == |offered|
    ensures found.Some? ==> found.value < |offered| && offered[found.value] == key && !used[found.value]
    ensures found.None? ==> Unused(offered, used)[key] == 0
  {
    for i := 0 to |offered|
      invariant forall k :: 0 <= k < i && offered[k] == key ==> used[k]
    {
      if !used[i] && offered[i] == key {
        return Some(i);
      }
    }
    NoneLeft(offered, used, key);
    return None;
  }

  /** Succeeds exactly when the wanted keys are contained in the offered ones, counted with multiplicity. On failure
      the position of the first wanted key that is not there often enough. */
  method MatchFirstFit<K(==)>(wanted: seq<K>, offered: seq<K>) returns (result: Result<seq<nat>, nat>)
    ensures result.Ok? <==> multiset(wanted) <= multiset(offered)
    ensures result.Ok? ==> IsMatching(result.value, wanted, offered)
    ensures result.Err? ==> result.error < |wanted|
    ensures result.Err? ==> multiset(wanted[..result.error]) <= multiset(offered)
    ensures result.Err? ==> !(multiset(wanted[..result.error + 1]) <= multiset(offered))
  {
    var used := Flags(|offered|);
    var positions: seq<nat> := [];
    NothingUsed(offered, used);
    for n := 0 to |wanted|
      invariant Progress(positions, used, wanted[..n], offered)
    {
      var found := FindUnused(offered, used, wanted[n]);
      if found.None? {
        TooMany(wanted, n, Unused(offered, used), offered);
        return Err(n);
      }
      Advance(positions, used, wanted, n, offered, found.value);
      used := used[found.value := true];
      positions := positions + [found.value];
    }
    assert wanted[..|wanted|] == wanted;
    BalancedIsContained(wanted, Unused(offered, used), offered);
    return Ok(positions);
  }

  /** `positions` matches the keys `taken`, and exactly the items at `positions` are used. */
  ghost predicate Progress<K>(positions: seq<nat>, used: seq<bool>, taken: seq<K>, offered: seq<K>)
  {
    && |used| == |offered|
    && IsMatching(positions, taken, offered)
    && AllUsed(positions, used)
    && Balanced(taken, Unused(offered, used), offered)
  }

  lemma Advance<K>(positions: seq<nat>, used: seq<bool>, wanted: seq<K>, n: nat, offered: seq<K>, found: nat)
    requires n < |wanted| && Progress(positions, used, wanted[..n], offered)
    requires found < |offered| && offered[found] == wanted[n] && !used[found]
    ensures Progress(positions + [found], used[found := true], wanted[..n + 1], offered)
  {
    UseOne(offered, used, found);
    StaysBalanced(wanted, n, Unused(offered, used), Unused(offered, used[found := true]), offered);
    ExtendMatching(positions, used, wanted, n, offered, found);
  }

  function Flags(n: nat): (used: seq<bool>)
    ensures |used| == n && forall i :: 0 <= i < n ==> !used[i]
  {
    if n == 0 then [] else Flags(n - 1) + [false]
  }

  /** What was taken and what is unused make up what was offered. */
  ghost predicate Balanced<K>(taken: seq<K>, unused: multiset<K>, offered: seq<K>)
  {
    multiset(taken) + unused == multiset(offered)
  }

  lemma BalancedIsContained<K>(taken: seq<K>, unused: multiset<K>, offered: seq<K>)
    requires Balanced(taken, unused, offered)
    ensures multiset(taken) <= multiset(offered)
  {
  }

  lemma TooMany<K>(wanted: seq<K>, n: nat, unused: multiset<K>, offered: seq<K>)
    requires n < |wanted| && Balanced(wanted[..n], unused, offered) && unused[wanted[n]] == 0
    ensures multiset(wanted[..n]) <= multiset(offered)
    ensures !(multiset(wanted[..n + 1]) <= multiset(offered))
    ensures !(multiset(wanted) <= multiset(offered))
  {
    assert wanted[..n + 1] == wanted[..n] + [wanted[n]];
    assert wanted == wanted[..n + 1] + wanted[n + 1..];
    assert multiset(wanted[..n + 1])[wanted[n]] > multiset(offered)[wanted[n]];
  }

  lemma StaysBalanced<K>(wanted: seq<K>, n: nat, before: multiset<K>, after: multiset<K>, offered: seq<K>)
    requires n < |wanted| && Balanced(wanted[..n], before, offered)
    requires before == after + multiset{wanted[n]}
    ensures Balanced(wanted[..n + 1], after, offered)
  {
    assert wanted[..n + 1] == wanted[..n] + [wanted[n]];
  }

  ghost predicate AllUsed(positions: seq<nat>, used: seq<bool>)
  {
    forall i :: 0 <= i < |positions| ==> positions[i] < |used| && used[positions[i]]
  }

  lemma ExtendMatching<K>(positions: seq<nat>, used: seq<bool>, wanted: seq<K>, n: nat, offered: seq<K>, found: nat)
    requires n < |wanted| && IsMatching(positions, wanted[..n], offered) && AllUsed(positions, used)
    requires found < |offered| == |used| && offered[found] == wanted[n] && !used[found]
    ensures IsMatching(positions + [found], wanted[..n + 1], offered)
    ensures AllUsed(positions + [found], used[found := true])
  {
  }

  /** The items at the given positions. */
  method Pick<T>(items: seq<T>, positions: seq<nat>) returns (picked: seq<T>)
    requires forall i :: 0 <= i < |positions| ==> positions[i] < |items|
    ensures IsPicked(items, positions, picked)
  {
    picked := [];
    for n := 0 to |positions|
      invariant |picked| == n && forall i :: 0 <= i < n ==> picked[i] == items[positions[i]]
    {
      picked := picked + [items[positions[n]]];
    }
  }

  ghost predicate IsPicked<T>(items: seq<T>, positions: seq<nat>, picked: seq<T>)
  {
    |picked| == |positions| && forall i :: 0 <= i < |positions| ==>
        positions[i] < |items| && picked[i] == items[positions[i]]
  }
}
