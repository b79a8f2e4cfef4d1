/** The numbering of private-claim leaves: every trade takes the next number of its market, trades from before
    the numbering get theirs at the next tree request, and the list of leaves only ever grows at its end. */
module LeafNumbering {
  import opened Money
  import opened Sums

  /** A stored trade as the numbering sees it. Leaf 0 is a trade without a commitment, and a negative index
      one that was never numbered. */
  datatype Row = Row(poll: nat, leaf: nat, index: int, createdAt: nat, id: nat)

  predicate HasLeaf(r: Row, p: nat)
  {
    r.poll == p && r.leaf != 0
  }

  predicate Numbered(r: Row, p: nat)
  {
    HasLeaf(r, p) && r.index >= 0
  }

  predicate Missing(r: Row, p: nat)
  {
    HasLeaf(r, p) && r.index < 0
  }

  /** The highest number on the market, or -1. */
  function MaxIndex(rows: seq<Row>, p: nat): (m: int)
    ensures m >= -1
    ensures forall i :: 0 <= i < |rows| && Numbered(rows[i], p) ==> rows[i].index <= m
    ensures m >= 0 ==> exists i :: 0 <= i < |rows| && Numbered(rows[i], p) && rows[i].index == m
  {
    if |rows| == 0 then -1 else
    var before := MaxIndex(rows[..|rows| - 1], p);
    var last := rows[|rows| - 1];
    if HasLeaf(last, p) then Max(before, Max(-1, last.index)) else before
  }

  function NextIndex(rows: seq<Row>, p: nat): nat
  {
    MaxIndex(rows, p) + 1
  }

  function NumberedOn(p: nat): Row -> int
  {
    (r: Row) => if Numbered(r, p) then 1 else 0
  }

  function MissingOn(p: nat): Row -> int
  {
    (r: Row) => if Missing(r, p) then 1 else 0
  }

  ghost function MissingCount(rows: seq<Row>, p: nat): nat
  {
    SumNonNegative(rows, MissingOn(p));
    Sum(rows, MissingOn(p))
  }

  ghost predicate HasNumber(rows: seq<Row>, p: nat, n: int)
  {
    exists i :: 0 <= i < |rows| && Numbered(rows[i], p) && rows[i].index == n
  }

  /** The numbers given out on a market are distinct and exactly 0 to k-1, k being how many there are. */
  ghost predicate WellNumbered(rows: seq<Row>, p: nat)
  {
    && (forall i, j :: 0 <= i < j < |rows| && Numbered(rows[i], p) && Numbered(rows[j], p) ==>
        rows[i].index != rows[j].index)
    && (forall n :: 0 <= n < NextIndex(rows, p) ==> HasNumber(rows, p, n))
    && Sum(rows, NumberedOn(p)) == NextIndex(rows, p)
  }

  /** The leaves of a market in the order of their numbers. */
  ghost predicate IsLeafList(rows: seq<Row>, p: nat, leaves: seq<nat>)
  {
    && |leaves| == NextIndex(rows, p)
    && forall i :: 0 <= i < |rows| && Numbered(rows[i], p) ==> leaves[rows[i].index] == rows[i].leaf
  }

  lemma MaxIsUnique(rows: seq<Row>, p: nat, m: int)
    requires m >= -1
    requires forall i :: 0 <= i < |rows| && Numbered(rows[i], p) ==> rows[i].index <= m
    requires m >= 0 ==> HasNumber(rows, p, m)
    ensures MaxIndex(rows, p) == m
  {
  }

  // ----- Steps -----

  function NewRow(rows: seq<Row>, poll: nat, leaf: nat, createdAt: nat, id: nat): Row
  {
    Row(poll, leaf, if leaf == 0 then -1 else NextIndex(rows, poll), createdAt, id)
  }

  predicate Earlier(a: Row, b: Row)
  {
    a.createdAt < b.createdAt || (a.createdAt == b.createdAt && a.id < b.id)
  }

  /** The first row, by creation time and then by id, that still misses its number; or the length. */
  function FirstMissing(rows: seq<Row>, p: nat): (m: nat)
    ensures m <= |rows|
    ensures m < |rows| ==> Missing(rows[m], p)
    ensures m < |rows| ==> forall i :: 0 <= i < |rows| && Missing(rows[i], p) ==> !Earlier(rows[i], rows[m])
    ensures m == |rows| ==> forall i :: 0 <= i < |rows| ==> !Missing(rows[i], p)
  {
    if |rows| == 0 then 0 else
    var n := |rows| - 1;
    var before := FirstMissing(rows[..n], p);
    if before < n then (if Missing(rows[n], p) && Earlier(rows[n], rows[before]) then n else before)
    else if Missing(rows[n], p) then n else n + 1
  }

  function NumberRow(rows: seq<Row>, p: nat, m: nat): seq<Row>
    requires m < |rows|
  {
    rows[m := rows[m].(index := NextIndex(rows, p))]
  }

  function NumberMissing(rows: seq<Row>, p: nat): (after: seq<Row>)
    ensures |after| == |rows|
    decreases MissingCount(rows, p)
  {
    var m := FirstMissing(rows, p);
    if m == |rows| then rows else
    SumUpdate(rows, m, rows[m].(index := NextIndex(rows, p)), MissingOn(p));
    NumberMissing(NumberRow(rows, p, m), p)
  }

  datatype Step = Create(poll: nat, leaf: nat, createdAt: nat, id: nat) | RequestTree(poll: nat)

  function Next(rows: seq<Row>, step: Step): seq<Row>
  {
    match step
    case Create(poll, leaf, createdAt, id) => rows + [NewRow(rows, poll, leaf, createdAt, id)]
    case RequestTree(poll) => NumberMissing(rows, poll)
  }

  function Run(rows: seq<Row>, steps: seq<Step>): seq<Row>
    decreases |steps|
  {
    if |steps| == 0 then rows else Run(Next(rows, steps[0]), steps[1..])
  }

  // ----- The numbering stays exact -----

  lemma CreateKeepsNumbers(rows: seq<Row>, r: Row, p: nat)
    requires WellNumbered(rows, p)
    requires Numbered(r, p) ==> r.index == NextIndex(rows, p)
    ensures WellNumbered(rows + [r], p)
    ensures NextIndex(rows + [r], p) == if Numbered(r, p) then NextIndex(rows, p) + 1 else NextIndex(rows, p)
  {
    var after := rows + [r];
    SumAppend(rows, r, NumberedOn(p));
    forall n | HasNumber(rows, p, n) ensures HasNumber(after, p, n) {
      var i :| 0 <= i < |rows| && Numbered(rows[i], p) && rows[i].index == n;
      assert after[i] == rows[i];
    }
    if Numbered(r, p) {
      assert after[|rows|] == r;
      MaxIsUnique(after, p, r.index);
    } else {
      MaxIsUnique(after, p, MaxIndex(rows, p));
    }
  }

  lemma NumberRowMax(rows: seq<Row>, q: nat, m: nat, p: nat)
    requires WellNumbered(rows, p) && m < |rows| && Missing(rows[m], q)
    ensures MaxIndex(NumberRow(rows, q, m), p) == if p == q then NextIndex(rows, p) else MaxIndex(rows, p)
  {
    var after := NumberRow(rows, q, m);
    if p == q {
      assert Numbered(after[m], p);
      MaxIsUnique(after, p, NextIndex(rows, p));
    } else {
      if MaxIndex(rows, p) >= 0 {
        var i :| 0 <= i < |rows| && Numbered(rows[i], p) && rows[i].index == MaxIndex(rows, p);
        assert after[i] == rows[i];
      }
      MaxIsUnique(after, p, MaxIndex(rows, p));
    }
  }

  lemma NumberRowHas(rows: seq<Row>, q: nat, m: nat, p: nat, n: nat)
    requires m < |rows| && Missing(rows[m], q)
    ensures HasNumber(rows, p, n) ==> HasNumber(NumberRow(rows, q, m), p, n)
    ensures p == q && n == NextIndex(rows, p) ==> HasNumber(NumberRow(rows, q, m), p, n)
  {
    var after := NumberRow(rows, q, m);
    if HasNumber(rows, p, n) {
      var i :| 0 <= i < |rows| && Numbered(rows[i], p) && rows[i].index == n;
      assert after[i] == rows[i];
    }
    assert p == q ==> Numbered(after[m], p);
  }

  lemma NumberRowKeeps(rows: seq<Row>, q: nat, m: nat, p: nat)
    requires WellNumbered(rows, p) && m < |rows| && Missing(rows[m], q)
    ensures WellNumbered(NumberRow(rows, q, m), p)
    ensures NextIndex(NumberRow(rows, q, m), p) == if p == q then NextIndex(rows, p) + 1 else NextIndex(rows, p)
  {
    var after := NumberRow(rows, q, m);
    SumUpdate(rows, m, after[m], NumberedOn(p));
    NumberRowMax(rows, q, m, p);
    forall n: nat | n < NextIndex(after, p) ensures HasNumber(after, p, n) {
      NumberRowHas(rows, q, m, p, n);
    }
  }

  lemma {:induction false} NumberMissingKeeps(rows: seq<Row>, q: nat, p: nat)
    requires WellNumbered(rows, p)
    ensures WellNumbered(NumberMissing(rows, q), p)
    ensures NextIndex(NumberMissing(rows, q), p) >= NextIndex(rows, p)
    decreases MissingCount(rows, q)
  {
    var m := FirstMissing(rows, q);
    if m < |rows| {
      SumUpdate(rows, m, rows[m].(index := NextIndex(rows, q)), MissingOn(q));
      NumberRowKeeps(rows, q, m, p);
      NumberMissingKeeps(NumberRow(rows, q, m), q, p);
    }
  }

  /** Before any number is given out, the numbering is exact: all leaves are legacy leaves. */
  lemma {:induction false} NothingNumbered(rows: seq<Row>, p: nat)
    requires forall i :: 0 <= i < |rows| ==> rows[i].index < 0
    ensures WellNumbered(rows, p) && NextIndex(rows, p) == 0
  {
    MaxIsUnique(rows, p, -1);
    if |rows| > 0 {
      NothingNumbered(rows[..|rows| - 1], p);
    }
  }

  /** Over every run the numbers of every market stay exact. */
  lemma {:induction false} RunKeepsNumbers(rows: seq<Row>, steps: seq<Step>, p: nat)
    requires WellNumbered(rows, p)
    ensures WellNumbered(Run(rows, steps), p)
    decreases |steps|
  {
    if |steps| > 0 {
      match steps[0] {
        case Create(poll, leaf, createdAt, id) => CreateKeepsNumbers(rows, NewRow(rows, poll, leaf, createdAt, id), p);
        case RequestTree(poll) => NumberMissingKeeps(rows, poll, p);
      }
      RunKeepsNumbers(Next(rows, steps[0]), steps[1..], p);
    }
  }

  /** So they are exact in every run from rows without numbers, stored before the numbering or not stored at all. */
  lemma EveryRunNumbersExactly(legacy: seq<Row>, steps: seq<Step>, p: nat)
    requires forall i :: 0 <= i < |legacy| ==> legacy[i].index < 0
    ensures WellNumbered(Run(legacy, steps), p)
  {
    NothingNumbered(legacy, p);
    RunKeepsNumbers(legacy, steps, p);
  }

  // ----- The list only grows at its end -----

  /** Rows are only added, and a number once given never changes. */
  ghost predicate Extends(before: seq<Row>, after: seq<Row>)
  {
    && |before| <= |after|
    && forall i :: 0 <= i < |before| ==>
         && after[i].poll == before[i].poll && after[i].leaf == before[i].leaf
         && after[i].createdAt == before[i].createdAt && after[i].id == before[i].id
         && (before[i].index >= 0 ==> after[i].index == before[i].index)
  }

  lemma {:induction false} NumberMissingExtends(rows: seq<Row>, p: nat)
    ensures Extends(rows, NumberMissing(rows, p))
    decreases MissingCount(rows, p)
  {
    var m := FirstMissing(rows, p);
    if m < |rows| {
      SumUpdate(rows, m, rows[m].(index := NextIndex(rows, p)), MissingOn(p));
      NumberMissingExtends(NumberRow(rows, p, m), p);
    }
  }

  lemma {:induction false} RunExtends(rows: seq<Row>, steps: seq<Step>)
    ensures Extends(rows, Run(rows, steps))
    decreases |steps|
  {
    if |steps| > 0 {
      if steps[0].RequestTree? {
        NumberMissingExtends(rows, steps[0].poll);
      }
      assert Extends(rows, Next(rows, steps[0]));
      RunExtends(Next(rows, steps[0]), steps[1..]);
    }
  }

  /** Every later leaf list extends every earlier one. */
  lemma LaterListsExtendEarlierOnes(rows: seq<Row>, steps: seq<Step>, p: nat, earlier: seq<nat>, later: seq<nat>)
    requires WellNumbered(rows, p)
    requires IsLeafList(rows, p, earlier) && IsLeafList(Run(rows, steps), p, later)
    ensures earlier <= later
  {
    var after := Run(rows, steps);
    RunExtends(rows, steps);
    RunKeepsNumbers(rows, steps, p);
    forall n | 0 <= n < |earlier| ensures n < |later| && later[n] == earlier[n] {
      assert HasNumber(rows, p, n);
      var i :| 0 <= i < |rows| && Numbered(rows[i], p) && rows[i].index == n;
      assert Numbered(after[i], p) && after[i].index == n;
    }
  }

  /** A new leaf takes its place at the end of its market's list at once; a trade without a leaf, or on another market,
      leaves the list as it is. */
  lemma CreatedLeafIsListed(rows: seq<Row>, p: nat, leaves: seq<nat>, poll: nat, leaf: nat, createdAt: nat, id: nat,
                            after: seq<Row>)
    requires WellNumbered(rows, p) && IsLeafList(rows, p, leaves)
    requires after == Next(rows, Create(poll, leaf, createdAt, id))
    ensures IsLeafList(after, p, if poll == p && leaf != 0 then leaves + [leaf] else leaves)
    ensures after[..|after| - 1] == rows
    ensures var r := after[|after| - 1];
            r.poll == poll && r.leaf == leaf && r.createdAt == createdAt && r.id == id && (leaf == 0 ==> r.index < 0)
  {
    var r := NewRow(rows, poll, leaf, createdAt, id);
    CreateKeepsNumbers(rows, r, p);
    assert after == rows + [r];
  }

  /** After a tree request no leaf of the market misses its number. */
  lemma {:induction false} AllAreNumbered(rows: seq<Row>, p: nat)
    ensures forall i :: 0 <= i < |rows| ==> !Missing(NumberMissing(rows, p)[i], p)
    decreases MissingCount(rows, p)
  {
    var m := FirstMissing(rows, p);
    if m < |rows| {
      SumUpdate(rows, m, rows[m].(index := NextIndex(rows, p)), MissingOn(p));
      AllAreNumbered(NumberRow(rows, p, m), p);
    }
  }

  /** Legacy leaves get their numbers in the order they were created, and by id when created at once. */
  lemma {:induction false} LegacyOrderIsKept(rows: seq<Row>, p: nat, i: nat, j: nat)
    requires i < |rows| && j < |rows| && Missing(rows[i], p) && Missing(rows[j], p)
    requires rows[i].createdAt <= rows[j].createdAt
    requires rows[i].createdAt == rows[j].createdAt ==> rows[i].id < rows[j].id
    ensures NextIndex(rows, p) <= NumberMissing(rows, p)[i].index < NumberMissing(rows, p)[j].index
    decreases MissingCount(rows, p)
  {
    var m := FirstMissing(rows, p);
    assert m < |rows| && m != j;
    var after := NumberRow(rows, p, m);
    SumUpdate(rows, m, rows[m].(index := NextIndex(rows, p)), MissingOn(p));
    NumberMissingExtends(after, p);
    assert Numbered(after[m], p) && after[m].index == NextIndex(rows, p);
    MaxIsUnique(after, p, NextIndex(rows, p));
    if m == i {
      StillMissing(after, p, j);
    } else {
      LegacyOrderIsKept(after, p, i, j);
    }
  }

  lemma {:induction false} StillMissing(rows: seq<Row>, p: nat, j: nat)
    requires j < |rows| && Missing(rows[j], p)
    ensures NumberMissing(rows, p)[j].index >= NextIndex(rows, p)
    decreases MissingCount(rows, p)
  {
    var m := FirstMissing(rows, p);
    assert m < |rows|;
    var after := NumberRow(rows, p, m);
    SumUpdate(rows, m, rows[m].(index := NextIndex(rows, p)), MissingOn(p));
    NumberMissingExtends(after, p);
    assert Numbered(after[m], p) && after[m].index == NextIndex(rows, p);
    MaxIsUnique(after, p, NextIndex(rows, p));
    if m != j {
      StillMissing(after, p, j);
    }
  }

  // ----- The store -----

  class LeafStore {
    var rows: seq<Row>

    method CreateTrade(poll: nat, leaf: nat, createdAt: nat, id: nat)
      modifies this
      ensures rows == Next(old(rows), Create(poll, leaf, createdAt, id))
    {
      var maxLeafIndex := -1;
      for i := 0 to |rows|
        invariant maxLeafIndex == MaxIndex(rows[..i], poll)
        invariant rows == old(rows)
      {
        assert rows[..i + 1][..i] == rows[..i];
        if rows[i].poll == poll && rows[i].leaf != 0 && rows[i].index > maxLeafIndex {
          maxLeafIndex := rows[i].index;
        }
      }
      assert rows[..|rows|] == rows;
      rows := rows + [Row(poll, leaf, if leaf == 0 then -1 else maxLeafIndex + 1, createdAt, id)];
    }

    /** Numbers the legacy leaves, then lists all leaves of the market by number. */
    method PrivateClaimTree(poll: nat) returns (leaves: seq<nat>, indexes: seq<int>)
      requires WellNumbered(rows, poll)
      modifies this
      ensures rows == Next(old(rows), RequestTree(poll))
      ensures WellNumbered(rows, poll)
      ensures IsLeafList(rows, poll, leaves)
      ensures |indexes| == |leaves| && forall k :: 0 <= k < |indexes| ==> indexes[k] == k
      ensures forall i :: 0 <= i < |rows| && HasLeaf(rows[i], poll) ==>
                0 <= rows[i].index < |leaves| && leaves[rows[i].index] == rows[i].leaf
    {
      NumberMissingKeeps(rows, poll, poll);
      AllAreNumbered(rows, poll);
      var nextIndex := MaxIndex(rows, poll) + 1;
      var m := FirstMissing(rows, poll);
      while m < |rows|
        invariant WellNumbered(rows, poll) && nextIndex == NextIndex(rows, poll)
        invariant m == FirstMissing(rows, poll)
        invariant NumberMissing(rows, poll) == NumberMissing(old(rows), poll)
        decreases MissingCount(rows, poll)
      {
        NumberRowKeeps(rows, poll, m, poll);
        SumUpdate(rows, m, rows[m].(index := nextIndex), MissingOn(poll));
        rows := rows[m := rows[m].(index := nextIndex)];
        nextIndex := nextIndex + 1;
        m := FirstMissing(rows, poll);
      }
      leaves, indexes := ListByIndex(poll);
    }

    method ListByIndex(poll: nat) returns (leaves: seq<nat>, indexes: seq<int>)
      requires WellNumbered(rows, poll)
      ensures IsLeafList(rows, poll, leaves)
      ensures |indexes| == |leaves| && forall k :: 0 <= k < |indexes| ==> indexes[k] == k
    {
      leaves, indexes := [], [];
      for n := 0 to NextIndex(rows, poll)
        invariant |leaves| == |indexes| == n
        invariant forall k :: 0 <= k < n ==> indexes[k] == k
        invariant forall i :: 0 <= i < |rows| && Numbered(rows[i], poll) && rows[i].index < n ==>
            leaves[rows[i].index] == rows[i].leaf
      {
        assert HasNumber(rows, poll, n);
        var i := 0;
        while !(Numbered(rows[i], poll) && rows[i].index == n)
          invariant 0 <= i < |rows|
          invariant exists j :: i <= j < |rows| && Numbered(rows[j], poll) && rows[j].index == n
          decreases |rows| - i
        {
          i := i + 1;
        }
        leaves := leaves + [rows[i].leaf];
        indexes := indexes + [rows[i].index];
      }
    }
  }
}
