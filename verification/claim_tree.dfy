/** What the helper computes from its permutation: the root as one recursive tree over the zero-padded leaves, the path
    verifier step by step, and the two together. */
module ClaimTree {
  import opened Arithmetic
  import opened FieldArithmetic
  import opened MerkleTree

  // ----- The root -----

  /** The root of the leaves as one tree: the left half of the places is hashed before the right half, and a half
      without leaves counts as zero. */
  function TreeRoot(poseidon: Hash, leaves: seq<int>, levels: nat): int
    requires |leaves| <= Pow2(levels)
  {
    if |leaves| == 0 then 0
    else if levels == 0 then NormalizeField(leaves[0])
    else if |leaves| <= Pow2(levels - 1) then NormalizeField(poseidon(TreeRoot(poseidon, leaves, levels - 1), 0))
    else
      NormalizeField(poseidon(TreeRoot(poseidon, leaves[..Pow2(levels - 1)], levels - 1),
                              TreeRoot(poseidon, leaves[Pow2(levels - 1)..], levels - 1)))
  }

  /** An even number of nodes is hashed without touching what follows. */
  lemma {:induction false} NextLayerOfParts(h: Hash, left: seq<int>, right: seq<int>)
    requires |left| % 2 == 0
    ensures NextLayer(h, left + right) == NextLayer(h, left) + NextLayer(h, right)
    decreases |left|
  {
    if |left| == 0 {
      assert left + right == right;
    } else {
      var whole := left + right;
      assert AfterPair(whole) == AfterPair(left) + right;
      assert At(whole, 1) == At(left, 1) && whole[0] == left[0];
      NextLayerOfParts(h, AfterPair(left), right);
    }
  }

  /** A full left half and a right half with leaves. */
  lemma RootOfHalves(poseidon: Hash, left: seq<int>, right: seq<int>, levels: nat)
    requires levels > 0 && |left| == Pow2(levels - 1) && 0 < |right| <= Pow2(levels - 1)
    ensures |left + right| <= Pow2(levels)
    ensures TreeRoot(poseidon, left + right, levels)
         == NormalizeField(poseidon(TreeRoot(poseidon, left, levels - 1), TreeRoot(poseidon, right, levels - 1)))
  {
    assert (left + right)[..|left|] == left && (left + right)[|left|..] == right;
  }

  /** A right half without leaves. */
  lemma RootOfLeftHalf(poseidon: Hash, left: seq<int>, levels: nat)
    requires levels > 0 && 0 < |left| <= Pow2(levels - 1)
    ensures TreeRoot(poseidon, left, levels) == NormalizeField(poseidon(TreeRoot(poseidon, left, levels - 1), 0))
  {
  }

  /** A layer and the layer below it, of a tree that many levels high, have one root. */
  ghost predicate SameRoot(poseidon: Hash, upper: seq<int>, lower: seq<int>, levels: nat)
  {
    && levels > 0 && |upper| <= Pow2(levels - 1) && |lower| <= Pow2(levels)
    && TreeRoot(poseidon, upper, levels - 1) == TreeRoot(poseidon, lower, levels)
  }

  lemma SameLeftHalf(poseidon: Hash, upper: seq<int>, lower: seq<int>, levels: nat)
    requires |upper| > 0 && |lower| > 0 && SameRoot(poseidon, upper, lower, levels)
    ensures SameRoot(poseidon, upper, lower, levels + 1)
  {
    RootOfLeftHalf(poseidon, upper, levels);
    RootOfLeftHalf(poseidon, lower, levels + 1);
  }

  lemma SameHalves(poseidon: Hash, upLeft: seq<int>, upRight: seq<int>, left: seq<int>, right: seq<int>, levels: nat)
    requires SameRoot(poseidon, upLeft, left, levels) && SameRoot(poseidon, upRight, right, levels)
    requires |upLeft| == Pow2(levels - 1) && |left| == Pow2(levels) && |upRight| > 0 && |right| > 0
    ensures SameRoot(poseidon, upLeft + upRight, left + right, levels + 1)
  {
    RootOfHalves(poseidon, upLeft, upRight, levels);
    RootOfHalves(poseidon, left, right, levels + 1);
  }

  lemma SameRootOfParts(poseidon: Hash, left: seq<int>, right: seq<int>, levels: nat)
    requires SameRoot(poseidon, NextLayer(FieldHash(poseidon), left), left, levels)
    requires SameRoot(poseidon, NextLayer(FieldHash(poseidon), right), right, levels)
    requires |left| == Pow2(levels) && |right| > 0
    ensures SameRoot(poseidon, NextLayer(FieldHash(poseidon), left + right), left + right, levels + 1)
  {
    NextLayerOfParts(FieldHash(poseidon), left, right);
    SameHalves(poseidon, NextLayer(FieldHash(poseidon), left), NextLayer(FieldHash(poseidon), right), left, right,
               levels);
  }

  lemma LowestLayer(poseidon: Hash, layer: seq<int>)
    requires 0 < |layer| <= Pow2(1)
    ensures SameRoot(poseidon, NextLayer(FieldHash(poseidon), layer), layer, 1)
  {
    assert Pow2(1) == 2 * Pow2(0) == 2;
    NodeIsHash(FieldHash(poseidon), layer, 0);
    LowestNode(poseidon, layer);
  }

  /** Hashing the lowest level first keeps the root. */
  lemma {:induction false} NextLayerKeepsRoot(poseidon: Hash, layer: seq<int>, levels: nat)
    requires levels > 0 && 0 < |layer| <= Pow2(levels)
    ensures SameRoot(poseidon, NextLayer(FieldHash(poseidon), layer), layer, levels)
    decreases levels
  {
    if levels == 1 {
      LowestLayer(poseidon, layer);
    } else {
      var half := Pow2(levels - 1);
      if |layer| <= half {
        NextLayerKeepsRoot(poseidon, layer, levels - 1);
        SameLeftHalf(poseidon, NextLayer(FieldHash(poseidon), layer), layer, levels - 1);
      } else {
        var left, right := layer[..half], layer[half..];
        NextLayerKeepsRoot(poseidon, left, levels - 1);
        NextLayerKeepsRoot(poseidon, right, levels - 1);
        SameRootOfParts(poseidon, left, right, levels - 1);
        assert layer == left + right;
      }
    }
  }

  /** One pair of leaves. */
  lemma LowestNode(poseidon: Hash, layer: seq<int>)
    requires 0 < |layer| <= Pow2(1)
    ensures NormalizeField(FieldHash(poseidon)(layer[0], At(layer, 1))) == TreeRoot(poseidon, layer, 1)
  {
    assert Pow2(1) == 2 * Pow2(0) == 2;
    ReductionIsStable(poseidon(NormalizeField(layer[0]), NormalizeField(At(layer, 1))));
    if |layer| == 1 {
      assert TreeRoot(poseidon, layer, 0) == NormalizeField(layer[0]);
    } else {
      assert layer[..1] == [layer[0]] && layer[1..] == [layer[1]];
      assert TreeRoot(poseidon, [layer[0]], 0) == NormalizeField(layer[0]);
      assert TreeRoot(poseidon, [layer[1]], 0) == NormalizeField(layer[1]);
    }
  }

  lemma {:induction false} RootIsReducedTreeRoot(poseidon: Hash, layer: seq<int>, levels: nat)
    requires 0 < |layer| <= Pow2(levels)
    ensures NormalizeField(RootOf(FieldHash(poseidon), layer, levels)) == TreeRoot(poseidon, layer, levels)
    decreases levels
  {
    if levels > 0 {
      RootIsReducedTreeRoot(poseidon, NextLayer(FieldHash(poseidon), layer), levels - 1);
      NextLayerKeepsRoot(poseidon, layer, levels);
    }
  }

  lemma {:induction false} TreeRootOfReduced(poseidon: Hash, leaves: seq<int>, levels: nat)
    requires |leaves| <= Pow2(levels)
    ensures TreeRoot(poseidon, Normalized(leaves), levels) == TreeRoot(poseidon, leaves, levels)
    decreases levels
  {
    var reduced := Normalized(leaves);
    if |leaves| > 0 && levels == 0 {
      ReductionIsStable(leaves[0]);
    } else if |leaves| > 0 {
      var half := Pow2(levels - 1);
      if |leaves| <= half {
        TreeRootOfReduced(poseidon, leaves, levels - 1);
      } else {
        assert reduced[..half] == Normalized(leaves[..half]) && reduced[half..] == Normalized(leaves[half..]);
        TreeRootOfReduced(poseidon, leaves[..half], levels - 1);
        TreeRootOfReduced(poseidon, leaves[half..], levels - 1);
      }
    }
  }

  /** The root that is computed layer by layer is the root of the tree. */
  lemma RootIsTheTreeRoot(poseidon: Hash, rawLeaves: seq<int>, levels: nat)
    requires 0 < |rawLeaves| <= Pow2(levels)
    ensures RootOf(FieldHash(poseidon), Normalized(rawLeaves), levels) == TreeRoot(poseidon, rawLeaves, levels)
  {
    RootIsReducedTreeRoot(poseidon, Normalized(rawLeaves), levels);
    RootIsNormal(poseidon, rawLeaves, levels);
    TreeRootOfReduced(poseidon, rawLeaves, levels);
  }

  /** Two leaves are hashed once, the first on the left; a lone leaf is hashed with a zero on its right. */
  lemma SmallestRoots(poseidon: Hash, a: int, b: int)
    ensures Pow2(1) == 2
    ensures RootOf(FieldHash(poseidon), Normalized([a, b]), 1)
         == NormalizeField(poseidon(NormalizeField(a), NormalizeField(b)))
    ensures RootOf(FieldHash(poseidon), Normalized([a]), 1) == NormalizeField(poseidon(NormalizeField(a), 0))
  {
    assert Pow2(1) == 2 * Pow2(0) == 2;
    var h := FieldHash(poseidon);
    RootIsTheTreeRoot(poseidon, [a, b], 1);
    RootIsTheTreeRoot(poseidon, [a], 1);
    LowestNode(poseidon, [a, b]);
    LowestNode(poseidon, [a]);
    ReductionIsStable(poseidon(NormalizeField(a), NormalizeField(b)));
    ReductionIsStable(poseidon(NormalizeField(a), NormalizeField(0)));
  }

  // ----- The path -----

  /** What the verifier computes for a path whose directions are good. */
  function PathOf(poseidon: Hash, leaf: int, pathElements: seq<int>, pathIndices: seq<int>): int
    requires GoodDirections(pathElements, pathIndices)
  {
    PathRoot(FieldHash(poseidon), NormalizeField(leaf), Normalized(pathElements), Directions(pathElements, pathIndices))
  }

  lemma {:induction false} PathIsNormal(poseidon: Hash, current: int, siblings: seq<int>, right: seq<bool>)
    requires |siblings| == |right| && NormalizeField(current) == current
    ensures NormalizeField(PathRoot(FieldHash(poseidon), current, siblings, right))
         == PathRoot(FieldHash(poseidon), current, siblings, right)
    decreases |siblings|
  {
    if |siblings| > 0 {
      var s, h := siblings[0], FieldHash(poseidon);
      ReductionIsStable(poseidon(NormalizeField(current), NormalizeField(s)));
      ReductionIsStable(poseidon(NormalizeField(s), NormalizeField(current)));
      PathIsNormal(poseidon, Step(h, current, s, right[0]), siblings[1..], right[1..]);
    }
  }

  /** An empty path leads to the leaf. */
  lemma EmptyPath(poseidon: Hash, leaf: int, pathIndices: seq<int>)
    ensures PathOf(poseidon, leaf, [], pathIndices) == NormalizeField(leaf)
  {
  }

  /** One element more is hashed on the right of what is below for direction 0, on its left for direction 1. */
  lemma PathGoesUp(poseidon: Hash, leaf: int, pathElements: seq<int>, pathIndices: seq<int>, sibling: int)
    requires GoodDirections(pathElements + [sibling], pathIndices)
    ensures GoodDirections(pathElements, pathIndices)
    ensures var below := PathOf(poseidon, leaf, pathElements, pathIndices);
            var above := PathOf(poseidon, leaf, pathElements + [sibling], pathIndices);
            && (NormalizeField(pathIndices[|pathElements|]) == 0 ==>
                  above == NormalizeField(poseidon(below, NormalizeField(sibling))))
            && (NormalizeField(pathIndices[|pathElements|]) == 1 ==>
                  above == NormalizeField(poseidon(NormalizeField(sibling), below)))
  {
    var h, current := FieldHash(poseidon), NormalizeField(leaf);
    var longer := pathElements + [sibling];
    forall i | 0 <= i < |pathElements| ensures NormalizeField(pathIndices[i]) in {0, 1} {
      assert longer[i] == pathElements[i];
    }
    var right := Directions(pathElements, pathIndices);
    var last := NormalizeField(pathIndices[|pathElements|]) == 1;
    assert Normalized(longer) == Normalized(pathElements) + [NormalizeField(sibling)];
    assert Directions(longer, pathIndices) == right + [last];
    PathRootAppend(h, current, Normalized(pathElements), right, NormalizeField(sibling), last);
    ReductionIsStable(leaf);
    PathIsNormal(poseidon, current, Normalized(pathElements), right);
    ReductionIsStable(sibling);
  }

  // ----- Both together -----

  /** The binary digits of a position, least significant first, as the path indices are given. */
  function IndicesOf(i: nat, levels: nat): (indices: seq<int>)
    ensures |indices| == levels
    ensures forall l :: 0 <= l < levels ==> indices[l] == 0 || indices[l] == 1
  {
    if levels == 0 then [] else [i % 2] + IndicesOf(i / 2, levels - 1)
  }

  lemma {:induction false} IndicesAreDigits(i: nat, levels: nat, l: nat)
    requires l < levels
    ensures DigitsOf(i, levels)[l] == (IndicesOf(i, levels)[l] == 1)
  {
    if l > 0 {
      IndicesAreDigits(i / 2, levels - 1, l - 1);
    }
  }

  ghost predicate AreReduced(values: seq<int>)
  {
    forall x :: x in values ==> NormalizeField(x) == x
  }

  lemma ReducedIsNormalized(values: seq<int>)
    requires AreReduced(values)
    ensures Normalized(values) == values
  {
    forall k | 0 <= k < |values| ensures Normalized(values)[k] == values[k] {
      assert values[k] in values;
    }
  }

  lemma NormalizedIsReduced(rawValues: seq<int>)
    ensures AreReduced(Normalized(rawValues))
  {
    forall x | x in Normalized(rawValues) ensures NormalizeField(x) == x {
      var k :| 0 <= k < |rawValues| && Normalized(rawValues)[k] == x;
      ReductionIsStable(rawValues[k]);
    }
  }

  lemma {:induction false} SiblingsAreReduced(poseidon: Hash, layer: seq<int>, levels: nat, i: nat)
    requires i < |layer| && AreReduced(layer)
    ensures AreReduced(SiblingsOf(FieldHash(poseidon), layer, levels, i))
    decreases levels
  {
    if levels > 0 {
      var next := NextLayer(FieldHash(poseidon), layer);
      LayersAreNormal(poseidon, layer, 1);
      assert LayerAt(FieldHash(poseidon), layer, 1) == LayerAt(FieldHash(poseidon), next, 0);
      SiblingsAreReduced(poseidon, next, levels - 1, i / 2);
      ReductionIsStable(0);
      assert At(layer, Neighbour(i)) == 0 || At(layer, Neighbour(i)) in layer;
    }
  }

  lemma IndicesAreDirections(pathElements: seq<int>, i: nat)
    ensures GoodDirections(pathElements, IndicesOf(i, |pathElements|))
    ensures Directions(pathElements, IndicesOf(i, |pathElements|)) == DigitsOf(i, |pathElements|)
  {
    var indices := IndicesOf(i, |pathElements|);
    forall l | 0 <= l < |pathElements|
      ensures Directions(pathElements, indices)[l] == DigitsOf(i, |pathElements|)[l]
    {
      IndicesAreDigits(i, |pathElements|, l);
    }
  }

  /** The verifier accepts every leaf of every list: with the siblings read off the layers, and the binary digits of its
      position as indices, it computes the root of the list. */
  lemma OwnPathIsAccepted(poseidon: Hash, rawLeaves: seq<int>, levels: nat, i: nat)
    requires i < |rawLeaves| <= Pow2(levels)
    ensures var siblings := SiblingsOf(FieldHash(poseidon), Normalized(rawLeaves), levels, i);
            && GoodDirections(siblings, IndicesOf(i, levels))
            && PathOf(poseidon, rawLeaves[i], siblings, IndicesOf(i, levels))
               == TreeRoot(poseidon, rawLeaves, levels)
  {
    var h, leaves := FieldHash(poseidon), Normalized(rawLeaves);
    NormalizedIsReduced(rawLeaves);
    SiblingsAreReduced(poseidon, leaves, levels, i);
    ReducedIsNormalized(SiblingsOf(h, leaves, levels, i));
    IndicesAreDirections(SiblingsOf(h, leaves, levels, i), i);
    EveryLeafReachesRoot(h, leaves, levels, i);
    RootIsTheTreeRoot(poseidon, rawLeaves, levels);
  }
}
