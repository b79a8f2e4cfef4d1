/** The tree over a market's private-claim leaves, and the verifier of a path to its root. The hash is a
    parameter, so what binds the root to the leaves is stated as evidence: either the path is honest, or the
    hashes that were actually computed contain a collision or an input that hashes to 0. */
module MerkleTree {
  import opened Arithmetic
  import opened FieldArithmetic
  import opened Wrappers

  type Hash = (int, int) -> int

  datatype MarketTree = MarketTree(leaves: seq<int>, root: int)

  /** The helper's hash of two elements: it reduces what goes into the permutation and what comes out. */
  function FieldHash(poseidon: Hash): Hash
  {
    (left: int, right: int) => NormalizeField(poseidon(NormalizeField(left), NormalizeField(right)))
  }

  // ----- Building the tree layer by layer -----

  /** The entry at a position of a layer; beyond its end a layer reads as zeros. */
  function At(layer: seq<int>, i: nat): int
  {
    if i < |layer| then layer[i] else 0
  }

  function AfterPair(layer: seq<int>): (rest: seq<int>)
  {
    if |layer| <= 2 then [] else layer[2..]
  }

  /** The layer above: neighbours hashed pair by pair, a lone last node with a zero. */
  function NextLayer(h: Hash, layer: seq<int>): (next: seq<int>)
    ensures |layer| <= 2 * |next| <= |layer| + 1
    decreases |layer|
  {
    if |layer| == 0 then [] else [h(layer[0], At(layer, 1))] + NextLayer(h, AfterPair(layer))
  }

  lemma {:induction false} NodeIsHash(h: Hash, layer: seq<int>, j: nat)
    requires j < |NextLayer(h, layer)|
    ensures NextLayer(h, layer)[j] == h(At(layer, 2 * j), At(layer, 2 * j + 1))
    decreases j
  {
    if j > 0 {
      NodeIsHash(h, AfterPair(layer), j - 1);
      assert NextLayer(h, layer)[j] == NextLayer(h, AfterPair(layer))[j - 1];
    }
  }

  function LayerAt(h: Hash, layer: seq<int>, level: nat): seq<int>
    decreases level
  {
    if level == 0 then layer else LayerAt(h, NextLayer(h, layer), level - 1)
  }

  /** The layers always shrink to a single element. */
  lemma {:induction false} LastLayerIsSingle(h: Hash, layer: seq<int>, levels: nat)
    requires 0 < |layer| <= Pow2(levels)
    ensures |LayerAt(h, layer, levels)| == 1
    decreases levels
  {
    if levels > 0 {
      LastLayerIsSingle(h, NextLayer(h, layer), levels - 1);
    }
  }

  function RootOf(h: Hash, layer: seq<int>, levels: nat): int
    requires 0 < |layer| <= Pow2(levels)
    decreases levels
  {
    if levels == 0 then layer[0] else RootOf(h, NextLayer(h, layer), levels - 1)
  }

  lemma {:induction false} RootIsLastLayer(h: Hash, layer: seq<int>, levels: nat)
    requires 0 < |layer| <= Pow2(levels)
    ensures LayerAt(h, layer, levels) == [RootOf(h, layer, levels)]
    decreases levels
  {
    if levels > 0 {
      RootIsLastLayer(h, NextLayer(h, layer), levels - 1);
    }
  }

  lemma {:induction false} LayerAfter(h: Hash, layer: seq<int>, level: nat)
    ensures LayerAt(h, layer, level + 1) == NextLayer(h, LayerAt(h, layer, level))
    decreases level
  {
    if level > 0 {
      LayerAfter(h, NextLayer(h, layer), level - 1);
    }
  }

  function Normalized(xs: seq<int>): (ys: seq<int>)
    ensures |ys| == |xs|
  {
    seq(|xs|, i requires 0 <= i < |xs| => NormalizeField(xs[i]))
  }

  lemma {:induction false} LayersAreNormal(poseidon: Hash, layer: seq<int>, level: nat)
    requires forall x :: x in layer ==> NormalizeField(x) == x
    ensures forall x :: x in LayerAt(FieldHash(poseidon), layer, level) ==> NormalizeField(x) == x
    decreases level
  {
    if level > 0 {
      var next := NextLayer(FieldHash(poseidon), layer);
      forall x | x in next ensures NormalizeField(x) == x {
        var i :| 0 <= i < |next| && next[i] == x;
        NodeIsHash(FieldHash(poseidon), layer, i);
        ReductionIsStable(poseidon(NormalizeField(At(layer, 2 * i)), NormalizeField(At(layer, 2 * i + 1))));
      }
      LayersAreNormal(poseidon, next, level - 1);
    }
  }

  lemma RootIsNormal(poseidon: Hash, rawLeaves: seq<int>, levels: nat)
    requires 0 < |rawLeaves| <= Pow2(levels)
    ensures var root := RootOf(FieldHash(poseidon), Normalized(rawLeaves), levels);
            NormalizeField(root) == root
  {
    var leaves := Normalized(rawLeaves);
    forall x | x in leaves ensures NormalizeField(x) == x {
      var i :| 0 <= i < |leaves| && leaves[i] == x;
      ReductionIsStable(rawLeaves[i]);
    }
    LayersAreNormal(poseidon, leaves, levels);
    RootIsLastLayer(FieldHash(poseidon), leaves, levels);
  }

  /** Pads an odd layer with a zero and hashes it pair by pair. */
  method HashLayer(h: Hash, layer: seq<int>) returns (next: seq<int>)
    ensures next == NextLayer(h, layer)
  {
    var padded := layer;
    if |padded| % 2 != 0 {
      padded := padded + [0];
    }
    next := [];
    var index := 0;
    while index < |padded|
      invariant 0 <= index == 2 * |next| <= |padded|
      invariant forall j :: 0 <= j < |next| ==> next[j] == h(At(layer, 2 * j), At(layer, 2 * j + 1))
    {
      next := next + [h(padded[index], padded[index + 1])];
      index := index + 2;
    }
    forall j | 0 <= j < |next| ensures next[j] == NextLayer(h, layer)[j] {
      NodeIsHash(h, layer, j);
    }
  }

  method ComputeMarketRoot(poseidon: Hash, rawLeaves: seq<int>, levels: nat) returns (tree: Result<MarketTree, string>)
    ensures tree.Err? <==> |rawLeaves| > Pow2(levels)
    ensures tree.Ok? ==> tree.value.leaves == Normalized(rawLeaves)
    ensures tree.Ok? && |rawLeaves| == 0 ==> tree.value.root == 0
    ensures tree.Ok? && |rawLeaves| > 0 ==>
        tree.value.root == RootOf(FieldHash(poseidon), Normalized(rawLeaves), levels)
  {
    var h := FieldHash(poseidon);
    var leaves := Normalized(rawLeaves);
    if |leaves| == 0 {
      Pow2Positive(levels);
      return Ok(MarketTree([], 0));
    }
    var capacity := Pow2(levels);
    if |leaves| > capacity {
      return Err("too many leaves");
    }
    var layer := leaves;
    for level := 0 to levels
      invariant layer == LayerAt(h, leaves, level)
    {
      LayerAfter(h, leaves, level);
      layer := HashLayer(h, layer);
    }
    RootIsLastLayer(h, leaves, levels);
    RootIsNormal(poseidon, rawLeaves, levels);
    return Ok(MarketTree(leaves, NormalizeField(layer[0])));
  }

  lemma {:induction false} Pow2Positive(n: nat)
    ensures Pow2(n) > 0
  {
    if n > 0 {
      Pow2Positive(n - 1);
    }
  }

  // ----- Verifying a path -----

  /** One level up: the node is the right child exactly when its direction says so. */
  function Step(h: Hash, current: int, sibling: int, right: bool): int
  {
    if right then h(sibling, current) else h(current, sibling)
  }

  function PathRoot(h: Hash, current: int, siblings: seq<int>, right: seq<bool>): int
    requires |siblings| == |right|
    decreases |siblings|
  {
    if |siblings| == 0 then current
    else PathRoot(h, Step(h, current, siblings[0], right[0]), siblings[1..], right[1..])
  }

  /** The position that a list of directions spells, least significant first. */
  function IndexOf(right: seq<bool>): nat
  {
    if |right| == 0 then 0 else (if right[0] then 1 else 0) + 2 * IndexOf(right[1..])
  }

  predicate GoodDirections(pathElements: seq<int>, pathIndices: seq<int>)
  {
    && |pathElements| <= |pathIndices|
    && forall i :: 0 <= i < |pathElements| ==> NormalizeField(pathIndices[i]) in {0, 1}
  }

  function Directions(pathElements: seq<int>, pathIndices: seq<int>): (right: seq<bool>)
    requires |pathElements| <= |pathIndices|
    ensures |right| == |pathElements|
  {
    seq(|pathElements|, i requires 0 <= i < |pathElements| => NormalizeField(pathIndices[i]) == 1)
  }

  lemma {:induction false} PathRootAppend(h: Hash, current: int, siblings: seq<int>, right: seq<bool>, sibling: int,
                                          last: bool)
    requires |siblings| == |right|
    ensures PathRoot(h, current, siblings + [sibling], right + [last])
        == Step(h, PathRoot(h, current, siblings, right), sibling, last)
    decreases |siblings|
  {
    if |siblings| == 0 {
      assert PathRoot(h, Step(h, current, sibling, last), [], []) == Step(h, current, sibling, last);
    } else {
      assert (siblings + [sibling])[1..] == siblings[1..] + [sibling];
      assert (right + [last])[1..] == right[1..] + [last];
      PathRootAppend(h, Step(h, current, siblings[0], right[0]), siblings[1..], right[1..], sibling, last);
    }
  }

  method ComputeRoot(poseidon: Hash, leaf: int, pathElements: seq<int>, pathIndices: seq<int>)
    returns (root: Result<int, string>)
    ensures root.Ok? <==> GoodDirections(pathElements, pathIndices)
    ensures root.Ok? ==>
              root.value == PathRoot(FieldHash(poseidon), NormalizeField(leaf), Normalized(pathElements),
                                     Directions(pathElements, pathIndices))
  {
    var h := FieldHash(poseidon);
    var current := NormalizeField(leaf);
    ghost var siblings := Normalized(pathElements);
    for index := 0 to |pathElements|
      invariant GoodDirections(pathElements[..index], pathIndices)
      invariant current == PathRoot(h, NormalizeField(leaf), siblings[..index],
                                    Directions(pathElements[..index], pathIndices))
    {
      if index >= |pathIndices| {
        return Err("missing direction");
      }
      var direction := NormalizeField(pathIndices[index]);
      if direction != 0 && direction != 1 {
        return Err("direction must be 0 or 1");
      }
      var sibling := NormalizeField(pathElements[index]);
      ghost var before := Directions(pathElements[..index], pathIndices);
      PathRootAppend(h, NormalizeField(leaf), siblings[..index], before, sibling, direction == 1);
      assert siblings[..index + 1] == siblings[..index] + [sibling];
      assert Directions(pathElements[..index + 1], pathIndices) == before + [direction == 1];
      current := if direction == 0 then h(current, sibling) else h(sibling, current);
    }
    assert pathElements[..|pathElements|] == pathElements && siblings[..|siblings|] == siblings;
    return Ok(current);
  }

  /** Reduces a path given by the caller and pads it with zeros to the depth of the tree. */
  method NormalizeArray(values: seq<int>, levels: nat) returns (result: Result<seq<int>, string>)
    ensures result.Ok? <==> |values| <= levels
    ensures result.Ok? ==> |result.value| == levels
    ensures result.Ok? ==> forall i :: 0 <= i < levels ==>
              result.value[i] == if i < |values| then NormalizeField(values[i]) else 0
  {
    var padded := Normalized(values);
    while |padded| < levels
      invariant |padded| >= |values|
      invariant |values| <= levels ==> |padded| <= levels
      invariant |values| > levels ==> |padded| == |values|
      invariant forall i :: 0 <= i < |padded| ==> padded[i] == if i < |values| then NormalizeField(values[i]) else 0
    {
      padded := padded + [0];
    }
    if |padded| > levels {
      return Err("too many entries");
    }
    return Ok(padded);
  }

  // ----- Evidence -----

  /** The two inputs of one hash. */
  datatype Pair = Pair(left: int, right: int)

  function Digest(h: Hash, p: Pair): int
  {
    h(p.left, p.right)
  }

  function StepInput(current: int, sibling: int, right: bool): Pair
  {
    if right then Pair(sibling, current) else Pair(current, sibling)
  }

  /** The inputs hashed by the path verifier. */
  function PathInputs(h: Hash, current: int, siblings: seq<int>, right: seq<bool>): seq<Pair>
    requires |siblings| == |right|
    decreases |siblings|
  {
    if |siblings| == 0 then []
    else [StepInput(current, siblings[0], right[0])]
         + PathInputs(h, Step(h, current, siblings[0], right[0]), siblings[1..], right[1..])
  }

  function LayerInputs(layer: seq<int>): (inputs: seq<Pair>)
    ensures |layer| <= 2 * |inputs| <= |layer| + 1
    decreases |layer|
  {
    if |layer| == 0 then [] else [Pair(layer[0], At(layer, 1))] + LayerInputs(AfterPair(layer))
  }

  lemma {:induction false} InputOfNode(layer: seq<int>, j: nat)
    requires j < |LayerInputs(layer)|
    ensures LayerInputs(layer)[j] == Pair(At(layer, 2 * j), At(layer, 2 * j + 1))
    decreases j
  {
    if j > 0 {
      InputOfNode(AfterPair(layer), j - 1);
      assert LayerInputs(layer)[j] == LayerInputs(AfterPair(layer))[j - 1];
    }
  }

  /** The inputs hashed while building the tree. */
  function TreeInputs(h: Hash, layer: seq<int>, levels: nat): seq<Pair>
    decreases levels
  {
    if levels == 0 then [] else LayerInputs(layer) + TreeInputs(h, NextLayer(h, layer), levels - 1)
  }

  ghost predicate Collide(h: Hash, a: Pair, b: Pair)
  {
    a != b && Digest(h, a) == Digest(h, b)
  }

  /** Two different inputs with one digest, or an input whose digest is 0, among the inputs computed. */
  ghost predicate Exposes(h: Hash, path: seq<Pair>, tree: seq<Pair>)
  {
    || (exists a, b :: a in path && b in tree && Collide(h, a, b))
    || (exists a :: a in path && Digest(h, a) == 0)
  }

  lemma ExposesMore(h: Hash, path: seq<Pair>, tree: seq<Pair>, morePath: seq<Pair>, moreTree: seq<Pair>)
    requires Exposes(h, path, tree)
    requires forall a :: a in path ==> a in morePath
    requires forall b :: b in tree ==> b in moreTree
    ensures Exposes(h, morePath, moreTree)
  {
  }

  /** An accepted child of a tree node is the node's own child, or the two hash inputs collide. */
  lemma ChildOrCollision(h: Hash, layer: seq<int>, j: nat, current: int, sibling: int, right: bool)
    requires j < |NextLayer(h, layer)|
    requires Step(h, current, sibling, right) == NextLayer(h, layer)[j]
    ensures var i := 2 * j + (if right then 1 else 0);
            || Collide(h, StepInput(current, sibling, right), LayerInputs(layer)[j])
            || current == At(layer, i)
  {
    NodeIsHash(h, layer, j);
    InputOfNode(layer, j);
  }

  /** What can be concluded about an accepted element and the position it was accepted at. */
  ghost predicate EntryOrBreak(h: Hash, layer: seq<int>, i: nat, current: int, path: seq<Pair>, tree: seq<Pair>)
  {
    || (i < |layer| && current == layer[i])
    || (|layer| <= i && current == 0)
    || Exposes(h, path, tree)
  }

  /** One level of the extraction, from the parent to the child. */
  lemma EntryOrBreakBelow(h: Hash, layer: seq<int>, j: nat, current: int, sibling: int, right: bool, path: seq<Pair>,
                          tree: seq<Pair>)
    requires EntryOrBreak(h, NextLayer(h, layer), j, Step(h, current, sibling, right), path, tree)
    ensures EntryOrBreak(h, layer, 2 * j + (if right then 1 else 0), current,
                         [StepInput(current, sibling, right)] + path, LayerInputs(layer) + tree)
  {
    var mine := StepInput(current, sibling, right);
    var next := NextLayer(h, layer);
    assert ([mine] + path)[0] == mine;
    if j < |next| && Digest(h, mine) == next[j] {
      ChildOrCollision(h, layer, j, current, sibling, right);
      var theirs := LayerInputs(layer)[j];
      assert (LayerInputs(layer) + tree)[j] == theirs;
    } else if |next| > j || Digest(h, mine) != 0 {
      ExposesMore(h, path, tree, [mine] + path, LayerInputs(layer) + tree);
    }
  }

  /** Soundness by extraction: an accepted element is the entry at the position the directions spell, or it
      is 0 at an unused position, or the computations expose a break of the hash. */
  lemma {:induction false} AcceptedIsEntry(h: Hash, layer: seq<int>, levels: nat, current: int, siblings: seq<int>,
                                           right: seq<bool>)
    requires 0 < |layer| <= Pow2(levels) && |siblings| == |right| == levels
    requires PathRoot(h, current, siblings, right) == RootOf(h, layer, levels)
    ensures IndexOf(right) < Pow2(levels)
    ensures EntryOrBreak(h, layer, IndexOf(right), current, PathInputs(h, current, siblings, right),
                         TreeInputs(h, layer, levels))
    decreases levels
  {
    if levels > 0 {
      var up := Step(h, current, siblings[0], right[0]);
      var next := NextLayer(h, layer);
      RootStep(h, layer, levels);
      PathStep(h, current, siblings, right);
      assert |siblings[1..]| == |right[1..]| == levels - 1;
      assert 0 < |next| <= Pow2(levels - 1);
      assert PathRoot(h, up, siblings[1..], right[1..]) == PathRoot(h, current, siblings, right);
      assert RootOf(h, next, levels - 1) == RootOf(h, layer, levels);
      AcceptedIsEntry(h, next, levels - 1, up, siblings[1..], right[1..]);
      EntryOrBreakBelow(h, layer, IndexOf(right[1..]), current, siblings[0], right[0],
                        PathInputs(h, up, siblings[1..], right[1..]), TreeInputs(h, next, levels - 1));
    }
  }

  lemma PathStep(h: Hash, current: int, siblings: seq<int>, right: seq<bool>)
    requires |siblings| == |right| > 0
    ensures PathRoot(h, current, siblings, right)
         == PathRoot(h, Step(h, current, siblings[0], right[0]), siblings[1..], right[1..])
    ensures PathInputs(h, current, siblings, right)
         == [StepInput(current, siblings[0], right[0])]
             + PathInputs(h, Step(h, current, siblings[0], right[0]), siblings[1..], right[1..])
  {
  }

  lemma RootStep(h: Hash, layer: seq<int>, levels: nat)
    requires 0 < |layer| <= Pow2(levels) && levels > 0
    ensures 0 < |NextLayer(h, layer)| <= Pow2(levels - 1)
    ensures RootOf(h, layer, levels) == RootOf(h, NextLayer(h, layer), levels - 1)
  {
  }

  // ----- Completeness -----

  function Neighbour(i: nat): nat
  {
    if i % 2 == 0 then i + 1 else i - 1
  }

  /** The siblings of position `i`, read off the zero-padded layers. */
  function SiblingsOf(h: Hash, layer: seq<int>, levels: nat, i: nat): (siblings: seq<int>)
    requires i < |layer|
    ensures |siblings| == levels
    decreases levels
  {
    if levels == 0 then []
    else [At(layer, Neighbour(i))] + SiblingsOf(h, NextLayer(h, layer), levels - 1, i / 2)
  }

  /** The binary digits of `i`, least significant first. */
  function DigitsOf(i: nat, levels: nat): (right: seq<bool>)
    ensures |right| == levels
  {
    if levels == 0 then [] else [i % 2 == 1] + DigitsOf(i / 2, levels - 1)
  }

  lemma {:induction false} DigitsSpellIndex(i: nat, levels: nat)
    requires i < Pow2(levels)
    ensures IndexOf(DigitsOf(i, levels)) == i
  {
    if levels > 0 {
      DigitsSpellIndex(i / 2, levels - 1);
    }
  }

  /** A node and its neighbour are the pair that was hashed to their parent. */
  lemma StepToParent(h: Hash, layer: seq<int>, i: nat)
    requires i < |layer|
    ensures i / 2 < |NextLayer(h, layer)|
    ensures Step(h, layer[i], At(layer, Neighbour(i)), i % 2 == 1) == NextLayer(h, layer)[i / 2]
    ensures StepInput(layer[i], At(layer, Neighbour(i)), i % 2 == 1) in LayerInputs(layer)
  {
    var j := i / 2;
    assert i == 2 * j || i == 2 * j + 1;
    NodeIsHash(h, layer, j);
    InputOfNode(layer, j);
    assert LayerInputs(layer)[j] == StepInput(layer[i], At(layer, Neighbour(i)), i % 2 == 1);
  }

  ghost predicate AllIn(part: seq<Pair>, whole: seq<Pair>)
  {
    forall a :: a in part ==> a in whole
  }

  /** The first level of an honest path leads to the parent, whose path is the rest. */
  lemma HonestPathUnfolds(h: Hash, layer: seq<int>, levels: nat, i: nat)
    requires i < |layer| && levels > 0
    ensures i / 2 < |NextLayer(h, layer)|
    ensures var siblings, right := SiblingsOf(h, layer, levels, i), DigitsOf(i, levels);
            var upper, digits := SiblingsOf(h, NextLayer(h, layer), levels - 1, i / 2), DigitsOf(i / 2, levels - 1);
            && PathRoot(h, layer[i], siblings, right) == PathRoot(h, NextLayer(h, layer)[i / 2], upper, digits)
            && PathInputs(h, layer[i], siblings, right)
                 == [StepInput(layer[i], siblings[0], right[0])]
                     + PathInputs(h, NextLayer(h, layer)[i / 2], upper, digits)
            && StepInput(layer[i], siblings[0], right[0]) in LayerInputs(layer)
  {
    var siblings, right := SiblingsOf(h, layer, levels, i), DigitsOf(i, levels);
    StepToParent(h, layer, i);
    assert siblings[1..] == SiblingsOf(h, NextLayer(h, layer), levels - 1, i / 2);
    assert right[1..] == DigitsOf(i / 2, levels - 1);
  }

  lemma {:induction false} EveryLeafReachesRoot(h: Hash, layer: seq<int>, levels: nat, i: nat)
    requires i < |layer| <= Pow2(levels)
    ensures PathRoot(h, layer[i], SiblingsOf(h, layer, levels, i), DigitsOf(i, levels)) == RootOf(h, layer, levels)
    decreases levels
  {
    if levels > 0 {
      RootStep(h, layer, levels);
      HonestPathUnfolds(h, layer, levels, i);
      EveryLeafReachesRoot(h, NextLayer(h, layer), levels - 1, i / 2);
    }
  }

  lemma {:induction false} HonestPathIsInTree(h: Hash, layer: seq<int>, levels: nat, i: nat)
    requires i < |layer|
    ensures AllIn(PathInputs(h, layer[i], SiblingsOf(h, layer, levels, i), DigitsOf(i, levels)),
                  TreeInputs(h, layer, levels))
    decreases levels
  {
    if levels > 0 {
      HonestPathUnfolds(h, layer, levels, i);
      HonestPathIsInTree(h, NextLayer(h, layer), levels - 1, i / 2);
    }
  }

  /** Completeness: the path of every leaf verifies, and hashes nothing that building the tree did not hash. */
  lemma EveryLeafIsAccepted(h: Hash, layer: seq<int>, levels: nat, i: nat)
    requires i < |layer| <= Pow2(levels)
    ensures var siblings, right := SiblingsOf(h, layer, levels, i), DigitsOf(i, levels);
            && IndexOf(right) == i
            && PathRoot(h, layer[i], siblings, right) == RootOf(h, layer, levels)
            && AllIn(PathInputs(h, layer[i], siblings, right), TreeInputs(h, layer, levels))
  {
    DigitsSpellIndex(i, levels);
    EveryLeafReachesRoot(h, layer, levels, i);
    HonestPathIsInTree(h, layer, levels, i);
  }

  ghost predicate Leaves(leaves: seq<int>, levels: nat)
  {
    && 0 < |leaves| <= Pow2(levels)
    && forall i :: 0 <= i < |leaves| ==> leaves[i] != 0
  }

  /** An entry of one list that the other list does not have at that position exposes the hash. */
  lemma ForeignEntryExposes(h: Hash, mine: seq<int>, yours: seq<int>, levels: nat, i: nat)
    requires Leaves(mine, levels) && Leaves(yours, levels)
    requires RootOf(h, mine, levels) == RootOf(h, yours, levels)
    requires i < |mine| && (i < |yours| ==> mine[i] != yours[i])
    ensures Exposes(h, TreeInputs(h, mine, levels), TreeInputs(h, yours, levels))
  {
    var siblings, right := SiblingsOf(h, mine, levels, i), DigitsOf(i, levels);
    EveryLeafIsAccepted(h, mine, levels, i);
    AcceptedIsEntry(h, yours, levels, mine[i], siblings, right);
    ExposesMore(h, PathInputs(h, mine[i], siblings, right), TreeInputs(h, yours, levels), TreeInputs(h, mine, levels),
                TreeInputs(h, yours, levels));
  }

  lemma {:induction false} FirstDifference(a: seq<int>, b: seq<int>) returns (i: nat)
    requires a != b
    ensures i < |a| || i < |b|
    ensures i < |a| && i < |b| ==> a[i] != b[i]
    decreases |a|
  {
    if |a| == 0 || |b| == 0 || a[0] != b[0] {
      i := 0;
    } else {
      assert a == [a[0]] + a[1..] && b == [b[0]] + b[1..];
      i := FirstDifference(a[1..], b[1..]);
      i := i + 1;
    }
  }

  /** Two different lists of nonzero leaves with one root expose a break of the hash. */
  lemma OneRootOneList(h: Hash, a: seq<int>, b: seq<int>, levels: nat)
    requires Leaves(a, levels) && Leaves(b, levels) && a != b
    requires RootOf(h, a, levels) == RootOf(h, b, levels)
    ensures || Exposes(h, TreeInputs(h, a, levels), TreeInputs(h, b, levels))
            || Exposes(h, TreeInputs(h, b, levels), TreeInputs(h, a, levels))
  {
    var i := FirstDifference(a, b);
    if i < |a| {
      ForeignEntryExposes(h, a, b, levels, i);
    } else {
      ForeignEntryExposes(h, b, a, levels, i);
    }
  }
}
