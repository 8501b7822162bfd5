/** The Merkle tree itself (lib/merkle_tree.rb): built once, bottom-up, from an
    ordered list of blocks and a hash function, then queried read-only.

    The hash function is a parameter of the tree: any total function from
    strings to strings. Digests are strings and a parent over a full pair is
    the hash of the left digest followed by the right one. */
module MerkleTree {
  import opened Wrappers
  import opened MerkleUtils

  /** A built tree: the hash it was built with, its height and its levels,
      level 0 being the root level and level `height - 1` the leaves. */
  datatype Tree = Tree(hash: string -> string, height: nat, levels: seq<seq<string>>)

  /** The level above `lower`: adjacent nodes are paired and hashed as
      `hash(left + right)`; a trailing unpaired node is carried up unchanged. */
  function NextLevel(hash: string -> string, lower: seq<string>): (upper: seq<string>)
    ensures |upper| == Halve(|lower|)
    ensures forall k :: 0 <= k < |upper| ==>
      upper[k] == (if 2 * k + 1 < |lower| then hash(lower[2 * k] + lower[2 * k + 1]) else lower[2 * k])
    decreases |lower|
  {
    if |lower| == 0 then []
    else if |lower| == 1 then [lower[0]]
    else
      var rest := NextLevel(hash, lower[2..]);
      assert forall k :: 1 <= k < 1 + |rest| ==> lower[2 * k] == lower[2..][2 * (k - 1)];
      [hash(lower[0] + lower[1])] + rest
  }

  /** Every level is the `NextLevel` of the one below it. */
  predicate Chained(hash: string -> string, levels: seq<seq<string>>)
  {
    forall i :: 0 <= i < |levels| - 1 ==> levels[i] == NextLevel(hash, levels[i + 1])
  }

  /** The shape of every tree the constructor returns. */
  predicate Valid(t: Tree)
  {
    && t.height >= 1
    && |t.levels| == t.height
    && t.height == Height(|t.levels[t.height - 1]|)
    && Chained(t.hash, t.levels)
  }

  function Leaves(t: Tree): seq<string>
    requires Valid(t)
  {
    t.levels[t.height - 1]
  }

  function LeafCount(t: Tree): nat
    requires Valid(t)
  {
    |Leaves(t)|
  }

  /** `build_tree` from the leaf level: `count` levels ending with `lower`,
      each level above derived from the one below. */
  function BuildLevels(hash: string -> string, lower: seq<string>, count: nat): (levels: seq<seq<string>>)
    requires count >= 1
    ensures |levels| == count
    ensures levels[count - 1] == lower
    ensures Chained(hash, levels)
    decreases count
  {
    if count == 1 then [lower]
    else
      var upper := BuildLevels(hash, NextLevel(hash, lower), count - 1);
      assert forall i :: 0 <= i < count - 1 ==> (upper + [lower])[i] == upper[i];
      upper + [lower]
  }

  /** `MerkleTree.new`: fails on an empty block list, otherwise builds a tree
      of `tree_height(|blocks|)` levels whose leaves are the blocks' hashes in
      input order. */
  function New(blocks: seq<string>, hash: string -> string): (r: Result<Tree, ArgumentError>)
    ensures r.Failure? <==> |blocks| == 0
    ensures r.Failure? ==> r.error == EmptyBlocks
    ensures r.Success? ==>
      && Valid(r.value)
      && r.value.hash == hash
      && TreeHeight(|blocks|) == Success(r.value.height)
      && LeafCount(r.value) == |blocks|
      && forall i :: 0 <= i < |blocks| ==> Leaves(r.value)[i] == hash(blocks[i])
  {
    if |blocks| == 0 then Failure(EmptyBlocks)
    else
      var height := TreeHeight(|blocks|).value;
      var leaves := seq(|blocks|, i requires 0 <= i < |blocks| => hash(blocks[i]));
      Success(Tree(hash, height, BuildLevels(hash, leaves, height)))
  }

  /** A valid tree is the one the constructor builds from its leaves: the
      levels above the leaves carry no freedom. */
  lemma {:induction false} ValidTreeIsBuilt(t: Tree)
    requires Valid(t)
    ensures t.levels == BuildLevels(t.hash, Leaves(t), t.height)
  {
    ChainedIsBuilt(t.hash, t.levels);
  }

  /** Dropping the leaf level of a chain leaves a chain. */
  lemma ChainedPrefix(hash: string -> string, levels: seq<seq<string>>)
    requires |levels| >= 1 && Chained(hash, levels)
    ensures Chained(hash, levels[..|levels| - 1])
  {
    var upper := levels[..|levels| - 1];
    forall i | 0 <= i < |upper| - 1
      ensures upper[i] == NextLevel(hash, upper[i + 1])
    {
      assert upper[i] == levels[i] && upper[i + 1] == levels[i + 1];
    }
  }

  lemma {:induction false} ChainedIsBuilt(hash: string -> string, levels: seq<seq<string>>)
    requires |levels| >= 1 && Chained(hash, levels)
    ensures levels == BuildLevels(hash, levels[|levels| - 1], |levels|)
    decreases |levels|
  {
    var n := |levels|;
    if n > 1 {
      var upper := levels[..n - 1];
      ChainedPrefix(hash, levels);
      ChainedIsBuilt(hash, upper);
      assert upper[n - 2] == NextLevel(hash, levels[n - 1]);
      assert levels == upper + [levels[n - 1]];
    }
  }

  /** Level sizes follow the recurrence of `nodes_needed_to_verify`: the level
      `d` steps above the leaves has `LevelSize(leaf count, d)` nodes. */
  lemma {:induction false} ValidLevelSizes(t: Tree, i: nat)
    requires Valid(t) && i < t.height
    ensures |t.levels[i]| == LevelSize(LeafCount(t), t.height - 1 - i)
    decreases t.height - i
  {
    if i < t.height - 1 {
      ValidLevelSizes(t, i + 1);
      LevelSizeStep(LeafCount(t), t.height - 2 - i);
    }
  }

  lemma RootLevelSingleton(t: Tree)
    requires Valid(t)
    ensures |t.levels[0]| == 1
  {
    ValidLevelSizes(t, 0);
    LevelSizeAtRoot(LeafCount(t));
  }

  /** `root`: the single digest of level 0. */
  function Root(t: Tree): (r: string)
    requires Valid(t)
    ensures t.levels[0] == [r]
  {
    RootLevelSingleton(t);
    t.levels[0][0]
  }

  /** `level`: the digests of level `index`, failing outside `[0, height)`. */
  function Level(t: Tree, index: int): (r: Result<seq<string>, ArgumentError>)
    requires Valid(t)
    ensures r.Success? <==> 0 <= index < t.height
    ensures r.Failure? ==> r.error == LevelOutOfRange(t.height - 1)
    ensures r.Success? ==> r.value == t.levels[index]
    ensures r.Success? ==> |r.value| == LevelSize(LeafCount(t), t.height - 1 - index)
    ensures index == t.height - 1 ==> r == Success(Leaves(t))
  {
    if 0 <= index < t.height then
      ValidLevelSizes(t, index);
      Success(t.levels[index])
    else Failure(LevelOutOfRange(t.height - 1))
  }

  /** The digest of the parent of the node at `index` whose own digest is
      `node`, given its sibling's digest: the left child comes first. */
  function JoinPair(hash: string -> string, index: nat, node: string, sibling: string): string
  {
    if index % 2 == 0 then hash(node + sibling) else hash(sibling + node)
  }

  /** `JoinPair` is the operand order of `block_valid?`: `concat(node,
      sibling)` at an even position and `concat(sibling, node)` at an odd one. */
  lemma JoinPairAsConcat(hash: string -> string, index: nat, node: string, sibling: string)
    ensures index % 2 == 0 ==> JoinPair(hash, index, node, sibling) == hash(Concat(node, Some(sibling)))
    ensures index % 2 == 1 ==> JoinPair(hash, index, node, sibling) == hash(Concat(sibling, Some(node)))
  {
  }

  /** Joining from either member of a pair gives the same parent: the
      even-positioned digest always comes first. */
  lemma JoinPairSymmetric(hash: string -> string, i: nat, x: string, y: string)
    ensures JoinPair(hash, i, x, y) == JoinPair(hash, Sibling(i), y, x)
  {
  }

  /** The level above a level is formed exactly by `JoinPair` over real
      siblings, and by carrying a node that has none. */
  lemma ParentOfNode(hash: string -> string, lower: seq<string>, i: nat)
    requires i < |lower|
    ensures i / 2 < |NextLevel(hash, lower)|
    ensures Sibling(i) < |lower| ==> NextLevel(hash, lower)[i / 2] == JoinPair(hash, i, lower[i], lower[Sibling(i)])
    ensures Sibling(i) >= |lower| ==> NextLevel(hash, lower)[i / 2] == lower[i]
  {
  }

  /** When a level has odd length its last node is the carried, unhashed last
      node of the level below. */
  lemma CarryLaw(hash: string -> string, lower: seq<string>)
    requires |lower| % 2 == 1
    ensures |NextLevel(hash, lower)| == (|lower| + 1) / 2
    ensures NextLevel(hash, lower)[|NextLevel(hash, lower)| - 1] == lower[|lower| - 1]
  {
  }

  /** `parent_node`: the digest one level above leaf `blockIndex`; absent for
      a single-block tree or a leaf past the end, an error for a negative
      index. */
  function ParentNode(t: Tree, blockIndex: int): (r: Result<Option<string>, ArgumentError>)
    requires Valid(t)
    ensures t.height == 1 ==> r == Success(None)
    ensures t.height > 1 && blockIndex >= LeafCount(t) ==> r == Success(None)
    ensures t.height > 1 && blockIndex < 0 ==> r == Failure(NegativeIndex)
    ensures t.height > 1 && 0 <= blockIndex < LeafCount(t) ==>
      var leaves := Leaves(t);
      r == Success(Some(
        if Sibling(blockIndex) < |leaves|
        then JoinPair(t.hash, blockIndex, leaves[blockIndex], leaves[Sibling(blockIndex)])
        else leaves[blockIndex]))
  {
    if t.height == 1 then Success(None)
    else if blockIndex >= |Leaves(t)| then Success(None)
    else
      var p :- ParentIndex(blockIndex);
      ParentOfNode(t.hash, Leaves(t), blockIndex);
      Success(Some(t.levels[t.height - 2][p]))
  }

  /** `sibling_node`: the digest paired with node `index` of level
      `levelIndex`; absent when the node does not exist or has no sibling (the
      carried trailing node). */
  function SiblingNode(t: Tree, levelIndex: int, index: int): (r: Result<Option<string>, ArgumentError>)
    requires Valid(t)
    ensures !(0 <= levelIndex < t.height) ==> r == Failure(LevelOutOfRange(t.height - 1))
    ensures 0 <= levelIndex < t.height && index >= |t.levels[levelIndex]| ==> r == Success(None)
    ensures 0 <= levelIndex < t.height && index < 0 ==> r == Failure(NegativeIndex)
    ensures 0 <= levelIndex < t.height && 0 <= index < |t.levels[levelIndex]| ==>
      var level := t.levels[levelIndex];
      && r.Success?
      && (r.value.None? <==> index % 2 == 0 && index == |level| - 1)
      && (r.value.Some? ==> r.value.value == level[Sibling(index)])
      && (levelIndex > 0 ==>
            t.levels[levelIndex - 1][index / 2]
              == if r.value.Some? then JoinPair(t.hash, index, level[index], r.value.value) else level[index])
  {
    var values :- Level(t, levelIndex);
    if index >= |values| then Success(None)
    else
      var s :- SiblingIndex(index);
      ParentOfNode(t.hash, values, index);
      if s < |values| then Success(Some(values[s])) else Success(None)
  }

  /** The root has no sibling. */
  lemma RootHasNoSibling(t: Tree, index: int)
    requires Valid(t) && index >= 0
    ensures SiblingNode(t, 0, index) == Success(None)
  {
    RootLevelSingleton(t);
  }

  /** Plain concatenation, except that an absent right operand leaves the left
      one as it is. */
  function Concat(a: string, b: Option<string>): (r: string)
    ensures b.None? ==> r == a
    ensures b.Some? ==> |r| == |a| + |b.value| && r[..|a|] == a && r[|a|..] == b.value
  {
    if b.None? then a else a + b.value
  }

  /** `block_valid?`: whether hashing `blockData` and combining it with the
      stored sibling leaf reproduces the stored parent. This is a one-level
      check; a carried leaf is compared as `hash(hash(blockData))`. */
  function BlockValid(t: Tree, blockData: string, blockIndex: nat): (r: bool)
    requires Valid(t) && blockIndex < LeafCount(t)
    ensures t.height == 1 ==> !r
    ensures t.height > 1 ==>
      var leaves := Leaves(t);
      var blockHash := t.hash(blockData);
      (r <==> t.levels[t.height - 2][blockIndex / 2] ==
                if Sibling(blockIndex) < |leaves|
                then JoinPair(t.hash, blockIndex, blockHash, leaves[Sibling(blockIndex)])
                else t.hash(blockHash))
  {
    var blockHash := t.hash(blockData);
    var sibling := SiblingNode(t, t.height - 1, blockIndex).value;
    var parent := ParentNode(t, blockIndex).value;
    if blockIndex % 2 == 0 then
      Some(t.hash(Concat(blockHash, sibling))) == parent
    else
      Some(t.hash(Concat(sibling.value, Some(blockHash)))) == parent
  }

  /** A genuine block whose leaf has a real sibling passes `BlockValid`. */
  lemma BlockValidAcceptsGenuineBlock(t: Tree, blockData: string, blockIndex: nat)
    requires Valid(t) && blockIndex < LeafCount(t)
    requires t.hash(blockData) == Leaves(t)[blockIndex]
    requires Sibling(blockIndex) < LeafCount(t)
    ensures BlockValid(t, blockData, blockIndex)
  {
    ParentOfNode(t.hash, Leaves(t), blockIndex);
  }

  /** For a genuine carried leaf `BlockValid` holds only if the hash fixes the
      leaf's digest, `hash(x) == x`; a cryptographic hash does not. */
  lemma BlockValidOnCarriedLeaf(t: Tree, blockData: string, blockIndex: nat)
    requires Valid(t) && blockIndex < LeafCount(t)
    requires t.hash(blockData) == Leaves(t)[blockIndex]
    requires Sibling(blockIndex) >= LeafCount(t) && t.height > 1
    ensures BlockValid(t, blockData, blockIndex) <==> t.hash(Leaves(t)[blockIndex]) == Leaves(t)[blockIndex]
  {
    ParentOfNode(t.hash, Leaves(t), blockIndex);
  }

  /** Every node coordinate lies inside the levels. */
  predicate InBounds(levels: seq<seq<string>>, nodes: seq<Node>)
  {
    forall k :: 0 <= k < |nodes| ==> nodes[k].level < |levels| && nodes[k].index < |levels[nodes[k].level]|
  }

  /** The digests at the given coordinates, in order. */
  function Lookup(levels: seq<seq<string>>, nodes: seq<Node>): seq<string>
    requires InBounds(levels, nodes)
  {
    seq(|nodes|, k requires 0 <= k < |nodes| => levels[nodes[k].level][nodes[k].index])
  }

  /** `hashes_needed_to_verify`: the digests at the coordinates
      `nodes_needed_to_verify` yields for the leaf count, with its errors. */
  function HashesNeededToVerify(t: Tree, blockIndex: int): (r: Result<seq<string>, ArgumentError>)
    requires Valid(t)
    ensures NodesNeededToVerify(blockIndex, LeafCount(t)).Failure? ==>
      r == Failure(NodesNeededToVerify(blockIndex, LeafCount(t)).error)
    ensures NodesNeededToVerify(blockIndex, LeafCount(t)).Success? ==>
      var nodes := NodesNeededToVerify(blockIndex, LeafCount(t)).value;
      && InBounds(t.levels, nodes)
      && r.Success?
      && |r.value| == |nodes|
      && forall k :: 0 <= k < |nodes| ==> r.value[k] == t.levels[nodes[k].level][nodes[k].index]
  {
    var nodes :- NodesNeededToVerify(blockIndex, LeafCount(t));
    if blockIndex >= 0 then
      NodesNeededToVerifyWithinLevels(blockIndex, LeafCount(t));
      NodesWithinTree(t, nodes);
      Success(Lookup(t.levels, nodes))
    else
      Success(Lookup(t.levels, nodes))
  }

  /** The recurrence `nodes_needed_to_verify` tracks for the level sizes
      agrees with the levels `build_tree` produces, so every coordinate it
      yields names a stored node. */
  lemma NodesWithinTree(t: Tree, nodes: seq<Node>)
    requires Valid(t)
    requires forall k :: 0 <= k < |nodes| ==>
      && 1 <= nodes[k].level <= t.height - 1
      && nodes[k].index < LevelSize(LeafCount(t), t.height - 1 - nodes[k].level)
    ensures InBounds(t.levels, nodes)
  {
    forall k | 0 <= k < |nodes|
      ensures nodes[k].index < |t.levels[nodes[k].level]|
    {
      ValidLevelSizes(t, nodes[k].level);
    }
  }

  /** What a holder of the root does with a proof path, which the Ruby library
      leaves to its caller: starting from the leaf digest, at each level join
      with the next proof digest when a sibling exists there (on the left or
      right according to the position's parity), else carry the node up. */
  function Fold(hash: string -> string, node: string, index: nat, count: nat, level: nat, proof: seq<string>): Option<string>
    decreases level
  {
    if level == 0 then (if |proof| == 0 then Some(node) else None)
    else if Sibling(index) < count then
      if |proof| == 0 then None
      else Fold(hash, JoinPair(hash, index, node, proof[0]), index / 2, Halve(count), level - 1, proof[1..])
    else Fold(hash, node, index / 2, Halve(count), level - 1, proof)
  }

  /** Whether `proof` links block `blockData`, at `blockIndex` of `blocksCount`
      blocks, to `root`. */
  function VerifyProof(hash: string -> string, blockData: string, blockIndex: nat, blocksCount: nat,
                       proof: seq<string>, root: string): bool
  {
    blocksCount >= 1 && Fold(hash, hash(blockData), blockIndex, blocksCount, Height(blocksCount) - 1, proof) == Some(root)
  }

  lemma LookupCons(levels: seq<seq<string>>, node: Node, rest: seq<Node>)
    requires node.level < |levels| && node.index < |levels[node.level]|
    requires InBounds(levels, rest)
    ensures InBounds(levels, [node] + rest)
    ensures Lookup(levels, [node] + rest) == [levels[node.level][node.index]] + Lookup(levels, rest)
  {
    var nodes := [node] + rest;
    assert forall k :: 1 <= k < |nodes| ==> nodes[k] == rest[k - 1];
  }

  /** One step of `Fold`: the node at `i` of level `l` becomes its parent at
      `i / 2` of level `l - 1`, consuming a proof digest exactly when the node
      has a sibling. */
  lemma FoldStep(hash: string -> string, levels: seq<seq<string>>, l: nat, i: nat, rest: seq<string>)
    requires 0 < l < |levels| && Chained(hash, levels)
    requires i < |levels[l]|
    ensures i / 2 < |levels[l - 1]|
    ensures |levels[l - 1]| == Halve(|levels[l]|)
    ensures Sibling(i) < |levels[l]| ==>
      Fold(hash, levels[l][i], i, |levels[l]|, l, [levels[l][Sibling(i)]] + rest)
        == Fold(hash, levels[l - 1][i / 2], i / 2, |levels[l - 1]|, l - 1, rest)
    ensures Sibling(i) >= |levels[l]| ==>
      Fold(hash, levels[l][i], i, |levels[l]|, l, rest)
        == Fold(hash, levels[l - 1][i / 2], i / 2, |levels[l - 1]|, l - 1, rest)
  {
    assert levels[l - 1] == NextLevel(hash, levels[l]);
    ParentOfNode(hash, levels[l], i);
    if Sibling(i) < |levels[l]| {
      assert ([levels[l][Sibling(i)]] + rest)[1..] == rest;
    }
  }

  /** Folding the sibling digests collected from `level` upward, starting at
      node `i` of that level, reaches the single root digest. */
  lemma {:induction false} FoldReachesRoot(hash: string -> string, levels: seq<seq<string>>, l: nat, i: nat)
    requires l < |levels| && Chained(hash, levels) && |levels[0]| == 1
    requires i < |levels[l]|
    ensures InBounds(levels, CollectSiblings(l, i, |levels[l]|))
    ensures Fold(hash, levels[l][i], i, |levels[l]|, l, Lookup(levels, CollectSiblings(l, i, |levels[l]|)))
            == Some(levels[0][0])
    decreases l
  {
    if l > 0 {
      var count := |levels[l]|;
      FoldStep(hash, levels, l, i, []);
      FoldReachesRoot(hash, levels, l - 1, i / 2);
      var rest := CollectSiblings(l - 1, i / 2, Halve(count));
      assert rest == CollectSiblings(l - 1, i / 2, |levels[l - 1]|);
      var nodes := CollectSiblings(l, i, count);
      if Sibling(i) < count {
        assert nodes == [Node(l, Sibling(i))] + rest;
        LookupCons(levels, Node(l, Sibling(i)), rest);
        FoldStep(hash, levels, l, i, Lookup(levels, rest));
      } else {
        assert nodes == rest;
        FoldStep(hash, levels, l, i, Lookup(levels, rest));
      }
    }
  }

  /** The proof path of a genuine block recomputes the root: the partner of
      `HashesNeededToVerify`. */
  lemma ProofPathRecomputesRoot(t: Tree, blockData: string, blockIndex: nat)
    requires Valid(t) && blockIndex < LeafCount(t)
    requires t.hash(blockData) == Leaves(t)[blockIndex]
    ensures HashesNeededToVerify(t, blockIndex).Success?
    ensures VerifyProof(t.hash, blockData, blockIndex, LeafCount(t), HashesNeededToVerify(t, blockIndex).value, Root(t))
  {
    RootLevelSingleton(t);
    FoldReachesRoot(t.hash, t.levels, t.height - 1, blockIndex);
  }
}
