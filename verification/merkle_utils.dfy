/** Index arithmetic of a Merkle tree (lib/merkle_utils.rb): the height of a
    tree over a number of blocks, sibling and parent positions within a level,
    and the (level, index) coordinates of the nodes that prove one block.

    Levels are numbered from the root: level 0 holds the root and level
    `height - 1` holds one leaf per block. Moving up one level halves the node
    count, rounding up, because an unpaired trailing node is carried upward. */
module MerkleUtils {
  import opened Wrappers

  /** The conditions under which the Ruby library raises `ArgumentError`, one
      constructor per message. */
  datatype ArgumentError =
    | NegativeBlocksCount               // tree_height of a negative count
    | NegativeIndex                     // sibling_index / parent_index of a negative index
    | NonPositiveBlocksCount            // nodes_needed_to_verify with no blocks
    | BlockIndexOutOfRange(maxIndex: int) // block index past the last block
    | EmptyBlocks                       // a tree built from no blocks
    | LevelOutOfRange(maxLevel: int)    // a level past the root or the leaves

  /** A node of the tree, addressed by its level and its position in it. */
  datatype Node = Node(level: nat, index: nat)

  function Pow2(k: nat): (p: nat)
    ensures p >= 1
  {
    if k == 0 then 1 else 2 * Pow2(k - 1)
  }

  lemma {:induction false} Pow2Monotonic(a: nat, b: nat)
    requires a <= b
    ensures Pow2(a) <= Pow2(b)
    decreases b
  {
    if a < b {
      Pow2Monotonic(a, b - 1);
    }
  }

  /** Ceiling half: the number of nodes on the level above a level of `n`
      nodes (pairs become one node, a trailing single node is carried). */
  function Halve(n: nat): nat
  {
    (n + 1) / 2
  }

  /** The number of levels of a tree over `n` blocks. It is the integer form of
      `ceil(log2 n) + 1` for `n >= 1`: for `n >= 2` the leaf count lies in
      `(2^(h-2), 2^(h-1)]`. */
  function Height(n: nat): (h: nat)
    ensures n == 0 <==> h == 0
    ensures n == 1 ==> h == 1
    ensures n >= 2 ==> h >= 2 && Pow2(h - 2) < n <= Pow2(h - 1)
    decreases n
  {
    if n <= 1 then n else Height(Halve(n)) + 1
  }

  /** The bound of `Height` pins it down: no other height fits `n`. */
  lemma HeightUnique(n: nat, h: nat)
    requires n >= 2 && h >= 2
    requires Pow2(h - 2) < n <= Pow2(h - 1)
    ensures Height(n) == h
  {
    var k := Height(n);
    if k < h {
      Pow2Monotonic(k - 1, h - 2);
    } else if k > h {
      Pow2Monotonic(h - 1, k - 2);
    }
  }

  /** `tree_height`: the height of a tree over `blocksCount` blocks, failing on
      a negative count. */
  function TreeHeight(blocksCount: int): (r: Result<nat, ArgumentError>)
    ensures r.Success? <==> blocksCount >= 0
    ensures r.Failure? ==> r.error == NegativeBlocksCount
    ensures blocksCount == 0 ==> r == Success(0)
    ensures blocksCount == 1 ==> r == Success(1)
    ensures blocksCount >= 2 ==>
              r.Success? && r.value >= 2 && Pow2(r.value - 2) < blocksCount <= Pow2(r.value - 1)
    ensures r.Success? ==> r.value == Height(blocksCount)
  {
    if blocksCount == 0 then Success(0)
    else if blocksCount < 0 then Failure(NegativeBlocksCount)
    else Success(Height(blocksCount))
  }

  /** The other member of the pair `{2k, 2k+1}` that holds `i`. */
  function Sibling(i: nat): (s: nat)
    ensures s != i && s / 2 == i / 2
  {
    if i % 2 == 0 then i + 1 else i - 1
  }

  /** `sibling_index`: the sibling position of `index`, failing on a negative
      index. The position need not exist in the level. */
  function SiblingIndex(index: int): (r: Result<nat, ArgumentError>)
    ensures r.Success? <==> index >= 0
    ensures r.Failure? ==> r.error == NegativeIndex
    ensures r.Success? ==> r.value != index && r.value / 2 == index / 2
  {
    if index < 0 then Failure(NegativeIndex) else Success(Sibling(index))
  }

  /** `parent_index`: the position of the parent of `index` on the level
      above, failing on a negative index. */
  function ParentIndex(index: int): (r: Result<nat, ArgumentError>)
    ensures r.Success? <==> index >= 0
    ensures r.Failure? ==> r.error == NegativeIndex
    ensures r.Success? ==> 2 * r.value <= index <= 2 * r.value + 1
  {
    if index < 0 then Failure(NegativeIndex) else Success(index / 2)
  }

  lemma SiblingIndexInvolution(i: int)
    requires i >= 0
    ensures SiblingIndex(i).Success?
    ensures SiblingIndex(SiblingIndex(i).value) == Success(i)
    ensures SiblingIndex(i).value == i + 1 || SiblingIndex(i).value == i - 1
    ensures SiblingIndex(i).value == (if i % 2 == 0 then i + 1 else i - 1)
  {
  }

  lemma ParentOfSibling(i: int)
    requires i >= 0
    ensures ParentIndex(i) == Success(i / 2)
    ensures ParentIndex(SiblingIndex(i).value) == ParentIndex(i)
  {
  }

  /** The position of the ancestor `d` levels above node `i`. */
  function Ancestor(i: nat, d: nat): nat
    decreases d
  {
    if d == 0 then i else Ancestor(i / 2, d - 1)
  }

  /** The number of nodes `d` levels above a level of `n` nodes. */
  function LevelSize(n: nat, d: nat): nat
    decreases d
  {
    if d == 0 then n else LevelSize(Halve(n), d - 1)
  }

  lemma {:induction false} LevelSizeStep(n: nat, d: nat)
    ensures LevelSize(n, d + 1) == Halve(LevelSize(n, d))
    decreases d
  {
    if d > 0 {
      LevelSizeStep(Halve(n), d - 1);
    }
  }

  lemma {:induction false} AncestorStep(i: nat, d: nat)
    ensures Ancestor(i, d + 1) == Ancestor(i, d) / 2
    decreases d
  {
    if d > 0 {
      AncestorStep(i / 2, d - 1);
    }
  }

  lemma {:induction false} MulMonotonic(b: nat, x: nat, y: nat)
    requires x <= y
    ensures b * x <= b * y
    decreases y - x
  {
    if x < y {
      MulMonotonic(b, x, y - 1);
      assert b * y == b * (y - 1) + b;
    }
  }

  /** Quotient and remainder are unique, so any decomposition names `a / b`. */
  lemma DivUnique(a: nat, b: nat, q: nat, r: nat)
    requires b > 0 && a == b * q + r && r < b
    ensures a / b == q
  {
    var q', r' := a / b, a % b;
    assert a == b * q' + r';
    if q < q' {
      MulMonotonic(b, q + 1, q');
    } else if q' < q {
      MulMonotonic(b, q' + 1, q);
    }
  }

  /** Halving and then dividing by `p` is dividing by `2p`. */
  lemma HalfThenDivide(i: nat, p: nat)
    requires p >= 1
    ensures (i / 2) / p == i / (2 * p)
  {
    var q := (i / 2) / p;
    var r := (i / 2) % p;
    assert i / 2 == p * q + r;
    assert i == (2 * p) * q + (2 * r + i % 2);
    DivUnique(i, 2 * p, q, 2 * r + i % 2);
  }

  /** The ancestor `d` levels up is the floor of `i / 2^d`. */
  lemma {:induction false} AncestorIsQuotient(i: nat, d: nat)
    ensures Ancestor(i, d) == i / Pow2(d)
    decreases d
  {
    if d > 0 {
      AncestorIsQuotient(i / 2, d - 1);
      HalfThenDivide(i, Pow2(d - 1));
    }
  }

  /** A node inside a level has its ancestors inside the levels above. */
  lemma {:induction false} AncestorWithinLevel(i: nat, n: nat, d: nat)
    requires i < n
    ensures Ancestor(i, d) < LevelSize(n, d)
    decreases d
  {
    if d > 0 {
      AncestorWithinLevel(i / 2, Halve(n), d - 1);
    }
  }

  /** `Height(n) - 1` rounds of ceiling-halving take `n` blocks to one node. */
  lemma {:induction false} LevelSizeAtRoot(n: nat)
    requires n >= 1
    ensures LevelSize(n, Height(n) - 1) == 1
    decreases n
  {
    if n >= 2 {
      LevelSizeAtRoot(Halve(n));
    }
  }

  /** Every level strictly below the root has at least two nodes, so no
      smaller height would reach a single root. */
  lemma {:induction false} LevelSizeBelowRoot(n: nat, d: nat)
    requires n >= 1 && d < Height(n) - 1
    ensures LevelSize(n, d) >= 2
    decreases n
  {
    if d > 0 {
      LevelSizeBelowRoot(Halve(n), d - 1);
    }
  }

  /** The walk of `nodes_needed_to_verify` from `level` up to level 1, for the
      node at `index` on a level of `count` nodes: at each level the sibling's
      coordinates are recorded when the sibling exists. */
  function CollectSiblings(level: nat, index: nat, count: nat): (r: seq<Node>)
    ensures |r| <= level
    ensures forall k :: 0 <= k < |r| ==> 1 <= r[k].level <= level
    ensures forall k, k' :: 0 <= k < k' < |r| ==> r[k].level > r[k'].level
    decreases level
  {
    if level == 0 then []
    else
      var sibling := Sibling(index);
      var rest := CollectSiblings(level - 1, index / 2, Halve(count));
      if sibling < count then [Node(level, sibling)] + rest else rest
  }

  /** The `k`-th recorded node is the sibling of the walked node's ancestor
      on its level, and lies inside that level. */
  lemma {:induction false} CollectSiblingsEntry(level: nat, index: nat, count: nat, k: nat)
    requires k < |CollectSiblings(level, index, count)|
    ensures CollectSiblings(level, index, count)[k].index
              == Sibling(Ancestor(index, level - CollectSiblings(level, index, count)[k].level))
    ensures CollectSiblings(level, index, count)[k].index
              < LevelSize(count, level - CollectSiblings(level, index, count)[k].level)
    decreases level
  {
    var r := CollectSiblings(level, index, count);
    var rest := CollectSiblings(level - 1, index / 2, Halve(count));
    if Sibling(index) < count && k == 0 {
      assert r[k] == Node(level, Sibling(index));
    } else {
      var k' := if Sibling(index) < count then k - 1 else k;
      assert r[k] == rest[k'];
      CollectSiblingsEntry(level - 1, index / 2, Halve(count), k');
      var e := level - r[k].level;
      assert Ancestor(index, e) == Ancestor(index / 2, e - 1);
      assert LevelSize(count, e) == LevelSize(Halve(count), e - 1);
    }
  }

  lemma CollectSiblingsEntries(level: nat, index: nat, count: nat)
    ensures forall k :: 0 <= k < |CollectSiblings(level, index, count)| ==>
      && CollectSiblings(level, index, count)[k].index
           == Sibling(Ancestor(index, level - CollectSiblings(level, index, count)[k].level))
      && CollectSiblings(level, index, count)[k].index
           < LevelSize(count, level - CollectSiblings(level, index, count)[k].level)
  {
    forall k | 0 <= k < |CollectSiblings(level, index, count)|
      ensures CollectSiblings(level, index, count)[k].index
                == Sibling(Ancestor(index, level - CollectSiblings(level, index, count)[k].level))
      ensures CollectSiblings(level, index, count)[k].index
                < LevelSize(count, level - CollectSiblings(level, index, count)[k].level)
    {
      CollectSiblingsEntry(level, index, count, k);
    }
  }

  /** The sibling of the walked node's ancestor `d` levels up is recorded
      exactly when it exists on that level. */
  lemma {:induction false} CollectSiblingsComplete(level: nat, index: nat, count: nat, d: nat)
    requires d < level
    ensures var s := Sibling(Ancestor(index, d));
      Node(level - d, s) in CollectSiblings(level, index, count) <==> s < LevelSize(count, d)
    decreases level
  {
    var rest := CollectSiblings(level - 1, index / 2, Halve(count));
    var r := CollectSiblings(level, index, count);
    if d == 0 {
      assert Node(level, Sibling(index)) !in rest;
    } else {
      CollectSiblingsComplete(level - 1, index / 2, Halve(count), d - 1);
      var s := Sibling(Ancestor(index, d));
      assert Node(level - d, s) in r <==> Node(level - d, s) in rest;
    }
  }

  lemma CollectSiblingsCompleteAll(level: nat, index: nat, count: nat)
    ensures forall d :: 0 <= d < level ==>
      ((Node(level - d, Sibling(Ancestor(index, d))) in CollectSiblings(level, index, count))
         <==> (Sibling(Ancestor(index, d)) < LevelSize(count, d)))
  {
    forall d | 0 <= d < level
      ensures (Node(level - d, Sibling(Ancestor(index, d))) in CollectSiblings(level, index, count))
                <==> (Sibling(Ancestor(index, d)) < LevelSize(count, d))
    {
      CollectSiblingsComplete(level, index, count, d);
    }
  }

  /** `nodes_needed_to_verify`: the coordinates of the sibling nodes a
      verifier needs, besides the block itself, to recompute the root; ordered
      from the leaf level upward, excluding the root level. */
  function NodesNeededToVerify(blockIndex: int, blocksCount: int): (r: Result<seq<Node>, ArgumentError>)
    ensures r.Success? <==> 0 < blocksCount && blockIndex < blocksCount && (0 <= blockIndex || blocksCount == 1)
    ensures blocksCount <= 0 ==> r == Failure(NonPositiveBlocksCount)
    ensures 0 < blocksCount <= blockIndex ==> r == Failure(BlockIndexOutOfRange(blocksCount - 1))
    ensures 1 < blocksCount && blockIndex < 0 ==> r == Failure(NegativeIndex)
    ensures blocksCount == 1 && blockIndex < 1 ==> r == Success([])
  {
    if blocksCount <= 0 then Failure(NonPositiveBlocksCount)
    else if blockIndex >= blocksCount then Failure(BlockIndexOutOfRange(blocksCount - 1))
    else
      var levels := Height(blocksCount) - 1;
      if levels == 0 then Success([])
      else if blockIndex < 0 then Failure(NegativeIndex)
      else Success(CollectSiblings(levels, blockIndex, blocksCount))
  }

  /** For an in-range block `nodes_needed_to_verify` is the sibling walk
      from the leaf level, `height - 1` levels long. */
  lemma NodesNeededToVerifyWalk(blockIndex: nat, blocksCount: nat)
    requires blockIndex < blocksCount
    ensures NodesNeededToVerify(blockIndex, blocksCount)
              == Success(CollectSiblings(Height(blocksCount) - 1, blockIndex, blocksCount))
  {
  }

  /** The coordinates of an in-range block: at most one node per level below
      the root, ordered from the leaves upward, each inside its level. */
  lemma NodesNeededToVerifyWithinLevels(blockIndex: nat, blocksCount: nat)
    requires blockIndex < blocksCount
    ensures NodesNeededToVerify(blockIndex, blocksCount).Success?
    ensures var nodes := NodesNeededToVerify(blockIndex, blocksCount).value;
      var h := Height(blocksCount);
      && |nodes| <= h - 1
      && (forall k, k' :: 0 <= k < k' < |nodes| ==> nodes[k].level > nodes[k'].level)
      && (forall k :: 0 <= k < |nodes| ==>
            && 1 <= nodes[k].level <= h - 1
            && nodes[k].index < LevelSize(blocksCount, h - 1 - nodes[k].level))
  {
    NodesNeededToVerifyWalk(blockIndex, blocksCount);
    CollectSiblingsEntries(Height(blocksCount) - 1, blockIndex, blocksCount);
  }

  /** Each coordinate of an in-range block is the sibling of the block's
      ancestor on that level. */
  lemma NodesNeededToVerifySiblings(blockIndex: nat, blocksCount: nat)
    requires blockIndex < blocksCount
    ensures NodesNeededToVerify(blockIndex, blocksCount).Success?
    ensures var nodes := NodesNeededToVerify(blockIndex, blocksCount).value;
      forall k :: 0 <= k < |nodes| ==>
        nodes[k].index == Sibling(Ancestor(blockIndex, Height(blocksCount) - 1 - nodes[k].level))
  {
    NodesNeededToVerifyWalk(blockIndex, blocksCount);
    CollectSiblingsEntries(Height(blocksCount) - 1, blockIndex, blocksCount);
  }

  /** On every level below the root, the sibling of the block's ancestor is
      listed exactly when that level holds it. */
  lemma NodesNeededToVerifyComplete(blockIndex: nat, blocksCount: nat)
    requires blockIndex < blocksCount
    ensures NodesNeededToVerify(blockIndex, blocksCount).Success?
    ensures var nodes := NodesNeededToVerify(blockIndex, blocksCount).value;
      var h := Height(blocksCount);
      forall d :: 0 <= d < h - 1 ==>
        ((Node(h - 1 - d, Sibling(Ancestor(blockIndex, d))) in nodes)
           <==> (Sibling(Ancestor(blockIndex, d)) < LevelSize(blocksCount, d)))
  {
    NodesNeededToVerifyWalk(blockIndex, blocksCount);
    CollectSiblingsCompleteAll(Height(blocksCount) - 1, blockIndex, blocksCount);
  }

  /** A sibling of an ancestor, restated through the quotient. */
  lemma SiblingOfQuotient(i: nat, d: nat, x: nat)
    requires x == Sibling(Ancestor(i, d))
    ensures x == Sibling(i / Pow2(d))
  {
    AncestorIsQuotient(i, d);
  }

  /** The walk's `k`-th node is the sibling of `index / 2^e`, `e` being the
      number of levels it lies above the start. */
  lemma CollectSiblingsQuotient(level: nat, index: nat, count: nat, k: nat)
    requires k < |CollectSiblings(level, index, count)|
    ensures CollectSiblings(level, index, count)[k].index
              == Sibling(index / Pow2(level - CollectSiblings(level, index, count)[k].level))
  {
    var n := CollectSiblings(level, index, count)[k];
    CollectSiblingsEntry(level, index, count, k);
    SiblingOfQuotient(index, level - n.level, n.index);
  }

  /** The `k`-th coordinate recorded for an in-range block is the sibling of
      the block's ancestor on that level, the ancestor's position being the
      floor of `blockIndex / 2^(height - 1 - level)`. */
  lemma NodeIsSiblingOfQuotient(blockIndex: nat, blocksCount: nat, k: nat)
    requires blockIndex < blocksCount
    ensures NodesNeededToVerify(blockIndex, blocksCount).Success?
    ensures var nodes := NodesNeededToVerify(blockIndex, blocksCount).value;
      k < |nodes| ==> nodes[k].index == Sibling(blockIndex / Pow2(Height(blocksCount) - 1 - nodes[k].level))
  {
    NodesNeededToVerifyWalk(blockIndex, blocksCount);
    if k < |CollectSiblings(Height(blocksCount) - 1, blockIndex, blocksCount)| {
      CollectSiblingsQuotient(Height(blocksCount) - 1, blockIndex, blocksCount, k);
    }
  }
}
