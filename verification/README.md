# Merkle tree over ordered blocks, in Dafny

This project models the core of a small Ruby Merkle-tree library. The library builds a binary hash tree over an ordered list of data blocks. It then answers read-only queries: the root, any level, the parent and the sibling of a node, a one-level validity check for a block, and the proof path of sibling digests from which a block's data alone recomputes the root.

There are two modules with proofs, matching the two core source files:

- `MerkleUtils` (lib/merkle_utils.rb) holds the index arithmetic.
  - `Height` is the integer form of `ceil(log2 n) + 1`.
  - `TreeHeight`, `SiblingIndex` and `ParentIndex` are the checked entry points.
  - `CollectSiblings` is the walk that `NodesNeededToVerify` performs from the leaf level up to level 1.
  - `LevelSize(n, d)` is the recurrence the walk tracks: `d` rounds of ceiling-halving `n`.
  - `Ancestor(i, d)` is the position of the ancestor `d` levels up.
- `MerkleTree` (lib/merkle_tree.rb) holds the tree.
  - It is an immutable `Tree(hash, height, levels)`: `levels[0]` is the root level and `levels[height - 1]` the leaves.
  - `NextLevel` is one step of `build_tree`: pairs are hashed as `hash(left + right)`, and a trailing unpaired node is carried up unchanged.
  - `Valid` is the shape every constructed tree has, and each query requires it.

The hash function is a parameter `string -> string`. The tree stores it, as the Ruby object stores its hashing class. `TestHashing.Upcase` is the readable stand-in hash of lib/test_hashing.rb, restricted to ASCII. The modules `UtilsScenarios` and `TreeScenarios` check the repository's test scenarios against it. A `Wrappers` module supplies `Option` (for `nil`) and `Result` (for a raised `ArgumentError`). Each `ArgumentError` message is one constructor of `MerkleUtils.ArgumentError`.

The model adds one thing the library leaves to its callers: `MerkleTree.Fold` and `MerkleTree.VerifyProof`. They are what a holder of the root does with a proof path: join the node with each proof digest on the side its position's parity dictates, or carry the node up where no sibling exists. `ProofPathRecomputesRoot` proves that the output of `HashesNeededToVerify` for a genuine block always leads back to `Root`.

Every query is a pure function of an immutable value. Repeated reads therefore return identical results by construction.

Two behaviours of the code are easy to miss:

- `nodes_needed_to_verify` walks levels `height - 1` down to `1`, so the first recorded node is the block's sibling on the leaf level.
- Negative indices fail only where the code fails.
  - `nodes_needed_to_verify(i, 1)` returns `[]` for any `i < 1`, because its loop never runs.
  - `parent_node` returns `nil` on a single-block tree for any index.
  - `parent_node` and `sibling_node` fail on a negative index only once `parent_index` or `sibling_index` is reached.

## Model

| member | source | states |
|---|---|---|
| MerkleUtils.Height | lib/merkle_utils.rb:13-18 | 0 blocks give height 0 and 1 block gives height 1; for `n >= 2` the height `h` satisfies `2^(h-2) < n <= 2^(h-1)`, the integer reading of `ceil(log2 n) + 1` |
| MerkleUtils.HeightUnique | lib/merkle_utils.rb:17 | that bound admits exactly one height, so `Height` is the logarithmic height and no other |
| MerkleUtils.TreeHeight | lib/merkle_utils.rb:13-18 | fails exactly on a negative count; otherwise 0 for 0, 1 for 1 and the logarithmic bound for `n >= 2` |
| MerkleUtils.SiblingIndex | lib/merkle_utils.rb:28-36 | fails exactly on a negative index; otherwise the result differs from the index and shares its parent, which makes it the other member of the pair `{2k, 2k+1}` |
| MerkleUtils.SiblingIndexInvolution | lib/merkle_utils.rb:28-36 | the sibling of the sibling is the index itself; the two differ by exactly one (`+1` from even, `-1` from odd) |
| MerkleUtils.ParentIndex | lib/merkle_utils.rb:46-50 | fails exactly on a negative index; otherwise the floor of half the index (`2p <= i <= 2p + 1`) |
| MerkleUtils.ParentOfSibling | lib/merkle_utils.rb:46-50 | a node and its sibling have the same parent |
| MerkleUtils.LevelSizeAtRoot | lib/merkle_utils.rb:73-79 | `height - 1` rounds of ceiling-halving take `n >= 1` nodes to exactly one node |
| MerkleUtils.LevelSizeBelowRoot | lib/merkle_utils.rb:73-79 | every level below the root has at least two nodes, so no lower height would reach a single root |
| MerkleUtils.AncestorWithinLevel | lib/merkle_utils.rb:75-79 | halving an index that lies inside a level stays inside every level above, as the walk assumes |
| MerkleUtils.AncestorIsQuotient | lib/merkle_utils.rb:75-79 | halving an index `d` times yields the floor of `i / 2^d` |
| MerkleUtils.CollectSiblings | lib/merkle_utils.rb:70-80 | the walk records at most one node per level, with levels between 1 and the start level, strictly decreasing |
| MerkleUtils.CollectSiblingsEntry | lib/merkle_utils.rb:75-79 | each recorded node is the sibling of the walked node's ancestor on its level and lies inside that level's size |
| MerkleUtils.CollectSiblingsQuotient | lib/merkle_utils.rb:75-78 | the node recorded `e` levels above the start is the sibling of `index / 2^e` |
| MerkleUtils.CollectSiblingsComplete | lib/merkle_utils.rb:75-79 | the ancestor's sibling on a level is recorded if and only if it exists on that level |
| MerkleUtils.NodesNeededToVerify | lib/merkle_utils.rb:62-81 | fails on `blocks_count <= 0`, then on `block_index >= blocks_count`, then on a negative index when the tree has a level below the root; a single-block tree gives `[]` for any index below 1 |
| MerkleUtils.NodesNeededToVerifyWithinLevels | lib/merkle_utils.rb:70-80 | for an in-range block: at most `height - 1` nodes, on levels strictly decreasing from `height - 1` to 1, each inside the size its level has |
| MerkleUtils.NodesNeededToVerifySiblings | lib/merkle_utils.rb:75-78 | for an in-range block, each node is the sibling of the block's ancestor on its level |
| MerkleUtils.NodesNeededToVerifyComplete | lib/merkle_utils.rb:75-79 | for an in-range block, the ancestor's sibling on a level below the root is listed if and only if that level holds it |
| MerkleUtils.NodeIsSiblingOfQuotient | lib/merkle_utils.rb:75-78 | the node recorded on level `l` has index `sibling_index(block_index / 2^(height-1-l))` |
| MerkleTree.NextLevel | lib/merkle_tree.rb:137-146 | a level has `ceil(m / 2)` nodes for `m` below; node `k` is `hash(below[2k] + below[2k+1])` when that pair exists, else `below[2k]` unchanged |
| MerkleTree.Concat | lib/merkle_tree.rb:127-131 | the left digest alone when the right one is absent, otherwise both joined, left first; an absent left operand is outside the type |
| MerkleTree.JoinPairAsConcat | lib/merkle_tree.rb:97-101 | an even position hashes `concat(node, sibling)` and an odd one `concat(sibling, node)`, the operand order `block_valid?` uses |
| MerkleTree.JoinPairSymmetric | lib/merkle_tree.rb:97-101 | a node and its sibling join to the same parent whichever of the two is taken as the node |
| MerkleTree.ParentOfNode | lib/merkle_tree.rb:137-146 | the parent of a node is its pair's hash, left child first, when it has a sibling, and the node itself when it has none |
| MerkleTree.CarryLaw | lib/merkle_tree.rb:140-142 | above a level of odd length the last node is the unchanged last node of the level below |
| MerkleTree.BuildLevels | lib/merkle_tree.rb:133-149 | builds exactly `height` levels whose last level is the leaf level and where each level is derived from the one below |
| MerkleTree.New | lib/merkle_tree.rb:16-23 | fails exactly on an empty block list; otherwise gives a valid tree of `tree_height(blocks.size)` levels whose leaf level is the blocks' hashes in input order |
| MerkleTree.ChainedPrefix | lib/merkle_tree.rb:137-146 | the levels above the leaves of a built tree are themselves built one from the next |
| MerkleTree.ValidTreeIsBuilt | lib/merkle_tree.rb:133-149 | a valid tree is exactly the tree built from its leaf level; the levels above carry no freedom |
| MerkleTree.ValidLevelSizes | lib/merkle_tree.rb:137-146 | the level `d` steps above the leaves has `LevelSize(leaf count, d)` nodes, the recurrence `nodes_needed_to_verify` tracks |
| MerkleTree.RootLevelSingleton | lib/merkle_tree.rb:30-32 | level 0 of a valid tree has exactly one node |
| MerkleTree.Root | lib/merkle_tree.rb:30-32 | the root is the single node of level 0 |
| MerkleTree.Level | lib/merkle_tree.rb:41-45 | succeeds exactly for `0 <= i < height` and then returns the stored level, of the size the recurrence predicts; the leaf level is the leaves; otherwise fails naming `height - 1` |
| MerkleTree.ParentNode | lib/merkle_tree.rb:57-62 | absent on a single-block tree and past the last leaf; an error for a negative index; otherwise the pair hash of the leaf and its sibling, or the leaf itself when it is carried |
| MerkleTree.SiblingNode | lib/merkle_tree.rb:73-79 | fails for a level outside the tree; absent past the end of the level; an error for a negative index; otherwise absent exactly for the carried trailing node; when present, it joins with the node into the stored parent, and when absent the parent is the node itself |
| MerkleTree.RootHasNoSibling | lib/merkle_tree.rb:73-79 | the root level never yields a sibling |
| MerkleTree.BlockValid | lib/merkle_tree.rb:92-102 | false on a single-block tree; otherwise true exactly when the stored parent equals the hash of the block's hash joined with the stored sibling leaf, or `hash(hash(block))` when the leaf is carried |
| MerkleTree.BlockValidAcceptsGenuineBlock | lib/merkle_tree.rb:92-102 | a block whose hash is the stored leaf and whose leaf has a real sibling passes the check |
| MerkleTree.BlockValidOnCarriedLeaf | lib/merkle_tree.rb:92-102 | a genuine carried block passes only if the hash leaves the leaf digest unchanged, `hash(x) == x`, which a cryptographic hash does not |
| MerkleTree.HashesNeededToVerify | lib/merkle_tree.rb:113-117 | fails exactly as `nodes_needed_to_verify` fails for the leaf count; otherwise every coordinate it yields lies inside the tree, and the digests are those at the coordinates, in order |
| MerkleTree.NodesWithinTree | lib/merkle_tree.rb:113-117 | coordinates bounded by the `nodes_count` recurrence name stored nodes, because the recurrence equals the built level sizes |
| MerkleTree.FoldStep | lib/merkle_tree.rb:137-146 | one verification step turns a node into its stored parent, consuming the sibling's digest exactly when the sibling exists |
| MerkleTree.FoldReachesRoot | lib/merkle_tree.rb:113-117 | from any node of any level, folding the digests of the siblings collected upward from it reaches the root |
| MerkleTree.ProofPathRecomputesRoot | lib/merkle_tree.rb:113-117 | for a genuine block, the proof path succeeds and recomputes the root from the block's data alone |
| TestHashing.Upcase | lib/test_hashing.rb:14-16 | upper-cases every ASCII letter and keeps every other character and the length |
| UtilsScenarios.TreeHeightTable | spec/merkle_utils_spec.rb:6-19 | heights of 0 through 10 blocks, and the error for -1 |
| UtilsScenarios.IndexTable | spec/merkle_utils_spec.rb:21-41 | all tabulated sibling and parent indices of 0 through 5, and the errors for -1 |
| UtilsScenarios.NodesNeededToVerifyTable | spec/merkle_utils_spec.rb:43-97 | both errors, `(0,1) -> []`, `(0,2) -> [(1,1)]`, `(1,2) -> [(1,0)]`, `(3,5) -> [(3,2),(2,0),(1,1)]`, `(4,5) -> [(1,0)]` |
| TreeScenarios.FiveLeaves | lib/merkle_tree.rb:16-23 | the leaves of a tree over five blocks are the five blocks' hashes, in order, for any hash |
| TreeScenarios.PairLevel | spec/merkle_tree_spec.rb:70-93 | under the upper-casing hash, the level above `[A, B, C, D, E]` is `[AB, CD, E]` |
| TreeScenarios.QuadLevel | spec/merkle_tree_spec.rb:70-93 | the level above `[AB, CD, E]` is `[ABCD, E]` |
| TreeScenarios.TopLevel | spec/merkle_tree_spec.rb:70-93 | the level above `[ABCD, E]` is `[ABCDE]` |
| TreeScenarios.FiveBlockLevels | spec/merkle_tree_spec.rb:70-93 | the tree over "a".."e" has levels `[ABCDE]`, `[ABCD, E]`, `[AB, CD, E]`, `[A, B, C, D, E]` |
| TreeScenarios.FiveBlockRootAndLevels | spec/merkle_tree_spec.rb:95-106 | root "ABCDE", levels 2 and 3, and the level errors for -1, 4 and 5 |
| TreeScenarios.FiveBlockNeighbours | spec/merkle_tree_spec.rb:186-212 | the parent of leaf 4 is the carried "E", and the tabulated siblings, including the absent ones |
| TreeScenarios.ProofPathOfD | spec/merkle_tree_spec.rb:247-251 | the proof path of block "d" is `[C, AB, E]` |
| TreeScenarios.ProofPathOfE | spec/merkle_tree_spec.rb:253-257 | the proof path of block "e" is `[ABCD]` |
| TreeScenarios.ValidityOfA | spec/merkle_tree_spec.rb:225-229 | under the upper-casing hash, "a" is valid at index 0 and not at index 1, and "b" is valid at index 1 |
| TreeScenarios.FiveBlockProofPaths | spec/merkle_tree_spec.rb:236-257 | the tree built from "a".."e" gives proof paths `[C, AB, E]` for "d" and `[ABCD]` for "e" |
| TreeScenarios.ValidityOfD | spec/merkle_tree_spec.rb:233 | in any tree with the tabulated levels under the upper-casing hash, "d" is valid at index 3, as a genuine block with a real sibling |
| TreeScenarios.ValidityOfE | spec/merkle_tree_spec.rb:231-232 | in any such tree the carried "e" passes, because upper-casing leaves "E" unchanged |
| TreeScenarios.FiveBlockValidityOfD | spec/merkle_tree_spec.rb:233 | under the upper-casing hash, "d" is valid at index 3 |
| TreeScenarios.FiveBlockValidityOfE | spec/merkle_tree_spec.rb:231-232 | under the upper-casing hash the carried "e" passes, the counterpart of its failure under SHA-256 |
| TreeScenarios.EmptyBlocksRejected | spec/merkle_tree_spec.rb:10-16 | an empty block list is rejected |
| TreeScenarios.OneBlock | spec/merkle_tree_spec.rb:161-167 | one block: height 1, root "A", no parent, never valid |
| TreeScenarios.TwoBlocks | spec/merkle_tree_spec.rb:145-151 | two blocks: height 2, root "AB", parent "AB", siblings "B" and "A" |
| TreeScenarios.ParentAmongTenLeaves | spec/merkle_tree_spec.rb:153-159 | ten blocks: height 5, and the parent of leaf 4 is "EF" |
| TreeScenarios.ParentPastTheEnd | spec/merkle_tree_spec.rb:169-175 | the parent past the last of three leaves is absent |

## Left out

- SHA-256 (lib/merkle_hashing.rb) and the default hashing class are not modelled. Every operation takes the hash as a function parameter.
- The command-line front end (lib/cli.rb) and `MerkleUtils.print` / `debug` (lib/merkle_utils.rb:90-106) are left out. They only read input and write output.
- `Math.log2(n).ceil` and `(n / 2.0).ceil` are modelled by exact integer arithmetic. Floating-point rounding is not modelled. It first matters at 2^49 + 1 blocks: the double `log2(2^49 + 1)` rounds to exactly 49.0, so `tree_height` returns 50 where `Height` gives 51. No in-memory block list reaches that size.
- The fallback `hashing || MerkleHashing` for a `nil` hashing argument and the `String()` coercion of non-string blocks are left out. Blocks are strings.
- MerkleTree.BlockValid: requires `0 <= block_index < leaf count`. The Ruby library fails for other indices, either with `ArgumentError` or with a `NoMethodError` from `concat(nil, …)`, or it returns false. Those outcomes are not modelled.
- The test that a carried leaf fails `block_valid?` under SHA-256 depends on `hash(x) != x`, which is a property of SHA-256 and not of the code. `BlockValidOnCarriedLeaf` states the condition instead.
- Error messages are modelled by constructors that carry only the interpolated number, not by their text.
- `TestHashing.Upcase` upper-cases ASCII letters only. Ruby's `String#upcase` also maps other Unicode letters.
