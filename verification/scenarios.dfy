/** The worked examples of the repository's tests, over the upper-casing
    hash: the index arithmetic on small counts and the trees over "a".."e". */
module UtilsScenarios {
  import opened Wrappers
  import opened MerkleUtils
  import opened MerkleTree
  import opened TestHashing

  lemma TreeHeightTable()
    ensures TreeHeight(-1) == Failure(NegativeBlocksCount)
    ensures TreeHeight(0) == Success(0) && TreeHeight(1) == Success(1)
    ensures TreeHeight(2) == Success(2) && TreeHeight(3) == Success(3)
    ensures TreeHeight(4) == Success(3) && TreeHeight(5) == Success(4)
    ensures TreeHeight(6) == Success(4) && TreeHeight(7) == Success(4)
    ensures TreeHeight(8) == Success(4) && TreeHeight(9) == Success(5)
    ensures TreeHeight(10) == Success(5)
  {
  }

  lemma IndexTable()
    ensures SiblingIndex(-1) == Failure(NegativeIndex) && ParentIndex(-1) == Failure(NegativeIndex)
    ensures SiblingIndex(0) == Success(1) && SiblingIndex(1) == Success(0)
    ensures SiblingIndex(2) == Success(3) && SiblingIndex(3) == Success(2)
    ensures SiblingIndex(4) == Success(5) && SiblingIndex(5) == Success(4)
    ensures ParentIndex(0) == Success(0) && ParentIndex(1) == Success(0)
    ensures ParentIndex(2) == Success(1) && ParentIndex(3) == Success(1)
    ensures ParentIndex(4) == Success(2) && ParentIndex(5) == Success(2)
  {
  }

  lemma NodesNeededToVerifyTable()
    ensures NodesNeededToVerify(0, -1) == Failure(NonPositiveBlocksCount)
    ensures NodesNeededToVerify(5, 5) == Failure(BlockIndexOutOfRange(4))
    ensures NodesNeededToVerify(0, 1) == Success([])
    ensures NodesNeededToVerify(0, 2) == Success([Node(1, 1)])
    ensures NodesNeededToVerify(1, 2) == Success([Node(1, 0)])
    ensures NodesNeededToVerify(3, 5) == Success([Node(3, 2), Node(2, 0), Node(1, 1)])
    ensures NodesNeededToVerify(4, 5) == Success([Node(1, 0)])
  {
    assert Height(2) == 2 && Height(5) == 4;
    assert CollectSiblings(0, 0, 1) == [];
    assert CollectSiblings(1, 0, 2) == [Node(1, 1)];
    assert CollectSiblings(1, 1, 2) == [Node(1, 0)];
    assert CollectSiblings(2, 1, 3) == [Node(2, 0)] + CollectSiblings(1, 0, 2);
    assert CollectSiblings(2, 1, 3) == [Node(2, 0), Node(1, 1)];
    assert CollectSiblings(3, 3, 5) == [Node(3, 2)] + CollectSiblings(2, 1, 3);
    assert CollectSiblings(3, 3, 5) == [Node(3, 2), Node(2, 0), Node(1, 1)];
    assert CollectSiblings(3, 4, 5) == CollectSiblings(2, 2, 3);
    assert CollectSiblings(2, 2, 3) == CollectSiblings(1, 1, 2);
  }
}

module TreeScenarios {
  import opened Wrappers
  import opened MerkleUtils
  import opened MerkleTree
  import opened TestHashing
  import UtilsScenarios

  /** The tree over the blocks "a".."e" under the upper-casing hash. */
  function FiveBlocks(): (t: Tree)
    ensures Valid(t)
  {
    New(["a", "b", "c", "d", "e"], Upcase).value
  }

  lemma UpcaseLetters()
    ensures Upcase("a") == "A" && Upcase("b") == "B" && Upcase("c") == "C"
    ensures Upcase("d") == "D" && Upcase("e") == "E"
  {
  }

  lemma UpcaseIsIdentityOnCapitals(s: string)
    requires forall i :: 0 <= i < |s| ==> 'A' <= s[i] <= 'Z'
    ensures Upcase(s) == s
  {
  }

  lemma FiveBlockHeight()
    ensures FiveBlocks().height == 4
  {
    assert Height(5) == 4;
  }

  /** The leaves of a five-block tree are the blocks' hashes, in order. */
  lemma FiveLeaves(hash: string -> string, a: string, b: string, c: string, d: string, e: string)
    ensures New([a, b, c, d, e], hash).Success?
    ensures Leaves(New([a, b, c, d, e], hash).value) == [hash(a), hash(b), hash(c), hash(d), hash(e)]
  {
    var blocks := [a, b, c, d, e];
    var leaves := Leaves(New(blocks, hash).value);
    assert |leaves| == 5;
    assert forall i :: 0 <= i < 5 ==> leaves[i] == hash(blocks[i]);
  }

  lemma FiveBlockLeaves()
    ensures Leaves(FiveBlocks()) == ["A", "B", "C", "D", "E"]
  {
    FiveLeaves(Upcase, "a", "b", "c", "d", "e");
    UpcaseLetters();
  }

  lemma NextLevelStep(hash: string -> string, a: string, b: string, rest: seq<string>)
    ensures NextLevel(hash, [a, b] + rest) == [hash(a + b)] + NextLevel(hash, rest)
  {
    assert ([a, b] + rest)[2..] == rest;
  }

  lemma PairLevel()
    ensures NextLevel(Upcase, ["A", "B", "C", "D", "E"]) == ["AB", "CD", "E"]
  {
    UpcaseIsIdentityOnCapitals("AB");
    UpcaseIsIdentityOnCapitals("CD");
    assert "A" + "B" == "AB" && "C" + "D" == "CD";
    NextLevelStep(Upcase, "C", "D", ["E"]);
    assert ["C", "D"] + ["E"] == ["C", "D", "E"];
    NextLevelStep(Upcase, "A", "B", ["C", "D", "E"]);
    assert ["A", "B"] + ["C", "D", "E"] == ["A", "B", "C", "D", "E"];
  }

  lemma QuadLevel()
    ensures NextLevel(Upcase, ["AB", "CD", "E"]) == ["ABCD", "E"]
  {
    UpcaseIsIdentityOnCapitals("ABCD");
    assert "AB" + "CD" == "ABCD";
    NextLevelStep(Upcase, "AB", "CD", ["E"]);
    assert ["AB", "CD"] + ["E"] == ["AB", "CD", "E"];
  }

  lemma TopLevel()
    ensures NextLevel(Upcase, ["ABCD", "E"]) == ["ABCDE"]
  {
    UpcaseIsIdentityOnCapitals("ABCDE");
    assert "ABCD" + "E" == "ABCDE";
    NextLevelStep(Upcase, "ABCD", "E", []);
    assert ["ABCD", "E"] + [] == ["ABCD", "E"];
  }

  lemma FiveBlockLevels()
    ensures FiveBlocks().height == 4
    ensures FiveBlocks().levels == [["ABCDE"], ["ABCD", "E"], ["AB", "CD", "E"], ["A", "B", "C", "D", "E"]]
  {
    var t := FiveBlocks();
    FiveBlockHeight();
    FiveBlockLeaves();
    PairLevel();
    QuadLevel();
    TopLevel();
    assert t.levels[2] == NextLevel(Upcase, t.levels[3]);
    assert t.levels[1] == NextLevel(Upcase, t.levels[2]);
    assert t.levels[0] == NextLevel(Upcase, t.levels[1]);
  }

  lemma FiveBlockRootAndLevels()
    ensures Root(FiveBlocks()) == "ABCDE"
    ensures Level(FiveBlocks(), 3) == Success(["A", "B", "C", "D", "E"])
    ensures Level(FiveBlocks(), 2) == Success(["AB", "CD", "E"])
    ensures Level(FiveBlocks(), -1) == Failure(LevelOutOfRange(3))
    ensures Level(FiveBlocks(), 4) == Failure(LevelOutOfRange(3))
    ensures Level(FiveBlocks(), 5) == Failure(LevelOutOfRange(3))
  {
    FiveBlockLevels();
  }

  lemma FiveBlockNeighbours()
    ensures ParentNode(FiveBlocks(), 4) == Success(Some("E"))
    ensures ParentNode(FiveBlocks(), 0) == Success(Some("AB"))
    ensures SiblingNode(FiveBlocks(), 3, 3) == Success(Some("C"))
    ensures SiblingNode(FiveBlocks(), 2, 1) == Success(Some("AB"))
    ensures SiblingNode(FiveBlocks(), 1, 0) == Success(Some("E"))
    ensures SiblingNode(FiveBlocks(), 3, 4) == Success(None)
    ensures SiblingNode(FiveBlocks(), 2, 2) == Success(None)
    ensures SiblingNode(FiveBlocks(), 1, 1) == Success(Some("ABCD"))
    ensures SiblingNode(FiveBlocks(), 0, 0) == Success(None)
    ensures SiblingNode(FiveBlocks(), 0, 1) == Success(None)
    ensures SiblingNode(FiveBlocks(), 3, 5) == Success(None)
  {
    FiveBlockLevels();
  }

  /** The levels of the tree over "a".."e", as the tests draw them. */
  ghost predicate IsFiveBlockTree(t: Tree)
  {
    && Valid(t)
    && (forall s :: t.hash(s) == Upcase(s))
    && t.height == 4
    && t.levels == [["ABCDE"], ["ABCD", "E"], ["AB", "CD", "E"], ["A", "B", "C", "D", "E"]]
  }

  lemma FiveBlocksIsFiveBlockTree()
    ensures IsFiveBlockTree(FiveBlocks())
  {
    FiveBlockLevels();
  }

  lemma ProofPathOfD(t: Tree)
    requires IsFiveBlockTree(t)
    ensures HashesNeededToVerify(t, 3) == Success(["C", "AB", "E"])
  {
    UtilsScenarios.NodesNeededToVerifyTable();
    assert LeafCount(t) == 5;
    var nodes := [Node(3, 2), Node(2, 0), Node(1, 1)];
    assert NodesNeededToVerify(3, LeafCount(t)) == Success(nodes);
    var r := HashesNeededToVerify(t, 3);
    assert |r.value| == 3;
    assert r.value[0] == t.levels[3][2] == "C";
    assert r.value[1] == t.levels[2][0] == "AB";
    assert r.value[2] == t.levels[1][1] == "E";
    assert r.value == ["C", "AB", "E"];
  }

  lemma ProofPathOfE(t: Tree)
    requires IsFiveBlockTree(t)
    ensures HashesNeededToVerify(t, 4) == Success(["ABCD"])
  {
    UtilsScenarios.NodesNeededToVerifyTable();
    assert LeafCount(t) == 5;
    assert NodesNeededToVerify(4, LeafCount(t)) == Success([Node(1, 0)]);
    var r := HashesNeededToVerify(t, 4);
    assert |r.value| == 1;
    assert r.value[0] == t.levels[1][0] == "ABCD";
    assert r.value == ["ABCD"];
  }

  lemma ValidityOfA(t: Tree)
    requires IsFiveBlockTree(t)
    ensures BlockValid(t, "a", 0)
    ensures !BlockValid(t, "a", 1)
    ensures BlockValid(t, "b", 1)
  {
    UpcaseLetters();
    UpcaseIsIdentityOnCapitals("AB");
    UpcaseIsIdentityOnCapitals("AA");
    assert JoinPair(Upcase, 0, "A", "B") == Upcase("A" + "B");
    assert "A" + "B" == "AB";
    assert JoinPair(Upcase, 1, "A", "A") == Upcase("A" + "A");
    assert "A" + "A" == "AA" != "AB";
    assert JoinPair(Upcase, 1, "B", "A") == Upcase("A" + "B");
  }

  lemma FiveBlockProofPaths()
    ensures HashesNeededToVerify(FiveBlocks(), 3) == Success(["C", "AB", "E"])
    ensures HashesNeededToVerify(FiveBlocks(), 4) == Success(["ABCD"])
    ensures BlockValid(FiveBlocks(), "a", 0)
    ensures !BlockValid(FiveBlocks(), "a", 1)
  {
    FiveBlocksIsFiveBlockTree();
    ProofPathOfD(FiveBlocks());
    ProofPathOfE(FiveBlocks());
    ValidityOfA(FiveBlocks());
  }

  lemma ValidityOfD(t: Tree)
    requires IsFiveBlockTree(t)
    ensures BlockValid(t, "d", 3)
  {
    UpcaseLetters();
    BlockValidAcceptsGenuineBlock(t, "d", 3);
  }

  lemma FiveBlockValidityOfD()
    ensures BlockValid(FiveBlocks(), "d", 3)
  {
    FiveBlocksIsFiveBlockTree();
    ValidityOfD(FiveBlocks());
  }

  /** Under this hash a carried leaf passes the one-level check, since
      upper-casing a digest again changes nothing; under SHA-256 it fails. */
  lemma ValidityOfE(t: Tree)
    requires IsFiveBlockTree(t)
    ensures BlockValid(t, "e", 4)
  {
    UpcaseLetters();
    UpcaseIsIdentityOnCapitals("E");
    BlockValidOnCarriedLeaf(t, "e", 4);
  }

  lemma FiveBlockValidityOfE()
    ensures BlockValid(FiveBlocks(), "e", 4)
  {
    FiveBlocksIsFiveBlockTree();
    ValidityOfE(FiveBlocks());
  }

  lemma EmptyBlocksRejected(hash: string -> string)
    ensures New([], hash) == Failure(EmptyBlocks)
  {
  }

  lemma OneBlock()
    ensures New(["a"], Upcase).Success?
    ensures New(["a"], Upcase).value.height == 1
    ensures Root(New(["a"], Upcase).value) == "A"
    ensures ParentNode(New(["a"], Upcase).value, 0) == Success(None)
    ensures !BlockValid(New(["a"], Upcase).value, "a", 0)
  {
    var t := New(["a"], Upcase).value;
    UpcaseLetters();
    assert Leaves(t)[0] == "A";
    assert t.levels[0] == Leaves(t);
  }

  lemma TwoBlocks()
    ensures New(["a", "b"], Upcase).Success?
    ensures New(["a", "b"], Upcase).value.height == 2
    ensures Root(New(["a", "b"], Upcase).value) == "AB"
    ensures ParentNode(New(["a", "b"], Upcase).value, 0) == Success(Some("AB"))
    ensures SiblingNode(New(["a", "b"], Upcase).value, 1, 0) == Success(Some("B"))
    ensures SiblingNode(New(["a", "b"], Upcase).value, 1, 1) == Success(Some("A"))
  {
    var t := New(["a", "b"], Upcase).value;
    assert Height(2) == 2;
    UpcaseLetters();
    UpcaseIsIdentityOnCapitals("AB");
    assert Leaves(t)[0] == "A" && Leaves(t)[1] == "B";
    assert "A" + "B" == "AB";
    assert t.levels[0] == NextLevel(Upcase, Leaves(t));
    assert t.levels[0][0] == JoinPair(Upcase, 0, "A", "B") == "AB";
  }

  /** The parent of leaf 4 among ten lettered leaves pairs "E" with "F". */
  lemma ParentAmongTenLeaves(t: Tree)
    requires Valid(t) && (forall s :: t.hash(s) == Upcase(s))
    requires Leaves(t) == ["A", "B", "C", "D", "E", "F", "G", "H", "I", "J"]
    ensures t.height == 5
    ensures ParentNode(t, 4) == Success(Some("EF"))
  {
    assert Height(10) == 5 by {
      assert Height(5) == 4;
    }
    var leaves := Leaves(t);
    assert leaves[4] == "E" && leaves[5] == "F" && Sibling(4) == 5;
    UpcaseIsIdentityOnCapitals("EF");
    assert "E" + "F" == "EF";
    assert JoinPair(t.hash, 4, leaves[4], leaves[5]) == "EF";
  }

  /** A leaf index past the end of three leaves has no parent. */
  lemma ParentPastTheEnd(t: Tree)
    requires Valid(t) && LeafCount(t) == 3
    ensures ParentNode(t, 3) == Success(None)
  {
    assert Height(3) == 3;
  }
}
