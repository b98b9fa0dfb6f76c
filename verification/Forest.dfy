/** A block's leaves are cut into subtrees of a fixed capacity (teranode/teranode.go:179-199).  When
    the root over the subtree roots is the root of one flat tree, how the depth splits
    (bench/bench.go:99-112), and how many hashes the forest costs (bench/capacity.go:20-26). */
module Forest {
  import opened Commitment
  import opened MerkleTree
  import opened Positions

  /** Roots of the consecutive chunks of `cap` leaves, the last chunk taking what is left. */
  function SubtreeRoots(sha: Sha256d, leaves: seq<Hash>, cap: nat): (roots: seq<Hash>)
    requires leaves != [] && cap > 0
    ensures roots != []
    decreases |leaves|
  {
    if |leaves| <= cap then [Root(sha, leaves)]
    else [Root(sha, leaves[..cap])] + SubtreeRoots(sha, leaves[cap..], cap)
  }

  /** The built levels of each subtree. */
  function SubtreeTrees(sha: Sha256d, leaves: seq<Hash>, cap: nat): (trees: seq<seq<seq<Hash>>>)
    requires leaves != [] && cap > 0
    ensures trees != []
    decreases |leaves|
  {
    if |leaves| <= cap then [Layers(sha, leaves)]
    else [Layers(sha, leaves[..cap])] + SubtreeTrees(sha, leaves[cap..], cap)
  }

  function ForestRoot(sha: Sha256d, leaves: seq<Hash>, cap: nat): Hash
    requires leaves != [] && cap > 0
  {
    Root(sha, SubtreeRoots(sha, leaves, cap))
  }

  function LastChunk(n: nat, cap: nat): (last: nat)
    requires cap > 0
    ensures n > 0 ==> 0 < last <= cap
  {
    if n <= cap then n else LastChunk(n - cap, cap)
  }

  function ChunkCount(n: nat, cap: nat): (count: nat)
    requires cap > 0
    ensures count > 0
  {
    if n <= cap then 1 else 1 + ChunkCount(n - cap, cap)
  }

  lemma {:induction false} RootsCount(sha: Sha256d, leaves: seq<Hash>, cap: nat)
    requires leaves != [] && cap > 0
    ensures |SubtreeRoots(sha, leaves, cap)| == ChunkCount(|leaves|, cap)
    decreases |leaves|
  {
    if |leaves| > cap {
      RootsCount(sha, leaves[cap..], cap);
    }
  }

  // ---------------------------------------------------------------- one level up

  /** x hashed with itself, j times over. */
  function Doubled(sha: Sha256d, x: Hash, j: nat): Hash
    decreases j
  {
    if j == 0 then x else Doubled(sha, HashPair(sha, x, x), j - 1)
  }

  /** The list with its last element doubled j times. */
  function LastDoubled(sha: Sha256d, roots: seq<Hash>, j: nat): (more: seq<Hash>)
    requires roots != []
    ensures |more| == |roots|
  {
    roots[|roots| - 1 := Doubled(sha, roots[|roots| - 1], j)]
  }

  /** Chunks of 2c leaves are chunks of c nodes one level up, save that a single last leaf is hashed
      with itself on the way. */
  lemma {:induction false} RootsOneLevelUp(sha: Sha256d, leaves: seq<Hash>, next: seq<Hash>, c: nat, j: nat)
    requires leaves != [] && c > 0 && next == NextLevel(sha, leaves)
    requires j == if LastChunk(|leaves|, 2 * c) == 1 then 1 else 0
    ensures SubtreeRoots(sha, next, c) == LastDoubled(sha, SubtreeRoots(sha, leaves, 2 * c), j)
    decreases |leaves|
  {
    if |leaves| > 2 * c {
      var head, tail := leaves[..2 * c], leaves[2 * c..];
      RootsOneLevelUp(sha, tail, NextLevel(sha, tail), c, j);
      FirstRootOneLevelUp(sha, leaves, next, c, head, tail);
      LastDoubledBehind(sha, Root(sha, head), SubtreeRoots(sha, tail, 2 * c), j);
    } else {
      OneChunkUp(sha, leaves, next);
    }
  }

  /** The first full chunk on both levels. */
  lemma FirstRootOneLevelUp(sha: Sha256d, leaves: seq<Hash>, next: seq<Hash>, c: nat, head: seq<Hash>, tail: seq<Hash>)
    requires c > 0 && |leaves| > 2 * c && next == NextLevel(sha, leaves)
    requires head == leaves[..2 * c] && tail == leaves[2 * c..]
    ensures SubtreeRoots(sha, leaves, 2 * c) == [Root(sha, head)] + SubtreeRoots(sha, tail, 2 * c)
    ensures SubtreeRoots(sha, next, c) == [Root(sha, head)] + SubtreeRoots(sha, NextLevel(sha, tail), c)
  {
    assert head + tail == leaves;
    NextLevelSplits(sha, head, tail);
    assert next[..c] == NextLevel(sha, head) && next[c..] == NextLevel(sha, tail);
    assert Root(sha, head) == Root(sha, NextLevel(sha, head));
  }

  lemma LastDoubledBehind(sha: Sha256d, x: Hash, roots: seq<Hash>, j: nat)
    requires roots != []
    ensures LastDoubled(sha, [x] + roots, j) == [x] + LastDoubled(sha, roots, j)
  {
  }

  lemma OneChunkUp(sha: Sha256d, leaves: seq<Hash>, next: seq<Hash>)
    requires leaves != [] && next == NextLevel(sha, leaves)
    ensures Root(sha, next) == Doubled(sha, Root(sha, leaves), if |leaves| == 1 then 1 else 0)
  {
    if |leaves| == 1 {
      assert next == [HashPair(sha, leaves[0], leaves[0])];
      assert Doubled(sha, leaves[0], 1) == Doubled(sha, HashPair(sha, leaves[0], leaves[0]), 0);
    }
  }

  lemma {:induction false} LastChunkHalves(n: nat, half: nat, c: nat)
    requires c > 0 && n > 0 && half == (n + 1) / 2
    ensures LastChunk(half, c) == (LastChunk(n, 2 * c) + 1) / 2
    ensures ChunkCount(half, c) == ChunkCount(n, 2 * c)
    decreases n
  {
    if n > 2 * c {
      LastChunkHalves(n - 2 * c, half - c, c);
    }
  }

  /** The full chunks hold an even number of leaves. */
  lemma {:induction false} LastChunkRest(n: nat, c: nat) returns (pairs: nat)
    requires c > 0
    ensures n == LastChunk(n, 2 * c) + 2 * pairs
    decreases n
  {
    if n > 2 * c {
      pairs := LastChunkRest(n - 2 * c, c);
      pairs := pairs + c;
    } else {
      pairs := 0;
    }
  }

  // ---------------------------------------------------------------- forest and flat tree

  /** How far the last subtree's tree falls short of the depth of a full one. */
  function Shortfall(n: nat, k: nat): (j: nat)
    requires n > 0
    ensures j == k - CeilLog2(LastChunk(n, Pow2(k)))
  {
    CeilLog2Least(LastChunk(n, Pow2(k)), k);
    k - CeilLog2(LastChunk(n, Pow2(k)))
  }

  /** The shortfall one level up. */
  lemma ShortfallHalves(n: nat, half: nat, k: nat)
    requires n > 0 && k > 0 && half == (n + 1) / 2
    ensures Shortfall(n, k) == Shortfall(half, k - 1) + (if LastChunk(n, Pow2(k)) == 1 then 1 else 0)
  {
    var last := LastChunk(n, Pow2(k));
    LastChunkHalves(n, half, Pow2(k - 1));
    if last > 1 {
      DepthHalves(last);
    }
  }

  lemma DoubledTwice(sha: Sha256d, roots: seq<Hash>, i: nat, j: nat)
    requires roots != [] && i <= 1
    ensures LastDoubled(sha, LastDoubled(sha, roots, i), j) == LastDoubled(sha, roots, i + j)
  {
    var x := roots[|roots| - 1];
    assert i == 1 ==> Doubled(sha, x, i + j) == Doubled(sha, HashPair(sha, x, x), j);
    assert i == 1 ==> Doubled(sha, x, i) == Doubled(sha, HashPair(sha, x, x), 0);
  }

  /** For more than one subtree the flat tree over all leaves has the root of the tree over the
      subtree roots once the last of them is hashed with itself as often as its tree is short. */
  lemma {:induction false} FlatRoot(sha: Sha256d, leaves: seq<Hash>, cap: nat, k: nat)
    requires cap == Pow2(k) && |leaves| > cap
    ensures Root(sha, leaves) == Root(sha, LastDoubled(sha, SubtreeRoots(sha, leaves, cap), Shortfall(|leaves|, k)))
    decreases k
  {
    if k == 0 {
      SingletonChunks(sha, leaves);
      assert LastDoubled(sha, leaves, 0) == leaves;
    } else {
      var c, next := Pow2(k - 1), NextLevel(sha, leaves);
      FlatRoot(sha, next, c, k - 1);
      var j := if LastChunk(|leaves|, cap) == 1 then 1 else 0;
      RootsOneLevelUp(sha, leaves, next, c, j);
      ShortfallHalves(|leaves|, |next|, k);
      DoubledTwice(sha, SubtreeRoots(sha, leaves, cap), j, Shortfall(|next|, k - 1));
    }
  }

  lemma {:induction false} SingletonChunks(sha: Sha256d, leaves: seq<Hash>)
    requires leaves != []
    ensures SubtreeRoots(sha, leaves, 1) == leaves
    decreases |leaves|
  {
    if |leaves| > 1 {
      SingletonChunks(sha, leaves[1..]);
    }
  }

  /** The last chunk is more than half full. */
  predicate OverHalf(n: nat, cap: nat)
    requires cap > 0
  {
    2 * LastChunk(n, cap) > cap
  }

  /** A last chunk falls short exactly if it is half full or less. */
  lemma OverHalfIff(n: nat, k: nat)
    requires n > 0
    ensures OverHalf(n, Pow2(k)) <==> Shortfall(n, k) == 0
  {
    if k > 0 {
      CeilLog2Least(LastChunk(n, Pow2(k)), k - 1);
    }
  }

  /** With chunks of 2^k leaves the block root over subtree roots is the root of the flat tree
      whenever there is one subtree or the last one is more than half full. */
  lemma ForestIsFlat(sha: Sha256d, leaves: seq<Hash>, cap: nat, k: nat)
    requires leaves != [] && cap == Pow2(k)
    requires |leaves| <= cap || OverHalf(|leaves|, cap)
    ensures ForestRoot(sha, leaves, cap) == Root(sha, leaves)
  {
    if |leaves| <= cap {
      assert SubtreeRoots(sha, leaves, cap) == [Root(sha, leaves)];
    } else {
      FlatRoot(sha, leaves, cap, k);
      OverHalfIff(|leaves|, k);
      var roots := SubtreeRoots(sha, leaves, cap);
      assert LastDoubled(sha, roots, 0) == roots;
    }
  }

  /** What is hashed above the subtree roots, by the forest and by the flat tree. */
  ghost function UpperInputs(sha: Sha256d, leaves: seq<Hash>, k: nat): set<seq<byte>>
    requires leaves != []
  {
    var roots := SubtreeRoots(sha, leaves, Pow2(k));
    TreeInputs(sha, roots) + TreeInputs(sha, LastDoubled(sha, roots, Shortfall(|leaves|, k)))
  }

  lemma SameRootSameLast(sha: Sha256d, roots: seq<Hash>, j: nat)
    requires roots != [] && !CollisionIn(sha, TreeInputs(sha, roots) + TreeInputs(sha, LastDoubled(sha, roots, j)))
    ensures var x := roots[|roots| - 1];
            Root(sha, roots) == Root(sha, LastDoubled(sha, roots, j)) <==> Doubled(sha, x, j) == x
  {
    var x, more := roots[|roots| - 1], LastDoubled(sha, roots, j);
    assert more[|more| - 1] == Doubled(sha, x, j);
    if Root(sha, roots) == Root(sha, more) {
      RootBinding(sha, roots, more);
    }
    if Doubled(sha, x, j) == x {
      assert more == roots;
    }
  }

  /** ... and only then: otherwise the two roots agree only through a last subtree root that
      repeated hashing with itself gives back, or two of the preimages hashed above the subtrees
      collide. */
  lemma ForestIsFlatIff(sha: Sha256d, leaves: seq<Hash>, k: nat)
    requires leaves != [] && !CollisionIn(sha, UpperInputs(sha, leaves, k))
    ensures var roots := SubtreeRoots(sha, leaves, Pow2(k));
            var x := roots[|roots| - 1];
            ForestRoot(sha, leaves, Pow2(k)) == Root(sha, leaves) <==>
              |leaves| <= Pow2(k) || OverHalf(|leaves|, Pow2(k)) || Doubled(sha, x, Shortfall(|leaves|, k)) == x
  {
    var roots := SubtreeRoots(sha, leaves, Pow2(k));
    if |leaves| <= Pow2(k) || OverHalf(|leaves|, Pow2(k)) {
      ForestIsFlat(sha, leaves, Pow2(k), k);
    } else {
      FlatRoot(sha, leaves, Pow2(k), k);
      SameRootSameLast(sha, roots, Shortfall(|leaves|, k));
    }
  }

  // ---------------------------------------------------------------- depth and hash counts

  /** ceil(log2 T) splits into the depth inside a subtree and the depth above the subtrees. */
  lemma {:induction false} DepthLaw(n: nat, k: nat)
    requires n > 0
    ensures CeilLog2(n) == CeilLog2(if n <= Pow2(k) then n else Pow2(k)) + CeilLog2(ChunkCount(n, Pow2(k)))
    decreases k
  {
    if n > Pow2(k) {
      CeilLog2OfPow2(k);
      if k == 0 {
        CountOfSingles(n);
      } else {
        DepthHalves(n);
        LastChunkHalves(n, (n + 1) / 2, Pow2(k - 1));
        DepthLaw((n + 1) / 2, k - 1);
        CeilLog2OfPow2(k - 1);
      }
    }
  }

  lemma CeilLog2OfPow2(k: nat)
    ensures CeilLog2(Pow2(k)) == k
  {
    CeilLog2Least(Pow2(k), k);
    if k > 0 {
      CeilLog2Least(Pow2(k), k - 1);
    }
  }

  lemma {:induction false} CountOfSingles(n: nat)
    requires n > 0
    ensures ChunkCount(n, 1) == n
  {
    if n > 1 {
      CountOfSingles(n - 1);
    }
  }

  /** Pair hashes made by a build over n leaves: one for every node above them. */
  function BuildHashes(n: nat): nat
    requires n > 0
  {
    if n == 1 then 0 else (n + 1) / 2 + BuildHashes((n + 1) / 2)
  }

  function Nodes(levels: seq<seq<Hash>>): nat { if levels == [] then 0 else |levels[0]| + Nodes(levels[1..]) }

  /** The nodes of a built tree above its leaves. */
  function NodesAbove(layers: seq<seq<Hash>>): nat
    requires layers != []
  {
    Nodes(layers[1..])
  }

  /** BuildHashes counts the nodes that BuildMerkleTree returns. */
  lemma {:induction false} BuildMakes(sha: Sha256d, leaves: seq<Hash>)
    requires leaves != []
    ensures NodesAbove(Layers(sha, leaves)) == BuildHashes(|leaves|)
    decreases |leaves|
  {
    if |leaves| > 1 {
      var next := NextLevel(sha, leaves);
      BuildMakes(sha, next);
      assert Layers(sha, leaves)[1..] == Layers(sha, next);
      assert Nodes(Layers(sha, next)) == |next| + Nodes(Layers(sha, next)[1..]);
    }
  }

  /** Levels with an odd number of nodes, the root apart. */
  function OddLevels(n: nat): nat
    requires n > 0
  {
    if n == 1 then 0 else n % 2 + OddLevels((n + 1) / 2)
  }

  /** One tree makes n - 1 hashes and one more for every odd level ... */
  lemma {:induction false} BuildCost(n: nat)
    requires n > 0
    ensures BuildHashes(n) == n - 1 + OddLevels(n)
  {
    if n > 1 {
      BuildCost((n + 1) / 2);
    }
  }

  /** ... and only powers of two have none. */
  lemma {:induction false} NoOddLevelIff(n: nat)
    requires n > 0
    ensures OddLevels(n) == 0 <==> n == Pow2(CeilLog2(n))
  {
    if n > 1 {
      var half := (n + 1) / 2;
      NoOddLevelIff(half);
      DepthHalves(n);
      PowerHalves(n, half, CeilLog2(half));
    }
  }

  lemma PowerHalves(n: nat, half: nat, k: nat)
    requires half == (n + 1) / 2
    ensures n == Pow2(k + 1) <==> n % 2 == 0 && half == Pow2(k)
  {
    assert Pow2(k + 1) == 2 * Pow2(k);
  }

  /** The hashes of the subtree builds. */
  function SubtreeHashes(n: nat, cap: nat): nat
    requires n > 0 && cap > 0
    decreases n
  {
    if n <= cap then BuildHashes(n) else BuildHashes(cap) + SubtreeHashes(n - cap, cap)
  }

  /** The hashes of the forest: every subtree, and the tree over the subtree roots. */
  function ForestHashes(n: nat, cap: nat): nat
    requires n > 0 && cap > 0
  {
    SubtreeHashes(n, cap) + BuildHashes(ChunkCount(n, cap))
  }

  function NodesOfTrees(trees: seq<seq<seq<Hash>>>): nat
    requires forall i :: 0 <= i < |trees| ==> trees[i] != []
  {
    if trees == [] then 0 else NodesAbove(trees[0]) + NodesOfTrees(trees[1..])
  }

  /** SubtreeHashes counts the nodes of the built subtrees. */
  lemma {:induction false} SubtreesMake(sha: Sha256d, leaves: seq<Hash>, cap: nat)
    requires leaves != [] && cap > 0
    ensures forall i :: 0 <= i < |SubtreeTrees(sha, leaves, cap)| ==> SubtreeTrees(sha, leaves, cap)[i] != []
    ensures NodesOfTrees(SubtreeTrees(sha, leaves, cap)) == SubtreeHashes(|leaves|, cap)
    decreases |leaves|
  {
    if |leaves| <= cap {
      BuildMakes(sha, leaves);
      assert SubtreeTrees(sha, leaves, cap) == [Layers(sha, leaves)];
    } else {
      BuildMakes(sha, leaves[..cap]);
      SubtreesMake(sha, leaves[cap..], cap);
      assert SubtreeTrees(sha, leaves, cap)[1..] == SubtreeTrees(sha, leaves[cap..], cap);
    }
  }

  /** ... and ForestHashes those of the subtrees and of the tree over their roots. */
  lemma ForestMakes(sha: Sha256d, leaves: seq<Hash>, cap: nat, trees: seq<seq<seq<Hash>>>, layers: seq<seq<Hash>>,
                    n: nat)
    requires leaves != [] && cap > 0 && n == |leaves|
    requires trees == SubtreeTrees(sha, leaves, cap) && layers == Layers(sha, SubtreeRoots(sha, leaves, cap))
    ensures layers != [] && forall i :: 0 <= i < |trees| ==> trees[i] != []
    ensures NodesOfTrees(trees) + NodesAbove(layers) == ForestHashes(n, cap)
  {
    SubtreesMake(sha, leaves, cap);
    BuildMakes(sha, SubtreeRoots(sha, leaves, cap));
    RootsCount(sha, leaves, cap);
  }

  lemma {:induction false} SubtreeCost(n: nat, cap: nat, k: nat)
    requires n > 0 && cap == Pow2(k)
    ensures SubtreeHashes(n, cap) + ChunkCount(n, cap) == n + OddLevels(LastChunk(n, cap))
    decreases n
  {
    if n <= cap {
      BuildCost(n);
    } else {
      BuildCost(cap);
      NoOddLevelIff(cap);
      CeilLog2OfPow2(k);
      SubtreeCost(n - cap, cap, k);
    }
  }

  /** Sealing makes n - 1 hashes, one more for every odd level of the last subtree, and one more
      for every odd level of the tree over the subtrees. */
  lemma ForestCost(n: nat, k: nat)
    requires n > 0
    ensures ForestHashes(n, Pow2(k)) == n - 1 + OddLevels(LastChunk(n, Pow2(k))) + OddLevels(ChunkCount(n, Pow2(k)))
  {
    SubtreeCost(n, Pow2(k), k);
    BuildCost(ChunkCount(n, Pow2(k)));
  }

  /** So the n - 1 of the capacity model is exact if and only if the last subtree and the number
      of subtrees are powers of two. */
  lemma ForestCostExact(n: nat, k: nat)
    requires n > 0
    ensures ForestHashes(n, Pow2(k)) == n - 1 <==>
              var last, count := LastChunk(n, Pow2(k)), ChunkCount(n, Pow2(k));
              last == Pow2(CeilLog2(last)) && count == Pow2(CeilLog2(count))
  {
    ForestCost(n, k);
    NoOddLevelIff(LastChunk(n, Pow2(k)));
    NoOddLevelIff(ChunkCount(n, Pow2(k)));
  }

  /** Splitting into subtrees saves exactly the hashes by which the last subtree falls short: the
      flat tree hashes its root with itself that often. */
  lemma {:induction false} SplitSaves(n: nat, k: nat)
    requires n > Pow2(k)
    ensures BuildHashes(n) == ForestHashes(n, Pow2(k)) + Shortfall(n, k)
  {
    OddLevelsSplit(n, k);
    BuildCost(n);
    ForestCost(n, k);
  }

  lemma OddOneUp(last: nat, up: nat)
    requires last > 0 && up == (last + 1) / 2
    ensures OddLevels(last) + (if last == 1 then 1 else 0) == last % 2 + OddLevels(up)
  {
  }

  lemma SameParity(n: nat, last: nat, pairs: nat)
    requires n == last + 2 * pairs
    ensures n % 2 == last % 2
  {
  }

  lemma {:induction false} OddLevelsSplit(n: nat, k: nat)
    requires n > Pow2(k)
    ensures OddLevels(n) == OddLevels(LastChunk(n, Pow2(k))) + Shortfall(n, k) + OddLevels(ChunkCount(n, Pow2(k)))
    decreases k
  {
    if k == 0 {
      CountOfSingles(n);
    } else {
      var half, c, last := (n + 1) / 2, Pow2(k - 1), LastChunk(n, Pow2(k));
      OddLevelsSplit(half, k - 1);
      LastChunkHalves(n, half, c);
      var pairs := LastChunkRest(n, c);
      SameParity(n, last, pairs);
      ShortfallHalves(n, half, k);
      OddOneUp(last, LastChunk(half, c));
    }
  }
}
