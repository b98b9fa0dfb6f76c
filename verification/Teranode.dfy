/** teranode/teranode.go: the in-memory node that seals blocks and serves proofs.  `Node` is the
    value of its fields; what each operation does to it is a function, and the class below changes
    its fields in place as those functions say. */
module Teranode {
  import opened Commitment
  import opened MerkleTree
  import opened Positions
  import opened FieldTree
  import opened Bits
  import opened Forest
  import opened Accumulator

  datatype TxEntry = TxEntry(blockHash: Hash, subtree: nat, leaf: nat)

  datatype SealedBlock = SealedBlock(
    hash: Hash, height: nat, header: Header,
    roots: seq<Hash>, trees: seq<seq<seq<Hash>>>, layers: seq<seq<Hash>>, root: Hash,
    isCarrier: bool, accRoot: Hash, accPrefix: nat, genFields: seq<FieldLeaf>)

  datatype Node = Node(
    blocks: map<Hash, SealedBlock>, txIndex: map<Hash, TxEntry>,
    chain: seq<Hash>, headers: seq<Header>, onBest: map<Hash, bool>)

  function EmptyNode(): Node { Node(map[], map[], [], [], map[]) }

  // ---------------------------------------------------------------- headers

  /** A run of zero bytes. */
  function Zeros(n: nat): (s: seq<byte>)
    ensures |s| == n
  {
    seq(n, _ => 0)
  }

  /** version, previous hash, Merkle root, and the low 16 bits of the height in the time field. */
  function HeaderOf(prev: Hash, root: Hash, height: nat): Header {
    Header([1, 0, 0, 0] + prev.bytes + root.bytes
           + [(height % 256) as byte, (height / 256 % 256) as byte] + Zeros(10))
  }

  function PrevHash(h: Header): Hash { Hash(h.bytes[4..36]) }

  lemma HeaderParts(prev: Hash, root: Hash, height: nat)
    ensures PrevHash(HeaderOf(prev, root, height)) == prev
    ensures HeaderMerkleRoot(HeaderOf(prev, root, height)) == root
  {
    var s := HeaderOf(prev, root, height).bytes;
    assert s[4..36] == prev.bytes && s[36..68] == root.bytes;
  }

  /** The other fields: version one, the low 16 bits of the height, and zeros. */
  lemma HeaderRest(prev: Hash, root: Hash, height: nat)
    ensures var s := HeaderOf(prev, root, height).bytes;
            s[..4] == [1, 0, 0, 0] && s[68] as nat + 256 * s[69] as nat == height % 0x1_0000 && s[70..] == Zeros(10)
  {
    var s, lo, hi := HeaderOf(prev, root, height).bytes, height % 256, height / 256 % 256;
    LowSixteen(height, lo, hi);
    assert s[68] == lo as byte && s[69] == hi as byte;
  }

  lemma LowSixteen(n: nat, lo: nat, hi: nat)
    requires lo == n % 256 && hi == n / 256 % 256
    ensures lo + 256 * hi == n % 0x1_0000
  {
  }

  // ---------------------------------------------------------------- subtrees

  /** `layers` are the levels of a tree of at most `cap` leaves with this root. */
  ghost predicate TreeOf(sha: Sha256d, layers: seq<seq<Hash>>, root: Hash, cap: nat) {
    && layers != [] && 0 < |layers[0]| <= cap
    && layers == Layers(sha, layers[0]) && root == Root(sha, layers[0])
  }

  lemma {:induction false} SubtreesMatch(sha: Sha256d, leaves: seq<Hash>, cap: nat)
    requires leaves != [] && cap > 0
    ensures var trees, roots := SubtreeTrees(sha, leaves, cap), SubtreeRoots(sha, leaves, cap);
            && |trees| == |roots| && trees[0] != [] && trees[0][0] != [] && trees[0][0][0] == leaves[0]
            && forall i :: 0 <= i < |trees| ==> TreeOf(sha, trees[i], roots[i], cap)
    decreases |leaves|
  {
    if |leaves| > cap {
      SubtreesMatch(sha, leaves[cap..], cap);
    }
  }

  /** The next chunk of at most `cap` leaves. */
  function ChunkAt(leaves: seq<Hash>, start: nat, cap: nat): (chunk: seq<Hash>)
    requires start < |leaves| && cap > 0
    ensures chunk != []
  {
    leaves[start..if start + cap > |leaves| then |leaves| else start + cap]
  }

  function RootsFrom(sha: Sha256d, leaves: seq<Hash>, start: nat, cap: nat): seq<Hash>
    requires cap > 0
    decreases |leaves| - start
  {
    if start >= |leaves| then []
    else [Root(sha, ChunkAt(leaves, start, cap))] + RootsFrom(sha, leaves, start + cap, cap)
  }

  function TreesFrom(sha: Sha256d, leaves: seq<Hash>, start: nat, cap: nat): seq<seq<seq<Hash>>>
    requires cap > 0
    decreases |leaves| - start
  {
    if start >= |leaves| then []
    else [Layers(sha, ChunkAt(leaves, start, cap))] + TreesFrom(sha, leaves, start + cap, cap)
  }

  lemma {:induction false} FromStart(sha: Sha256d, leaves: seq<Hash>, start: nat, cap: nat, rest: seq<Hash>)
    requires cap > 0 && start < |leaves| && rest == leaves[start..]
    ensures RootsFrom(sha, leaves, start, cap) == SubtreeRoots(sha, rest, cap)
    ensures TreesFrom(sha, leaves, start, cap) == SubtreeTrees(sha, rest, cap)
    decreases |leaves| - start
  {
    var chunk, next := ChunkAt(leaves, start, cap), start + cap;
    FirstChunk(sha, leaves, start, cap, next);
    var tail := RestAfter(leaves, start, cap, next, rest);
    if next < |leaves| {
      FromStart(sha, leaves, next, cap, tail);
      FirstSubtree(sha, rest, cap, chunk, tail);
    } else {
      OnlySubtree(sha, leaves, next, cap, rest);
    }
  }

  lemma RestAfter(leaves: seq<Hash>, start: nat, cap: nat, next: nat, rest: seq<Hash>) returns (tail: seq<Hash>)
    requires cap > 0 && start < |leaves| && rest == leaves[start..] && next == start + cap
    ensures next < |leaves| ==> tail == leaves[next..] && |rest| > cap
    ensures next < |leaves| ==> ChunkAt(leaves, start, cap) == rest[..cap] && tail == rest[cap..]
    ensures next >= |leaves| ==> ChunkAt(leaves, start, cap) == rest && 0 < |rest| <= cap
  {
    tail := if next < |leaves| then leaves[next..] else [];
  }

  lemma OnlySubtree(sha: Sha256d, leaves: seq<Hash>, next: nat, cap: nat, rest: seq<Hash>)
    requires next >= |leaves| && 0 < |rest| <= cap
    ensures RootsFrom(sha, leaves, next, cap) == [] && TreesFrom(sha, leaves, next, cap) == []
    ensures SubtreeRoots(sha, rest, cap) == [Root(sha, rest)] && SubtreeTrees(sha, rest, cap) == [Layers(sha, rest)]
  {
  }

  lemma FirstSubtree(sha: Sha256d, rest: seq<Hash>, cap: nat, chunk: seq<Hash>, tail: seq<Hash>)
    requires cap > 0 && |rest| > cap && chunk == rest[..cap] && tail == rest[cap..]
    ensures SubtreeRoots(sha, rest, cap) == [Root(sha, chunk)] + SubtreeRoots(sha, tail, cap)
    ensures SubtreeTrees(sha, rest, cap) == [Layers(sha, chunk)] + SubtreeTrees(sha, tail, cap)
  {
  }

  /** The loop of SealBlock that cuts the leaves into subtrees. */
  method BuildSubtrees(sha: Sha256d, leaves: seq<Hash>, cap: nat) returns (roots: seq<Hash>, trees: seq<seq<seq<Hash>>>)
    requires leaves != [] && cap > 0
    ensures roots == SubtreeRoots(sha, leaves, cap) && trees == SubtreeTrees(sha, leaves, cap)
  {
    assert leaves[0..] == leaves;
    FromStart(sha, leaves, 0, cap, leaves);
    roots, trees := BuildChunks(sha, leaves, cap);
  }

  method BuildChunks(sha: Sha256d, leaves: seq<Hash>, cap: nat) returns (roots: seq<Hash>, trees: seq<seq<seq<Hash>>>)
    requires cap > 0
    ensures roots == RootsFrom(sha, leaves, 0, cap) && trees == TreesFrom(sha, leaves, 0, cap)
  {
    roots, trees := [], [];
    var start: nat := 0;
    ghost var allRoots, allTrees := RootsFrom(sha, leaves, 0, cap), TreesFrom(sha, leaves, 0, cap);
    while start < |leaves|
      invariant roots + RootsFrom(sha, leaves, start, cap) == allRoots
      invariant trees + TreesFrom(sha, leaves, start, cap) == allTrees
      decreases |leaves| - start
    {
      roots, trees, start := AddChunk(sha, leaves, start, cap, roots, trees, allRoots, allTrees);
    }
  }

  /** The body of that loop. */
  method AddChunk(sha: Sha256d, leaves: seq<Hash>, start: nat, cap: nat, roots: seq<Hash>, trees: seq<seq<seq<Hash>>>,
                  ghost allRoots: seq<Hash>, ghost allTrees: seq<seq<seq<Hash>>>)
    returns (roots': seq<Hash>, trees': seq<seq<seq<Hash>>>, next: nat)
    requires start < |leaves| && cap > 0
    requires roots + RootsFrom(sha, leaves, start, cap) == allRoots
    requires trees + TreesFrom(sha, leaves, start, cap) == allTrees
    ensures next == start + cap
    ensures roots' + RootsFrom(sha, leaves, next, cap) == allRoots
    ensures trees' + TreesFrom(sha, leaves, next, cap) == allTrees
  {
    next := start + cap;
    ChunkBuilt(sha, leaves, start, cap, next, roots, trees);
    var root, layers := BuildChunk(sha, leaves, start, cap);
    roots', trees' := roots + [root], trees + [layers];
  }

  method BuildChunk(sha: Sha256d, leaves: seq<Hash>, start: nat, cap: nat) returns (root: Hash, layers: seq<seq<Hash>>)
    requires start < |leaves| && cap > 0
    ensures root == Root(sha, ChunkAt(leaves, start, cap)) && layers == Layers(sha, ChunkAt(leaves, start, cap))
  {
    var end := start + cap;
    if end > |leaves| {
      end := |leaves|;
    }
    var built := BuildMerkleTree(sha, leaves[start..end]);
    return built.value.0, built.value.1;
  }

  lemma ChunkBuilt(sha: Sha256d, leaves: seq<Hash>, start: nat, cap: nat, next: nat,
                   roots: seq<Hash>, trees: seq<seq<seq<Hash>>>)
    requires start < |leaves| && cap > 0 && next == start + cap
    ensures roots + RootsFrom(sha, leaves, start, cap)
         == roots + [Root(sha, ChunkAt(leaves, start, cap))] + RootsFrom(sha, leaves, next, cap)
    ensures trees + TreesFrom(sha, leaves, start, cap)
         == trees + [Layers(sha, ChunkAt(leaves, start, cap))] + TreesFrom(sha, leaves, next, cap)
  {
    FirstChunk(sha, leaves, start, cap, next);
    Shift(roots, Root(sha, ChunkAt(leaves, start, cap)), RootsFrom(sha, leaves, next, cap));
    Shift(trees, Layers(sha, ChunkAt(leaves, start, cap)), TreesFrom(sha, leaves, next, cap));
  }

  lemma FirstChunk(sha: Sha256d, leaves: seq<Hash>, start: nat, cap: nat, next: nat)
    requires start < |leaves| && cap > 0 && next == start + cap
    ensures RootsFrom(sha, leaves, start, cap)
            == [Root(sha, ChunkAt(leaves, start, cap))] + RootsFrom(sha, leaves, next, cap)
    ensures TreesFrom(sha, leaves, start, cap)
            == [Layers(sha, ChunkAt(leaves, start, cap))] + TreesFrom(sha, leaves, next, cap)
  {
    assert RootsFrom(sha, leaves, start + cap, cap) == RootsFrom(sha, leaves, next, cap);
    assert TreesFrom(sha, leaves, start + cap, cap) == TreesFrom(sha, leaves, next, cap);
  }

  lemma Shift<T>(a: seq<T>, x: T, b: seq<T>)
    ensures a + ([x] + b) == a + [x] + b
  {
  }

  // ---------------------------------------------------------------- transaction index

  /** Entries for the leaves of subtree `st` from leaf `li` on; later ones overwrite. */
  function IndexLeaves(idx: map<Hash, TxEntry>, hash: Hash, st: nat, leaves: seq<Hash>, li: nat): map<Hash, TxEntry>
    decreases |leaves| - li
  {
    if li >= |leaves| then idx
    else IndexLeaves(idx[leaves[li] := TxEntry(hash, st, li)], hash, st, leaves, li + 1)
  }

  function IndexTrees(idx: map<Hash, TxEntry>, hash: Hash, trees: seq<seq<seq<Hash>>>, st: nat): map<Hash, TxEntry>
    requires forall i :: 0 <= i < |trees| ==> trees[i] != []
    decreases |trees| - st
  {
    if st >= |trees| then idx
    else IndexTrees(IndexLeaves(idx, hash, st, trees[st][0], 0), hash, trees, st + 1)
  }

  // ---------------------------------------------------------------- sealing

  /** The ASCII text coinbase-marker. */
  function CoinbaseMarker(): seq<byte> { [99, 111, 105, 110, 98, 97, 115, 101, 45, 109, 97, 114, 107, 101, 114] }

  const ACC_ROOT_FIELD: byte := 1

  function GenFields(accRoot: Hash): seq<FieldLeaf> {
    [FieldLeaf(0, CoinbaseMarker()), FieldLeaf(ACC_ROOT_FIELD, accRoot.bytes)]
  }

  /** The accumulator root over all headers so far. */
  function PrefixRoot(sha: Sha256d, n: Node): Hash { AccRoot(sha, Digests(sha, n.headers)) }

  /** A carrier's generation transaction comes first. */
  function LeafSet(sha: Sha256d, n: Node, txids: seq<Hash>, commit: bool): seq<Hash> {
    if commit then [TxId(sha, GenFields(PrefixRoot(sha, n)))] + txids else txids
  }

  function TipHash(n: Node): Hash { if n.chain == [] then ZeroHash() else n.chain[|n.chain| - 1] }

  function NewBlock(sha: Sha256d, n: Node, cap: nat, txids: seq<Hash>, commit: bool): SealedBlock
    requires txids != [] && cap > 0
  {
    var leaves := LeafSet(sha, n, txids, commit);
    var roots := SubtreeRoots(sha, leaves, cap);
    var root := Root(sha, roots);
    var header := HeaderOf(TipHash(n), root, |n.chain|);
    SealedBlock(sha(header.bytes), |n.chain|, header, roots, SubtreeTrees(sha, leaves, cap), Layers(sha, roots), root,
                commit, if commit then PrefixRoot(sha, n) else ZeroHash(), if commit then |n.chain| else 0,
                if commit then GenFields(PrefixRoot(sha, n)) else [])
  }

  /** The node after sealing `b`. */
  function Extended(n: Node, b: SealedBlock): Node
    requires forall i :: 0 <= i < |b.trees| ==> b.trees[i] != []
  {
    Node(n.blocks[b.hash := b], IndexTrees(n.txIndex, b.hash, b.trees, 0), n.chain + [b.hash], n.headers + [b.header],
         n.onBest[b.hash := true])
  }

  lemma NewBlockTrees(sha: Sha256d, n: Node, cap: nat, txids: seq<Hash>, commit: bool)
    requires txids != [] && cap > 0
    ensures var b := NewBlock(sha, n, cap, txids, commit);
            && |b.trees| == |b.roots| > 0
            && forall i :: 0 <= i < |b.trees| ==> TreeOf(sha, b.trees[i], b.roots[i], cap)
    ensures var b := NewBlock(sha, n, cap, txids, commit);
            b.trees[0][0][0] == LeafSet(sha, n, txids, commit)[0]
  {
    SubtreesMatch(sha, LeafSet(sha, n, txids, commit), cap);
  }

  /** What the capacity figures call internal hashes, for a block as it was sealed: the nodes above
      the leaves of its subtrees and above the subtree roots. */
  function InternalHashes(b: SealedBlock): nat
    requires b.layers != [] && forall i :: 0 <= i < |b.trees| ==> b.trees[i] != []
  {
    NodesOfTrees(b.trees) + NodesAbove(b.layers)
  }

  /** The forest's hash count is the number of nodes that SealBlock builds. */
  lemma SealCost(sha: Sha256d, n: Node, cap: nat, txids: seq<Hash>, commit: bool)
    requires txids != [] && cap > 0
    ensures var b := NewBlock(sha, n, cap, txids, commit);
            && b.layers != [] && (forall i :: 0 <= i < |b.trees| ==> b.trees[i] != [])
            && InternalHashes(b) == ForestHashes(|txids| + (if commit then 1 else 0), cap)
  {
    var b := NewBlock(sha, n, cap, txids, commit);
    ForestMakes(sha, LeafSet(sha, n, txids, commit), cap, b.trees, b.layers, |txids| + (if commit then 1 else 0));
  }

  /** SealBlock as a function: nothing happens without transactions. */
  function Sealed(sha: Sha256d, n: Node, cap: nat, txids: seq<Hash>, commit: bool): Node
    requires cap > 0
  {
    if txids == [] then n
    else
      NewBlockTrees(sha, n, cap, txids, commit);
      Extended(n, NewBlock(sha, n, cap, txids, commit))
  }

  // ---------------------------------------------------------------- invariants

  /** A block whose parts fit together. */
  ghost predicate WellSealed(sha: Sha256d, cap: nat, b: SealedBlock) {
    && |b.trees| == |b.roots| > 0
    && (forall i :: 0 <= i < |b.trees| ==> TreeOf(sha, b.trees[i], b.roots[i], cap))
    && b.layers == Layers(sha, b.roots) && b.root == Root(sha, b.roots)
    && HeaderMerkleRoot(b.header) == b.root && b.hash == sha(b.header.bytes)
    && (b.isCarrier ==> b.genFields == GenFields(b.accRoot) && b.accPrefix == b.height
                        && b.trees[0][0][0] == TxId(sha, b.genFields))
  }

  /** A block is the one at its height in the header list, and commits to the headers before it. */
  ghost predicate Placed(sha: Sha256d, headers: seq<Header>, b: SealedBlock) {
    && b.height < |headers| && headers[b.height] == b.header
    && (b.isCarrier ==> b.accRoot == AccRoot(sha, Digests(sha, headers[..b.height])))
  }

  /** The chain lists the hashes of the headers, and each header names the hash before it. */
  ghost predicate Linked(sha: Sha256d, chain: seq<Hash>, headers: seq<Header>) {
    |chain| == |headers| && forall i :: 0 <= i < |chain| ==> LinkAt(sha, chain, headers, i)
  }

  ghost predicate LinkAt(sha: Sha256d, chain: seq<Hash>, headers: seq<Header>, i: nat)
    requires i < |chain| == |headers|
  {
    chain[i] == sha(headers[i].bytes) && PrevHash(headers[i]) == if i == 0 then ZeroHash() else chain[i - 1]
  }

  ghost predicate StoredOk(sha: Sha256d, cap: nat, n: Node) {
    && (forall h :: h in n.chain ==> h in n.blocks)
    && (forall h :: h in n.blocks ==>
          n.blocks[h].hash == h && WellSealed(sha, cap, n.blocks[h]) && Placed(sha, n.headers, n.blocks[h]))
  }

  /** Holds of every reachable node, whatever the hash function does. */
  ghost predicate Inv(sha: Sha256d, cap: nat, n: Node) { Linked(sha, n.chain, n.headers) && StoredOk(sha, cap, n) }

  ghost predicate EntryOk(n: Node, t: Hash, e: TxEntry) {
    && e.blockHash in n.blocks
    && var b := n.blocks[e.blockHash];
       e.subtree < |b.trees| && b.trees[e.subtree] != [] && e.leaf < |b.trees[e.subtree][0]|
       && b.trees[e.subtree][0][e.leaf] == t
  }

  /** Every indexed transaction is where its entry says.  It holds as long as no two headers of
      the chain have one hash; after such a collision the newer block takes the older one's place. */
  ghost predicate Indexed(n: Node) { forall t :: t in n.txIndex ==> EntryOk(n, t, n.txIndex[t]) }

  ghost predicate Distinct(chain: seq<Hash>) { forall i, j :: 0 <= i < j < |chain| ==> chain[i] != chain[j] }

  lemma NewBlockOk(sha: Sha256d, cap: nat, n: Node, txids: seq<Hash>, commit: bool)
    requires txids != [] && cap > 0 && |n.chain| == |n.headers|
    ensures Fits(sha, cap, n, NewBlock(sha, n, cap, txids, commit))
  {
    var b := NewBlock(sha, n, cap, txids, commit);
    NewBlockTrees(sha, n, cap, txids, commit);
    HeaderParts(TipHash(n), b.root, |n.chain|);
    assert (n.headers + [b.header])[..b.height] == n.headers;
  }

  lemma PlacedGrows(sha: Sha256d, headers: seq<Header>, h: Header, b: SealedBlock)
    requires Placed(sha, headers, b)
    ensures Placed(sha, headers + [h], b)
  {
    assert (headers + [h])[..b.height] == headers[..b.height];
  }

  /** A block fit to be added to the chain of `n`. */
  ghost predicate Fits(sha: Sha256d, cap: nat, n: Node, b: SealedBlock) {
    WellSealed(sha, cap, b) && Placed(sha, n.headers + [b.header], b) && PrevHash(b.header) == TipHash(n)
  }

  lemma LinkedGrows(sha: Sha256d, chain: seq<Hash>, headers: seq<Header>, hash: Hash, header: Header)
    requires Linked(sha, chain, headers) && hash == sha(header.bytes)
    requires PrevHash(header) == if chain == [] then ZeroHash() else chain[|chain| - 1]
    ensures Linked(sha, chain + [hash], headers + [header])
  {
    var chain', headers' := chain + [hash], headers + [header];
    forall i | 0 <= i < |chain'| ensures LinkAt(sha, chain', headers', i) {
      if i < |chain| {
        assert LinkAt(sha, chain, headers, i);
      }
    }
  }

  lemma ExtendStored(sha: Sha256d, cap: nat, n: Node, b: SealedBlock)
    requires StoredOk(sha, cap, n) && Fits(sha, cap, n, b)
    ensures StoredOk(sha, cap, Extended(n, b))
  {
    var blocks := n.blocks[b.hash := b];
    forall h | h in blocks
      ensures blocks[h].hash == h && WellSealed(sha, cap, blocks[h]) && Placed(sha, n.headers + [b.header], blocks[h])
    {
      if h != b.hash {
        PlacedGrows(sha, n.headers, b.header, n.blocks[h]);
      }
    }
  }

  /** Sealing keeps the invariant. */
  lemma SealKeepsInv(sha: Sha256d, cap: nat, n: Node, txids: seq<Hash>, commit: bool)
    requires cap > 0 && Inv(sha, cap, n)
    ensures Inv(sha, cap, Sealed(sha, n, cap, txids, commit))
  {
    if txids != [] {
      NewBlockOk(sha, cap, n, txids, commit);
      var b := NewBlock(sha, n, cap, txids, commit);
      LinkedGrows(sha, n.chain, n.headers, b.hash, b.header);
      ExtendStored(sha, cap, n, b);
    }
  }

  // ---------------------------------------------------------------- what indexing a block changes

  /** The entry points at a leaf of the block with these trees, and that leaf is t. */
  ghost predicate PointsInto(e: TxEntry, hash: Hash, trees: seq<seq<seq<Hash>>>, t: Hash) {
    && e.blockHash == hash && e.subtree < |trees| && trees[e.subtree] != []
    && e.leaf < |trees[e.subtree][0]| && trees[e.subtree][0][e.leaf] == t
  }

  /** No entry is lost, and an entry that is not an old one points into the new block. */
  ghost predicate Updated(idx: map<Hash, TxEntry>, idx': map<Hash, TxEntry>, hash: Hash, trees: seq<seq<seq<Hash>>>) {
    && (forall t :: t in idx ==> t in idx')
    && (forall t :: t in idx' ==> (t in idx && idx'[t] == idx[t]) || PointsInto(idx'[t], hash, trees, t))
  }

  ghost predicate LeafIndexed(idx: map<Hash, TxEntry>, hash: Hash, trees: seq<seq<seq<Hash>>>, t: Hash) {
    t in idx && PointsInto(idx[t], hash, trees, t)
  }

  lemma StaysIndexed(idx: map<Hash, TxEntry>, idx': map<Hash, TxEntry>, hash: Hash, trees: seq<seq<seq<Hash>>>, t: Hash)
    requires Updated(idx, idx', hash, trees) && LeafIndexed(idx, hash, trees, t)
    ensures LeafIndexed(idx', hash, trees, t)
  {
  }

  lemma {:induction false} LeavesIndexed(idx: map<Hash, TxEntry>, hash: Hash, trees: seq<seq<seq<Hash>>>, st: nat,
                                         leaves: seq<Hash>, li: nat)
    requires st < |trees| && trees[st] != [] && leaves == trees[st][0] && li <= |leaves|
    ensures Updated(idx, IndexLeaves(idx, hash, st, leaves, li), hash, trees)
    ensures forall j :: li <= j < |leaves| ==>
              LeafIndexed(IndexLeaves(idx, hash, st, leaves, li), hash, trees, leaves[j])
    decreases |leaves| - li
  {
    if li < |leaves| {
      var idx1 := idx[leaves[li] := TxEntry(hash, st, li)];
      LeavesIndexed(idx1, hash, trees, st, leaves, li + 1);
      StaysIndexed(idx1, IndexLeaves(idx, hash, st, leaves, li), hash, trees, leaves[li]);
    }
  }

  lemma {:induction false} TreesIndexed(idx: map<Hash, TxEntry>, hash: Hash, trees: seq<seq<seq<Hash>>>, st: nat)
    requires st <= |trees| && forall i :: 0 <= i < |trees| ==> trees[i] != []
    ensures Updated(idx, IndexTrees(idx, hash, trees, st), hash, trees)
    ensures forall i, j :: st <= i < |trees| && 0 <= j < |trees[i][0]| ==>
              LeafIndexed(IndexTrees(idx, hash, trees, st), hash, trees, trees[i][0][j])
    decreases |trees| - st
  {
    if st < |trees| {
      var idx1, idx' := IndexLeaves(idx, hash, st, trees[st][0], 0), IndexTrees(idx, hash, trees, st);
      LeavesIndexed(idx, hash, trees, st, trees[st][0], 0);
      TreesIndexed(idx1, hash, trees, st + 1);
      forall j | 0 <= j < |trees[st][0]| ensures LeafIndexed(idx', hash, trees, trees[st][0][j]) {
        StaysIndexed(idx1, idx', hash, trees, trees[st][0][j]);
      }
    }
  }

  /** From tree st on, t is last found as leaf i of tree j. */
  ghost predicate LastAt(trees: seq<seq<seq<Hash>>>, t: Hash, st: nat, j: nat, i: nat)
    requires forall k :: 0 <= k < |trees| ==> trees[k] != []
  {
    && st <= j < |trees| && i < |trees[j][0]| && trees[j][0][i] == t
    && (forall k :: i < k < |trees[j][0]| ==> trees[j][0][k] != t)
    && (forall m, k :: j < m < |trees| && 0 <= k < |trees[m][0]| ==> trees[m][0][k] != t)
  }

  lemma {:induction false} LeavesKeep(idx: map<Hash, TxEntry>, hash: Hash, st: nat, leaves: seq<Hash>, li: nat, t: Hash)
    requires li <= |leaves| && forall k :: li <= k < |leaves| ==> leaves[k] != t
    ensures t in IndexLeaves(idx, hash, st, leaves, li) <==> t in idx
    ensures t in idx ==> IndexLeaves(idx, hash, st, leaves, li)[t] == idx[t]
    decreases |leaves| - li
  {
    if li < |leaves| {
      LeavesKeep(idx[leaves[li] := TxEntry(hash, st, li)], hash, st, leaves, li + 1, t);
    }
  }

  lemma {:induction false} LeavesLast(idx: map<Hash, TxEntry>, hash: Hash, st: nat, leaves: seq<Hash>, li: nat, t: Hash,
                                      i: nat)
    requires li <= i < |leaves| && leaves[i] == t && forall k :: i < k < |leaves| ==> leaves[k] != t
    ensures var idx' := IndexLeaves(idx, hash, st, leaves, li); t in idx' && idx'[t] == TxEntry(hash, st, i)
    decreases |leaves| - li
  {
    var next := idx[leaves[li] := TxEntry(hash, st, li)];
    if li < i {
      LeavesLast(next, hash, st, leaves, li + 1, t, i);
    } else {
      LeavesKeep(next, hash, st, leaves, li + 1, t);
    }
  }

  lemma {:induction false} TreesKeep(idx: map<Hash, TxEntry>, hash: Hash, trees: seq<seq<seq<Hash>>>, st: nat, t: Hash)
    requires st <= |trees| && forall k :: 0 <= k < |trees| ==> trees[k] != []
    requires forall m, k :: st <= m < |trees| && 0 <= k < |trees[m][0]| ==> trees[m][0][k] != t
    ensures t in IndexTrees(idx, hash, trees, st) <==> t in idx
    ensures t in idx ==> IndexTrees(idx, hash, trees, st)[t] == idx[t]
    decreases |trees| - st
  {
    if st < |trees| {
      LeavesKeep(idx, hash, st, trees[st][0], 0, t);
      TreesKeep(IndexLeaves(idx, hash, st, trees[st][0], 0), hash, trees, st + 1, t);
    }
  }

  /** A transaction that a block has several times is indexed at the last of its places. */
  lemma {:induction false} LastWins(idx: map<Hash, TxEntry>, hash: Hash, trees: seq<seq<seq<Hash>>>, st: nat, t: Hash,
                                    j: nat, i: nat)
    requires (forall k :: 0 <= k < |trees| ==> trees[k] != []) && LastAt(trees, t, st, j, i)
    ensures var idx' := IndexTrees(idx, hash, trees, st); t in idx' && idx'[t] == TxEntry(hash, j, i)
    decreases |trees| - st
  {
    var next := IndexLeaves(idx, hash, st, trees[st][0], 0);
    if st < j {
      LastWins(next, hash, trees, st + 1, t, j, i);
    } else {
      LeavesLast(idx, hash, st, trees[st][0], 0, t, i);
      TreesKeep(next, hash, trees, st + 1, t);
    }
  }

  /** Sealing a block with a new hash keeps every entry right and indexes every leaf of the block. */
  lemma SealKeepsIndexed(sha: Sha256d, cap: nat, n: Node, txids: seq<Hash>, commit: bool)
    requires cap > 0 && txids != [] && Indexed(n) && NewBlock(sha, n, cap, txids, commit).hash !in n.blocks
    ensures Indexed(Sealed(sha, n, cap, txids, commit))
  {
    var b, n' := NewBlock(sha, n, cap, txids, commit), Sealed(sha, n, cap, txids, commit);
    NewBlockTrees(sha, n, cap, txids, commit);
    TreesIndexed(n.txIndex, b.hash, b.trees, 0);
    forall t | t in n'.txIndex ensures EntryOk(n', t, n'.txIndex[t]) {
      if !PointsInto(n'.txIndex[t], b.hash, b.trees, t) {
        assert EntryOk(n, t, n.txIndex[t]);
      }
    }
  }

  /** A transaction that is not a leaf of the new block keeps its entry. */
  lemma SealKeepsEntry(sha: Sha256d, cap: nat, n: Node, txids: seq<Hash>, commit: bool, t: Hash)
    requires cap > 0 && txids != [] && t in n.txIndex && t !in LeafSet(sha, n, txids, commit)
    ensures var n' := Sealed(sha, n, cap, txids, commit); t in n'.txIndex && n'.txIndex[t] == n.txIndex[t]
  {
    var b := NewBlock(sha, n, cap, txids, commit);
    NewBlockTrees(sha, n, cap, txids, commit);
    TreesIndexed(n.txIndex, b.hash, b.trees, 0);
    var e := Sealed(sha, n, cap, txids, commit).txIndex[t];
    if PointsInto(e, b.hash, b.trees, t) {
      var k := TreeLeavesAre(sha, LeafSet(sha, n, txids, commit), cap, e.subtree, e.leaf);
    }
  }

  /** The leaves of the subtrees are the leaves of the block. */
  lemma {:induction false} TreeLeavesAre(sha: Sha256d, leaves: seq<Hash>, cap: nat, i: nat, j: nat) returns (k: nat)
    requires leaves != [] && cap > 0
    requires i < |SubtreeTrees(sha, leaves, cap)| && SubtreeTrees(sha, leaves, cap)[i] != []
    requires j < |SubtreeTrees(sha, leaves, cap)[i][0]|
    ensures k < |leaves| && SubtreeTrees(sha, leaves, cap)[i][0][j] == leaves[k]
    decreases |leaves|
  {
    if |leaves| <= cap || i == 0 {
      k := j;
    } else {
      k := TreeLeavesAre(sha, leaves[cap..], cap, i - 1, j);
      k := cap + k;
    }
  }

  lemma SealKeepsValid(sha: Sha256d, cap: nat, n: Node, txids: seq<Hash>, commit: bool)
    requires cap > 0 && Inv(sha, cap, n)
    ensures Inv(sha, cap, Sealed(sha, n, cap, txids, commit))
    ensures txids != [] && Indexed(n) && NewBlock(sha, n, cap, txids, commit).hash !in n.blocks ==>
              Indexed(Sealed(sha, n, cap, txids, commit))
  {
    SealKeepsInv(sha, cap, n, txids, commit);
    if txids != [] && Indexed(n) && NewBlock(sha, n, cap, txids, commit).hash !in n.blocks {
      SealKeepsIndexed(sha, cap, n, txids, commit);
    }
  }

  // ---------------------------------------------------------------- what is served

  /** The leaves of the subtree an entry points into. */
  function Leaves(n: Node, e: TxEntry): seq<Hash>
    requires e.blockHash in n.blocks && e.subtree < |n.blocks[e.blockHash].trees|
    requires n.blocks[e.blockHash].trees[e.subtree] != []
  {
    n.blocks[e.blockHash].trees[e.subtree][0]
  }

  function L1Of(sha: Sha256d, n: Node, t: Hash, e: TxEntry): seq<PathElem>
    requires EntryOk(n, t, e)
  {
    PathOf(sha, Leaves(n, e), e.leaf)
  }

  function SubtreeRootOf(sha: Sha256d, n: Node, t: Hash, e: TxEntry): Hash
    requires EntryOk(n, t, e)
  {
    Root(sha, Leaves(n, e))
  }

  function FirstIndex(xs: seq<Hash>, x: Hash): (i: nat)
    requires x in xs
    ensures i < |xs| && xs[i] == x && x !in xs[..i]
  {
    if xs[0] == x then 0
    else
      var j := FirstIndex(xs[1..], x);
      assert xs[..j + 1] == [xs[0]] + xs[1..][..j];
      j + 1
  }

  function L2Of(sha: Sha256d, b: SealedBlock, subtreeRoot: Hash): seq<PathElem>
    requires subtreeRoot in b.roots
  {
    PathOf(sha, b.roots, FirstIndex(b.roots, subtreeRoot))
  }

  /** Everything the node serves for an entry fits together: the entry's subtree has the root it
      should, the path to it starts at the transaction, and the depth is bounded by the capacity. */
  lemma EntryServes(sha: Sha256d, cap: nat, n: Node, t: Hash, e: TxEntry)
    requires Inv(sha, cap, n) && EntryOk(n, t, e)
    ensures var b := n.blocks[e.blockHash];
            && b.trees[e.subtree] == Layers(sha, Leaves(n, e)) && e.subtree < |b.roots|
            && b.roots[e.subtree] == SubtreeRootOf(sha, n, t, e)
    ensures Folded(sha, t, L1Of(sha, n, t, e)) == SubtreeRootOf(sha, n, t, e)
    ensures |L1Of(sha, n, t, e)| <= CeilLog2(cap)
  {
    var b := n.blocks[e.blockHash];
    assert TreeOf(sha, b.trees[e.subtree], b.roots[e.subtree], cap);
    PathFolds(sha, Leaves(n, e), e.leaf);
    PathDepth(sha, Leaves(n, e), e.leaf);
    CeilLog2Monotone(|Leaves(n, e)|, cap);
  }

  lemma CeilLog2Monotone(a: nat, b: nat)
    requires 1 <= a <= b
    ensures CeilLog2(a) <= CeilLog2(b)
  {
    CeilLog2Least(b, CeilLog2(b));
    CeilLog2Least(a, CeilLog2(b));
  }

  /** A path from any position of the block's root list ends in the root inside the header. */
  lemma RootServes(sha: Sha256d, cap: nat, b: SealedBlock, i: nat)
    requires WellSealed(sha, cap, b) && i < |b.roots|
    ensures Folded(sha, b.roots[i], PathOf(sha, b.roots, i)) == HeaderMerkleRoot(b.header)
    ensures |PathOf(sha, b.roots, i)| == CeilLog2(|b.roots|)
  {
    PathFolds(sha, b.roots, i);
    PathDepth(sha, b.roots, i);
  }

  predicate ContainsIn(sha: Sha256d, n: Node, h: Header) {
    var digest := sha(h.bytes);
    digest in n.blocks && n.blocks[digest].hash in n.onBest && n.onBest[n.blocks[digest].hash]
  }

  /** The leaves of the accumulator that a carrier committed to. */
  function PrefixLeaves(sha: Sha256d, n: Node, carrier: SealedBlock): seq<Hash>
    requires carrier.accPrefix <= |n.headers|
  {
    Digests(sha, n.headers[..carrier.accPrefix])
  }

  // ---------------------------------------------------------------- the node

  type Outpoint = (Hash, nat)

  /** Two paths into two buffers; where they are one buffer the second path lies over the first. */
  method PathsInto(tree: seq<seq<Hash>>, leaf: nat, layers: seq<seq<Hash>>, index: nat,
                   l1dst: array<PathElem>, l2dst: array<PathElem>)
    returns (l1: array<PathElem>, n1: nat, l2: array<PathElem>, n2: nat)
    requires Shaped(tree) && Shaped(layers) && tree != [] && layers != [] && leaf < |tree[0]| && index < |layers[0]|
    modifies l1dst, l2dst
    ensures n1 == |PathThrough(tree, leaf)| <= l1.Length && (l1 == l2dst ==> l1dst == l2dst)
    ensures var from := if l1 == l2dst then n2 else 0; from <= n1 ==> l1[from..n1] == PathThrough(tree, leaf)[from..]
    ensures n2 <= l2.Length && l2[..n2] == PathThrough(layers, index)
    ensures n1 <= l1dst.Length && n2 <= l2dst.Length ==> l1 == l1dst && l2 == l2dst
  {
    var served1 := MerklePathInto(tree, leaf, l1dst);
    l1, n1 := served1.value.0, served1.value.1;
    ghost var first := l1[..n1];
    var served2 := MerklePathInto(layers, index, l2dst);
    l2, n2 := served2.value.0, served2.value.1;
    assert l1 != l2dst ==> l1[..n1] == first;
    ghost var from := if l1 == l2dst then n2 else 0;
    assert from <= n1 ==> l1[from..n1] == first[from..];
  }

  class MockNode {
    var blocks: map<Hash, SealedBlock>
    var txIndex: map<Hash, TxEntry>
    var chain: seq<Hash>
    var headers: seq<Header>
    var onBest: map<Hash, bool>
    var spent: map<Outpoint, bool>
    const subtreeSize: nat

    /** The value of the fields that proofs are served from. */
    function State(): Node
      reads this
    {
      Node(blocks, txIndex, chain, headers, onBest)
    }

    /** What every node satisfies. */
    ghost predicate Valid(sha: Sha256d)
      reads this
    {
      subtreeSize > 0 && Inv(sha, subtreeSize, State())
    }

    constructor (sha: Sha256d, subtreeCap: int)
      ensures Valid(sha) && Indexed(State()) && State() == EmptyNode() && spent == map[]
      ensures subtreeSize == if subtreeCap < 1 then 1 else subtreeCap
    {
      subtreeSize := if subtreeCap < 1 then 1 else subtreeCap;
      blocks, txIndex, chain, headers, onBest, spent := map[], map[], [], [], map[], map[];
    }

    /** mmrRootOfPrefix over all headers, the only prefix SealBlock asks for. */
    method AccumulateHeaders(sha: Sha256d) returns (root: Hash)
      requires |headers| < WORD
      ensures root == PrefixRoot(sha, State())
    {
      var hs := headers;
      var m := Accumulate(sha, hs);
      root := m.CurrentRoot(sha);
    }

    method SealBlock(sha: Sha256d, txids: seq<Hash>, commit: bool) returns (r: Result<Hash>)
      requires Valid(sha) && |headers| < WORD - 1
      modifies this
      ensures r.Err? <==> txids == []
      ensures State() == Sealed(sha, old(State()), subtreeSize, txids, commit)
      ensures r.Ok? ==> r.value == NewBlock(sha, old(State()), subtreeSize, txids, commit).hash
      ensures Valid(sha) && spent == old(spent)
      ensures r.Ok? && old(Indexed(State())) && r.value !in old(blocks) ==> Indexed(State())
    {
      ghost var before := State();
      SealKeepsValid(sha, subtreeSize, before, txids, commit);
      if |txids| == 0 {
        return Err;
      }
      var b := AssembleBlock(sha, txids, commit);
      NewBlockTrees(sha, before, subtreeSize, txids, commit);
      Record(b);
      return Ok(b.hash);
    }

    /** The part of SealBlock that stores the block. */
    method Record(b: SealedBlock)
      requires forall i :: 0 <= i < |b.trees| ==> b.trees[i] != []
      modifies this
      ensures State() == Extended(old(State()), b) && spent == old(spent)
    {
      txIndex := IndexBlock(txIndex, b.hash, b.trees);
      blocks := blocks[b.hash := b];
      chain := chain + [b.hash];
      headers := headers + [b.header];
      onBest := onBest[b.hash := true];
    }

    /** The part of SealBlock that makes a carrier's generation transaction. */
    method GenTransaction(sha: Sha256d) returns (accRoot: Hash, genFields: seq<FieldLeaf>, genId: Hash)
      requires |headers| < WORD
      ensures accRoot == PrefixRoot(sha, State()) && genFields == GenFields(accRoot) && genId == TxId(sha, genFields)
    {
      accRoot := AccumulateHeaders(sha);
      genFields := GenFields(accRoot);
      var built := BuildMTxID(sha, genFields);
      genId := built.value.0;
    }

    method PreviousHash(sha: Sha256d) returns (prev: Hash)
      requires Valid(sha)
      ensures prev == TipHash(State())
    {
      prev := ZeroHash();
      if |chain| > 0 {
        prev := blocks[chain[|chain| - 1]].hash;
      }
    }

    /** The part of SealBlock that builds the block. */
    method AssembleBlock(sha: Sha256d, txids: seq<Hash>, commit: bool) returns (b: SealedBlock)
      requires Valid(sha) && |headers| < WORD && txids != []
      ensures b == NewBlock(sha, State(), subtreeSize, txids, commit)
    {
      var height, leafSet := |chain|, txids;
      var accRoot, prefix, genFields := ZeroHash(), 0, [];
      if commit {
        var genId;
        accRoot, genFields, genId := GenTransaction(sha);
        prefix := height;
        leafSet := [genId] + txids;
      }
      var roots, trees := BuildSubtrees(sha, leafSet, subtreeSize);
      var block := BuildMerkleTree(sha, roots);
      var prev := PreviousHash(sha);
      var header := HeaderOf(prev, block.value.0, height);
      b := SealedBlock(sha(header.bytes), height, header, roots, trees, block.value.1, block.value.0, commit, accRoot,
                       prefix, genFields);
    }

    /** On and off the best chain; a hash the node never saw is recorded all the same. */
    method Orphan(sha: Sha256d, hash: Hash)
      requires Valid(sha)
      modifies this`onBest
      ensures State() == old(State()).(onBest := old(onBest)[hash := false]) && Valid(sha)
    {
      onBest := onBest[hash := false];
    }

    method Restore(sha: Sha256d, hash: Hash)
      requires Valid(sha)
      modifies this`onBest
      ensures State() == old(State()).(onBest := old(onBest)[hash := true]) && Valid(sha)
    {
      onBest := onBest[hash := true];
    }

    method MarkSpent(o: Outpoint)
      modifies this`spent
      ensures spent == old(spent)[o := true]
    {
      spent := spent[o := true];
    }

    method IsUnspent(o: Outpoint) returns (unspent: bool)
      ensures unspent <==> !(o in spent && spent[o])
    {
      unspent := !(o in spent && spent[o]);
    }

    // read-only accessors

    method SubtreePathFor(sha: Sha256d, txid: Hash) returns (r: Result<(seq<PathElem>, Hash)>)
      requires Valid(sha) && Indexed(State())
      ensures r.Err? <==> txid !in txIndex
      ensures r.Ok? ==>
                r.value == (L1Of(sha, State(), txid, txIndex[txid]), SubtreeRootOf(sha, State(), txid, txIndex[txid]))
    {
      if txid !in txIndex {
        return Err;
      }
      var e := txIndex[txid];
      EntryServes(sha, subtreeSize, State(), txid, e);
      var sb := blocks[e.blockHash];
      PathThroughLayers(sha, Leaves(State(), e), e.leaf);
      var path := MerklePath(sb.trees[e.subtree], e.leaf);
      return Ok((path.value, sb.roots[e.subtree]));
    }

    method BlockPathFor(sha: Sha256d, subtreeRoot: Hash, blockHash: Hash) returns (r: Result<(seq<PathElem>, Hash)>)
      requires Valid(sha)
      ensures r.Err? <==> blockHash !in blocks || subtreeRoot !in blocks[blockHash].roots
      ensures r.Ok? ==> r.value == (L2Of(sha, blocks[blockHash], subtreeRoot), blocks[blockHash].root)
    {
      if blockHash !in blocks {
        return Err;
      }
      var sb := blocks[blockHash];
      var found := IndexOf(sb.roots, subtreeRoot);
      if found.None? {
        return Err;
      }
      var i := found.value;
      PathThroughLayers(sha, sb.roots, i);
      var path := MerklePath(sb.layers, i);
      return Ok((path.value, sb.root));
    }

    method HeaderFor(blockHash: Hash) returns (r: Result<Header>)
      ensures r == if blockHash in blocks then Ok(blocks[blockHash].header) else Err
    {
      r := if blockHash in blocks then Ok(blocks[blockHash].header) else Err;
    }

    method LocateTx(txid: Hash) returns (r: Result<Hash>)
      ensures r == if txid in txIndex then Ok(txIndex[txid].blockHash) else Err
    {
      r := if txid in txIndex then Ok(txIndex[txid].blockHash) else Err;
    }

    /** Both paths into the caller's buffers, which must not be one array. */
    method ServeInto(sha: Sha256d, txid: Hash, l1dst: array<PathElem>, l2dst: array<PathElem>)
      returns (l1: array<PathElem>, n1: nat, l2: array<PathElem>, n2: nat, subtreeRoot: Hash, header: Header, ok: bool)
      requires Valid(sha) && Indexed(State())
      modifies l1dst, l2dst
      ensures ok <==> txid in txIndex
      ensures ok ==>
                n1 <= l1.Length && n1 == |L1Of(sha, State(), txid, txIndex[txid])| && (l1 == l2dst ==> l1dst == l2dst)
      ensures ok ==> var from := if l1 == l2dst then n2 else 0;
                from <= n1 ==> l1[from..n1] == L1Of(sha, State(), txid, txIndex[txid])[from..]
      ensures ok ==> n2 <= l2.Length && txIndex[txid].subtree < |blocks[txIndex[txid].blockHash].roots|
      ensures ok ==> l2[..n2] == PathOf(sha, blocks[txIndex[txid].blockHash].roots, txIndex[txid].subtree)
      ensures ok ==> subtreeRoot == SubtreeRootOf(sha, State(), txid, txIndex[txid])
      ensures ok ==> header == blocks[txIndex[txid].blockHash].header
      ensures ok && n1 <= l1dst.Length && n2 <= l2dst.Length ==> l1 == l1dst && l2 == l2dst
    {
      l1, n1, l2, n2, subtreeRoot, header := l1dst, 0, l2dst, 0, ZeroHash(), Header(Zeros(80));
      if txid !in txIndex {
        ok := false;
        return;
      }
      var e := txIndex[txid];
      var sb := blocks[e.blockHash];
      EntryServes(sha, subtreeSize, State(), txid, e);
      PathThroughLayers(sha, Leaves(State(), e), e.leaf);
      PathThroughLayers(sha, sb.roots, e.subtree);
      l1, n1, l2, n2 := PathsInto(sb.trees[e.subtree], e.leaf, sb.layers, e.subtree, l1dst, l2dst);
      return l1, n1, l2, n2, sb.roots[e.subtree], sb.header, true;
    }

    method GenTxAccumulator(sha: Sha256d, blockHash: Hash)
      returns (r: Result<(Hash, seq<FieldLeaf>, seq<PathElem>, seq<PathElem>, seq<PathElem>)>)
      requires Valid(sha)
      ensures r.Err? <==> blockHash !in blocks || !blocks[blockHash].isCarrier
      ensures r.Ok? ==> var b := blocks[blockHash];
                r.value == (b.accRoot, GenFields(b.accRoot), FieldPath(sha, GenFields(b.accRoot), 1),
                            PathOf(sha, b.trees[0][0], 0), PathOf(sha, b.roots, 0))
    {
      if blockHash !in blocks {
        return Err;
      }
      var sb := blocks[blockHash];
      if !sb.isCarrier {
        return Err;
      }
      assert TreeOf(sha, sb.trees[0], sb.roots[0], subtreeSize);
      PathThroughLayers(sha, sb.trees[0][0], 0);
      PathThroughLayers(sha, sb.roots, 0);
      var l0 := MTxIDPath(sha, sb.genFields, ACC_ROOT_FIELD);
      var l1 := MerklePath(sb.trees[0], 0);
      var l2 := MerklePath(sb.layers, 0);
      return Ok((sb.accRoot, sb.genFields, l0.value.1, l1.value, l2.value));
    }

    method ProveHeaderInAccumulator(sha: Sha256d, target: Hash, carrier: Hash)
      returns (r: Result<(seq<PathElem>, Hash)>)
      requires Valid(sha) && |headers| < WORD
      ensures r.Ok? <==> carrier in blocks && blocks[carrier].isCarrier && target in blocks
                         && blocks[target].height < blocks[carrier].accPrefix
      ensures r.Ok? ==> blocks[carrier].accPrefix <= |headers|
                        && r.value == (AccPath(sha, PrefixLeaves(sha, State(), blocks[carrier]), blocks[target].height),
                                       blocks[carrier].accRoot)
    {
      if carrier !in blocks || !blocks[carrier].isCarrier || target !in blocks {
        return Err;
      }
      var prefix, height := blocks[carrier].accPrefix, blocks[target].height;
      if height >= prefix {
        return Err;
      }
      var m := Accumulate(sha, headers[..prefix]);
      r := m.ProveBlock(sha, height);
    }

    predicate Contains(sha: Sha256d, h: Header)
      reads this
    {
      ContainsIn(sha, State(), h)
    }

    method BestTipHeight() returns (height: nat)
      ensures height == |chain|
    {
      height := |chain|;
    }
  }

  lemma {:induction false} FirstIndexIs(xs: seq<Hash>, x: Hash, i: nat)
    requires i < |xs| && xs[i] == x && x !in xs[..i]
    ensures FirstIndex(xs, x) == i
  {
    if i > 0 {
      assert xs[..i][0] == xs[0] && xs[..i] == [xs[0]] + xs[1..][..i - 1];
      FirstIndexIs(xs[1..], x, i - 1);
    }
  }

  /** The search of BlockPathFor. */
  method IndexOf(xs: seq<Hash>, x: Hash) returns (r: Option<nat>)
    ensures r.None? <==> x !in xs
    ensures r.Some? ==> r.value == FirstIndex(xs, x)
  {
    for i := 0 to |xs|
      invariant x !in xs[..i]
    {
      if xs[i] == x {
        FirstIndexIs(xs, x, i);
        return Some(i);
      }
    }
    assert xs[..|xs|] == xs;
    return None;
  }

  /** Append, its result unused. */
  method Push(sha: Sha256d, m: MMR, h: Header)
    requires |m.leaves| + 1 < WORD
    modifies m
    ensures m.leaves == old(m.leaves) + [sha(h.bytes)]
  {
    var root := m.Append(sha, h);
  }

  method Accumulate(sha: Sha256d, hs: seq<Header>) returns (m: MMR)
    requires |hs| < WORD
    ensures fresh(m) && m.leaves == Digests(sha, hs)
  {
    m := new MMR();
    ghost var all := Digests(sha, hs);
    for i := 0 to |hs|
      invariant fresh(m) && m.leaves == all[..i]
    {
      Push(sha, m, hs[i]);
      assert all[..i + 1] == all[..i] + [all[i]];
    }
    assert all[..|hs|] == all;
  }

  /** The nested loop of SealBlock that indexes the leaves. */
  method IndexBlock(idx: map<Hash, TxEntry>, hash: Hash, trees: seq<seq<seq<Hash>>>) returns (out: map<Hash, TxEntry>)
    requires forall i :: 0 <= i < |trees| ==> trees[i] != []
    ensures out == IndexTrees(idx, hash, trees, 0)
  {
    out := idx;
    for st := 0 to |trees|
      invariant IndexTrees(out, hash, trees, st) == IndexTrees(idx, hash, trees, 0)
    {
      ghost var before := out;
      var leaves := trees[st][0];
      for li := 0 to |leaves|
        invariant IndexLeaves(out, hash, st, leaves, li) == IndexLeaves(before, hash, st, leaves, 0)
      {
        out := out[leaves[li] := TxEntry(hash, st, li)];
      }
    }
  }
}
