/** What an accepted bundle means (bundle/bundle.go:111-171): bundle.Verify and its anchor check against
    the blocks of a node, for every bundle, whoever made it.

    Verify fixes neither where the levels of the two paths meet nor the place of the anchor's field in
    its block; what follows from acceptance alone, what follows where lengths or turns are right, and
    that these cannot be dropped, are separate lemmas. */
module Disclosure {
  import opened Commitment
  import opened MerkleTree
  import opened Positions
  import opened FieldTree
  import opened Bits
  import opened Accumulator
  import opened Teranode
  import opened NodeRuns
  import opened Membership
  import opened Bundle
  import Fabric

  /** Verify's verdict. */
  ghost predicate Passes(sha: Sha256d, b: Bundle, view: HeaderChain) {
    DepthOk(b) && FieldBinds(sha, b) && BlockBinds(sha, b) && HeaderProved(sha, b, view)
  }

  // ---------------------------------------------------------------- the field

  /** The disclosed field is the transaction's field at the place whose turns its path makes. */
  lemma DisclosedField(sha: Sha256d, b: Bundle, fields: seq<FieldLeaf>, i: nat)
    requires FieldBinds(sha, b) && i < |fields| && TxId(sha, fields) == b.output.txid
    requires SameTurns(b.mtxidPath, FieldPath(sha, fields, i))
    ensures b.fields[0] == fields[i] || CollisionIn(sha, FieldPlaceInputs(sha, b, fields, i))
  {
    FieldAtPlace(sha, b.fields[0], b.mtxidPath, fields, i);
  }

  // ---------------------------------------------------------------- the transaction

  /** The pairs hashed to seal a block. */
  ghost function TreesInputs(sha: Sha256d, trees: seq<seq<seq<Hash>>>): set<seq<byte>> {
    set j, y | 0 <= j < |trees| && trees[j] != [] && trees[j][0] != [] && y in TreeInputs(sha, trees[j][0]) :: y
  }

  ghost function BlockInputs(sha: Sha256d, blk: SealedBlock): set<seq<byte>> {
    TreesInputs(sha, blk.trees) + if blk.roots == [] then {} else TreeInputs(sha, blk.roots)
  }

  lemma OneTreeInputs(sha: Sha256d, trees: seq<seq<seq<Hash>>>, j: nat)
    requires j < |trees| && trees[j] != [] && trees[j][0] != []
    ensures TreeInputs(sha, trees[j][0]) <= TreesInputs(sha, trees)
  {
  }

  /** The transaction is a leaf of the subtree. */
  ghost predicate IsLeaf(blk: SealedBlock, j: nat, t: Hash) {
    j < |blk.trees| && blk.trees[j] != [] && t in blk.trees[j][0]
  }

  /** Two paths in a row from t to a block's root: where the second is as long as the tree over the subtree
      roots is high, the first leads to a subtree's root; and where it is as long as that subtree is high,
      t is one of its leaves. */
  lemma {:induction false} LeadsIntoBlock(sha: Sha256d, cap: nat, t: Hash, low: seq<PathElem>, high: seq<PathElem>,
                                          blk: SealedBlock, inputs: set<seq<byte>>) returns (j: nat)
    requires WellSealed(sha, cap, blk) && Folded(sha, t, low + high) == blk.root && |high| == CeilLog2(|blk.roots|)
    requires FoldInputs(sha, t, low + high) + BlockInputs(sha, blk) <= inputs
    ensures CollisionIn(sha, inputs)
            || (j < |blk.roots| && Folded(sha, t, low) == blk.roots[j]
                && (|low| == CeilLog2(|blk.trees[j][0]|) ==> IsLeaf(blk, j, t)))
  {
    var mid := Folded(sha, t, low);
    FoldedConcat(sha, t, low, high);
    LeafByLength(sha, mid, high, blk.roots, inputs);
    j := 0;
    if !CollisionIn(sha, inputs) {
      j :| 0 <= j < |blk.roots| && blk.roots[j] == mid;
      assert TreeOf(sha, blk.trees[j], blk.roots[j], cap);
      if |low| == CeilLog2(|blk.trees[j][0]|) {
        OneTreeInputs(sha, blk.trees, j);
        LeafByLength(sha, t, low, blk.trees[j][0], inputs);
      }
    }
  }

  /** So for a bundle that passes against the block's header. */
  lemma {:induction false} TransactionInBlock(sha: Sha256d, cap: nat, b: Bundle, blk: SealedBlock,
                                              inputs: set<seq<byte>>)
    returns (j: nat)
    requires WellSealed(sha, cap, blk) && b.header == blk.header && BlockBinds(sha, b)
    requires |b.blockPath| == CeilLog2(|blk.roots|)
    requires FoldInputs(sha, b.output.txid, b.subtreePath + b.blockPath) + BlockInputs(sha, blk) <= inputs
    ensures CollisionIn(sha, inputs)
            || (j < |blk.roots| && Folded(sha, b.output.txid, b.subtreePath) == blk.roots[j]
                && (|b.subtreePath| == CeilLog2(|blk.trees[j][0]|) ==> IsLeaf(blk, j, b.output.txid)))
  {
    j := LeadsIntoBlock(sha, cap, b.output.txid, b.subtreePath, b.blockPath, blk, inputs);
  }

  /** The same bundle with its levels shifted: what it calls the transaction is the subtree's root. */
  function Shifted(sha: Sha256d, b: Bundle): Bundle {
    b.(output := b.output.(txid := Folded(sha, b.output.txid, b.subtreePath)), mtxidPath := b.mtxidPath + b.subtreePath,
       subtreePath := [])
  }

  /** The lengths cannot be dropped: whatever passes still passes with its levels shifted. */
  lemma ShiftedPasses(sha: Sha256d, b: Bundle, view: HeaderChain)
    requires Passes(sha, b, view)
    ensures Passes(sha, Shifted(sha, b), view)
  {
    FoldedConcat(sha, LeafHash(sha, b.fields[0]), b.mtxidPath, b.subtreePath);
    FoldedConcat(sha, b.output.txid, b.subtreePath, b.blockPath);
    assert [] + b.blockPath == b.blockPath;
  }

  // ---------------------------------------------------------------- the anchor

  /** From the second field of the generation transaction to the root of its block. */
  function GenPath(sha: Sha256d, blk: SealedBlock): seq<PathElem>
    requires |blk.genFields| > 1 && blk.trees != [] && blk.trees[0] != [] && blk.trees[0][0] != [] && blk.roots != []
  {
    SpanPath(sha, blk.genFields, 1, blk.trees[0][0], 0, blk.roots, 0)
  }

  /** A block with a generation transaction in its first place. */
  ghost predicate Carries(sha: Sha256d, cap: nat, blk: SealedBlock) { WellSealed(sha, cap, blk) && blk.isCarrier }

  lemma CarrierNested(sha: Sha256d, cap: nat, blk: SealedBlock)
    requires Carries(sha, cap, blk)
    ensures |blk.genFields| == 2 && blk.trees[0] != [] && blk.trees[0][0] != []
    ensures Nested(sha, blk.genFields, blk.trees[0][0], 0, blk.roots, 0)
  {
    assert TreeOf(sha, blk.trees[0], blk.roots[0], cap);
  }

  function AnchorPath(a: AnchorProof): seq<PathElem> { a.genL0 + a.genL1 + a.genL2 }

  /** The anchor's path makes the turns of the generation transaction's second field. */
  ghost predicate InPlace(sha: Sha256d, cap: nat, a: AnchorProof, blk: SealedBlock) {
    Carries(sha, cap, blk) && |blk.genFields| > 1 && blk.trees[0] != [] && blk.trees[0][0] != []
    && SameTurns(AnchorPath(a), GenPath(sha, blk))
  }

  /** What an anchor makes one hash: for the field that carries the root ... */
  ghost function FieldFoldInputs(sha: Sha256d, a: AnchorProof): set<seq<byte>> {
    if Carrier(a.genFields, a.accRoot).Some?
    then
      var f := Carrier(a.genFields, a.accRoot).value;
      {LeafBytes(f)} + FoldInputs(sha, LeafHash(sha, f), AnchorPath(a))
    else {}
  }

  /** ... and for the header it is to prove. */
  ghost function AnchorInputs(sha: Sha256d, a: AnchorProof, header: Header): set<seq<byte>> {
    {a.carryingHeader.bytes, header.bytes} + FoldInputs(sha, sha(header.bytes), a.accPath) + FieldFoldInputs(sha, a)
  }

  /** What the carrier itself hashed for that field. */
  ghost function GenInputs(sha: Sha256d, blk: SealedBlock): set<seq<byte>> {
    if |blk.genFields| > 1 && blk.trees != [] && blk.trees[0] != [] && blk.trees[0][0] != [] && blk.roots != []
    then {LeafBytes(blk.genFields[1])} + FoldInputs(sha, LeafHash(sha, blk.genFields[1]), GenPath(sha, blk))
    else {}
  }

  /** In place, an anchor's accumulator root is the one that the carrier committed. */
  lemma {:induction false} CommittedRoot(sha: Sha256d, cap: nat, a: AnchorProof, blk: SealedBlock,
                                         inputs: set<seq<byte>>)
    requires InPlace(sha, cap, a, blk)
    requires AnchorCloses(sha, a.accRoot, a.genFields, a.genL0, a.genL1, a.genL2, blk.root)
    requires FieldFoldInputs(sha, a) + GenInputs(sha, blk) <= inputs
    ensures a.accRoot == blk.accRoot || CollisionIn(sha, inputs)
  {
    var f := Carrier(a.genFields, a.accRoot).value;
    CarrierNested(sha, cap, blk);
    FieldInBlock(sha, f, AnchorPath(a), blk.genFields, 1, blk.trees[0][0], 0, blk.roots, 0, inputs);
    if f == blk.genFields[1] {
      assert a.accRoot.bytes == blk.accRoot.bytes;
    }
  }

  /** The place cannot be dropped: the check takes any field of any transaction of the block for the one
      that carries the root, whatever that root is. */
  lemma {:induction false} AnyFieldAnchors(sha: Sha256d, cap: nat, blk: SealedBlock, j: nat, i: nat,
                                           fields: seq<FieldLeaf>, k: nat, accRoot: Hash)
    requires WellSealed(sha, cap, blk) && j < |blk.trees| && i < |blk.trees[j][0]|
    requires k < |fields| && blk.trees[j][0][i] == TxId(sha, fields) && FirstWith(fields, accRoot, k)
    ensures var l0, l1, l2 := FieldPath(sha, fields, k), PathOf(sha, blk.trees[j][0], i), PathOf(sha, blk.roots, j);
            AnchorCloses(sha, accRoot, fields, l0, l1, l2, blk.root) <==>
              CeilLog2(|fields|) + CeilLog2(|blk.trees[j][0]|) + CeilLog2(|blk.roots|) <= 255
  {
    assert TreeOf(sha, blk.trees[j], blk.roots[j], cap);
    FirstCarries(fields, accRoot, k);
    SpanFolds(sha, fields, k, blk.trees[j][0], i, blk.roots, j);
    PathDepth(sha, FieldDigests(sha, fields), k);
    PathDepth(sha, blk.trees[j][0], i);
    PathDepth(sha, blk.roots, j);
  }

  // ---------------------------------------------------------------- the header

  /** The view knows no header whose digest the node has not sealed. */
  ghost predicate Sees(sha: Sha256d, n: Node, view: HeaderChain) {
    forall h: Header :: Knows(view, h) ==> sha(h.bytes) in n.blocks
  }

  /** Both header views of the repository are such views: the node's own ... */
  lemma NodeViewSees(sha: Sha256d, n: Node)
    ensures Sees(sha, n, NodeView(sha, n))
  {
  }

  /** ... and that of a verifier that keeps some of the node's headers. */
  lemma {:induction false} KeptViewSees(sha: Sha256d, cap: nat, n: Node, kept: seq<Header>)
    requires Inv(sha, cap, n) && forall k :: 0 <= k < |kept| ==> kept[k] in n.headers
    ensures Sees(sha, n, StaticHeaderChain(sha, kept))
  {
    forall h: Header | Knows(StaticHeaderChain(sha, kept), h) ensures sha(h.bytes) in n.blocks {
      assert sha(h.bytes) in Digests(sha, kept);
      var k :| 0 <= k < |kept| && Digests(sha, kept)[k] == sha(h.bytes);
      HeaderOnChain(sha, cap, n, kept[k]);
    }
  }

  lemma HeaderOnChain(sha: Sha256d, cap: nat, n: Node, h: Header)
    requires Inv(sha, cap, n) && h in n.headers
    ensures sha(h.bytes) in n.blocks
  {
    var k :| 0 <= k < |n.headers| && n.headers[k] == h;
    assert LinkAt(sha, n.chain, n.headers, k);
    assert n.chain[k] in n.chain;
  }

  /** A header with the digest of a stored block is that block's. */
  lemma StoredHeader(sha: Sha256d, cap: nat, n: Node, h: Header, inputs: set<seq<byte>>)
    requires Inv(sha, cap, n) && sha(h.bytes) in n.blocks && {h.bytes} + HeaderInputs(n.headers) <= inputs
    ensures n.blocks[sha(h.bytes)].header == h || CollisionIn(sha, inputs)
  {
    var blk := n.blocks[sha(h.bytes)];
    StoredHash(sha, cap, n, sha(h.bytes));
    assert n.headers[blk.height] == blk.header;
    assert blk.header.bytes in HeaderInputs(n.headers) && h.bytes in {h.bytes};
    if blk.header.bytes == h.bytes {
      assert blk.header == h;
    }
  }

  /** A fold that gives the zero hash has hashed something to it. */
  lemma {:induction false} FoldsToZero(sha: Sha256d, h: Header, path: seq<PathElem>, inputs: set<seq<byte>>)
    requires Folded(sha, sha(h.bytes), path) == ZeroHash()
    requires {h.bytes} + FoldInputs(sha, sha(h.bytes), path) <= inputs
    ensures Inner(sha, ZeroHash(), inputs)
  {
    if path == [] {
      assert h.bytes in inputs;
    } else {
      LastStep(sha, sha(h.bytes), path, path[..|path| - 1], path[|path| - 1]);
    }
  }

  /** A header that passes against a carrier's root is one of those before the carrier. */
  lemma {:induction false} CoveredHeader(sha: Sha256d, cap: nat, n: Node, h: Header, path: seq<PathElem>,
                                         blk: SealedBlock, inputs: set<seq<byte>>)
    requires Placed(sha, n.headers, blk) && blk.isCarrier && VerifyBlockInChain(sha, h, path, blk.accRoot)
    requires MemberInputs(sha, h, path, n.headers[..blk.height]) <= inputs
    ensures h in n.headers[..blk.height] || CollisionIn(sha, inputs) || Inner(sha, ZeroHash(), inputs)
  {
    var hs := n.headers[..blk.height];
    if hs == [] {
      assert Digests(sha, hs) == [];
      FoldsToZero(sha, h, path, inputs);
    } else {
      HeaderIsMember(sha, h, path, hs);
      if h !in hs {
        CollisionGrows(sha, MemberInputs(sha, h, path, hs), inputs);
      }
    }
  }

  /** Everything hashed to make a block and its accumulator root. */
  ghost function SealInputs(sha: Sha256d, n: Node, blk: SealedBlock): set<seq<byte>> {
    BlockInputs(sha, blk) + GenInputs(sha, blk)
    + if blk.height <= |n.headers| then AccInputs(sha, Digests(sha, n.headers[..blk.height])) else {}
  }

  ghost function NodeInputs(sha: Sha256d, n: Node): set<seq<byte>> {
    HeaderInputs(n.headers) + set h, y | h in n.blocks && y in SealInputs(sha, n, n.blocks[h]) :: y
  }

  lemma OneBlockInputs(sha: Sha256d, n: Node, h: Hash)
    requires h in n.blocks
    ensures SealInputs(sha, n, n.blocks[h]) <= NodeInputs(sha, n)
  {
  }

  /** Everything hashed to check a bundle. */
  ghost function BundleInputs(sha: Sha256d, b: Bundle): set<seq<byte>> {
    {b.header.bytes} + FoldInputs(sha, b.output.txid, b.subtreePath + b.blockPath)
    + if b.anchor.Some? then AnchorInputs(sha, b.anchor.value, b.header) else {}
  }

  /** If the bundle has an anchor, and its carrying header is a block's of the node, it is in place. */
  ghost predicate AnchorInPlace(sha: Sha256d, cap: nat, n: Node, b: Bundle) {
    b.anchor.Some? && sha(b.anchor.value.carryingHeader.bytes) in n.blocks ==>
      InPlace(sha, cap, b.anchor.value, n.blocks[sha(b.anchor.value.carryingHeader.bytes)])
  }

  /** The anchor's root is the one that its carrying block committed, and it covers the header. */
  ghost predicate Covered(sha: Sha256d, n: Node, b: Bundle) {
    b.anchor.Some? && var a := b.anchor.value;
    && sha(a.carryingHeader.bytes) in n.blocks
    && var blk := n.blocks[sha(a.carryingHeader.bytes)];
       && blk.header == a.carryingHeader && blk.isCarrier && a.accRoot == blk.accRoot
       && blk.height <= |n.headers| && b.header in n.headers[..blk.height]
  }

  /** A header proved to such a view is that of a block the node has sealed. */
  lemma {:induction false} ProvedHeader(sha: Sha256d, cap: nat, n: Node, b: Bundle, view: HeaderChain,
                                        inputs: set<seq<byte>>)
    requires Inv(sha, cap, n) && Sees(sha, n, view) && HeaderProved(sha, b, view)
    requires !Knows(view, b.header) ==> AnchorInPlace(sha, cap, n, b)
    requires BundleInputs(sha, b) + NodeInputs(sha, n) <= inputs
    ensures CollisionIn(sha, inputs) || Inner(sha, ZeroHash(), inputs)
            || (sha(b.header.bytes) in n.blocks && n.blocks[sha(b.header.bytes)].header == b.header
                && (Knows(view, b.header) || Covered(sha, n, b)))
  {
    if Knows(view, b.header) {
      StoredHeader(sha, cap, n, b.header, inputs);
    } else if !CollisionIn(sha, inputs) && !Inner(sha, ZeroHash(), inputs) {
      AnchoredHeader(sha, cap, n, b, view, inputs);
      HeaderOnChain(sha, cap, n, b.header);
      StoredHeader(sha, cap, n, b.header, inputs);
    }
  }

  /** The block behind an anchor's carrying header. */
  lemma {:induction false} CarrierBehind(sha: Sha256d, cap: nat, n: Node, a: AnchorProof, view: HeaderChain,
                                         inputs: set<seq<byte>>)
    requires Inv(sha, cap, n) && Sees(sha, n, view) && AnchorBinds(sha, a, view) && !CollisionIn(sha, inputs)
    requires {a.carryingHeader.bytes} + HeaderInputs(n.headers) <= inputs
    ensures var h := sha(a.carryingHeader.bytes);
            && h in n.blocks && Placed(sha, n.headers, n.blocks[h]) && n.blocks[h].header == a.carryingHeader
            && AnchorCloses(sha, a.accRoot, a.genFields, a.genL0, a.genL1, a.genL2, n.blocks[h].root)
  {
    StoredHeader(sha, cap, n, a.carryingHeader, inputs);
    assert WellSealed(sha, cap, n.blocks[sha(a.carryingHeader.bytes)]);
  }

  /** The anchor's chain of evidence: its root is the one the carrier committed, which covers the header. */
  lemma {:induction false} AnchoredHeader(sha: Sha256d, cap: nat, n: Node, b: Bundle, view: HeaderChain,
                                          inputs: set<seq<byte>>)
    requires Inv(sha, cap, n) && Sees(sha, n, view) && AnchorProves(sha, b, view) && AnchorInPlace(sha, cap, n, b)
    requires BundleInputs(sha, b) + NodeInputs(sha, n) <= inputs
    requires !CollisionIn(sha, inputs) && !Inner(sha, ZeroHash(), inputs)
    ensures Covered(sha, n, b) && b.header in n.headers
  {
    var a, h := b.anchor.value, sha(b.anchor.value.carryingHeader.bytes);
    CarrierBehind(sha, cap, n, a, view, inputs);
    OneBlockInputs(sha, n, h);
    AnchoredAt(sha, cap, n, b.header, a, n.blocks[h], inputs);
  }

  lemma {:induction false} AnchoredAt(sha: Sha256d, cap: nat, n: Node, header: Header, a: AnchorProof, blk: SealedBlock,
                                      inputs: set<seq<byte>>)
    requires Placed(sha, n.headers, blk) && InPlace(sha, cap, a, blk)
    requires AnchorCloses(sha, a.accRoot, a.genFields, a.genL0, a.genL1, a.genL2, blk.root)
    requires VerifyBlockInChain(sha, header, a.accPath, a.accRoot)
    requires AnchorInputs(sha, a, header) + SealInputs(sha, n, blk) + HeaderInputs(n.headers) <= inputs
    requires !CollisionIn(sha, inputs) && !Inner(sha, ZeroHash(), inputs)
    ensures a.accRoot == blk.accRoot && header in n.headers[..blk.height] && header in n.headers
  {
    CommittedRoot(sha, cap, a, blk, inputs);
    PrefixInputs(n.headers, blk.height);
    CoveredHeader(sha, cap, n, header, a.accPath, blk, inputs);
  }

  lemma PrefixInputs(headers: seq<Header>, k: nat)
    requires k <= |headers|
    ensures HeaderInputs(headers[..k]) <= HeaderInputs(headers)
  {
    forall y | y in HeaderInputs(headers[..k]) ensures y in HeaderInputs(headers) {
      var i :| 0 <= i < k && headers[..k][i].bytes == y;
      assert headers[i].bytes == y;
    }
  }

  // ---------------------------------------------------------------- the verdict as a whole

  /** What acceptance means.  A bundle that passes under a view of the node's headers has the header of a
      block that the node sealed; if the view does not know it, its anchor's root is the one that the
      carrying block committed over it.  Where the lengths of its paths are those of the block's trees its
      transaction is a leaf of that block; where its field's path makes the turns of a place the field
      is the transaction's field there.  Only collisions and zero digests among what was hashed can
      prevent it. */
  lemma {:induction false} AcceptedMeans(sha: Sha256d, cap: nat, n: Node, b: Bundle, view: HeaderChain,
                                         fields: seq<FieldLeaf>, i: nat, inputs: set<seq<byte>>)
    returns (j: nat)
    requires Inv(sha, cap, n) && Sees(sha, n, view) && Passes(sha, b, view)
    requires !Knows(view, b.header) ==> AnchorInPlace(sha, cap, n, b)
    requires i < |fields| && TxId(sha, fields) == b.output.txid
    requires BundleInputs(sha, b) + NodeInputs(sha, n) + FieldPlaceInputs(sha, b, fields, i) <= inputs
    requires !CollisionIn(sha, inputs) && !Inner(sha, ZeroHash(), inputs)
    ensures var h := sha(b.header.bytes);
            && h in n.blocks && n.blocks[h].header == b.header && (Knows(view, b.header) || Covered(sha, n, b))
            && (LengthsFit(b, n.blocks[h], j) ==> IsLeaf(n.blocks[h], j, b.output.txid))
            && (|b.blockPath| == CeilLog2(|n.blocks[h].roots|) ==>
                j < |n.blocks[h].roots| && Folded(sha, b.output.txid, b.subtreePath) == n.blocks[h].roots[j])
    ensures SameTurns(b.mtxidPath, FieldPath(sha, fields, i)) ==> b.fields[0] == fields[i]
  {
    ProvedHeader(sha, cap, n, b, view, inputs);
    var h := sha(b.header.bytes);
    OneBlockInputs(sha, n, h);
    j := 0;
    if |b.blockPath| == CeilLog2(|n.blocks[h].roots|) {
      j := TransactionInBlock(sha, cap, b, n.blocks[h], inputs);
    }
    if SameTurns(b.mtxidPath, FieldPath(sha, fields, i)) {
      DisclosedField(sha, b, fields, i);
    }
  }

  ghost function FieldPlaceInputs(sha: Sha256d, b: Bundle, fields: seq<FieldLeaf>, i: nat): set<seq<byte>>
    requires i < |fields| && b.fields != []
  {
    {LeafBytes(b.fields[0]), LeafBytes(fields[i])} + FoldInputs(sha, LeafHash(sha, b.fields[0]), b.mtxidPath)
    + FoldInputs(sha, LeafHash(sha, fields[i]), FieldPath(sha, fields, i))
  }

  /** The paths are as long as the trees that they lead through are high. */
  ghost predicate LengthsFit(b: Bundle, blk: SealedBlock, j: nat) {
    && |b.blockPath| == CeilLog2(|blk.roots|)
    && j < |blk.trees| && blk.trees[j] != [] && |b.subtreePath| == CeilLog2(|blk.trees[j][0]|)
  }

  // ---------------------------------------------------------------- single proofs

  /** Everything hashed to check a proof. */
  ghost function ProofInputs(sha: Sha256d, p: Fabric.Proof): set<seq<byte>> {
    {p.header.bytes} + FoldInputs(sha, p.leaf, p.l1 + p.l2)
  }

  /** What VerifyOne's acceptance means: under a view of the node's headers the proof's header is that of a
      sealed block, and where the lengths are right its leaf is a transaction of that block. */
  lemma {:induction false} ValidProofMeans(sha: Sha256d, cap: nat, n: Node, p: Fabric.Proof, view: HeaderChain,
                                           inputs: set<seq<byte>>) returns (j: nat)
    requires Inv(sha, cap, n) && Sees(sha, n, view) && view.Chain? && Fabric.Valid(sha, view, p)
    requires ProofInputs(sha, p) + NodeInputs(sha, n) <= inputs && !CollisionIn(sha, inputs)
    ensures var h := sha(p.header.bytes);
            && h in n.blocks && n.blocks[h].header == p.header
            && (|p.l2| == CeilLog2(|n.blocks[h].roots|) ==>
                && j < |n.blocks[h].roots| && p.subtreeRoot == n.blocks[h].roots[j]
                && j < |n.blocks[h].trees| && n.blocks[h].trees[j] != []
                && (|p.l1| == CeilLog2(|n.blocks[h].trees[j][0]|) ==> IsLeaf(n.blocks[h], j, p.leaf)))
  {
    var h := sha(p.header.bytes);
    assert Knows(view, p.header);
    StoredHeader(sha, cap, n, p.header, inputs);
    OneBlockInputs(sha, n, h);
    FoldedConcat(sha, p.leaf, p.l1, p.l2);
    j := 0;
    if |p.l2| == CeilLog2(|n.blocks[h].roots|) {
      assert WellSealed(sha, cap, n.blocks[h]);
      j := LeadsIntoBlock(sha, cap, p.leaf, p.l1, p.l2, n.blocks[h], inputs);
      assert TreeOf(sha, n.blocks[h].trees[j], n.blocks[h].roots[j], cap);
    }
  }
}
