/** bundle/bundle.go: the proof a payer holds, the payee's local check of it, and its upkeep.
    The main result is at the end: a verifier that keeps one carrier's header accepts every
    earlier transaction that a node of any history can prove to it.  What an accepted bundle means,
    whoever made it, is in Disclosure. */
module Bundle {
  import opened Commitment
  import opened MerkleTree
  import opened Positions
  import opened FieldTree
  import opened Bits
  import opened Accumulator
  import opened Teranode
  import opened NodeRuns
  import opened Membership
  import FabricSoundness

  datatype OutputRef = OutputRef(txid: Hash, vout: nat)

  datatype AnchorProof = AnchorProof(
    accRoot: Hash, accPath: seq<PathElem>, genFields: seq<FieldLeaf>,
    genL0: seq<PathElem>, genL1: seq<PathElem>, genL2: seq<PathElem>,
    carryingRoot: Hash, carryingHeader: Header)

  datatype Bundle = Bundle(
    output: OutputRef, fields: seq<FieldLeaf>, mtxidPath: seq<PathElem>,
    subtreePath: seq<PathElem>, blockPath: seq<PathElem>, header: Header, anchor: Option<AnchorProof>)

  // ---------------------------------------------------------------- the payee's check

  const MAX_SUBTREE_DEPTH := 20

  datatype Reason = Accepted | DepthOverflow | L0 | L3Bind | Chainless

  predicate DepthOk(b: Bundle) {
    |b.mtxidPath| + |b.subtreePath| + |b.blockPath| <= MAX_DEPTH && |b.subtreePath| <= MAX_SUBTREE_DEPTH
  }

  /** The revealed field is part of the transaction. */
  predicate FieldBinds(sha: Sha256d, b: Bundle) {
    b.fields != [] && Folded(sha, LeafHash(sha, b.fields[0]), b.mtxidPath) == b.output.txid
  }

  /** The transaction is part of the block with this header. */
  predicate BlockBinds(sha: Sha256d, b: Bundle) {
    Folded(sha, b.output.txid, b.subtreePath + b.blockPath) == HeaderMerkleRoot(b.header)
  }

  predicate Knows(view: HeaderChain, h: Header) { view.Chain? && view.contains(h) }

  predicate AnchorBinds(sha: Sha256d, a: AnchorProof, view: HeaderChain) {
    && Knows(view, a.carryingHeader) && HeaderMerkleRoot(a.carryingHeader) == a.carryingRoot
    && AnchorCloses(sha, a.accRoot, a.genFields, a.genL0, a.genL1, a.genL2, a.carryingRoot)
  }

  /** The anchor proves the header to a view that need not know it. */
  predicate AnchorProves(sha: Sha256d, b: Bundle, view: HeaderChain) {
    && b.anchor.Some? && AnchorBinds(sha, b.anchor.value, view)
    && VerifyBlockInChain(sha, b.header, b.anchor.value.accPath, b.anchor.value.accRoot)
  }

  predicate HeaderProved(sha: Sha256d, b: Bundle, view: HeaderChain) {
    Knows(view, b.header) || AnchorProves(sha, b, view)
  }

  method AnchorBindsToChain(sha: Sha256d, a: AnchorProof, view: HeaderChain) returns (ok: bool)
    ensures ok == AnchorBinds(sha, a, view)
  {
    if view.NoChain? {
      return false;
    }
    if !view.contains(a.carryingHeader) {
      return false;
    }
    if HeaderMerkleRoot(a.carryingHeader) != a.carryingRoot {
      return false;
    }
    ok := VerifyAnchor(sha, a.accRoot, a.genFields, a.genL0, a.genL1, a.genL2, a.carryingRoot);
  }

  /** Accepts exactly the bundles that pass every check, and names the first check that fails. */
  method Verify(sha: Sha256d, b: Bundle, view: HeaderChain) returns (ok: bool, depth: nat, reason: Reason)
    ensures ok <==> DepthOk(b) && FieldBinds(sha, b) && BlockBinds(sha, b) && HeaderProved(sha, b, view)
    ensures depth == |b.subtreePath| + |b.blockPath|
    ensures reason.Accepted? <==> ok
    ensures reason.DepthOverflow? <==> |b.mtxidPath| + depth > 255 || |b.subtreePath| > 20
    ensures reason.L0? <==> DepthOk(b) && !FieldBinds(sha, b)
    ensures reason.L3Bind? <==> DepthOk(b) && FieldBinds(sha, b) && !BlockBinds(sha, b)
  {
    depth := |b.subtreePath| + |b.blockPath|;
    if |b.mtxidPath| + depth > MAX_DEPTH || |b.subtreePath| > MAX_SUBTREE_DEPTH {
      return false, depth, DepthOverflow;
    }
    if |b.fields| == 0 {
      return false, depth, L0;
    }
    var mtxid := Fold(sha, LeafHash(sha, b.fields[0]), b.mtxidPath);
    if mtxid != b.output.txid {
      return false, depth, L0;
    }
    var subtreeRoot := Fold(sha, b.output.txid, b.subtreePath);
    var blockRoot := Fold(sha, subtreeRoot, b.blockPath);
    FoldedConcat(sha, b.output.txid, b.subtreePath, b.blockPath);
    if blockRoot != HeaderMerkleRoot(b.header) {
      return false, depth, L3Bind;
    }
    if view.Chain? && view.contains(b.header) {
      return true, depth, Accepted;
    }
    if b.anchor.Some? && view.Chain? {
      var binds := AnchorBindsToChain(sha, b.anchor.value, view);
      if binds && VerifyBlockInChain(sha, b.header, b.anchor.value.accPath, b.anchor.value.accRoot) {
        return true, depth, Accepted;
      }
    }
    return false, depth, Chainless;
  }

  method NeedsReanchor(sha: Sha256d, b: Bundle, view: HeaderChain) returns (needed: bool)
    ensures needed <==> view.Chain? && !HeaderProved(sha, b, view)
  {
    if view.NoChain? {
      return false;
    }
    if view.contains(b.header) {
      return false;
    }
    if b.anchor.Some? {
      var binds := AnchorBindsToChain(sha, b.anchor.value, view);
      if binds && VerifyBlockInChain(sha, b.header, b.anchor.value.accPath, b.anchor.value.accRoot) {
        return false;
      }
    }
    return true;
  }

  // ---------------------------------------------------------------- building and refreshing

  /** The three parts of a bundle that come from the node. */
  datatype Core = Core(subtreePath: seq<PathElem>, blockPath: seq<PathElem>, header: Header)

  function CoreOf(sha: Sha256d, n: Node, t: Hash): Core
    requires t in n.txIndex && EntryOk(n, t, n.txIndex[t])
    requires SubtreeRootOf(sha, n, t, n.txIndex[t]) in n.blocks[n.txIndex[t].blockHash].roots
  {
    var e := n.txIndex[t];
    var b := n.blocks[e.blockHash];
    Core(L1Of(sha, n, t, e), L2Of(sha, b, SubtreeRootOf(sha, n, t, e)), b.header)
  }

  /** The node can serve t. */
  ghost predicate Serves(sha: Sha256d, n: Node, t: Hash) {
    && t in n.txIndex && EntryOk(n, t, n.txIndex[t])
    && SubtreeRootOf(sha, n, t, n.txIndex[t]) in n.blocks[n.txIndex[t].blockHash].roots
  }

  lemma IndexedServes(sha: Sha256d, cap: nat, n: Node, t: Hash)
    requires Inv(sha, cap, n) && t in n.txIndex && EntryOk(n, t, n.txIndex[t])
    ensures Serves(sha, n, t)
  {
    EntryServes(sha, cap, n, t, n.txIndex[t]);
  }

  /** What a core has to do with its transaction. */
  lemma CoreBinds(sha: Sha256d, cap: nat, n: Node, t: Hash)
    requires cap > 0 && Inv(sha, cap, n) && Serves(sha, n, t)
    ensures var c := CoreOf(sha, n, t);
            && Folded(sha, t, c.subtreePath + c.blockPath) == HeaderMerkleRoot(c.header)
            && |c.subtreePath| <= CeilLog2(cap)
            && |c.blockPath| == CeilLog2(|n.blocks[n.txIndex[t].blockHash].roots|)
            && sha(c.header.bytes) == n.txIndex[t].blockHash
  {
    var e, c := n.txIndex[t], CoreOf(sha, n, t);
    var b := n.blocks[e.blockHash];
    EntryServes(sha, cap, n, t, e);
    RootServes(sha, cap, b, FirstIndex(b.roots, SubtreeRootOf(sha, n, t, e)));
    FoldedConcat(sha, t, c.subtreePath, c.blockPath);
  }

  /** SubtreePathFor, LocateTx, BlockPathFor and HeaderFor in a row, as Build and Reanchor call them. */
  method Fetch(sha: Sha256d, txid: Hash, src: MockNode) returns (r: Result<Core>)
    requires src.Valid(sha) && Indexed(src.State())
    ensures r.Err? <==> txid !in src.txIndex
    ensures r.Ok? ==> Serves(sha, src.State(), txid) && r.value == CoreOf(sha, src.State(), txid)
  {
    var l1 := src.SubtreePathFor(sha, txid);
    if l1.Err? {
      return Err;
    }
    IndexedServes(sha, src.subtreeSize, src.State(), txid);
    var blockHash := src.LocateTx(txid);
    var l2 := src.BlockPathFor(sha, l1.value.1, blockHash.value);
    if l2.Err? {
      return Err;
    }
    var hdr := src.HeaderFor(blockHash.value);
    return Ok(Core(l1.value.0, l2.value.0, hdr.value));
  }

  function Built(sha: Sha256d, n: Node, out: OutputRef, fields: seq<FieldLeaf>, i: nat): Bundle
    requires i < |fields| && Serves(sha, n, out.txid)
  {
    var c := CoreOf(sha, n, out.txid);
    Bundle(out, [fields[i]], FieldPath(sha, fields, i), c.subtreePath, c.blockPath, c.header, None)
  }

  /** Discloses one field; fails unless the fields are those of the output's transaction and the
      node knows it. */
  method Build(sha: Sha256d, out: OutputRef, fields: seq<FieldLeaf>, revealIndex: byte, src: MockNode)
    returns (r: Result<Bundle>)
    requires src.Valid(sha) && Indexed(src.State())
    ensures r.Ok? <==> revealIndex as nat < |fields| && TxId(sha, fields) == out.txid && out.txid in src.txIndex
    ensures r.Ok? ==> Serves(sha, src.State(), out.txid)
                      && r.value == Built(sha, src.State(), out, fields, revealIndex as nat)
  {
    var l0 := MTxIDPath(sha, fields, revealIndex);
    if l0.Err? {
      return Err;
    }
    if l0.value.2 != out.txid {
      return Err;
    }
    var core := Fetch(sha, out.txid, src);
    if core.Err? {
      return Err;
    }
    return Ok(Bundle(out, [fields[revealIndex as nat]], l0.value.1, core.value.subtreePath, core.value.blockPath,
                     core.value.header, None));
  }

  /** A bundle in the payer's hands; Reanchor rewrites the three fields that come from the node. */
  class HeldBundle {
    const output: OutputRef
    const fields: seq<FieldLeaf>
    const mtxidPath: seq<PathElem>
    const anchor: Option<AnchorProof>
    var subtreePath: seq<PathElem>
    var blockPath: seq<PathElem>
    var header: Header

    function Value(): Bundle
      reads this
    {
      Bundle(output, fields, mtxidPath, subtreePath, blockPath, header, anchor)
    }

    constructor (b: Bundle)
      ensures Value() == b
    {
      output, fields, mtxidPath, anchor := b.output, b.fields, b.mtxidPath, b.anchor;
      subtreePath, blockPath, header := b.subtreePath, b.blockPath, b.header;
    }

    method Reanchor(sha: Sha256d, src: MockNode) returns (ok: bool)
      requires src.Valid(sha) && Indexed(src.State())
      modifies this
      ensures ok <==> output.txid in src.txIndex
      ensures !ok ==> Value() == old(Value())
      ensures ok ==> Serves(sha, src.State(), output.txid)
                     && Value() == Refreshed(old(Value()), CoreOf(sha, src.State(), output.txid))
    {
      var core := Fetch(sha, output.txid, src);
      if core.Err? {
        return false;
      }
      subtreePath := core.value.subtreePath;
      blockPath := core.value.blockPath;
      header := core.value.header;
      return true;
    }
  }

  function Refreshed(b: Bundle, c: Core): Bundle {
    b.(subtreePath := c.subtreePath, blockPath := c.blockPath, header := c.header)
  }

  // ---------------------------------------------------------------- results

  /** After any run, a transaction the node knew is still served: by its old block or a new one. */
  lemma StillServes(sha: Sha256d, cap: nat, n: Node, after: seq<Op>, t: Hash)
    requires cap > 0 && Inv(sha, cap, n) && Indexed(n) && Distinct(Run(sha, cap, n, after).chain) && t in n.txIndex
    ensures var n' := Run(sha, cap, n, after);
            && Inv(sha, cap, n') && Serves(sha, n, t) && Serves(sha, n', t)
            && (n'.txIndex[t].blockHash in n.blocks <==> !Reseals(sha, cap, n, after, t))
            && (!Reseals(sha, cap, n, after, t) ==> SameCore(n, n', t))
  {
    var n' := Run(sha, cap, n, after);
    RunKeepsInv(sha, cap, n, after);
    RunKeepsIndexed(sha, cap, n, after);
    assert EntryOk(n, t, n.txIndex[t]);
    if Reseals(sha, cap, n, after, t) {
      ResealMoves(sha, cap, n, after, t);
    } else {
      FrozenCore(sha, cap, n, after, t);
    }
    assert EntryOk(n', t, n'.txIndex[t]);
    IndexedServes(sha, cap, n, t);
    IndexedServes(sha, cap, n', t);
  }

  /** Refreshing a bundle changes nothing exactly if the transaction was not sealed again since:
      not when blocks are added, not when its own block is orphaned, and always when it was. */
  lemma ReanchorIsIdentity(sha: Sha256d, cap: nat, before: seq<Op>, after: seq<Op>, out: OutputRef,
                           fields: seq<FieldLeaf>, i: nat)
    requires cap > 0 && i < |fields|
    requires Distinct(Run(sha, cap, Reached(sha, cap, before), after).chain)
    requires out.txid in Reached(sha, cap, before).txIndex
    ensures var n, n' := Reached(sha, cap, before), Run(sha, cap, Reached(sha, cap, before), after);
            && Serves(sha, n, out.txid) && Serves(sha, n', out.txid)
            && (Refreshed(Built(sha, n, out, fields, i), CoreOf(sha, n', out.txid)) == Built(sha, n, out, fields, i)
                <==> !Reseals(sha, cap, n, after, out.txid))
  {
    var n := Reached(sha, cap, before);
    var n' := Run(sha, cap, n, after);
    ReachedOk(sha, cap, before);
    RunKeepsInv(sha, cap, n, after);
    DistinctPrefix(n.chain, n'.chain);
    StillServes(sha, cap, n, after, out.txid);
    if Reseals(sha, cap, n, after, out.txid) {
      CoreBinds(sha, cap, n, out.txid);
      CoreBinds(sha, cap, n', out.txid);
    }
  }

  /** So the promise that paths never change while their block is not orphaned is broken by any
      seal that has the transaction again: its old block is on the best chain as before, and the
      refreshed bundle is another one. */
  lemma MovedThoughOnChain(sha: Sha256d, cap: nat, before: seq<Op>, txids: seq<Hash>, commit: bool, out: OutputRef,
                           fields: seq<FieldLeaf>, i: nat)
    requires cap > 0 && i < |fields| && out.txid in txids
    requires Distinct(Run(sha, cap, Reached(sha, cap, before), [Seal(txids, commit)]).chain)
    requires out.txid in Reached(sha, cap, before).txIndex
    requires OnBestChain(Reached(sha, cap, before), Reached(sha, cap, before).txIndex[out.txid].blockHash)
    ensures var n, n' := Reached(sha, cap, before), Run(sha, cap, Reached(sha, cap, before), [Seal(txids, commit)]);
            && Serves(sha, n, out.txid) && Serves(sha, n', out.txid)
            && ContainsIn(sha, n', Built(sha, n, out, fields, i).header)
            && Refreshed(Built(sha, n, out, fields, i), CoreOf(sha, n', out.txid)) != Built(sha, n, out, fields, i)
  {
    var n, op := Reached(sha, cap, before), Seal(txids, commit);
    ReanchorIsIdentity(sha, cap, before, [op], out, fields, i);
    assert [op][1..] == [];
    assert Run(sha, cap, n, [op]) == Apply(sha, cap, n, op);
    ReachedOk(sha, cap, before);
    CoreBinds(sha, cap, n, out.txid);
  }

  /** The depth limits hold by themselves: paths of trees with fewer than 2^63 leaves and of
      subtrees of at most 2^20 leaves never reach them. */
  lemma DepthsFit(a: nat, b: nat, cap: nat)
    requires a < WORD / 2 && b < WORD / 2 && 1 <= cap <= 0x10_0000
    ensures CeilLog2(cap) <= MAX_SUBTREE_DEPTH
    ensures CeilLog2(a) + CeilLog2(cap) + CeilLog2(b) <= MAX_DEPTH
  {
    CapDepth(cap);
    Log2OfWord(a);
    Log2OfWord(b);
  }

  lemma CapDepth(cap: nat)
    requires 1 <= cap <= 0x10_0000
    ensures CeilLog2(cap) <= 20
  {
    Shift8(0, 0);
    Shift8(0, 8);
    Shift4(0, 16);
    CeilLog2Least(cap, 20);
  }

  lemma Log2OfWord(a: nat)
    requires a < WORD
    ensures CeilLog2(a) <= 64
  {
    if a > 1 {
      BitLenOfWord(a - 1);
    }
  }

  /** A freshly built bundle is accepted by every view that knows its header. */
  lemma BuiltVerifies(sha: Sha256d, cap: nat, n: Node, out: OutputRef, fields: seq<FieldLeaf>, i: nat)
    requires 1 <= cap <= 0x10_0000 && Inv(sha, cap, n) && Serves(sha, n, out.txid)
    requires i < |fields| < WORD / 2 && TxId(sha, fields) == out.txid
    requires |n.blocks[n.txIndex[out.txid].blockHash].roots| < WORD / 2
    ensures var b := Built(sha, n, out, fields, i); DepthOk(b) && FieldBinds(sha, b) && BlockBinds(sha, b)
  {
    CoreBinds(sha, cap, n, out.txid);
    PathFolds(sha, FieldDigests(sha, fields), i);
    PathDepth(sha, FieldDigests(sha, fields), i);
    DepthsFit(|fields|, |n.blocks[n.txIndex[out.txid].blockHash].roots|, cap);
  }

  /** ... and a refreshed one is what the node would build now. */
  lemma RefreshedVerifies(sha: Sha256d, cap: nat, n: Node, b: Bundle, fields: seq<FieldLeaf>, i: nat)
    requires 1 <= cap <= 0x10_0000 && Inv(sha, cap, n) && Serves(sha, n, b.output.txid)
    requires i < |fields| < WORD / 2 && TxId(sha, fields) == b.output.txid
    requires |n.blocks[n.txIndex[b.output.txid].blockHash].roots| < WORD / 2
    requires b.fields == [fields[i]] && b.mtxidPath == FieldPath(sha, fields, i)
    ensures var now := Refreshed(b, CoreOf(sha, n, b.output.txid));
            && now == Built(sha, n, b.output, fields, i).(anchor := b.anchor)
            && DepthOk(now) && FieldBinds(sha, now) && BlockBinds(sha, now)
            && now.header == n.blocks[n.txIndex[b.output.txid].blockHash].header
  {
    BuiltVerifies(sha, cap, n, b.output, fields, i);
  }

  /** The anchor that the node's answers for a carrier and an earlier block make up. */
  function AnchorFrom(sha: Sha256d, n: Node, target: SealedBlock, carrier: SealedBlock): AnchorProof
    requires carrier.accPrefix <= |n.headers| && target.height < carrier.accPrefix
    requires carrier.trees != [] && carrier.trees[0] != [] && carrier.trees[0][0] != [] && carrier.roots != []
  {
    var fields := GenFields(carrier.accRoot);
    AnchorProof(carrier.accRoot, AccPath(sha, PrefixLeaves(sha, n, carrier), target.height), fields,
                FieldPath(sha, fields, 1), PathOf(sha, carrier.trees[0][0], 0), PathOf(sha, carrier.roots, 0),
                carrier.root, carrier.header)
  }

  /** The committed root is found in the second field: the marker has another length. */
  lemma CarrierField(accRoot: Hash)
    ensures Carrier(GenFields(accRoot), accRoot) == Some(GenFields(accRoot)[1])
  {
    var fields := GenFields(accRoot);
    assert |fields[0].bytes| == 15;
    assert fields[1..][0] == fields[1];
    assert Carrier(fields, accRoot) == Carrier(fields[1..], accRoot);
  }

  /** The generation transaction of a carrier leads from the accumulator root to its header. */
  lemma GenTxCloses(sha: Sha256d, cap: nat, b: SealedBlock)
    requires 1 <= cap <= 0x10_0000 && WellSealed(sha, cap, b) && b.isCarrier && |b.roots| < WORD / 2
    ensures AnchorCloses(sha, b.accRoot, b.genFields, FieldPath(sha, b.genFields, 1), PathOf(sha, b.trees[0][0], 0),
                         PathOf(sha, b.roots, 0), b.root)
  {
    var fields := b.genFields;
    var l0, l1, l2 := FieldPath(sha, fields, 1), PathOf(sha, b.trees[0][0], 0), PathOf(sha, b.roots, 0);
    var leaf := LeafHash(sha, fields[1]);
    assert TreeOf(sha, b.trees[0], b.roots[0], cap);
    CarrierField(b.accRoot);
    SpanFolds(sha, fields, 1, b.trees[0][0], 0, b.roots, 0);
    GenTxDepth(sha, cap, fields, b.trees[0][0], b.roots);
  }

  lemma GenTxDepth(sha: Sha256d, cap: nat, fields: seq<FieldLeaf>, leaves: seq<Hash>, roots: seq<Hash>)
    requires |fields| == 2 && 0 < |leaves| <= cap <= 0x10_0000 && 0 < |roots| < WORD / 2
    ensures |FieldPath(sha, fields, 1)| + |PathOf(sha, leaves, 0)| + |PathOf(sha, roots, 0)| <= MAX_DEPTH
  {
    PathDepth(sha, FieldDigests(sha, fields), 1);
    PathDepth(sha, leaves, 0);
    PathDepth(sha, roots, 0);
    CeilLog2Monotone(|leaves|, cap);
    DepthsFit(2, |roots|, cap);
  }

  /** A header the carrier's accumulator covers is proved by its path. */
  lemma HeaderInAccumulator(sha: Sha256d, cap: nat, n: Node, target: SealedBlock, carrier: SealedBlock)
    requires Placed(sha, n.headers, target) && Placed(sha, n.headers, carrier) && |n.headers| < WORD
    requires carrier.isCarrier && carrier.accPrefix == carrier.height && target.height < carrier.height
    ensures VerifyBlockInChain(sha, target.header, AccPath(sha, PrefixLeaves(sha, n, carrier), target.height),
                               carrier.accRoot)
  {
    var leaves := PrefixLeaves(sha, n, carrier);
    AccPathFolds(sha, leaves, target.height);
    AccPathFits(sha, leaves, target.height);
    assert leaves[target.height] == sha(target.header.bytes);
  }

  /** The view of a verifier that keeps only some headers. */
  function StaticHeaderChain(sha: Sha256d, kept: seq<Header>): HeaderChain {
    Chain((h: Header) => sha(h.bytes) in Digests(sha, kept))
  }

  /** Both header views look at nothing but a header's digest, as batch soundness asks of a view. */
  lemma ViewsAreDigestOnly(sha: Sha256d, n: Node, kept: seq<Header>)
    ensures FabricSoundness.DigestOnly(sha, NodeView(sha, n))
    ensures FabricSoundness.DigestOnly(sha, StaticHeaderChain(sha, kept))
  {
  }

  /** Anchors: whatever the history, the anchor for a carrier and any block before it convinces
      every view that knows the carrier's header. */
  lemma AnchorConvinces(sha: Sha256d, cap: nat, n: Node, target: SealedBlock, carrier: SealedBlock, view: HeaderChain)
    requires 1 <= cap <= 0x10_0000 && |n.headers| < WORD && Knows(view, carrier.header)
    requires WellSealed(sha, cap, carrier) && Placed(sha, n.headers, carrier) && Placed(sha, n.headers, target)
    requires carrier.isCarrier && target.height < carrier.height && |carrier.roots| < WORD / 2
    requires carrier.trees[0] != [] && carrier.trees[0][0] != []
    ensures var a := AnchorFrom(sha, n, target, carrier);
            && AnchorBinds(sha, a, view)
            && VerifyBlockInChain(sha, target.header, a.accPath, a.accRoot)
  {
    GenTxCloses(sha, cap, carrier);
    HeaderInAccumulator(sha, cap, n, target, carrier);
  }

  /** A run with its node, a carrier in it, and a transaction in a block before the carrier. */
  ghost predicate Anchorable(sha: Sha256d, cap: nat, ops: seq<Op>, n: Node, carrier: Hash, out: OutputRef,
                             fields: seq<FieldLeaf>, i: nat) {
    && 1 <= cap <= 0x10_0000 && n == Reached(sha, cap, ops) && |n.headers| < WORD
    && i < |fields| < WORD / 2 && TxId(sha, fields) == out.txid && out.txid in n.txIndex
    && (forall h :: h in n.blocks ==> |n.blocks[h].roots| < WORD / 2)
    && carrier in n.blocks && n.blocks[carrier].isCarrier
    && n.txIndex[out.txid].blockHash in n.blocks
    && n.blocks[n.txIndex[out.txid].blockHash].height < n.blocks[carrier].height
  }

  /** The pruned verifier.  After any run of sealing, orphaning and restoring, for any carrier and
      any transaction in a block before it, the bundle built from the node with the anchor made
      from its answers passes Verify against every view that knows the carrier's header, one that
      holds nothing else among them.  Only a collision between header hashes, or a header that
      hashes to zero, can prevent it. */
  lemma PrunedVerifier(sha: Sha256d, cap: nat, ops: seq<Op>, n: Node, carrier: Hash, out: OutputRef,
                       fields: seq<FieldLeaf>, i: nat, view: HeaderChain)
    requires Anchorable(sha, cap, ops, n, carrier, out, fields, i)
    ensures Knows(StaticHeaderChain(sha, [n.blocks[carrier].header]), n.blocks[carrier].header)
    ensures || ZeroHash() in n.chain || CollisionIn(sha, HeaderInputs(n.headers))
            || (Knows(view, n.blocks[carrier].header) ==>
                PassesAnchored(sha, n, n.blocks[carrier], out, fields, i, view))
  {
    ReachedOk(sha, cap, ops);
    ReachedDistinct(sha, cap, ops);
    assert Digests(sha, [n.blocks[carrier].header])[0] == sha(n.blocks[carrier].header.bytes);
    if ZeroHash() !in n.chain && !CollisionIn(sha, HeaderInputs(n.headers)) && Knows(view, n.blocks[carrier].header) {
      assert EntryOk(n, out.txid, n.txIndex[out.txid]);
      AnchoredPasses(sha, cap, n, carrier, out, fields, i, view);
    }
  }

  /** The node's own view: the headers on its best chain. */
  function NodeView(sha: Sha256d, n: Node): HeaderChain { Chain((h: Header) => ContainsIn(sha, n, h)) }

  lemma NodeKnows(sha: Sha256d, cap: nat, n: Node, h: Hash)
    requires Inv(sha, cap, n) && h in n.blocks
    ensures Knows(NodeView(sha, n), n.blocks[h].header) <==> OnBestChain(n, h)
  {
    StoredHash(sha, cap, n, h);
  }

  /** An orphaned block's bundle, anchored at a later carrier that is still on the best chain, keeps
      passing under the node's own view, which no longer has its header: NeedsReanchor does not
      report it. */
  lemma OrphanedStillPasses(sha: Sha256d, cap: nat, ops: seq<Op>, n: Node, carrier: Hash, out: OutputRef,
                            fields: seq<FieldLeaf>, i: nat)
    requires Anchorable(sha, cap, ops, n, carrier, out, fields, i)
    requires OnBestChain(n, carrier) && !OnBestChain(n, n.txIndex[out.txid].blockHash)
    ensures !Knows(NodeView(sha, n), n.blocks[n.txIndex[out.txid].blockHash].header)
    ensures || ZeroHash() in n.chain || CollisionIn(sha, HeaderInputs(n.headers))
            || PassesAnchored(sha, n, n.blocks[carrier], out, fields, i, NodeView(sha, n))
  {
    ReachedOk(sha, cap, ops);
    NodeKnows(sha, cap, n, carrier);
    NodeKnows(sha, cap, n, n.txIndex[out.txid].blockHash);
    PrunedVerifier(sha, cap, ops, n, carrier, out, fields, i, NodeView(sha, n));
  }

  lemma AnchoredPasses(sha: Sha256d, cap: nat, n: Node, carrier: Hash, out: OutputRef, fields: seq<FieldLeaf>, i: nat,
                       view: HeaderChain)
    requires 1 <= cap <= 0x10_0000 && Inv(sha, cap, n) && |n.headers| < WORD
    requires i < |fields| < WORD / 2 && TxId(sha, fields) == out.txid
    requires out.txid in n.txIndex && EntryOk(n, out.txid, n.txIndex[out.txid])
    requires forall h :: h in n.blocks ==> |n.blocks[h].roots| < WORD / 2
    requires carrier in n.blocks && n.blocks[carrier].isCarrier && Knows(view, n.blocks[carrier].header)
    requires n.blocks[n.txIndex[out.txid].blockHash].height < n.blocks[carrier].height
    ensures PassesAnchored(sha, n, n.blocks[carrier], out, fields, i, view)
  {
    IndexedServes(sha, cap, n, out.txid);
    var target, c := n.blocks[n.txIndex[out.txid].blockHash], n.blocks[carrier];
    assert TreeOf(sha, c.trees[0], c.roots[0], cap);
    BuiltVerifies(sha, cap, n, out, fields, i);
    AnchorConvinces(sha, cap, n, target, c, view);
  }

  /** The bundle for `out`, anchored at the carrier, passes Verify against the view. */
  ghost predicate PassesAnchored(sha: Sha256d, n: Node, carrier: SealedBlock, out: OutputRef, fields: seq<FieldLeaf>,
                                 i: nat, view: HeaderChain)
  {
    && i < |fields| && Serves(sha, n, out.txid)
    && var target := n.blocks[n.txIndex[out.txid].blockHash];
       && carrier.accPrefix <= |n.headers| && target.height < carrier.accPrefix
       && carrier.trees != [] && carrier.trees[0] != [] && carrier.trees[0][0] != [] && carrier.roots != []
       && var b := Built(sha, n, out, fields, i).(anchor := Some(AnchorFrom(sha, n, target, carrier)));
          DepthOk(b) && FieldBinds(sha, b) && BlockBinds(sha, b) && HeaderProved(sha, b, view)
  }
}
