/** What holds of a node after any run of SealBlock, Orphan and Restore (teranode/teranode.go:147-409). */
module NodeRuns {
  import opened Commitment
  import opened MerkleTree
  import opened Positions
  import opened Forest
  import opened Teranode
  import Fabric

  datatype Op = Seal(txids: seq<Hash>, commit: bool) | Orphan(hash: Hash) | Restore(hash: Hash)

  function Apply(sha: Sha256d, cap: nat, n: Node, op: Op): Node
    requires cap > 0
  {
    match op
    case Seal(txids, commit) => Sealed(sha, n, cap, txids, commit)
    case Orphan(hash) => n.(onBest := n.onBest[hash := false])
    case Restore(hash) => n.(onBest := n.onBest[hash := true])
  }

  function Run(sha: Sha256d, cap: nat, n: Node, ops: seq<Op>): Node
    requires cap > 0
    decreases ops
  {
    if ops == [] then n else Run(sha, cap, Apply(sha, cap, n, ops[0]), ops[1..])
  }

  lemma ApplyKeepsInv(sha: Sha256d, cap: nat, n: Node, op: Op)
    requires cap > 0 && Inv(sha, cap, n)
    ensures Inv(sha, cap, Apply(sha, cap, n, op))
    ensures n.chain <= Apply(sha, cap, n, op).chain
  {
    match op
    case Seal(txids, commit) => SealKeepsInv(sha, cap, n, txids, commit);
    case Orphan(_) =>
    case Restore(_) =>
  }

  lemma {:induction false} RunKeepsInv(sha: Sha256d, cap: nat, n: Node, ops: seq<Op>)
    requires cap > 0 && Inv(sha, cap, n)
    ensures Inv(sha, cap, Run(sha, cap, n, ops))
    ensures n.chain <= Run(sha, cap, n, ops).chain
    decreases ops
  {
    if ops != [] {
      ApplyKeepsInv(sha, cap, n, ops[0]);
      RunKeepsInv(sha, cap, Apply(sha, cap, n, ops[0]), ops[1..]);
    }
  }

  /** Every stored block is on the chain. */
  lemma StoredOnChain(sha: Sha256d, cap: nat, n: Node, h: Hash)
    requires Inv(sha, cap, n) && h in n.blocks
    ensures h in n.chain
  {
    var b := n.blocks[h];
    assert LinkAt(sha, n.chain, n.headers, b.height);
    assert n.chain[b.height] == h;
  }

  lemma ApplyKeepsIndexed(sha: Sha256d, cap: nat, n: Node, op: Op)
    requires cap > 0 && Inv(sha, cap, n) && Indexed(n) && Distinct(Apply(sha, cap, n, op).chain)
    ensures Indexed(Apply(sha, cap, n, op))
  {
    match op
    case Seal(txids, commit) =>
      if txids != [] {
        SealIsNew(sha, cap, n, txids, commit);
        SealKeepsIndexed(sha, cap, n, txids, commit);
      }
    case Orphan(_) =>
      KeepsEntries(n, Apply(sha, cap, n, op));
    case Restore(_) =>
      KeepsEntries(n, Apply(sha, cap, n, op));
  }

  lemma KeepsEntries(n: Node, n': Node)
    requires Indexed(n) && n'.blocks == n.blocks && n'.txIndex == n.txIndex
    ensures Indexed(n')
  {
    forall t | t in n'.txIndex ensures EntryOk(n', t, n'.txIndex[t]) {
      assert EntryOk(n, t, n.txIndex[t]);
    }
  }

  lemma SealIsNew(sha: Sha256d, cap: nat, n: Node, txids: seq<Hash>, commit: bool)
    requires cap > 0 && Inv(sha, cap, n) && txids != [] && Distinct(Sealed(sha, n, cap, txids, commit).chain)
    ensures NewBlock(sha, n, cap, txids, commit).hash !in n.blocks
  {
    var h := NewBlock(sha, n, cap, txids, commit).hash;
    LastIsNew(n.chain, h);
    if h in n.blocks {
      StoredOnChain(sha, cap, n, h);
    }
  }

  lemma LastIsNew(chain: seq<Hash>, h: Hash)
    requires Distinct(chain + [h])
    ensures h !in chain
  {
    var longer := chain + [h];
    forall i | 0 <= i < |chain| ensures chain[i] != h {
      assert longer[i] == chain[i] && longer[|chain|] == h;
    }
  }

  lemma DistinctPrefix(a: seq<Hash>, b: seq<Hash>)
    requires a <= b && Distinct(b)
    ensures Distinct(a)
  {
    forall i, j | 0 <= i < j < |a| ensures a[i] != a[j] {
      assert b[i] == a[i] && b[j] == a[j];
    }
  }

  /** After any run with pairwise distinct block hashes every indexed transaction is where its
      entry says. */
  lemma {:induction false} RunKeepsIndexed(sha: Sha256d, cap: nat, n: Node, ops: seq<Op>)
    requires cap > 0 && Inv(sha, cap, n) && Indexed(n) && Distinct(Run(sha, cap, n, ops).chain)
    ensures Indexed(Run(sha, cap, n, ops))
    decreases ops
  {
    if ops != [] {
      var n1 := Apply(sha, cap, n, ops[0]);
      ApplyKeepsInv(sha, cap, n, ops[0]);
      RunKeepsInv(sha, cap, n1, ops[1..]);
      DistinctPrefix(n1.chain, Run(sha, cap, n, ops).chain);
      ApplyKeepsIndexed(sha, cap, n, ops[0]);
      RunKeepsIndexed(sha, cap, n1, ops[1..]);
    }
  }

  /** The state after a run that starts with an empty node. */
  function Reached(sha: Sha256d, cap: nat, ops: seq<Op>): Node
    requires cap > 0
  {
    Run(sha, cap, EmptyNode(), ops)
  }

  lemma ReachedOk(sha: Sha256d, cap: nat, ops: seq<Op>)
    requires cap > 0
    ensures Inv(sha, cap, Reached(sha, cap, ops))
    ensures Distinct(Reached(sha, cap, ops).chain) ==> Indexed(Reached(sha, cap, ops))
  {
    RunKeepsInv(sha, cap, EmptyNode(), ops);
    if Distinct(Reached(sha, cap, ops).chain) {
      RunKeepsIndexed(sha, cap, EmptyNode(), ops);
    }
  }

  // ---------------------------------------------------------------- headers are pairwise distinct

  /** Equal headers would have equal predecessors, and so on back to a header that names no
      predecessor: although only 16 bits of the height are kept, the previous-hash links keep
      headers apart. */
  lemma {:induction false} HeadersDiffer(sha: Sha256d, chain: seq<Hash>, headers: seq<Header>, i: nat, j: nat)
    requires Linked(sha, chain, headers) && i < j < |chain|
    requires ZeroHash() !in chain && !CollisionIn(sha, HeaderInputs(headers))
    ensures headers[i] != headers[j] && chain[i] != chain[j]
    decreases i
  {
    assert LinkAt(sha, chain, headers, i) && LinkAt(sha, chain, headers, j);
    if i > 0 {
      HeadersDiffer(sha, chain, headers, i - 1, j - 1);
    }
    assert headers[i] != headers[j];
    var x, y := headers[i].bytes, headers[j].bytes;
    assert x in HeaderInputs(headers) && y in HeaderInputs(headers) && x != y;
  }

  /** In every reachable node the headers are pairwise distinct, and so are their hashes, unless a
      header hashes to zero or two of them collide. */
  lemma ReachedDistinct(sha: Sha256d, cap: nat, ops: seq<Op>)
    requires cap > 0
    ensures var n := Reached(sha, cap, ops);
            || (Distinct(n.chain) && forall i, j :: 0 <= i < j < |n.headers| ==> n.headers[i] != n.headers[j])
            || ZeroHash() in n.chain
            || CollisionIn(sha, HeaderInputs(n.headers))
  {
    var n := Reached(sha, cap, ops);
    ReachedOk(sha, cap, ops);
    if ZeroHash() !in n.chain && !CollisionIn(sha, HeaderInputs(n.headers)) {
      forall i, j | 0 <= i < j < |n.chain| ensures n.chain[i] != n.chain[j] && n.headers[i] != n.headers[j] {
        HeadersDiffer(sha, n.chain, n.headers, i, j);
      }
    }
  }

  // ---------------------------------------------------------------- served proofs

  /** What ServeInto gives for an indexed transaction, as a proof for the fabric verifier. */
  function ServedProof(sha: Sha256d, n: Node, t: Hash): Fabric.Proof
    requires t in n.txIndex && EntryOk(n, t, n.txIndex[t])
    requires n.txIndex[t].subtree < |n.blocks[n.txIndex[t].blockHash].roots|
  {
    var e := n.txIndex[t];
    var b := n.blocks[e.blockHash];
    Fabric.Proof(t, L1Of(sha, n, t, e), SubtreeRootOf(sha, n, t, e), PathOf(sha, b.roots, e.subtree), b.header)
  }

  predicate OnBestChain(n: Node, h: Hash) { h in n.onBest && n.onBest[h] }

  lemma StoredHash(sha: Sha256d, cap: nat, n: Node, h: Hash)
    requires Inv(sha, cap, n) && h in n.blocks
    ensures n.blocks[h].hash == h && sha(n.blocks[h].header.bytes) == h
    ensures ContainsIn(sha, n, n.blocks[h].header) <==> OnBestChain(n, h)
  {
    assert WellSealed(sha, cap, n.blocks[h]);
  }

  lemma ServedProofVerifies(sha: Sha256d, cap: nat, n: Node, t: Hash)
    requires cap > 0 && Inv(sha, cap, n) && t in n.txIndex && EntryOk(n, t, n.txIndex[t])
    ensures n.txIndex[t].subtree < |n.blocks[n.txIndex[t].blockHash].roots|
    ensures Fabric.L1Closes(sha, ServedProof(sha, n, t)) && Fabric.L2Closes(sha, ServedProof(sha, n, t))
    ensures |ServedProof(sha, n, t).l1| <= CeilLog2(cap)
  {
    var e := n.txIndex[t];
    EntryServes(sha, cap, n, t, e);
    RootServes(sha, cap, n.blocks[e.blockHash], e.subtree);
  }

  /** In every reachable node every indexed transaction has a proof, and the verifier that trusts
      the node's chain accepts it exactly while the transaction's block is on the best chain. */
  lemma ServedProofsVerify(sha: Sha256d, cap: nat, ops: seq<Op>, n: Node, t: Hash)
    requires cap > 0 && n == Reached(sha, cap, ops) && Distinct(n.chain) && t in n.txIndex
    ensures EntryOk(n, t, n.txIndex[t]) && n.txIndex[t].subtree < |n.blocks[n.txIndex[t].blockHash].roots|
    ensures (Fabric.Valid(sha, Chain(h => ContainsIn(sha, n, h)), ServedProof(sha, n, t))
             <==> OnBestChain(n, n.txIndex[t].blockHash))
    ensures |ServedProof(sha, n, t).l1| <= CeilLog2(cap)
  {
    ReachedOk(sha, cap, ops);
    assert EntryOk(n, t, n.txIndex[t]);
    ServedProofVerifies(sha, cap, n, t);
    StoredHash(sha, cap, n, n.txIndex[t].blockHash);
  }

  /** Orphaning a block takes its header off the chain and restoring it puts it back; no other
      block's header is affected. */
  lemma OrphanThenRestore(sha: Sha256d, cap: nat, n: Node, h: Hash, other: Hash)
    requires cap > 0 && Inv(sha, cap, n) && h in n.blocks && other in n.blocks && other != h
    ensures var gone := Apply(sha, cap, n, Orphan(h));
            && !ContainsIn(sha, gone, n.blocks[h].header)
            && ContainsIn(sha, Apply(sha, cap, gone, Restore(h)), n.blocks[h].header)
            && (ContainsIn(sha, gone, n.blocks[other].header) <==> ContainsIn(sha, n, n.blocks[other].header))
  {
    var gone := Apply(sha, cap, n, Orphan(h));
    ApplyKeepsInv(sha, cap, n, Orphan(h));
    ApplyKeepsInv(sha, cap, gone, Restore(h));
    StoredHash(sha, cap, gone, h);
    StoredHash(sha, cap, Apply(sha, cap, gone, Restore(h)), h);
    StoredHash(sha, cap, n, other);
    StoredHash(sha, cap, gone, other);
  }

  // ---------------------------------------------------------------- which blocks are on the best chain

  /** A block just sealed is stored and on the best chain, and it is a carrier exactly if it was to
      commit to the headers. */
  lemma SealedOnBest(sha: Sha256d, cap: nat, n: Node, txids: seq<Hash>, commit: bool)
    requires cap > 0 && txids != []
    ensures var b, n' := NewBlock(sha, n, cap, txids, commit), Sealed(sha, n, cap, txids, commit);
            && b.hash in n'.blocks && n'.blocks[b.hash] == b && (b.isCarrier <==> commit)
            && OnBestChain(n', b.hash) && ContainsIn(sha, n', b.header)
  {
  }

  ghost predicate Restored(ops: seq<Op>, h: Hash) { exists k :: 0 <= k < |ops| && ops[k] == Restore(h) }

  /** Operation k orphans the block, and none after it restores it. */
  ghost predicate Unrestored(ops: seq<Op>, h: Hash, k: nat) {
    k < |ops| && ops[k] == Orphan(h) && !Restored(ops[k + 1..], h)
  }

  ghost predicate LeftOrphaned(ops: seq<Op>, h: Hash) { exists k: nat :: Unrestored(ops, h, k) }

  lemma RestoredFirst(ops: seq<Op>, h: Hash)
    requires ops != []
    ensures Restored(ops, h) <==> ops[0] == Restore(h) || Restored(ops[1..], h)
  {
    if k :| 0 <= k < |ops[1..]| && ops[1..][k] == Restore(h) {
      assert ops[k + 1] == Restore(h);
    }
    if k :| 0 <= k < |ops| && ops[k] == Restore(h) {
      assert k > 0 ==> ops[1..][k - 1] == Restore(h);
    }
  }

  lemma LeftOrphanedFirst(ops: seq<Op>, h: Hash)
    requires ops != []
    ensures LeftOrphaned(ops, h) <==> (ops[0] == Orphan(h) && !Restored(ops[1..], h)) || LeftOrphaned(ops[1..], h)
  {
    if ops[0] == Orphan(h) && !Restored(ops[1..], h) {
      assert Unrestored(ops, h, 0);
    }
    if k: nat :| Unrestored(ops[1..], h, k) {
      assert ops[k + 1 + 1..] == ops[1..][k + 1..];
      assert Unrestored(ops, h, k + 1);
    }
    if k: nat :| Unrestored(ops, h, k) {
      if k > 0 {
        assert ops[k + 1..] == ops[1..][k - 1 + 1..];
        assert Unrestored(ops[1..], h, k - 1);
      }
    }
  }

  /** What a run makes of a stored block and of its mark. */
  lemma {:induction false} RunMarks(sha: Sha256d, cap: nat, n: Node, ops: seq<Op>, h: Hash)
    requires cap > 0 && Inv(sha, cap, n) && h in n.blocks && Distinct(Run(sha, cap, n, ops).chain)
    ensures var n' := Run(sha, cap, n, ops);
            && h in n'.blocks && n'.blocks[h] == n.blocks[h]
            && (OnBestChain(n', h) <==> (OnBestChain(n, h) || Restored(ops, h)) && !LeftOrphaned(ops, h))
    decreases ops
  {
    if ops != [] {
      var n1 := Apply(sha, cap, n, ops[0]);
      ApplyKeepsInv(sha, cap, n, ops[0]);
      RunKeepsInv(sha, cap, n1, ops[1..]);
      DistinctPrefix(n1.chain, Run(sha, cap, n, ops).chain);
      ApplyMarks(sha, cap, n, ops[0], h);
      RunMarks(sha, cap, n1, ops[1..], h);
      RestoredFirst(ops, h);
      LeftOrphanedFirst(ops, h);
    } else {
      assert !LeftOrphaned(ops, h);
    }
  }

  lemma ApplyMarks(sha: Sha256d, cap: nat, n: Node, op: Op, h: Hash)
    requires cap > 0 && Inv(sha, cap, n) && h in n.blocks && Distinct(Apply(sha, cap, n, op).chain)
    ensures var n' := Apply(sha, cap, n, op);
            && h in n'.blocks && n'.blocks[h] == n.blocks[h]
            && (OnBestChain(n', h) <==> op == Restore(h) || (op != Orphan(h) && OnBestChain(n, h)))
  {
    match op
    case Seal(txids, commit) =>
      if txids != [] {
        SealMarks(sha, cap, n, txids, commit, h);
      }
    case Orphan(_) =>
    case Restore(_) =>
  }

  lemma SealMarks(sha: Sha256d, cap: nat, n: Node, txids: seq<Hash>, commit: bool, h: Hash)
    requires cap > 0 && Inv(sha, cap, n) && h in n.blocks && txids != []
    requires Distinct(Sealed(sha, n, cap, txids, commit).chain)
    ensures var n' := Sealed(sha, n, cap, txids, commit);
            h in n'.blocks && n'.blocks[h] == n.blocks[h] && (OnBestChain(n', h) <==> OnBestChain(n, h))
  {
    SealIsNew(sha, cap, n, txids, commit);
  }

  lemma {:induction false} RunConcat(sha: Sha256d, cap: nat, n: Node, a: seq<Op>, b: seq<Op>)
    requires cap > 0
    ensures Run(sha, cap, n, a + b) == Run(sha, cap, Run(sha, cap, n, a), b)
    decreases a
  {
    if a == [] {
      assert a + b == b;
    } else {
      assert (a + b)[0] == a[0] && (a + b)[1..] == a[1..] + b;
      RunConcat(sha, cap, Apply(sha, cap, n, a[0]), a[1..], b);
    }
  }

  /** A run that seals a block between two others. */
  function Around(before: seq<Op>, txids: seq<Hash>, commit: bool, after: seq<Op>): seq<Op> {
    before + [Seal(txids, commit)] + after
  }

  lemma RunAround(sha: Sha256d, cap: nat, before: seq<Op>, txids: seq<Hash>, commit: bool, after: seq<Op>)
    requires cap > 0
    ensures Reached(sha, cap, Around(before, txids, commit, after))
         == Run(sha, cap, Sealed(sha, Reached(sha, cap, before), cap, txids, commit), after)
  {
    var op, n := Seal(txids, commit), Reached(sha, cap, before);
    RunConcat(sha, cap, EmptyNode(), before + [op], after);
    RunConcat(sha, cap, EmptyNode(), before, [op]);
    assert [op][1..] == [];
    assert Run(sha, cap, n, [op]) == Run(sha, cap, Apply(sha, cap, n, op), []);
  }

  /** The best chain over whole runs: a sealed block stays stored as it was, and its header is on the
      best chain exactly if no orphaning of it since is left unrestored. */
  lemma OnBestIff(sha: Sha256d, cap: nat, before: seq<Op>, txids: seq<Hash>, commit: bool, after: seq<Op>)
    requires cap > 0 && txids != [] && Distinct(Reached(sha, cap, Around(before, txids, commit, after)).chain)
    ensures var n := Reached(sha, cap, Around(before, txids, commit, after));
            var b := NewBlock(sha, Reached(sha, cap, before), cap, txids, commit);
            && b.hash in n.blocks && n.blocks[b.hash] == b && (b.isCarrier <==> commit)
            && (ContainsIn(sha, n, b.header) <==> !LeftOrphaned(after, b.hash))
  {
    var n0 := Reached(sha, cap, before);
    var n1, b := Sealed(sha, n0, cap, txids, commit), NewBlock(sha, n0, cap, txids, commit);
    ReachedOk(sha, cap, before);
    SealKeepsInv(sha, cap, n0, txids, commit);
    SealedOnBest(sha, cap, n0, txids, commit);
    RunAround(sha, cap, before, txids, commit, after);
    RunMarks(sha, cap, n1, after, b.hash);
    RunKeepsInv(sha, cap, n1, after);
    StoredHash(sha, cap, Run(sha, cap, n1, after), b.hash);
  }

  /** Every block of a reachable node was sealed at some point of the run. */
  lemma {:induction false} SealOf(sha: Sha256d, cap: nat, ops: seq<Op>, h: Hash)
    returns (before: seq<Op>, txids: seq<Hash>, commit: bool, after: seq<Op>)
    requires cap > 0 && h in Reached(sha, cap, ops).blocks
    ensures ops == Around(before, txids, commit, after) && txids != []
    ensures NewBlock(sha, Reached(sha, cap, before), cap, txids, commit).hash == h
    decreases |ops|
  {
    assert ops != [];
    var front, op := ops[..|ops| - 1], ops[|ops| - 1];
    var n := Reached(sha, cap, front);
    assert ops == front + [op] && [op][1..] == [];
    RunConcat(sha, cap, EmptyNode(), front, [op]);
    assert Run(sha, cap, n, [op]) == Run(sha, cap, Apply(sha, cap, n, op), []);
    if h in n.blocks {
      before, txids, commit, after := SealOf(sha, cap, front, h);
      after := after + [op];
      assert ops == Around(before, txids, commit, after);
    } else {
      before, txids, commit, after := front, op.txids, op.commit, [];
      assert ops == Around(before, txids, commit, after);
    }
  }

  // ---------------------------------------------------------------- the frozen core

  /** Some operation of the run seals a block that has t among its leaves. */
  ghost predicate Reseals(sha: Sha256d, cap: nat, n: Node, ops: seq<Op>, t: Hash)
    requires cap > 0
    decreases ops
  {
    ops != [] &&
    ( (ops[0].Seal? && ops[0].txids != [] && t in LeafSet(sha, n, ops[0].txids, ops[0].commit))
      || Reseals(sha, cap, Apply(sha, cap, n, ops[0]), ops[1..], t))
  }

  /** The entry of t and the block it names are the same in both nodes. */
  ghost predicate SameCore(n: Node, n': Node, t: Hash) {
    && t in n.txIndex && t in n'.txIndex && n'.txIndex[t] == n.txIndex[t]
    && n.txIndex[t].blockHash in n.blocks && n.txIndex[t].blockHash in n'.blocks
    && n'.blocks[n.txIndex[t].blockHash] == n.blocks[n.txIndex[t].blockHash]
  }

  lemma SealKeepsCore(sha: Sha256d, cap: nat, n: Node, txids: seq<Hash>, commit: bool, t: Hash)
    requires cap > 0 && Inv(sha, cap, n) && txids != [] && Distinct(Sealed(sha, n, cap, txids, commit).chain)
    requires t in n.txIndex && n.txIndex[t].blockHash in n.blocks && t !in LeafSet(sha, n, txids, commit)
    ensures SameCore(n, Sealed(sha, n, cap, txids, commit), t)
  {
    SealIsNew(sha, cap, n, txids, commit);
    SealKeepsEntry(sha, cap, n, txids, commit, t);
  }

  lemma ApplyKeepsCore(sha: Sha256d, cap: nat, n: Node, op: Op, t: Hash)
    requires cap > 0 && Inv(sha, cap, n) && t in n.txIndex && n.txIndex[t].blockHash in n.blocks
    requires Distinct(Apply(sha, cap, n, op).chain)
    requires op.Seal? && op.txids != [] ==> t !in LeafSet(sha, n, op.txids, op.commit)
    ensures SameCore(n, Apply(sha, cap, n, op), t)
  {
    if op.Seal? && op.txids != [] {
      SealKeepsCore(sha, cap, n, op.txids, op.commit, t);
    }
  }

  /** Whatever else happens, the proof material of a transaction stays as it is until the
      transaction is sealed again. */
  lemma {:induction false} FrozenCore(sha: Sha256d, cap: nat, n: Node, ops: seq<Op>, t: Hash)
    requires cap > 0 && Inv(sha, cap, n) && Indexed(n) && t in n.txIndex
    requires Distinct(Run(sha, cap, n, ops).chain) && !Reseals(sha, cap, n, ops, t)
    ensures SameCore(n, Run(sha, cap, n, ops), t)
    decreases ops
  {
    assert EntryOk(n, t, n.txIndex[t]);
    if ops != [] {
      var n1 := Apply(sha, cap, n, ops[0]);
      ApplyKeepsInv(sha, cap, n, ops[0]);
      RunKeepsInv(sha, cap, n1, ops[1..]);
      DistinctPrefix(n1.chain, Run(sha, cap, n, ops).chain);
      ApplyKeepsCore(sha, cap, n, ops[0], t);
      ApplyKeepsIndexed(sha, cap, n, ops[0]);
      FrozenCore(sha, cap, n1, ops[1..], t);
    }
  }

  /** Sealing moves every leaf of the new block to it, the generation transaction among them. */
  lemma SealMoves(sha: Sha256d, cap: nat, n: Node, txids: seq<Hash>, commit: bool, t: Hash)
    requires cap > 0 && txids != [] && t in LeafSet(sha, n, txids, commit)
    ensures var n' := Sealed(sha, n, cap, txids, commit);
            t in n'.txIndex && n'.txIndex[t].blockHash == NewBlock(sha, n, cap, txids, commit).hash
  {
    var b, leaves := NewBlock(sha, n, cap, txids, commit), LeafSet(sha, n, txids, commit);
    var k :| 0 <= k < |leaves| && leaves[k] == t;
    NewBlockTrees(sha, n, cap, txids, commit);
    TreesIndexed(n.txIndex, b.hash, b.trees, 0);
    var i, j := LeafSomewhere(sha, leaves, cap, k);
    assert LeafIndexed(IndexTrees(n.txIndex, b.hash, b.trees, 0), b.hash, b.trees, b.trees[i][0][j]);
  }

  lemma ApplyKeepsBlocks(sha: Sha256d, cap: nat, n: Node, op: Op)
    requires cap > 0
    ensures n.blocks.Keys <= Apply(sha, cap, n, op).blocks.Keys
  {
  }

  /** A transaction that a run seals again ends up in a block that the node did not have before. */
  lemma {:induction false} ResealMoves(sha: Sha256d, cap: nat, n: Node, ops: seq<Op>, t: Hash)
    requires cap > 0 && Inv(sha, cap, n) && Indexed(n)
    requires Distinct(Run(sha, cap, n, ops).chain) && Reseals(sha, cap, n, ops, t)
    ensures var n' := Run(sha, cap, n, ops); t in n'.txIndex && n'.txIndex[t].blockHash !in n.blocks
    decreases ops
  {
    var op, n1 := ops[0], Apply(sha, cap, n, ops[0]);
    ApplyKeepsInv(sha, cap, n, op);
    RunKeepsInv(sha, cap, n1, ops[1..]);
    DistinctPrefix(n1.chain, Run(sha, cap, n, ops).chain);
    ApplyKeepsIndexed(sha, cap, n, op);
    if Reseals(sha, cap, n1, ops[1..], t) {
      ResealMoves(sha, cap, n1, ops[1..], t);
      ApplyKeepsBlocks(sha, cap, n, op);
    } else {
      SealIsNew(sha, cap, n, op.txids, op.commit);
      SealMoves(sha, cap, n, op.txids, op.commit, t);
      FrozenCore(sha, cap, n1, ops[1..], t);
    }
  }

  /** Leaf number k of the block is a leaf of one of its subtrees. */
  lemma {:induction false} LeafSomewhere(sha: Sha256d, leaves: seq<Hash>, cap: nat, k: nat) returns (i: nat, j: nat)
    requires cap > 0 && k < |leaves|
    ensures i < |SubtreeTrees(sha, leaves, cap)| && SubtreeTrees(sha, leaves, cap)[i] != []
    ensures j < |SubtreeTrees(sha, leaves, cap)[i][0]| && SubtreeTrees(sha, leaves, cap)[i][0][j] == leaves[k]
    decreases |leaves|
  {
    if |leaves| <= cap || k < cap {
      i, j := 0, k;
    } else {
      i, j := LeafSomewhere(sha, leaves[cap..], cap, k - cap);
      i := i + 1;
    }
  }

  /** A transaction that was sealed and not since then sealed again is served by that block, with a
      proof that VerifyOne accepts exactly if no orphaning of the block is left unrestored. */
  lemma SealedIsServed(sha: Sha256d, cap: nat, before: seq<Op>, txids: seq<Hash>, commit: bool, after: seq<Op>, t: Hash)
    requires cap > 0 && txids != [] && Distinct(Reached(sha, cap, Around(before, txids, commit, after)).chain)
    requires t in LeafSet(sha, Reached(sha, cap, before), txids, commit)
    requires !Reseals(sha, cap, Sealed(sha, Reached(sha, cap, before), cap, txids, commit), after, t)
    ensures var n := Reached(sha, cap, Around(before, txids, commit, after));
            var b := NewBlock(sha, Reached(sha, cap, before), cap, txids, commit);
            && t in n.txIndex && n.txIndex[t].blockHash == b.hash && EntryOk(n, t, n.txIndex[t])
            && n.txIndex[t].subtree < |n.blocks[n.txIndex[t].blockHash].roots|
            && (Fabric.Valid(sha, Chain(h => ContainsIn(sha, n, h)), ServedProof(sha, n, t))
                <==> !LeftOrphaned(after, b.hash))
  {
    var ops, n0 := Around(before, txids, commit, after), Reached(sha, cap, before);
    var n, n1 := Reached(sha, cap, ops), Sealed(sha, n0, cap, txids, commit);
    ReachedOk(sha, cap, before);
    RunAround(sha, cap, before, txids, commit, after);
    ApplyKeepsInv(sha, cap, n0, Seal(txids, commit));
    RunKeepsInv(sha, cap, n1, after);
    DistinctPrefix(n1.chain, n.chain);
    DistinctPrefix(n0.chain, n1.chain);
    ApplyKeepsIndexed(sha, cap, n0, Seal(txids, commit));
    SealMoves(sha, cap, n0, txids, commit, t);
    FrozenCore(sha, cap, n1, after, t);
    OnBestIff(sha, cap, before, txids, commit, after);
    ServedProofsVerify(sha, cap, ops, n, t);
    StoredHash(sha, cap, n, n.txIndex[t].blockHash);
  }
}
