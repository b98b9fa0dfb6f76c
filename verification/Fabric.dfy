/** fabric/fabric.go: the single-proof verifier and the memoised batch verifier.

    `Batch` is the batch verifier as a function of its inputs; the loops of BatchVerify are
    proved to compute it.  What an accepted batch means is in FabricSoundness, when a batch is
    accepted is in FabricCompleteness, what it costs is in FabricCost. */
module Fabric {
  import opened Commitment
  import opened Positions

  datatype Proof = Proof(leaf: Hash, l1: seq<PathElem>, subtreeRoot: Hash, l2: seq<PathElem>, header: Header)

  /** A nil chain skips the header check. */
  predicate OnChain(chain: HeaderChain, header: Header) { chain.Chain? ==> chain.contains(header) }

  // ---------------------------------------------------------------- one proof

  predicate L1Closes(sha: Sha256d, p: Proof) { Folded(sha, p.leaf, p.l1) == p.subtreeRoot }

  predicate L2Closes(sha: Sha256d, p: Proof) {
    Folded(sha, p.subtreeRoot, p.l2) == HeaderMerkleRoot(p.header)
  }

  /** A proof that passes every check on its own. */
  predicate Valid(sha: Sha256d, chain: HeaderChain, p: Proof) {
    L1Closes(sha, p) && L2Closes(sha, p) && OnChain(chain, p.header)
  }

  method FoldCount(sha: Sha256d, leaf: Hash, path: seq<PathElem>) returns (node: Hash, hashes: nat)
    ensures node == Folded(sha, leaf, path) && hashes == |path|
  {
    node := Fold(sha, leaf, path);
    hashes := |path|;
  }

  method VerifyOne(sha: Sha256d, p: Proof, chain: HeaderChain) returns (ok: bool, hashes: nat)
    ensures ok <==> Valid(sha, chain, p)
    ensures hashes == |p.l1| + (if L1Closes(sha, p) then |p.l2| else 0)
  {
    var sub, n1 := FoldCount(sha, p.leaf, p.l1);
    if sub != p.subtreeRoot {
      return false, n1;
    }
    var br, n2 := FoldCount(sha, p.subtreeRoot, p.l2);
    if br != HeaderMerkleRoot(p.header) {
      return false, n1 + n2;
    }
    if chain.Chain? && !chain.contains(p.header) {
      return false, n1 + n2;
    }
    return true, n1 + n2;
  }

  // ---------------------------------------------------------------- positions

  /** A leaf's index is a uint64: turns beyond the 64th are shifted out. */
  function LeafIndexOf(path: seq<PathElem>): nat {
    PathIndex(if |path| <= 64 then path else path[..64])
  }

  lemma {:induction false} PathIndexSnoc(path: seq<PathElem>, e: PathElem)
    ensures PathIndex(path + [e]) == PathIndex(path) + (if e.right then 0 else Pow2(|path|))
  {
    if path == [] {
      assert (path + [e])[1..] == [];
    } else {
      assert (path + [e])[1..] == path[1..] + [e];
      PathIndexSnoc(path[1..], e);
    }
  }

  method LeafIndex(path: seq<PathElem>) returns (idx: nat)
    ensures idx == LeafIndexOf(path)
  {
    idx := 0;
    for j := 0 to |path|
      invariant idx == LeafIndexOf(path[..j])
    {
      ghost var was := path[..j];
      assert path[..j + 1] == was + [path[j]];
      if j < 64 {
        PathIndexSnoc(was, path[j]);
      } else {
        assert path[..j + 1][..64] == was[..64];
      }
      if !path[j].right {
        // idx |= 1 << j: bit j is still clear, and the shift is empty from 64 on
        idx := idx + (if j < 64 then Pow2(j) else 0);
      }
    }
    assert path[..|path|] == path;
  }

  // ---------------------------------------------------------------- the batch

  datatype NodeKey = NodeKey(subtree: Hash, level: nat, index: nat)
  type Memo = map<NodeKey, Hash>

  /** The three maps of BatchVerify (the boolean ones hold only `true`) and the work done. */
  datatype State = State(memo: Memo, subtreeOK: set<Hash>, headerOK: set<Hash>, hashes: nat)

  datatype ClimbResult =
    | Clash(hashes: nat)                              // a known node differs
    | Merged(memo: Memo, hashes: nat)                 // ran into a known node
    | Reached(memo: Memo, node: Hash, hashes: nat)    // ran out of siblings

  /** Fold p's L1 from level j on, recording each new node and stopping at a known one. */
  function Climb(sha: Sha256d, p: Proof, memo: Memo, j: nat, node: Hash, idx: nat, hashes: nat): ClimbResult
    requires j <= |p.l1|
    decreases |p.l1| - j
  {
    if j == |p.l1| then Reached(memo, node, hashes)
    else
      var parent := Parent(sha, node, p.l1[j]);
      var key := NodeKey(p.subtreeRoot, j + 1, idx / 2);
      if key in memo then
        if memo[key] != parent then Clash(hashes + 1) else Merged(memo, hashes + 1)
      else Climb(sha, p, memo[key := parent], j + 1, parent, idx / 2, hashes + 1)
  }

  datatype Outcome = Rejected(hashes: nat) | Accepted(state: State)

  /** The L2 and header checks, each done once per subtree and once per header digest. */
  function CheckAbove(sha: Sha256d, p: Proof, st: State, chain: HeaderChain): Outcome {
    var known := p.subtreeRoot in st.subtreeOK;
    var hashes := st.hashes + (if known then 0 else |p.l2|);
    if !known && !L2Closes(sha, p) then Rejected(hashes)
    else
      var digest := sha(p.header.bytes);
      if digest !in st.headerOK && !OnChain(chain, p.header) then Rejected(hashes)
      else Accepted(State(st.memo, st.subtreeOK + {p.subtreeRoot}, st.headerOK + {digest}, hashes))
  }

  function Step(sha: Sha256d, p: Proof, st: State, chain: HeaderChain): Outcome {
    match Climb(sha, p, st.memo, 0, p.leaf, LeafIndexOf(p.l1), st.hashes)
    case Clash(hashes) => Rejected(hashes)
    case Merged(memo, hashes) => CheckAbove(sha, p, st.(memo := memo, hashes := hashes), chain)
    case Reached(memo, node, hashes) =>
      if node != p.subtreeRoot then Rejected(hashes)
      else CheckAbove(sha, p, st.(memo := memo, hashes := hashes), chain)
  }

  function BatchFrom(sha: Sha256d, ps: seq<Proof>, st: State, chain: HeaderChain): Outcome
    decreases |ps|
  {
    if ps == [] then Accepted(st)
    else
      match Step(sha, ps[0], st, chain)
      case Rejected(hashes) => Rejected(hashes)
      case Accepted(next) => BatchFrom(sha, ps[1..], next, chain)
  }

  const START := State(map[], {}, {}, 0)

  function Batch(sha: Sha256d, ps: seq<Proof>, chain: HeaderChain): Outcome {
    BatchFrom(sha, ps, START, chain)
  }

  predicate Reports(outcome: Outcome, ok: bool, hashes: nat) {
    match outcome
    case Rejected(n) => !ok && hashes == n
    case Accepted(st) => ok && hashes == st.hashes
  }

  method BatchVerify(sha: Sha256d, ps: seq<Proof>, chain: HeaderChain) returns (ok: bool, hashes: nat)
    ensures Reports(Batch(sha, ps, chain), ok, hashes)
  {
    var st := START;
    for i := 0 to |ps|
      invariant BatchFrom(sha, ps[i..], st, chain) == Batch(sha, ps, chain)
    {
      var p := ps[i];
      assert ps[i..][0] == p && ps[i..][1..] == ps[i + 1..];
      var climb := ClimbL1(sha, p, st.memo, st.hashes);
      if climb.Clash? || (climb.Reached? && climb.node != p.subtreeRoot) {
        return false, climb.hashes;
      }
      var above := VerifyAbove(sha, p, st.(memo := climb.memo, hashes := climb.hashes), chain);
      if above.Rejected? {
        return false, above.hashes;
      }
      st := above.state;
    }
    return true, st.hashes;
  }

  /** The part of BatchVerify's loop above the subtree root. */
  method VerifyAbove(sha: Sha256d, p: Proof, st: State, chain: HeaderChain) returns (r: Outcome)
    ensures r == CheckAbove(sha, p, st, chain)
  {
    var subtreeOK, headerOK, hashes := st.subtreeOK, st.headerOK, st.hashes;
    // up to the block root, for the first proof of a subtree only
    if p.subtreeRoot !in subtreeOK {
      var br, n := FoldCount(sha, p.subtreeRoot, p.l2);
      hashes := hashes + n;
      if br != HeaderMerkleRoot(p.header) {
        return Rejected(hashes);
      }
      subtreeOK := subtreeOK + {p.subtreeRoot};
    }
    // the header itself, for the first proof of a block only
    var digest := sha(p.header.bytes);
    if digest !in headerOK {
      if chain.Chain? && !chain.contains(p.header) {
        return Rejected(hashes);
      }
      headerOK := headerOK + {digest};
    }
    assert st.subtreeOK + {p.subtreeRoot} == subtreeOK && st.headerOK + {digest} == headerOK;
    return Accepted(State(st.memo, subtreeOK, headerOK, hashes));
  }

  /** The L1 loop of BatchVerify, with memoisation across proofs. */
  method ClimbL1(sha: Sha256d, p: Proof, known: Memo, done: nat) returns (r: ClimbResult)
    ensures r == Climb(sha, p, known, 0, p.leaf, LeafIndexOf(p.l1), done)
  {
    var memo, hashes := known, done;
    var cur := p.leaf;
    var idx := LeafIndex(p.l1);
    for j := 0 to |p.l1|
      invariant Climb(sha, p, memo, j, cur, idx, hashes) == Climb(sha, p, known, 0, p.leaf, LeafIndexOf(p.l1), done)
    {
      var parent;
      if p.l1[j].right {
        parent := HashPair(sha, cur, p.l1[j].sibling);
      } else {
        parent := HashPair(sha, p.l1[j].sibling, cur);
      }
      hashes := hashes + 1;
      var pidx := idx / 2;
      var k := NodeKey(p.subtreeRoot, j + 1, pidx);
      if k in memo {
        if memo[k] != parent {
          return Clash(hashes);
        }
        return Merged(memo, hashes);   // what lies above is an earlier proof's business
      }
      memo := memo[k := parent];
      cur := parent;
      idx := pidx;
    }
    return Reached(memo, cur, hashes);
  }
}
