/** Where the batch verifier and the single-proof verifier disagree (fabric/fabric.go:115-180): for
    every hash function and every chain view, the batches that are accepted with an invalid proof
    in them and the batches of valid proofs that are rejected. */
module FabricLimits {
  import opened Commitment
  import opened Positions
  import opened Fabric
  import opened FabricClimb
  import opened FabricSoundness
  import opened FabricCompleteness

  /** Valid alone is accepted first in any batch, with all its nodes recorded. */
  lemma FirstStep(sha: Sha256d, chain: HeaderChain, p: Proof) returns (st: State)
    requires Valid(sha, chain, p) && p.l1 != []
    ensures Step(sha, p, START, chain) == Accepted(st) && p.subtreeRoot in st.subtreeOK
    ensures st.headerOK == {} + {sha(p.header.bytes)}
    ensures NodeKey(p.subtreeRoot, 1, LeafIndexOf(p.l1) / 2) in st.memo
    ensures st.memo[NodeKey(p.subtreeRoot, 1, LeafIndexOf(p.l1) / 2)] == Parent(sha, p.leaf, p.l1[0])
    ensures Climbed(sha, p, map[], st.memo, 0, |p.l1|)
  {
    var idx, parent := LeafIndexOf(p.l1), Parent(sha, p.leaf, p.l1[0]);
    var key := NodeKey(p.subtreeRoot, 1, idx / 2);
    assert p.l1[0..] == p.l1;
    FreshClimb(sha, p, map[], 0, p.leaf, idx, 0);
    ClimbKeeps(sha, p, map[key := parent], 1, parent, idx / 2, 1);
    st := Step(sha, p, START, chain).state;
    var t, more := ClimbStops(sha, p, map[], 0);
  }

  lemma PairBatch(sha: Sha256d, chain: HeaderChain, p: Proof, q: Proof, st: State)
    requires Step(sha, p, START, chain) == Accepted(st)
    ensures Batch(sha, [p, q], chain).Accepted? <==> Step(sha, q, st, chain).Accepted?
  {
    assert [p, q][1..] == [q] && [q][1..] == [];
    assert BatchFrom(sha, [p, q], START, chain) == BatchFrom(sha, [q], st, chain);
  }

  /** Acceptance does not imply that every proof is valid.  Behind a valid proof of the same leaf,
      position and first sibling anything is accepted, whatever its other siblings and its L2 path
      are; yet with another sibling it is invalid, or preimages hashed on the two paths collide. */
  lemma AcceptedThoughInvalid(sha: Sha256d, chain: HeaderChain, p: Proof, q: Proof)
    requires Valid(sha, chain, p) && p.l1 != [] && q.l1 != [] && q.l1[0] == p.l1[0]
    requires q.leaf == p.leaf && q.subtreeRoot == p.subtreeRoot && LeafIndexOf(q.l1) == LeafIndexOf(p.l1)
    requires OnChain(chain, q.header)
    ensures Batch(sha, [p, q], chain).Accepted?
    ensures |q.l1| == |p.l1| <= 64 && q.l1 != p.l1 ==>
              !Valid(sha, chain, q) || CollisionIn(sha, FoldInputs(sha, p.leaf, p.l1) + FoldInputs(sha, q.leaf, q.l1))
    ensures q.header == p.header && SameTurns(p.l2, q.l2) && q.l2 != p.l2 ==>
              !Valid(sha, chain, q)
              || CollisionIn(sha, FoldInputs(sha, p.subtreeRoot, p.l2) + FoldInputs(sha, q.subtreeRoot, q.l2))
  {
    var st := FirstStep(sha, chain, p);
    assert Climb(sha, q, st.memo, 0, q.leaf, LeafIndexOf(q.l1), st.hashes) == Merged(st.memo, st.hashes + 1);
    PairBatch(sha, chain, p, q, st);
    if |q.l1| == |p.l1| <= 64 && Valid(sha, chain, q) {
      PathIndexTurns(p.l1, q.l1);
      FoldBinding(sha, p.leaf, p.l1, q.leaf, q.l1);
    }
    if q.header == p.header && SameTurns(p.l2, q.l2) && Valid(sha, chain, q) {
      FoldBinding(sha, p.subtreeRoot, p.l2, q.subtreeRoot, q.l2);
    }
  }

  /** b's climb runs into a's nodes at the first position they share. */
  lemma FirstMeeting(sha: Sha256d, a: Proof, b: Proof, memo: Memo, j: nat, t: nat)
    requires 0 < j <= |a.l1| && j <= |b.l1| && KeyAt(a, j) == KeyAt(b, j) && t <= |b.l1|
    requires forall l: nat :: 0 < l < j ==> KeyAt(a, l) != KeyAt(b, l)
    requires Climbed(sha, a, map[], memo, 0, |a.l1|) && Unknown(b, memo, 0, t)
    requires t < |b.l1| ==> KeyAt(b, t + 1) in memo
    ensures t + 1 == j && memo[KeyAt(b, j)] == NodeAt(sha, a, j)
  {
    assert KeyAt(b, j) in memo;
    assert t < j;
  }

  /** Behind a valid proof a of its subtree, b is accepted iff the two have one node at the first
      position they share.  Validity of both does not imply that if their depths differ. */
  lemma PairIff(sha: Sha256d, chain: HeaderChain, a: Proof, b: Proof, j: nat)
    requires Valid(sha, chain, a) && OnChain(chain, b.header)
    requires 0 < j <= |a.l1| && j <= |b.l1| && KeyAt(a, j) == KeyAt(b, j)
    requires forall l: nat :: 0 < l < j ==> KeyAt(a, l) != KeyAt(b, l)
    ensures Batch(sha, [a, b], chain).Accepted? <==> NodeAt(sha, a, j) == NodeAt(sha, b, j)
  {
    var st := FirstStep(sha, chain, a);
    var t, more := ClimbStops(sha, b, st.memo, st.hashes);
    FirstMeeting(sha, a, b, st.memo, j, t);
    PairBatch(sha, chain, a, b, st);
  }

  /** A header that holds this root. */
  function HeaderWith(root: Hash): (header: Header)
    ensures HeaderMerkleRoot(header) == root
  {
    var s := seq(36, _ => 0) + root.bytes + seq(12, _ => 0);
    assert s[36..68] == root.bytes;
    Header(s)
  }

  /** A proof of the node above `leaf`, one level below the root. */
  function UpperProof(sha: Sha256d, leaf: Hash, e: PathElem, s: Hash): Proof {
    var node := Parent(sha, leaf, e);
    var root := HashPair(sha, node, s);
    Proof(node, [PathElem(s, true)], root, [], HeaderWith(root))
  }

  /** A proof of `leaf` itself, two levels below the same root. */
  function LowerProof(sha: Sha256d, leaf: Hash, e: PathElem, s: Hash): Proof {
    UpperProof(sha, leaf, e, s).(leaf := leaf, l1 := [e, PathElem(s, true)])
  }

  predicate Refused(sha: Sha256d, leaf: Hash, e: PathElem, s: Hash) {
    Batch(sha, [LowerProof(sha, leaf, e, s), UpperProof(sha, leaf, e, s)], NoChain).Rejected?
  }

  /** ... so for every hash function there are valid proofs that are refused together: of two
      batches that differ in one sibling one is, unless two preimages collide. */
  lemma RejectedThoughValid(sha: Sha256d, leaf: Hash, e: PathElem, s: Hash, t: Hash)
    requires s != t
    ensures Valid(sha, NoChain, LowerProof(sha, leaf, e, s)) && Valid(sha, NoChain, UpperProof(sha, leaf, e, s))
    ensures Refused(sha, leaf, e, s) || Refused(sha, leaf, e, t)
            || CollisionIn(sha, {PairBytes(Parent(sha, leaf, e), s), PairBytes(Parent(sha, leaf, e), t)})
  {
    var node := Parent(sha, leaf, e);
    RefusedIff(sha, leaf, e, s);
    RefusedIff(sha, leaf, e, t);
    if PairBytes(node, s) == PairBytes(node, t) {
      StepBytesInjective(node, PathElem(s, true), node, PathElem(t, true));
    }
  }

  lemma RefusedIff(sha: Sha256d, leaf: Hash, e: PathElem, s: Hash)
    ensures Valid(sha, NoChain, LowerProof(sha, leaf, e, s)) && Valid(sha, NoChain, UpperProof(sha, leaf, e, s))
    ensures Refused(sha, leaf, e, s) <==> HashPair(sha, Parent(sha, leaf, e), s) != Parent(sha, leaf, e)
  {
    var a, b := LowerProof(sha, leaf, e, s), UpperProof(sha, leaf, e, s);
    assert a.l1[1..] == b.l1 && b.l1[1..] == [] && a.l1[..1] == [e] && b.l1[..1] == b.l1;
    assert Folded(sha, leaf, a.l1) == Folded(sha, b.leaf, b.l1) == Folded(sha, b.subtreeRoot, []);
    assert PathIndex(b.l1) == PathIndex([]);
    assert NodeAt(sha, a, 1) == Folded(sha, Parent(sha, leaf, e), []);
    PairIff(sha, NoChain, a, b, 1);
  }
}
