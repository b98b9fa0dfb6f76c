/** What an accepted batch means (fabric/fabric.go:115-180).

    BatchVerify stops folding as soon as it reaches a node an earlier proof recorded, so an
    accepted batch does not mean that each proof would pass VerifyOne: siblings above the
    meeting point, and the L2 path of a later proof of the same subtree, are never hashed.
    What acceptance does give is, for every leaf, some path to its subtree root put together
    from the batch, and for every subtree some L2 path of the batch to a header on the chain. */
module FabricSoundness {
  import opened Commitment
  import opened Positions
  import opened Fabric
  import opened FabricClimb

  /** No leaf index is cut off at 64 bits. */
  ghost predicate Short(ps: seq<Proof>) { forall m :: 0 <= m < |ps| ==> |ps[m].l1| <= 64 }

  ghost predicate InSubtree(seen: seq<Proof>, root: Hash, m: int) {
    0 <= m < |seen| && seen[m].subtreeRoot == root
  }

  /** Some proof of the subtree carries `e` as its sibling at `level`, for the node at `index`. */
  ghost predicate Sourced(seen: seq<Proof>, root: Hash, level: nat, index: nat, e: PathElem) {
    exists m :: InSubtree(seen, root, m) && level < |seen[m].l1| && seen[m].l1[level] == e
      && (Short(seen) ==> PathIndex(seen[m].l1[level..]) == index)
  }

  /** Some proof of the subtree is `depth` levels deep. */
  ghost predicate DepthOf(seen: seq<Proof>, root: Hash, depth: nat) {
    exists m :: InSubtree(seen, root, m) && |seen[m].l1| == depth
  }

  /** `q` climbs from node `h`, at position (`level`, `index`) of the subtree, to its root,
      and every sibling of `q` is one that a proof in `seen` carries for that very position. */
  ghost predicate Certifies(sha: Sha256d, seen: seq<Proof>, key: NodeKey, h: Hash, q: seq<PathElem>) {
    && Folded(sha, h, q) == key.subtree
    && DepthOf(seen, key.subtree, key.level + |q|)
    && AllSourced(seen, key.subtree, key.level, q)
    && (Short(seen) ==> PathIndex(q) == key.index)
  }

  ghost predicate AllSourced(seen: seq<Proof>, root: Hash, level: nat, q: seq<PathElem>) {
    forall t :: 0 <= t < |q| ==> Sourced(seen, root, level + t, PathIndex(q[t..]), q[t])
  }

  ghost predicate Certified(sha: Sha256d, seen: seq<Proof>, key: NodeKey, h: Hash) {
    exists q :: Certifies(sha, seen, key, h, q)
  }

  /** Some proof of the subtree has an L2 path to the Merkle root of a header on the chain. */
  ghost predicate Anchored(sha: Sha256d, chain: HeaderChain, seen: seq<Proof>, root: Hash) {
    exists m :: InSubtree(seen, root, m) && L2Closes(sha, seen[m]) && OnChain(chain, seen[m].header)
  }

  /** The chain view looks at nothing but the header's digest, as both views of the repository do. */
  ghost predicate DigestOnly(sha: Sha256d, chain: HeaderChain) {
    forall g: Header, h: Header :: sha(g.bytes) == sha(h.bytes) ==> OnChain(chain, g) == OnChain(chain, h)
  }

  ghost predicate Inv(sha: Sha256d, chain: HeaderChain, seen: seq<Proof>, st: State) {
    && AllCertified(sha, seen, st.memo)
    && (forall r :: r in st.subtreeOK ==> Anchored(sha, chain, seen, r))
    && (forall d, h: Header :: d in st.headerOK && sha(h.bytes) == d ==> OnChain(chain, h))
  }

  // ---------------------------------------------------------------- one proof

  /** The index of a node determines the turn to its parent. */
  lemma PathIndexCons(p: seq<PathElem>, q: seq<PathElem>)
    requires p != [] && PathIndex(q) == PathIndex(p) / 2
    ensures PathIndex([p[0]] + q) == PathIndex(p)
  {
    assert ([p[0]] + q)[1..] == q;
    assert PathIndex(p) / 2 == PathIndex(p[1..]);
  }

  lemma AllSourcedCons(seen: seq<Proof>, root: Hash, level: nat, e: PathElem, q: seq<PathElem>)
    requires Sourced(seen, root, level, PathIndex([e] + q), e)
    requires AllSourced(seen, root, level + 1, q)
    ensures AllSourced(seen, root, level, [e] + q)
  {
    var all := [e] + q;
    forall t | 0 <= t < |all| ensures Sourced(seen, root, level + t, PathIndex(all[t..]), all[t]) {
      if t == 0 {
        assert all[0..] == all;
      } else {
        assert all[t..] == q[t - 1..] && all[t] == q[t - 1] && level + 1 + (t - 1) == level + t;
      }
    }
  }

  lemma CertifiedCons(sha: Sha256d, seen: seq<Proof>, p: Proof, j: nat, node: Hash, idx: nat)
    requires p in seen && j < |p.l1|
    requires |p.l1| <= 64 ==> idx == PathIndex(p.l1[j..])
    requires Certified(sha, seen, NodeKey(p.subtreeRoot, j + 1, idx / 2), Parent(sha, node, p.l1[j]))
    ensures Certified(sha, seen, NodeKey(p.subtreeRoot, j, idx), node)
  {
    var m :| 0 <= m < |seen| && seen[m] == p;
    var root, e := p.subtreeRoot, p.l1[j];
    var q :| Certifies(sha, seen, NodeKey(root, j + 1, idx / 2), Parent(sha, node, e), q);
    var all, key := [e] + q, NodeKey(root, j, idx);
    assert Folded(sha, node, all) == root by {
      assert all[0] == e && all[1..] == q;
    }
    assert Short(seen) ==> PathIndex(all) == idx by {
      if Short(seen) {
        PathIndexCons(p.l1[j..], q);
      }
    }
    assert Sourced(seen, root, j, PathIndex(all), e) by {
      assert InSubtree(seen, root, m);
    }
    AllSourcedCons(seen, root, j, e, q);
    assert key.level + |all| == j + 1 + |q|;
    assert Certifies(sha, seen, key, node, all);
  }

  lemma CertifiedEnd(sha: Sha256d, seen: seq<Proof>, p: Proof, idx: nat)
    requires p in seen
    requires |p.l1| <= 64 ==> idx == 0
    ensures Certified(sha, seen, NodeKey(p.subtreeRoot, |p.l1|, idx), p.subtreeRoot)
  {
    var m :| 0 <= m < |seen| && seen[m] == p;
    var key := NodeKey(p.subtreeRoot, |p.l1|, idx);
    assert InSubtree(seen, key.subtree, m);
    assert Certifies(sha, seen, key, p.subtreeRoot, []);
  }

  /** A climb that ends well certifies its start.  `trusted` is the memo the climb began with;
      what the climb has added since sits at levels up to j. */
  lemma {:induction false} StartCertified(sha: Sha256d, seen: seq<Proof>, p: Proof, trusted: Memo, memo: Memo,
                                          j: nat, node: Hash, idx: nat, hashes: nat)
    requires p in seen && j <= |p.l1| && AllCertified(sha, seen, trusted)
    requires forall k :: k in memo && k.level > j ==> k in trusted && trusted[k] == memo[k]
    requires |p.l1| <= 64 ==> idx == PathIndex(p.l1[j..])
    requires EndsWell(p, Climb(sha, p, memo, j, node, idx, hashes))
    ensures Certified(sha, seen, NodeKey(p.subtreeRoot, j, idx), node)
    decreases |p.l1| - j
  {
    if j == |p.l1| {
      CertifiedEnd(sha, seen, p, idx);
    } else {
      var parent, key := Parent(sha, node, p.l1[j]), NodeKey(p.subtreeRoot, j + 1, idx / 2);
      if key in memo {
        assert Certified(sha, seen, key, parent);
      } else {
        PathIndexTail(p.l1, j);
        StartCertified(sha, seen, p, trusted, memo[key := parent], j + 1, parent, idx / 2, hashes + 1);
      }
      CertifiedCons(sha, seen, p, j, node, idx);
    }
  }

  /** ... and so is every node it records. */
  lemma {:induction false} NewNodesCertified(sha: Sha256d, seen: seq<Proof>, p: Proof, trusted: Memo, memo: Memo,
                                             j: nat, node: Hash, idx: nat, hashes: nat)
    requires p in seen && j <= |p.l1| && AllCertified(sha, seen, trusted)
    requires forall k :: k in memo && k.level > j ==> k in trusted && trusted[k] == memo[k]
    requires |p.l1| <= 64 ==> idx == PathIndex(p.l1[j..])
    requires EndsWell(p, Climb(sha, p, memo, j, node, idx, hashes))
    ensures NewCertified(sha, seen, memo, Climb(sha, p, memo, j, node, idx, hashes).memo)
    decreases |p.l1| - j
  {
    if j < |p.l1| {
      var parent, key := Parent(sha, node, p.l1[j]), NodeKey(p.subtreeRoot, j + 1, idx / 2);
      if key !in memo {
        var more := memo[key := parent];
        PathIndexTail(p.l1, j);
        StartCertified(sha, seen, p, trusted, more, j + 1, parent, idx / 2, hashes + 1);
        NewNodesCertified(sha, seen, p, trusted, more, j + 1, parent, idx / 2, hashes + 1);
        ClimbKeeps(sha, p, more, j + 1, parent, idx / 2, hashes + 1);
      }
    }
  }

  ghost predicate NewCertified(sha: Sha256d, seen: seq<Proof>, before: Memo, after: Memo) {
    forall k :: k in after && k !in before ==> Certified(sha, seen, k, after[k])
  }

  ghost predicate AllCertified(sha: Sha256d, seen: seq<Proof>, memo: Memo) {
    forall k :: k in memo ==> Certified(sha, seen, k, memo[k])
  }

  predicate EndsWell(p: Proof, r: ClimbResult) { r.Merged? || (r.Reached? && r.node == p.subtreeRoot) }

  /** A climb never changes a recorded node. */
  lemma {:induction false} ClimbKeeps(sha: Sha256d, p: Proof, memo: Memo, j: nat, node: Hash, idx: nat, hashes: nat)
    requires j <= |p.l1|
    ensures var r := Climb(sha, p, memo, j, node, idx, hashes);
            !r.Clash? ==> forall k :: k in memo ==> k in r.memo && r.memo[k] == memo[k]
    decreases |p.l1| - j
  {
    if j < |p.l1| {
      var parent, key := Parent(sha, node, p.l1[j]), NodeKey(p.subtreeRoot, j + 1, idx / 2);
      if key !in memo {
        ClimbKeeps(sha, p, memo[key := parent], j + 1, parent, idx / 2, hashes + 1);
      }
    }
  }

  lemma SourcedGrows(seen: seq<Proof>, p: Proof, root: Hash, level: nat, index: nat, e: PathElem)
    requires Sourced(seen, root, level, index, e)
    ensures Sourced(seen + [p], root, level, index, e)
  {
    ShortPrefix(seen, p);
    var m :| InSubtree(seen, root, m) && level < |seen[m].l1| && seen[m].l1[level] == e
      && (Short(seen) ==> PathIndex(seen[m].l1[level..]) == index);
    assert InSubtree(seen + [p], root, m);
  }

  lemma ShortPrefix(seen: seq<Proof>, p: Proof)
    ensures Short(seen + [p]) ==> Short(seen)
  {
    assert forall m :: 0 <= m < |seen| ==> seen[m] == (seen + [p])[m];
  }

  lemma AllSourcedGrows(seen: seq<Proof>, p: Proof, root: Hash, level: nat, q: seq<PathElem>)
    requires AllSourced(seen, root, level, q)
    ensures AllSourced(seen + [p], root, level, q)
  {
    forall t | 0 <= t < |q| ensures Sourced(seen + [p], root, level + t, PathIndex(q[t..]), q[t]) {
      SourcedGrows(seen, p, root, level + t, PathIndex(q[t..]), q[t]);
    }
  }

  lemma DepthOfGrows(seen: seq<Proof>, p: Proof, root: Hash, depth: nat)
    requires DepthOf(seen, root, depth)
    ensures DepthOf(seen + [p], root, depth)
  {
    var m :| InSubtree(seen, root, m) && |seen[m].l1| == depth;
    assert InSubtree(seen + [p], root, m);
  }

  lemma CertifiedGrows(sha: Sha256d, seen: seq<Proof>, p: Proof, key: NodeKey, h: Hash)
    requires Certified(sha, seen, key, h)
    ensures Certified(sha, seen + [p], key, h)
  {
    var q :| Certifies(sha, seen, key, h, q);
    ShortPrefix(seen, p);
    AllSourcedGrows(seen, p, key.subtree, key.level, q);
    DepthOfGrows(seen, p, key.subtree, key.level + |q|);
    assert Certifies(sha, seen + [p], key, h, q);
  }

  lemma AnchoredGrows(sha: Sha256d, chain: HeaderChain, seen: seq<Proof>, p: Proof, root: Hash)
    requires Anchored(sha, chain, seen, root)
    ensures Anchored(sha, chain, seen + [p], root)
  {
    var m :| InSubtree(seen, root, m) && L2Closes(sha, seen[m]) && OnChain(chain, seen[m].header);
    assert InSubtree(seen + [p], root, m);
  }

  /** The leaf together with its own first sibling, which is always hashed. */
  ghost predicate FirstCertified(sha: Sha256d, seen: seq<Proof>, p: Proof) {
    if p.l1 == [] then p.leaf == p.subtreeRoot
    else Certified(sha, seen, NodeKey(p.subtreeRoot, 1, LeafIndexOf(p.l1) / 2), Parent(sha, p.leaf, p.l1[0]))
  }

  /** What acceptance gives for `p`, which is the last proof of `seen`. */
  ghost predicate Sound(sha: Sha256d, chain: HeaderChain, seen: seq<Proof>, p: Proof) {
    && Certified(sha, seen, NodeKey(p.subtreeRoot, 0, LeafIndexOf(p.l1)), p.leaf)
    && FirstCertified(sha, seen, p)
    && Anchored(sha, chain, seen, p.subtreeRoot)
    && OnChain(chain, p.header)
  }

  lemma FirstNodeCertified(sha: Sha256d, seen: seq<Proof>, p: Proof, memo: Memo, idx: nat, hashes: nat)
    requires p in seen && AllCertified(sha, seen, memo) && idx == LeafIndexOf(p.l1)
    requires EndsWell(p, Climb(sha, p, memo, 0, p.leaf, idx, hashes))
    ensures FirstCertified(sha, seen, p)
  {
    if p.l1 != [] {
      var parent, key := Parent(sha, p.leaf, p.l1[0]), NodeKey(p.subtreeRoot, 1, idx / 2);
      if key !in memo {
        assert p.l1[0..] == p.l1;
        PathIndexTail(p.l1, 0);
        StartCertified(sha, seen, p, memo, memo[key := parent], 1, parent, idx / 2, hashes + 1);
      }
    }
  }

  /** The L1 half of a step. */
  lemma ClimbSound(sha: Sha256d, seen: seq<Proof>, p: Proof, memo: Memo, idx: nat, hashes: nat)
    requires AllCertified(sha, seen, memo) && idx == LeafIndexOf(p.l1)
    requires EndsWell(p, Climb(sha, p, memo, 0, p.leaf, idx, hashes))
    ensures AllCertified(sha, seen + [p], Climb(sha, p, memo, 0, p.leaf, idx, hashes).memo)
    ensures Certified(sha, seen + [p], NodeKey(p.subtreeRoot, 0, idx), p.leaf) && FirstCertified(sha, seen + [p], p)
  {
    var more := seen + [p];
    forall k | k in memo ensures Certified(sha, more, k, memo[k]) {
      CertifiedGrows(sha, seen, p, k, memo[k]);
    }
    assert p.l1[0..] == p.l1 && more[|seen|] == p;
    StartCertified(sha, more, p, memo, memo, 0, p.leaf, idx, hashes);
    FirstNodeCertified(sha, more, p, memo, idx, hashes);
    NewNodesCertified(sha, more, p, memo, memo, 0, p.leaf, idx, hashes);
    ClimbKeeps(sha, p, memo, 0, p.leaf, idx, hashes);
  }

  /** The half above the subtree root. */
  lemma AboveSound(sha: Sha256d, chain: HeaderChain, seen: seq<Proof>, p: Proof, roots: set<Hash>)
    requires forall r :: r in roots ==> Anchored(sha, chain, seen, r)
    requires p.subtreeRoot in roots || (L2Closes(sha, p) && OnChain(chain, p.header))
    ensures forall r :: r in roots + {p.subtreeRoot} ==> Anchored(sha, chain, seen + [p], r)
  {
    forall r | r in roots + {p.subtreeRoot} ensures Anchored(sha, chain, seen + [p], r) {
      if r in roots {
        AnchoredGrows(sha, chain, seen, p, r);
      } else {
        assert InSubtree(seen + [p], r, |seen|);
      }
    }
  }

  lemma StepSound(sha: Sha256d, chain: HeaderChain, seen: seq<Proof>, p: Proof, st: State)
    requires DigestOnly(sha, chain) && Inv(sha, chain, seen, st)
    requires Step(sha, p, st, chain).Accepted?
    ensures Inv(sha, chain, seen + [p], Step(sha, p, st, chain).state)
    ensures Sound(sha, chain, seen + [p], p)
  {
    ClimbSound(sha, seen, p, st.memo, LeafIndexOf(p.l1), st.hashes);
    AboveSound(sha, chain, seen, p, st.subtreeOK);
  }

  // ---------------------------------------------------------------- the batch

  lemma {:induction false} BatchFromSound(sha: Sha256d, chain: HeaderChain, ps: seq<Proof>, i: nat, st: State)
    requires i <= |ps| && DigestOnly(sha, chain) && Inv(sha, chain, ps[..i], st)
    requires BatchFrom(sha, ps[i..], st, chain).Accepted?
    ensures forall k :: i <= k < |ps| ==> Sound(sha, chain, ps[..k + 1], ps[k])
    decreases |ps| - i
  {
    if i < |ps| {
      assert ps[..i + 1] == ps[..i] + [ps[i]] && ps[i..][1..] == ps[i + 1..];
      StepSound(sha, chain, ps[..i], ps[i], st);
      BatchFromSound(sha, chain, ps, i + 1, Step(sha, ps[i], st, chain).state);
    }
  }

  /** Batch soundness, for every batch, every hash function and every digest-based chain view. */
  lemma BatchSound(sha: Sha256d, chain: HeaderChain, ps: seq<Proof>)
    requires DigestOnly(sha, chain) && Batch(sha, ps, chain).Accepted?
    ensures forall i :: 0 <= i < |ps| ==> Sound(sha, chain, ps[..i + 1], ps[i])
  {
    assert ps[..0] == [] && ps[0..] == ps;
    BatchFromSound(sha, chain, ps, 0, START);
  }
}
