/** When a batch is accepted, and how far acceptance is from "every proof is valid"
    (fabric/fabric.go:54-180).

    The promise in the source is that BatchVerify reports whether all proofs are valid.  That
    is false in both directions (FabricLimits has the inputs).  Here is when it is exact: the
    difference for all batches whose shared positions belong to proofs of one depth, which where
    L2 paths lead the same way is one of bytes, what happens to all others, and the batches that
    share nothing. */
module FabricCompleteness {
  import opened Commitment
  import opened Positions
  import opened Fabric
  import opened FabricClimb
  import opened FabricSoundness

  ghost predicate AllValid(sha: Sha256d, chain: HeaderChain, ps: seq<Proof>) {
    forall i :: 0 <= i < |ps| ==> Valid(sha, chain, ps[i])
  }

  ghost predicate AllL2Close(sha: Sha256d, ps: seq<Proof>) { forall i :: 0 <= i < |ps| ==> L2Closes(sha, ps[i]) }

  /** Everything VerifyOne hashes on the L1 paths of the batch. */
  ghost function BatchInputs(sha: Sha256d, ps: seq<Proof>): set<seq<byte>> {
    set i, x | 0 <= i < |ps| && x in FoldInputs(sha, ps[i].leaf, ps[i].l1) :: x
  }

  /** `m` and `i` speak of the same position of the same subtree. */
  ghost predicate Meet(ps: seq<Proof>, m: nat, i: nat, level: nat) {
    && m < |ps| && i < |ps| && level <= |ps[m].l1| && level <= |ps[i].l1|
    && KeyAt(ps[m], level) == KeyAt(ps[i], level)
  }

  /** Leaf indices fit in 64 bits, and proofs that pass through one position above the leaves are
      equally deep.  Bytes decide this; nothing is hashed. */
  ghost predicate OneDepth(ps: seq<Proof>) {
    Short(ps) && forall m: nat, i: nat, level: nat :: Meet(ps, m, i, level) && level > 0 ==> |ps[m].l1| == |ps[i].l1|
  }

  lemma NodeClimbs(sha: Sha256d, ps: seq<Proof>, i: nat, level: nat)
    requires i < |ps| && level <= |ps[i].l1|
    ensures Folded(sha, NodeAt(sha, ps[i], level), ps[i].l1[level..]) == Folded(sha, ps[i].leaf, ps[i].l1)
    ensures FoldInputs(sha, NodeAt(sha, ps[i], level), ps[i].l1[level..]) <= BatchInputs(sha, ps)
  {
    var p := ps[i];
    assert p.l1[..level] + p.l1[level..] == p.l1;
    FoldedConcat(sha, p.leaf, p.l1[..level], p.l1[level..]);
  }

  /** Descent from the root: where two valid paths of one depth meet they carry the same node and
      the same siblings from there on, unless two hashed preimages collide. */
  lemma MeetingPathsAgree(sha: Sha256d, ps: seq<Proof>, m: nat, i: nat, level: nat)
    requires Short(ps) && Meet(ps, m, i, level) && |ps[m].l1| == |ps[i].l1|
    requires L1Closes(sha, ps[m]) && L1Closes(sha, ps[i])
    ensures CollisionIn(sha, BatchInputs(sha, ps)) ||
            (NodeAt(sha, ps[m], level) == NodeAt(sha, ps[i], level) && ps[m].l1[level..] == ps[i].l1[level..])
  {
    var a, b := NodeAt(sha, ps[m], level), NodeAt(sha, ps[i], level);
    var p, q := ps[m].l1[level..], ps[i].l1[level..];
    NodeClimbs(sha, ps, m, level);
    NodeClimbs(sha, ps, i, level);
    PathIndexTurns(p, q);
    FoldBinding(sha, a, p, b, q);
    if a != b || p != q {
      CollisionGrows(sha, FoldInputs(sha, a, p) + FoldInputs(sha, b, q), BatchInputs(sha, ps));
    }
  }

  // ---------------------------------------------------------------- what the memo holds

  /** The recorded node is the one that proof `m` has at that position, above its leaf. */
  ghost predicate Owned(sha: Sha256d, ps: seq<Proof>, k: NodeKey, h: Hash, m: nat) {
    && m < |ps| && 0 < k.level <= |ps[m].l1|
    && KeyAt(ps[m], k.level) == k && NodeAt(sha, ps[m], k.level) == h
  }

  /** Every recorded node is one of the first n proofs'. */
  ghost predicate Genuine(sha: Sha256d, ps: seq<Proof>, n: nat, memo: Memo) {
    forall k :: k in memo ==> exists m: nat :: m < n && Owned(sha, ps, k, memo[k], m)
  }

  lemma ClimbGenuine(sha: Sha256d, ps: seq<Proof>, i: nat, memo: Memo, more: Memo, t: nat)
    requires i < |ps| && t <= |ps[i].l1| && Genuine(sha, ps, i, memo) && Climbed(sha, ps[i], memo, more, 0, t)
    ensures Genuine(sha, ps, i + 1, more)
  {
    forall k | k in more ensures exists m: nat :: m < i + 1 && Owned(sha, ps, k, more[k], m) {
      if k !in memo {
        assert Owned(sha, ps, k, more[k], i);
      }
    }
  }

  /** The memo after a climb that does not clash. */
  lemma StepGenuine(sha: Sha256d, chain: HeaderChain, ps: seq<Proof>, i: nat, st: State)
    requires i < |ps| && |ps[i].l1| <= 64 && Genuine(sha, ps, i, st.memo) && Step(sha, ps[i], st, chain).Accepted?
    ensures Genuine(sha, ps, i + 1, Step(sha, ps[i], st, chain).state.memo)
  {
    var t, more := ClimbStops(sha, ps[i], st.memo, st.hashes);
    ClimbGenuine(sha, ps, i, st.memo, more, t);
  }

  // ---------------------------------------------------------------- completeness

  /** Every L1 path closes, and nothing hashed on them collides. */
  ghost predicate Clean(sha: Sha256d, ps: seq<Proof>) {
    && OneDepth(ps)
    && (forall m :: 0 <= m < |ps| ==> L1Closes(sha, ps[m]))
    && !CollisionIn(sha, BatchInputs(sha, ps))
  }

  lemma KnownNodeAgrees(sha: Sha256d, ps: seq<Proof>, i: nat, memo: Memo, level: nat)
    requires Clean(sha, ps) && i < |ps| && level <= |ps[i].l1| && Genuine(sha, ps, i, memo)
    requires KeyAt(ps[i], level) in memo
    ensures memo[KeyAt(ps[i], level)] == NodeAt(sha, ps[i], level)
  {
    var key := KeyAt(ps[i], level);
    var m: nat :| m < i && Owned(sha, ps, key, memo[key], m);
    assert Meet(ps, m, i, level);
    MeetingPathsAgree(sha, ps, m, i, level);
  }

  lemma StepComplete(sha: Sha256d, chain: HeaderChain, ps: seq<Proof>, i: nat, st: State)
    requires Clean(sha, ps) && i < |ps| && Valid(sha, chain, ps[i]) && Genuine(sha, ps, i, st.memo)
    ensures Step(sha, ps[i], st, chain).Accepted?
  {
    var t, more := ClimbStops(sha, ps[i], st.memo, st.hashes);
    if t < |ps[i].l1| {
      KnownNodeAgrees(sha, ps, i, st.memo, t + 1);
    }
  }

  lemma {:induction false} BatchFromComplete(sha: Sha256d, chain: HeaderChain, ps: seq<Proof>, i: nat, st: State)
    requires Clean(sha, ps) && i <= |ps| && AllValid(sha, chain, ps) && Genuine(sha, ps, i, st.memo)
    ensures BatchFrom(sha, ps[i..], st, chain).Accepted?
    decreases |ps| - i
  {
    if i < |ps| {
      assert ps[i..][0] == ps[i] && ps[i..][1..] == ps[i + 1..];
      StepComplete(sha, chain, ps, i, st);
      StepGenuine(sha, chain, ps, i, st);
      BatchFromComplete(sha, chain, ps, i + 1, Step(sha, ps[i], st, chain).state);
    }
  }

  /** Completeness: individually valid proofs are accepted together if no position is shared
      between depths, unless two of the preimages hashed on their L1 paths collide. */
  lemma BatchComplete(sha: Sha256d, chain: HeaderChain, ps: seq<Proof>)
    requires OneDepth(ps) && AllValid(sha, chain, ps)
    ensures Batch(sha, ps, chain).Accepted? || CollisionIn(sha, BatchInputs(sha, ps))
  {
    if !CollisionIn(sha, BatchInputs(sha, ps)) {
      assert ps[0..] == ps;
      BatchFromComplete(sha, chain, ps, 0, START);
    }
  }

  // ---------------------------------------------------------------- positions shared between depths

  /** Two proofs of different depth have one node at a position they share. */
  ghost predicate Bridges(sha: Sha256d, ps: seq<Proof>, m: nat, i: nat, level: nat) {
    && Meet(ps, m, i, level) && level > 0 && |ps[m].l1| != |ps[i].l1|
    && NodeAt(sha, ps[m], level) == NodeAt(sha, ps[i], level)
  }

  ghost predicate NoBridge(sha: Sha256d, ps: seq<Proof>) {
    forall m: nat, i: nat, level: nat :: !Bridges(sha, ps, m, i, level)
  }

  /** Every position of the first n proofs above the leaves is recorded. */
  ghost predicate Recorded(ps: seq<Proof>, n: nat, memo: Memo) {
    forall m: nat, level: nat :: m < n <= |ps| && 0 < level <= |ps[m].l1| ==> KeyAt(ps[m], level) in memo
  }

  /** Among the first n proofs shared positions belong to one depth. */
  ghost predicate OneDepthUpTo(ps: seq<Proof>, n: nat) {
    forall m: nat, i: nat, level: nat :: m < n && i < n && Meet(ps, m, i, level) && level > 0 ==>
      |ps[m].l1| == |ps[i].l1|
  }

  /** A climb that meets a known node and agrees with it has met a proof of its own depth. */
  lemma MetOwnDepth(sha: Sha256d, ps: seq<Proof>, i: nat, memo: Memo, t: nat) returns (m: nat)
    requires NoBridge(sha, ps) && i < |ps| && Genuine(sha, ps, i, memo) && t < |ps[i].l1|
    requires KeyAt(ps[i], t + 1) in memo && memo[KeyAt(ps[i], t + 1)] == NodeAt(sha, ps[i], t + 1)
    ensures m < i && Meet(ps, m, i, t + 1) && |ps[m].l1| == |ps[i].l1|
    ensures forall level: nat :: t < level <= |ps[i].l1| ==> KeyAt(ps[m], level) == KeyAt(ps[i], level)
  {
    var key := KeyAt(ps[i], t + 1);
    m :| m < i && Owned(sha, ps, key, memo[key], m);
    assert !Bridges(sha, ps, m, i, t + 1);
    forall level: nat | t < level <= |ps[i].l1| ensures KeyAt(ps[m], level) == KeyAt(ps[i], level) {
      KeysAbove(ps[m], ps[i], t + 1, level);
    }
  }

  /** ... so afterwards all its positions are recorded, and it shares none with another depth. */
  lemma StepSeparates(sha: Sha256d, chain: HeaderChain, ps: seq<Proof>, i: nat, st: State)
    requires Short(ps) && NoBridge(sha, ps) && i < |ps| && Step(sha, ps[i], st, chain).Accepted?
    requires Genuine(sha, ps, i, st.memo) && Recorded(ps, i, st.memo) && OneDepthUpTo(ps, i)
    ensures Recorded(ps, i + 1, Step(sha, ps[i], st, chain).state.memo) && OneDepthUpTo(ps, i + 1)
  {
    var t, more := ClimbStops(sha, ps[i], st.memo, st.hashes);
    var twin: nat := i;
    if t < |ps[i].l1| {
      twin := MetOwnDepth(sha, ps, i, st.memo, t);
    }
    RecordedMore(sha, ps, i, st.memo, more, t, twin);
    SeparateMore(ps, i, st.memo, t, twin);
  }

  /** Where proof i's positions come from: its own climb up to level t, and above it those of
      `twin`, an earlier proof of the same depth. */
  ghost predicate Twinned(ps: seq<Proof>, i: nat, t: nat, twin: nat) {
    && i < |ps| && t <= |ps[i].l1|
    && (t < |ps[i].l1| ==> twin < i && |ps[twin].l1| == |ps[i].l1|
                           && forall level: nat :: t < level <= |ps[i].l1| ==>
                                KeyAt(ps[twin], level) == KeyAt(ps[i], level))
  }

  lemma RecordedMore(sha: Sha256d, ps: seq<Proof>, i: nat, memo: Memo, more: Memo, t: nat, twin: nat)
    requires Twinned(ps, i, t, twin) && Recorded(ps, i, memo) && Climbed(sha, ps[i], memo, more, 0, t)
    ensures Recorded(ps, i + 1, more)
  {
    forall m: nat, level: nat | m < i + 1 && 0 < level <= |ps[m].l1| ensures KeyAt(ps[m], level) in more {
      if m == i && level > t {
        assert KeyAt(ps[twin], level) in memo;
      }
    }
  }

  lemma SeparateMore(ps: seq<Proof>, i: nat, memo: Memo, t: nat, twin: nat)
    requires Twinned(ps, i, t, twin) && Recorded(ps, i, memo) && OneDepthUpTo(ps, i) && Unknown(ps[i], memo, 0, t)
    ensures OneDepthUpTo(ps, i + 1)
  {
    forall m: nat, level: nat | m < i && Meet(ps, m, i, level) && level > 0 ensures |ps[m].l1| == |ps[i].l1| {
      assert KeyAt(ps[m], level) in memo;
      assert level > t;
      assert Meet(ps, m, twin, level);
    }
    assert forall m: nat, level: nat :: m < i && Meet(ps, i, m, level) ==> Meet(ps, m, i, level);
  }

  lemma {:induction false} BatchFromSeparates(sha: Sha256d, chain: HeaderChain, ps: seq<Proof>, i: nat, st: State)
    requires Short(ps) && NoBridge(sha, ps) && i <= |ps| && BatchFrom(sha, ps[i..], st, chain).Accepted?
    requires Genuine(sha, ps, i, st.memo) && Recorded(ps, i, st.memo) && OneDepthUpTo(ps, i)
    ensures OneDepth(ps)
    decreases |ps| - i
  {
    if i < |ps| {
      assert ps[i..][0] == ps[i] && ps[i..][1..] == ps[i + 1..];
      StepGenuine(sha, chain, ps, i, st);
      StepSeparates(sha, chain, ps, i, st);
      BatchFromSeparates(sha, chain, ps, i + 1, Step(sha, ps[i], st, chain).state);
    }
  }

  /** The other half: a batch in which two depths share a position is rejected, however valid its
      proofs, unless two of them have one node at a position they share. */
  lemma MixedDepthsRejected(sha: Sha256d, chain: HeaderChain, ps: seq<Proof>)
    requires Short(ps) && !OneDepth(ps) && Batch(sha, ps, chain).Accepted?
    ensures !NoBridge(sha, ps)
  {
    if NoBridge(sha, ps) {
      assert ps[0..] == ps;
      BatchFromSeparates(sha, chain, ps, 0, START);
    }
  }

  /** So for valid proofs, barring coincidences of hashes, the one thing that decides acceptance
      is whether proofs of different depth share a position. */
  lemma ValidAcceptedIff(sha: Sha256d, chain: HeaderChain, ps: seq<Proof>)
    requires Short(ps) && AllValid(sha, chain, ps)
    requires !CollisionIn(sha, BatchInputs(sha, ps)) && NoBridge(sha, ps)
    ensures Batch(sha, ps, chain).Accepted? <==> OneDepth(ps)
  {
    if OneDepth(ps) {
      BatchComplete(sha, chain, ps);
    } else if Batch(sha, ps, chain).Accepted? {
      MixedDepthsRejected(sha, chain, ps);
    }
  }

  // ---------------------------------------------------------------- the exact difference

  /** Proofs that pass through one position of a subtree carry the same sibling there.  This
      compares the bytes of the proofs and hashes nothing. */
  ghost predicate SiblingsAgree(ps: seq<Proof>) {
    forall m: nat, i: nat, level: nat :: Meet(ps, m, i, level) && level < |ps[m].l1| && level < |ps[i].l1| ==>
      ps[m].l1[level] == ps[i].l1[level]
  }

  lemma {:induction false} IndexEnds(q: seq<PathElem>, t: nat)
    requires t <= |q| && PathIndex(q) < Pow2(t)
    ensures PathIndex(q[t..]) == 0
    decreases t
  {
    assert q[0..] == q;
    if t > 0 {
      IndexEnds(q[1..], t - 1);
      assert q[1..][t - 1..] == q[t..];
    }
  }

  /** A certificate that is too short ends where proof i passes through another proof's root ... */
  lemma ShorterMeets(sha: Sha256d, ps: seq<Proof>, i: nat, n: nat, h: Hash, q: seq<PathElem>) returns (d: nat)
    requires Short(ps) && i < n <= |ps| && 1 + |q| < |ps[i].l1| && Certifies(sha, ps[..n], KeyAt(ps[i], 1), h, q)
    ensures Meet(ps, d, i, 1 + |q|) && |ps[d].l1| == 1 + |q|
  {
    var p, seen := ps[i], ps[..n];
    ShortFront(ps, n);
    PathIndexBound(q);
    var e :| InSubtree(seen, p.subtreeRoot, e) && |seen[e].l1| == 1 + |q|;
    d := e;
    IndexEnds(p.l1[1..], |q|);
    assert seen[d] == ps[d] && p.l1[1..][|q|..] == p.l1[1 + |q|..] && ps[d].l1[1 + |q|..] == [];
  }

  /** ... and one that is too long has passed through proof i's root. */
  lemma LongerMeets(sha: Sha256d, ps: seq<Proof>, i: nat, n: nat, h: Hash, q: seq<PathElem>) returns (d: nat)
    requires Short(ps) && i < n <= |ps| && 1 + |q| > |ps[i].l1| > 0 && Certifies(sha, ps[..n], KeyAt(ps[i], 1), h, q)
    ensures Meet(ps, d, i, |ps[i].l1|) && |ps[d].l1| > |ps[i].l1|
  {
    var p, seen, t := ps[i], ps[..n], |ps[i].l1| - 1;
    ShortFront(ps, n);
    PathIndexBound(p.l1[1..]);
    IndexEnds(q, t);
    assert Sourced(seen, p.subtreeRoot, 1 + t, PathIndex(q[t..]), q[t]);
    var m :| InSubtree(seen, p.subtreeRoot, m) && 1 + t < |seen[m].l1| && seen[m].l1[1 + t] == q[t]
      && PathIndex(seen[m].l1[1 + t..]) == PathIndex(q[t..]);
    d := m;
    assert seen[d] == ps[d] && p.l1[1 + t..] == [];
  }

  /** The paths that certify a node of proof i at level 1 are as long as what i has left. */
  lemma CertificateLength(sha: Sha256d, ps: seq<Proof>, i: nat, n: nat, h: Hash, q: seq<PathElem>)
    requires OneDepth(ps) && i < n <= |ps| && ps[i].l1 != []
    requires Certifies(sha, ps[..n], KeyAt(ps[i], 1), h, q)
    ensures |q| == |ps[i].l1| - 1
  {
    if 1 + |q| < |ps[i].l1| {
      var d := ShorterMeets(sha, ps, i, n, h, q);
    } else if 1 + |q| > |ps[i].l1| {
      var d := LongerMeets(sha, ps, i, n, h, q);
    }
  }

  lemma ShortFront(ps: seq<Proof>, n: nat)
    requires Short(ps) && n <= |ps|
    ensures Short(ps[..n])
  {
    assert forall m :: 0 <= m < n ==> ps[..n][m] == ps[m];
  }

  /** With agreeing siblings the path that certifies a proof's first node is the proof's own. */
  lemma CertifiedByOwnPath(sha: Sha256d, ps: seq<Proof>, i: nat, n: nat, h: Hash, q: seq<PathElem>)
    requires OneDepth(ps) && SiblingsAgree(ps) && i < n <= |ps| && ps[i].l1 != []
    requires Certifies(sha, ps[..n], KeyAt(ps[i], 1), h, q)
    ensures q == ps[i].l1[1..]
  {
    var p, seen, rest := ps[i], ps[..n], ps[i].l1[1..];
    ShortFront(ps, n);
    CertificateLength(sha, ps, i, n, h, q);
    PathIndexTurns(q, rest);
    forall t | 0 <= t < |q| ensures q[t] == rest[t] {
      assert Sourced(seen, p.subtreeRoot, 1 + t, PathIndex(q[t..]), q[t]);
      var m :| InSubtree(seen, p.subtreeRoot, m) && 1 + t < |seen[m].l1| && seen[m].l1[1 + t] == q[t]
        && PathIndex(seen[m].l1[1 + t..]) == PathIndex(q[t..]);
      SameTurnsSameIndex(q[t..], rest[t..]);
      assert seen[m] == ps[m] && rest[t..] == p.l1[1 + t..];
      assert Meet(ps, m, i, 1 + t);
    }
  }

  lemma {:induction false} SameTurnsSameIndex(p: seq<PathElem>, q: seq<PathElem>)
    requires SameTurns(p, q)
    ensures PathIndex(p) == PathIndex(q)
  {
    if p != [] {
      SameTurnsSameIndex(p[1..], q[1..]);
    }
  }

  lemma ValidPathsAgree(sha: Sha256d, ps: seq<Proof>)
    requires OneDepth(ps) && forall m :: 0 <= m < |ps| ==> L1Closes(sha, ps[m])
    ensures SiblingsAgree(ps) || CollisionIn(sha, BatchInputs(sha, ps))
  {
    forall m: nat, i: nat, level: nat | Meet(ps, m, i, level) && level < |ps[m].l1| && level < |ps[i].l1|
      ensures ps[m].l1[level] == ps[i].l1[level] || CollisionIn(sha, BatchInputs(sha, ps))
    {
      KeysAbove(ps[m], ps[i], level, level + 1);
      assert Meet(ps, m, i, level + 1);
      MeetingPathsAgree(sha, ps, m, i, level);
      assert ps[m].l1[level..][0] == ps[m].l1[level] && ps[i].l1[level..][0] == ps[i].l1[level];
    }
  }

  lemma AgreedSiblingsClose(sha: Sha256d, chain: HeaderChain, ps: seq<Proof>, i: nat)
    requires OneDepth(ps) && DigestOnly(sha, chain) && i < |ps|
    requires Batch(sha, ps, chain).Accepted? && SiblingsAgree(ps)
    ensures L1Closes(sha, ps[i]) && OnChain(chain, ps[i].header)
  {
    var p := ps[i];
    BatchSound(sha, chain, ps);
    assert Sound(sha, chain, ps[..i + 1], p);
    if p.l1 != [] {
      var h := Parent(sha, p.leaf, p.l1[0]);
      NodesEnd(sha, p);
      IndexHalves(p.l1, 0);
      var q :| Certifies(sha, ps[..i + 1], KeyAt(p, 1), h, q);
      CertifiedByOwnPath(sha, ps, i, i + 1, h, q);
    }
  }

  /** On all batches in which no position is shared between depths, accepted batches whose proofs
      agree on the siblings they share lack nothing but the L2 paths that the verifier skipped. */
  lemma AllValidUpToL2(sha: Sha256d, chain: HeaderChain, ps: seq<Proof>)
    requires OneDepth(ps) && DigestOnly(sha, chain)
    requires !CollisionIn(sha, BatchInputs(sha, ps))
    ensures AllValid(sha, chain, ps) <==>
              Batch(sha, ps, chain).Accepted? && SiblingsAgree(ps) && AllL2Close(sha, ps)
  {
    if AllValid(sha, chain, ps) {
      BatchComplete(sha, chain, ps);
      ValidPathsAgree(sha, ps);
    } else if Batch(sha, ps, chain).Accepted? && SiblingsAgree(ps) {
      forall i | 0 <= i < |ps| ensures L1Closes(sha, ps[i]) && OnChain(chain, ps[i].header) {
        AgreedSiblingsClose(sha, chain, ps, i);
      }
    }
  }

  // ---------------------------------------------------------------- the skipped L2 paths

  /** f is the first proof of the subtree of i, the only one whose L2 path is folded. */
  ghost predicate First(ps: seq<Proof>, f: nat, i: nat) {
    && f <= i < |ps| && ps[f].subtreeRoot == ps[i].subtreeRoot
    && forall m :: 0 <= m < f ==> ps[m].subtreeRoot != ps[i].subtreeRoot
  }

  lemma FirstOf(ps: seq<Proof>, i: nat) returns (f: nat)
    requires i < |ps|
    ensures First(ps, f, i)
  {
    f := 0;
    while ps[f].subtreeRoot != ps[i].subtreeRoot
      invariant f <= i && forall m :: 0 <= m < f ==> ps[m].subtreeRoot != ps[i].subtreeRoot
      decreases i - f
    {
      f := f + 1;
    }
  }

  /** L2 paths with the same turns that are to end in one block root. */
  ghost predicate Alike(p: Proof, q: Proof) {
    SameTurns(p.l2, q.l2) && HeaderMerkleRoot(p.header) == HeaderMerkleRoot(q.header)
  }

  /** Every skipped L2 path is the folded one of its subtree, where it takes the same way to the
      same root: a comparison of bytes.  Only one that takes another way is left to fold. */
  ghost predicate L2Settled(sha: Sha256d, ps: seq<Proof>) {
    forall f: nat, i: nat :: First(ps, f, i) ==>
      if Alike(ps[f], ps[i]) then ps[f].l2 == ps[i].l2 else L2Closes(sha, ps[i])
  }

  /** Everything hashed on the L1 and L2 paths of the batch. */
  ghost function AllInputs(sha: Sha256d, ps: seq<Proof>): set<seq<byte>> {
    BatchInputs(sha, ps) + set i, x | 0 <= i < |ps| && x in FoldInputs(sha, ps[i].subtreeRoot, ps[i].l2) :: x
  }

  lemma AcceptedFirstCloses(sha: Sha256d, chain: HeaderChain, ps: seq<Proof>, f: nat)
    requires DigestOnly(sha, chain) && Batch(sha, ps, chain).Accepted? && First(ps, f, f)
    ensures L2Closes(sha, ps[f])
  {
    BatchSound(sha, chain, ps);
    assert Sound(sha, chain, ps[..f + 1], ps[f]);
    var m :| InSubtree(ps[..f + 1], ps[f].subtreeRoot, m) && L2Closes(sha, ps[..f + 1][m])
      && OnChain(chain, ps[..f + 1][m].header);
    assert ps[..f + 1][m] == ps[m];
  }

  /** Alike L2 paths of one subtree that both close are equal. */
  lemma AlikeAgree(sha: Sha256d, ps: seq<Proof>, f: nat, i: nat)
    requires First(ps, f, i) && Alike(ps[f], ps[i]) && L2Closes(sha, ps[f]) && !CollisionIn(sha, AllInputs(sha, ps))
    ensures L2Closes(sha, ps[i]) <==> ps[f].l2 == ps[i].l2
  {
    if L2Closes(sha, ps[i]) {
      var root, p, q := ps[i].subtreeRoot, ps[f].l2, ps[i].l2;
      FoldBinding(sha, root, p, root, q);
      if p != q {
        CollisionGrows(sha, FoldInputs(sha, root, p) + FoldInputs(sha, root, q), AllInputs(sha, ps));
      }
    }
  }

  lemma SettledIff(sha: Sha256d, ps: seq<Proof>)
    requires forall f: nat :: First(ps, f, f) ==> L2Closes(sha, ps[f])
    requires !CollisionIn(sha, AllInputs(sha, ps))
    ensures L2Settled(sha, ps) <==> AllL2Close(sha, ps)
  {
    forall f: nat, i: nat | First(ps, f, i)
      ensures L2Closes(sha, ps[i]) <==> if Alike(ps[f], ps[i]) then ps[f].l2 == ps[i].l2 else L2Closes(sha, ps[i])
    {
      assert First(ps, f, f);
      if Alike(ps[f], ps[i]) {
        AlikeAgree(sha, ps, f, i);
      }
    }
    if L2Settled(sha, ps) {
      forall i | 0 <= i < |ps| ensures L2Closes(sha, ps[i]) {
        var f := FirstOf(ps, i);
      }
    }
  }

  /** The exact relation between the two verifiers on all batches in which no position is shared
      between depths: all proofs are valid one by one iff the batch is accepted, its proofs agree
      on the siblings they share, and the L2 paths that were skipped are settled. */
  lemma AllValidIff(sha: Sha256d, chain: HeaderChain, ps: seq<Proof>)
    requires OneDepth(ps) && DigestOnly(sha, chain)
    requires !CollisionIn(sha, AllInputs(sha, ps))
    ensures AllValid(sha, chain, ps) <==>
              Batch(sha, ps, chain).Accepted? && SiblingsAgree(ps) && L2Settled(sha, ps)
  {
    if CollisionIn(sha, BatchInputs(sha, ps)) {
      CollisionGrows(sha, BatchInputs(sha, ps), AllInputs(sha, ps));
    }
    AllValidUpToL2(sha, chain, ps);
    if Batch(sha, ps, chain).Accepted? {
      forall f: nat | First(ps, f, f) ensures L2Closes(sha, ps[f]) {
        AcceptedFirstCloses(sha, chain, ps, f);
      }
      SettledIff(sha, ps);
    }
  }

  /** Proofs of one subtree lead the same way to one block root. */
  ghost predicate OneWay(ps: seq<Proof>) {
    forall m, i :: 0 <= m < |ps| && 0 <= i < |ps| && ps[m].subtreeRoot == ps[i].subtreeRoot ==> Alike(ps[m], ps[i])
  }

  /** Proofs of one subtree carry one L2 path. */
  ghost predicate L2Agree(ps: seq<Proof>) {
    forall m, i :: 0 <= m < |ps| && 0 <= i < |ps| && ps[m].subtreeRoot == ps[i].subtreeRoot ==> ps[m].l2 == ps[i].l2
  }

  /** So where proofs of one subtree lead the same way to one block root, what the batch verifier
      skips can be made good by comparing bytes, with nothing left to hash. */
  lemma AllValidByBytes(sha: Sha256d, chain: HeaderChain, ps: seq<Proof>)
    requires OneDepth(ps) && OneWay(ps) && DigestOnly(sha, chain)
    requires !CollisionIn(sha, AllInputs(sha, ps))
    ensures AllValid(sha, chain, ps) <==> Batch(sha, ps, chain).Accepted? && SiblingsAgree(ps) && L2Agree(ps)
  {
    AllValidIff(sha, chain, ps);
    if L2Settled(sha, ps) {
      forall m, i | 0 <= m < |ps| && 0 <= i < |ps| && ps[m].subtreeRoot == ps[i].subtreeRoot
        ensures ps[m].l2 == ps[i].l2
      {
        var f := FirstOf(ps, m);
        var g := FirstOf(ps, i);
        assert f == g;
      }
    }
  }

  // ---------------------------------------------------------------- distinct subtrees

  ghost predicate DistinctSubtrees(ps: seq<Proof>) {
    forall m, i :: 0 <= m < i < |ps| ==> ps[m].subtreeRoot != ps[i].subtreeRoot
  }

  /** Without a recorded node of the subtree the climb is the plain fold. */
  lemma {:induction false} FreshClimb(sha: Sha256d, p: Proof, memo: Memo, j: nat, node: Hash, idx: nat, hashes: nat)
    requires j <= |p.l1|
    requires forall k :: k in memo ==> k.subtree != p.subtreeRoot || k.level <= j
    ensures var r := Climb(sha, p, memo, j, node, idx, hashes);
            && r.Reached? && r.node == Folded(sha, node, p.l1[j..])
            && r.hashes == hashes + |p.l1| - j
            && (forall k :: k in r.memo ==> k in memo || k.subtree == p.subtreeRoot)
    decreases |p.l1| - j
  {
    if j < |p.l1| {
      var parent := Parent(sha, node, p.l1[j]);
      assert p.l1[j..][1..] == p.l1[j + 1..];
      FreshClimb(sha, p, memo[NodeKey(p.subtreeRoot, j + 1, idx / 2) := parent], j + 1, parent, idx / 2, hashes + 1);
    }
  }

  /** Nothing is shared so far with the proofs still to come. */
  ghost predicate Fresh(sha: Sha256d, chain: HeaderChain, ps: seq<Proof>, i: nat, st: State) {
    && (forall k, n :: k in st.memo && i <= n < |ps| ==> k.subtree != ps[n].subtreeRoot)
    && (forall n :: i <= n < |ps| ==> ps[n].subtreeRoot !in st.subtreeOK)
    && (forall d, h: Header :: d in st.headerOK && sha(h.bytes) == d ==> OnChain(chain, h))
  }

  lemma FreshStep(sha: Sha256d, chain: HeaderChain, ps: seq<Proof>, i: nat, st: State)
    requires DistinctSubtrees(ps) && DigestOnly(sha, chain) && i < |ps| && Fresh(sha, chain, ps, i, st)
    ensures var r := Step(sha, ps[i], st, chain);
            && (r.Accepted? <==> Valid(sha, chain, ps[i]))
            && (r.Accepted? ==> Fresh(sha, chain, ps, i + 1, r.state))
            && (r.Accepted? ==> r.state.hashes == st.hashes + |ps[i].l1| + |ps[i].l2|)
  {
    var p := ps[i];
    assert p.l1[0..] == p.l1;
    FreshClimb(sha, p, st.memo, 0, p.leaf, LeafIndexOf(p.l1), st.hashes);
  }

  lemma {:induction false} BatchFromExact(sha: Sha256d, chain: HeaderChain, ps: seq<Proof>, i: nat, st: State)
    requires DistinctSubtrees(ps) && DigestOnly(sha, chain) && i <= |ps| && Fresh(sha, chain, ps, i, st)
    ensures BatchFrom(sha, ps[i..], st, chain).Accepted? <==> forall k :: i <= k < |ps| ==> Valid(sha, chain, ps[k])
    decreases |ps| - i
  {
    if i < |ps| {
      assert ps[i..][0] == ps[i] && ps[i..][1..] == ps[i + 1..];
      FreshStep(sha, chain, ps, i, st);
      if Step(sha, ps[i], st, chain).Accepted? {
        BatchFromExact(sha, chain, ps, i + 1, Step(sha, ps[i], st, chain).state);
      }
    }
  }

  /** When no two proofs share a subtree the promise holds exactly, at any depth. */
  lemma BatchExactOnDistinctSubtrees(sha: Sha256d, chain: HeaderChain, ps: seq<Proof>)
    requires DistinctSubtrees(ps) && DigestOnly(sha, chain)
    ensures Batch(sha, ps, chain).Accepted? <==> AllValid(sha, chain, ps)
  {
    assert ps[0..] == ps;
    BatchFromExact(sha, chain, ps, 0, START);
  }
}
