/** The L1 loop of BatchVerify in one step: where a climb stops and what it has recorded by then
    (fabric/fabric.go:131-155). */
module FabricClimb {
  import opened Commitment
  import opened Positions
  import opened Fabric

  /** The node of `p` at `level`, 0 being its leaf. */
  ghost function NodeAt(sha: Sha256d, p: Proof, level: nat): Hash
    requires level <= |p.l1|
  {
    Folded(sha, p.leaf, p.l1[..level])
  }

  /** The leaf index shifted by `level`; of its turns only 64 count. */
  ghost function IndexAt(path: seq<PathElem>, level: nat): nat
    requires level <= |path|
  {
    var low := if |path| <= 64 then path else path[..64];
    if level <= |low| then PathIndex(low[level..]) else 0
  }

  /** The position of that node. */
  ghost function KeyAt(p: Proof, level: nat): NodeKey
    requires level <= |p.l1|
  {
    NodeKey(p.subtreeRoot, level, IndexAt(p.l1, level))
  }

  lemma NodeParent(sha: Sha256d, p: Proof, level: nat)
    requires level < |p.l1|
    ensures NodeAt(sha, p, level + 1) == Parent(sha, NodeAt(sha, p, level), p.l1[level])
  {
    assert p.l1[..level + 1] == p.l1[..level] + [p.l1[level]];
    FoldedConcat(sha, p.leaf, p.l1[..level], [p.l1[level]]);
  }

  lemma NodesEnd(sha: Sha256d, p: Proof)
    ensures NodeAt(sha, p, 0) == p.leaf && NodeAt(sha, p, |p.l1|) == Folded(sha, p.leaf, p.l1)
    ensures KeyAt(p, |p.l1|) == NodeKey(p.subtreeRoot, |p.l1|, 0)
    ensures KeyAt(p, 0) == NodeKey(p.subtreeRoot, 0, LeafIndexOf(p.l1))
  {
    assert p.l1[..0] == [] && p.l1[..|p.l1|] == p.l1;
    assert p.l1[0..] == p.l1 && p.l1[|p.l1|..] == [];
    assert |p.l1| > 64 ==> p.l1[..64][0..] == p.l1[..64];
    assert |p.l1| == 64 ==> p.l1[..64] == p.l1;
  }

  lemma PathIndexTail(p: seq<PathElem>, j: nat)
    requires j < |p|
    ensures PathIndex(p[j..]) / 2 == PathIndex(p[j + 1..])
  {
    assert p[j..][1..] == p[j + 1..];
  }

  lemma IndexHalves(p: seq<PathElem>, j: nat)
    requires j < |p|
    ensures IndexAt(p, j) / 2 == IndexAt(p, j + 1)
  {
    var low := if |p| <= 64 then p else p[..64];
    if j < |low| {
      PathIndexTail(low, j);
    } else {
      assert j == |low| ==> low[j..] == [];
    }
  }

  /** Proofs that share a position share those above it, as far as both go. */
  lemma {:induction false} KeysAbove(p: Proof, q: Proof, j: nat, level: nat)
    requires j <= level <= |p.l1| && level <= |q.l1| && KeyAt(p, j) == KeyAt(q, j)
    ensures KeyAt(p, level) == KeyAt(q, level)
    decreases level - j
  {
    if j < level {
      IndexHalves(p.l1, j);
      IndexHalves(q.l1, j);
      KeysAbove(p, q, j + 1, level);
    }
  }

  // ---------------------------------------------------------------- climbing over unknown ground

  /** `more` is `memo` with p's nodes at the levels above j up to t. */
  ghost predicate Climbed(sha: Sha256d, p: Proof, memo: Memo, more: Memo, j: nat, t: nat)
    requires t <= |p.l1|
  {
    && (forall k :: k in memo ==> k in more && more[k] == memo[k])
    && (forall l: nat :: j < l <= t ==> KeyAt(p, l) in more && more[KeyAt(p, l)] == NodeAt(sha, p, l))
    && (forall k :: k in more && k !in memo ==> j < k.level <= t && k == KeyAt(p, k.level))
  }

  /** None of p's positions above j up to t is known. */
  ghost predicate Unknown(p: Proof, memo: Memo, j: nat, t: nat)
    requires t <= |p.l1|
  {
    forall l: nat :: j < l <= t ==> KeyAt(p, l) !in memo
  }

  lemma ClimbOne(sha: Sha256d, p: Proof, memo: Memo, j: nat, hashes: nat)
    requires j < |p.l1| && KeyAt(p, j + 1) !in memo
    ensures Climb(sha, p, memo, j, NodeAt(sha, p, j), KeyAt(p, j).index, hashes)
         == Climb(sha, p, memo[KeyAt(p, j + 1) := NodeAt(sha, p, j + 1)], j + 1, NodeAt(sha, p, j + 1),
                  KeyAt(p, j + 1).index, hashes + 1)
  {
    NodeParent(sha, p, j);
    IndexHalves(p.l1, j);
  }

  lemma ClimbedOne(sha: Sha256d, p: Proof, memo: Memo, next: Memo, more: Memo, j: nat, t: nat)
    requires j < t <= |p.l1| && KeyAt(p, j + 1) !in memo && next == memo[KeyAt(p, j + 1) := NodeAt(sha, p, j + 1)]
    requires Climbed(sha, p, next, more, j + 1, t)
    ensures Climbed(sha, p, memo, more, j, t)
  {
    forall l: nat | j < l <= t ensures KeyAt(p, l) in more && more[KeyAt(p, l)] == NodeAt(sha, p, l) {
      if l == j + 1 {
        assert KeyAt(p, l) in next;
      }
    }
  }

  lemma {:induction false} ClimbTo(sha: Sha256d, p: Proof, memo: Memo, j: nat, t: nat, hashes: nat, after: nat)
    returns (more: Memo)
    requires j <= t <= |p.l1| && Unknown(p, memo, j, t) && after == hashes + t - j
    ensures Climbed(sha, p, memo, more, j, t)
    ensures Climb(sha, p, memo, j, NodeAt(sha, p, j), KeyAt(p, j).index, hashes)
         == Climb(sha, p, more, t, NodeAt(sha, p, t), KeyAt(p, t).index, after)
    decreases t - j
  {
    if j == t {
      more := memo;
    } else {
      var next := memo[KeyAt(p, j + 1) := NodeAt(sha, p, j + 1)];
      ClimbOne(sha, p, memo, j, hashes);
      more := ClimbTo(sha, p, next, j + 1, t, hashes + 1, after);
      ClimbedOne(sha, p, memo, next, more, j, t);
    }
  }

  lemma {:induction false} FirstKnown(p: Proof, memo: Memo, j: nat) returns (t: nat)
    requires j <= |p.l1|
    ensures j <= t <= |p.l1| && Unknown(p, memo, j, t)
    ensures t < |p.l1| ==> KeyAt(p, t + 1) in memo
    decreases |p.l1| - j
  {
    if j == |p.l1| || KeyAt(p, j + 1) in memo {
      t := j;
    } else {
      t := FirstKnown(p, memo, j + 1);
    }
  }

  /** How a climb ends: it runs out of siblings after level t, or finds the node at level t + 1
      known, and then agrees with it or not. */
  ghost predicate Stops(sha: Sha256d, p: Proof, memo: Memo, more: Memo, t: nat, hashes: nat, r: ClimbResult) {
    && t <= |p.l1| && Unknown(p, memo, 0, t) && Climbed(sha, p, memo, more, 0, t)
    && (t < |p.l1| ==> KeyAt(p, t + 1) in memo)
    && r == if t == |p.l1| then Reached(more, Folded(sha, p.leaf, p.l1), hashes + t)
            else if memo[KeyAt(p, t + 1)] == NodeAt(sha, p, t + 1) then Merged(more, hashes + t + 1)
            else Clash(hashes + t + 1)
  }

  lemma ClimbStops(sha: Sha256d, p: Proof, memo: Memo, hashes: nat) returns (t: nat, more: Memo)
    ensures Stops(sha, p, memo, more, t, hashes, Climb(sha, p, memo, 0, p.leaf, LeafIndexOf(p.l1), hashes))
  {
    NodesEnd(sha, p);
    t := FirstKnown(p, memo, 0);
    more := ClimbTo(sha, p, memo, 0, t, hashes, hashes + t);
    if t < |p.l1| {
      NodeParent(sha, p, t);
      IndexHalves(p.l1, t);
    }
  }
}
