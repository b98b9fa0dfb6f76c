/** What a batch costs (fabric/fabric.go:106-180): every hash is either stored as a new node
    of the memo, or is the one that meets a stored node, or belongs to the single L2 fold of
    its subtree.  Each of these is counted. */
module FabricCost {
  import opened Commitment
  import opened Positions
  import opened Fabric
  import opened FabricSoundness
  import opened FabricCompleteness

  /** The work of verifying one by one. */
  function Naive(ps: seq<Proof>): nat {
    if ps == [] then 0 else |ps[0].l1| + |ps[0].l2| + Naive(ps[1..])
  }

  /** The L2 work when each subtree is folded once, by the first proof that names it. */
  function L2Once(ps: seq<Proof>, known: set<Hash>): nat
    decreases |ps|
  {
    if ps == [] then 0
    else (if ps[0].subtreeRoot in known then 0 else |ps[0].l2|) + L2Once(ps[1..], known + {ps[0].subtreeRoot})
  }

  function Roots(ps: seq<Proof>): set<Hash> { set p | p in ps :: p.subtreeRoot }

  // ---------------------------------------------------------------- hashes against memo growth

  lemma {:induction false} ClimbCost(sha: Sha256d, p: Proof, memo: Memo, j: nat, node: Hash, idx: nat, hashes: nat)
    requires j <= |p.l1|
    ensures var r := Climb(sha, p, memo, j, node, idx, hashes);
            && r.hashes <= hashes + |p.l1| - j
            && (r.Reached? ==> r.hashes - hashes == |r.memo| - |memo|)
            && (r.Merged? ==> r.hashes - hashes == |r.memo| - |memo| + 1)
    decreases |p.l1| - j
  {
    if j < |p.l1| {
      var parent, key := Parent(sha, node, p.l1[j]), NodeKey(p.subtreeRoot, j + 1, idx / 2);
      if key !in memo {
        ClimbCost(sha, p, memo[key := parent], j + 1, parent, idx / 2, hashes + 1);
      }
    }
  }

  /** How many of the proofs run into a node that is already known and agree with it. */
  function Merges(sha: Sha256d, ps: seq<Proof>, st: State, chain: HeaderChain): nat
    decreases |ps|
  {
    if ps == [] then 0
    else
      match Step(sha, ps[0], st, chain)
      case Rejected(_) => 0
      case Accepted(next) =>
        (if Climb(sha, ps[0], st.memo, 0, ps[0].leaf, LeafIndexOf(ps[0].l1), st.hashes).Merged? then 1 else 0)
        + Merges(sha, ps[1..], next, chain)
  }

  /** Total work never exceeds the naive sum, whether the batch is accepted or not; on
      acceptance it is the memo plus the L2 folds plus the merges. */
  lemma {:induction false} BatchFromCost(sha: Sha256d, ps: seq<Proof>, st: State, chain: HeaderChain)
    ensures var r := BatchFrom(sha, ps, st, chain);
            && (r.Rejected? ==> r.hashes <= st.hashes + Naive(ps))
            && (r.Accepted? ==> r.state.hashes <= st.hashes + Naive(ps))
            && (r.Accepted? ==> r.state.hashes == st.hashes + |r.state.memo| - |st.memo| + L2Once(ps, st.subtreeOK)
                                                  + Merges(sha, ps, st, chain))
    decreases |ps|
  {
    if ps != [] {
      var p := ps[0];
      ClimbCost(sha, p, st.memo, 0, p.leaf, LeafIndexOf(p.l1), st.hashes);
      var step := Step(sha, p, st, chain);
      if step.Accepted? {
        BatchFromCost(sha, ps[1..], step.state, chain);
      }
    }
  }

  lemma NeverWorseThanNaive(sha: Sha256d, ps: seq<Proof>, chain: HeaderChain)
    ensures match Batch(sha, ps, chain)
            case Rejected(hashes) => hashes <= Naive(ps)
            case Accepted(st) => st.hashes <= Naive(ps)
  {
    BatchFromCost(sha, ps, START, chain);
  }

  // ---------------------------------------------------------------- how often proofs merge

  /** How many of the proofs are not the first of their subtree. */
  function Repeats(ps: seq<Proof>, known: set<Hash>): nat
    decreases |ps|
  {
    if ps == [] then 0
    else (if ps[0].subtreeRoot in known then 1 else 0) + Repeats(ps[1..], known + {ps[0].subtreeRoot})
  }

  lemma OneMoreKnown<T>(all: set<T>, rest: set<T>, known: set<T>, x: T)
    requires all == {x} + rest
    ensures |all - known| == |rest - (known + {x})| + if x in known then 0 else 1
  {
    var later := rest - (known + {x});
    assert all - known == if x in known then later else later + {x};
  }

  lemma {:induction false} RepeatsCount(ps: seq<Proof>, known: set<Hash>)
    ensures Repeats(ps, known) + |Roots(ps) - known| == |ps|
    decreases |ps|
  {
    if ps != [] {
      RepeatsCount(ps[1..], known + {ps[0].subtreeRoot});
      RootsCons(ps);
      OneMoreKnown(Roots(ps), Roots(ps[1..]), known, ps[0].subtreeRoot);
    }
  }

  /** The recorded nodes are those of the subtrees met so far. */
  ghost predicate MetOnly(st: State) { forall key :: key in st.memo ==> key.subtree in st.subtreeOK }

  /** The root of every subtree met so far is recorded, k levels up. */
  ghost predicate TopsKnown(st: State, k: nat) { forall r :: r in st.subtreeOK ==> NodeKey(r, k, 0) in st.memo }

  /** With its subtree's root recorded a climb cannot run out of siblings ... */
  lemma {:induction false} ClimbMeets(sha: Sha256d, p: Proof, memo: Memo, j: nat, node: Hash, hashes: nat)
    requires j < |p.l1| && NodeKey(p.subtreeRoot, |p.l1|, 0) in memo
    ensures !Climb(sha, p, memo, j, node, PathIndex(p.l1[j..]), hashes).Reached?
    decreases |p.l1| - j
  {
    assert p.l1[j..][1..] == p.l1[j + 1..];
    var parent, key := Parent(sha, node, p.l1[j]), NodeKey(p.subtreeRoot, j + 1, PathIndex(p.l1[j + 1..]));
    assert PathIndex(p.l1[j..]) / 2 == key.index;
    if key !in memo {
      ClimbMeets(sha, p, memo[key := parent], j + 1, parent, hashes + 1);
    }
  }

  /** ... and one that does has recorded it. */
  lemma {:induction false} ClimbRecordsTop(sha: Sha256d, p: Proof, memo: Memo, j: nat, node: Hash, hashes: nat)
    requires j < |p.l1|
    ensures var r := Climb(sha, p, memo, j, node, PathIndex(p.l1[j..]), hashes);
            r.Reached? ==> NodeKey(p.subtreeRoot, |p.l1|, 0) in r.memo
    decreases |p.l1| - j
  {
    assert p.l1[j..][1..] == p.l1[j + 1..];
    var parent, key := Parent(sha, node, p.l1[j]), NodeKey(p.subtreeRoot, j + 1, PathIndex(p.l1[j + 1..]));
    assert PathIndex(p.l1[j..]) / 2 == key.index;
    if key !in memo {
      if j + 1 == |p.l1| {
        assert p.l1[j + 1..] == [];
      } else {
        ClimbRecordsTop(sha, p, memo[key := parent], j + 1, parent, hashes + 1);
      }
    }
  }

  /** The first proof of a subtree never merges. */
  lemma FirstNeverMerges(sha: Sha256d, p: Proof, st: State, chain: HeaderChain)
    requires MetOnly(st) && Step(sha, p, st, chain).Accepted?
    ensures MetOnly(Step(sha, p, st, chain).state)
    ensures p.subtreeRoot !in st.subtreeOK ==> Climb(sha, p, st.memo, 0, p.leaf, LeafIndexOf(p.l1), st.hashes).Reached?
  {
    ClimbStays(sha, p, st.memo, 0, p.leaf, LeafIndexOf(p.l1), st.hashes);
    if p.subtreeRoot !in st.subtreeOK {
      FreshClimb(sha, p, st.memo, 0, p.leaf, LeafIndexOf(p.l1), st.hashes);
    }
  }

  lemma {:induction false} ClimbStays(sha: Sha256d, p: Proof, memo: Memo, j: nat, node: Hash, idx: nat, hashes: nat)
    requires j <= |p.l1|
    ensures var r := Climb(sha, p, memo, j, node, idx, hashes);
            !r.Clash? ==> forall key :: key in r.memo ==> key in memo || key.subtree == p.subtreeRoot
    decreases |p.l1| - j
  {
    if j < |p.l1| {
      var parent, key := Parent(sha, node, p.l1[j]), NodeKey(p.subtreeRoot, j + 1, idx / 2);
      if key !in memo {
        ClimbStays(sha, p, memo[key := parent], j + 1, parent, idx / 2, hashes + 1);
      }
    }
  }

  /** And where all proofs are k levels deep, every other one does. */
  lemma OthersMerge(sha: Sha256d, p: Proof, st: State, chain: HeaderChain, k: nat)
    requires 0 < |p.l1| == k <= 64 && MetOnly(st) && TopsKnown(st, k) && Step(sha, p, st, chain).Accepted?
    ensures TopsKnown(Step(sha, p, st, chain).state, k)
    ensures p.subtreeRoot in st.subtreeOK ==> Climb(sha, p, st.memo, 0, p.leaf, LeafIndexOf(p.l1), st.hashes).Merged?
  {
    assert p.l1[0..] == p.l1;
    FirstNeverMerges(sha, p, st, chain);
    ClimbKeeps(sha, p, st.memo, 0, p.leaf, LeafIndexOf(p.l1), st.hashes);
    ClimbRecordsTop(sha, p, st.memo, 0, p.leaf, st.hashes);
    if p.subtreeRoot in st.subtreeOK {
      ClimbMeets(sha, p, st.memo, 0, p.leaf, st.hashes);
    }
  }

  lemma {:induction false} MergesBound(sha: Sha256d, ps: seq<Proof>, st: State, chain: HeaderChain)
    requires MetOnly(st) && BatchFrom(sha, ps, st, chain).Accepted?
    ensures Merges(sha, ps, st, chain) <= Repeats(ps, st.subtreeOK)
    decreases |ps|
  {
    if ps != [] {
      FirstNeverMerges(sha, ps[0], st, chain);
      MergesBound(sha, ps[1..], Step(sha, ps[0], st, chain).state, chain);
    }
  }

  lemma {:induction false} MergesExact(sha: Sha256d, ps: seq<Proof>, st: State, chain: HeaderChain, k: nat)
    requires 0 < k <= 64 && (forall p :: p in ps ==> |p.l1| == k) && TopsKnown(st, k)
    requires MetOnly(st) && BatchFrom(sha, ps, st, chain).Accepted?
    ensures Merges(sha, ps, st, chain) == Repeats(ps, st.subtreeOK)
    decreases |ps|
  {
    if ps != [] {
      FirstNeverMerges(sha, ps[0], st, chain);
      OthersMerge(sha, ps[0], st, chain, k);
      MergesExact(sha, ps[1..], Step(sha, ps[0], st, chain).state, chain, k);
    }
  }

  /** The cost of an accepted batch of P proofs over S subtrees: a hash for every node recorded, the
      L2 fold of each subtree, and one hash for every merge, of which there are at most P - S. */
  lemma AcceptedCost(sha: Sha256d, ps: seq<Proof>, chain: HeaderChain)
    requires Batch(sha, ps, chain).Accepted?
    ensures var st := Batch(sha, ps, chain).state;
            && st.hashes == |st.memo| + L2Once(ps, {}) + Merges(sha, ps, START, chain)
            && Merges(sha, ps, START, chain) + |Roots(ps)| <= |ps|
  {
    BatchFromCost(sha, ps, START, chain);
    MergesBound(sha, ps, START, chain);
    RepeatsCount(ps, {});
    assert Roots(ps) - {} == Roots(ps);
  }

  // ---------------------------------------------------------------- how big the memo can get

  function LevelKeys(root: Hash, level: nat, n: nat): set<NodeKey> {
    if n == 0 then {} else LevelKeys(root, level, n - 1) + {NodeKey(root, level, n - 1)}
  }

  lemma {:induction false} LevelKeysSize(root: Hash, level: nat, n: nat)
    ensures |LevelKeys(root, level, n)| <= n
  {
    if n > 0 {
      LevelKeysSize(root, level, n - 1);
    }
  }

  lemma {:induction false} LevelKeysHas(root: Hash, level: nat, n: nat, index: nat)
    requires index < n
    ensures NodeKey(root, level, index) in LevelKeys(root, level, n)
  {
    if index < n - 1 {
      LevelKeysHas(root, level, n - 1, index);
    }
  }

  /** The inner nodes of a perfect subtree of depth k, from `level` up. */
  function InnerKeys(root: Hash, level: nat, k: nat): set<NodeKey>
    decreases k + 1 - level
  {
    if level > k then {} else LevelKeys(root, level, Pow2(k - level)) + InnerKeys(root, level + 1, k)
  }

  lemma {:induction false} InnerKeysHas(root: Hash, level: nat, k: nat, key: NodeKey)
    requires key.subtree == root && level <= key.level <= k && key.index < Pow2(k - key.level)
    ensures key in InnerKeys(root, level, k)
    decreases k - level
  {
    if key.level == level {
      LevelKeysHas(root, level, Pow2(k - level), key.index);
    } else {
      InnerKeysHas(root, level + 1, k, key);
    }
  }

  lemma {:induction false} InnerKeysSize(root: Hash, level: nat, k: nat)
    requires level <= k + 1
    ensures |InnerKeys(root, level, k)| <= Pow2(k + 1 - level) - 1
    decreases k + 1 - level
  {
    if level <= k {
      LevelKeysSize(root, level, Pow2(k - level));
      InnerKeysSize(root, level + 1, k);
      UnionSize(LevelKeys(root, level, Pow2(k - level)), InnerKeys(root, level + 1, k));
    }
  }

  function BatchKeys(ps: seq<Proof>, k: nat): set<NodeKey> {
    if ps == [] then {} else InnerKeys(ps[0].subtreeRoot, 1, k) + BatchKeys(ps[1..], k)
  }

  lemma {:induction false} BatchKeysMembers(ps: seq<Proof>, root: Hash, k: nat)
    requires root in Roots(ps)
    ensures InnerKeys(root, 1, k) <= BatchKeys(ps, k)
  {
    RootsCons(ps);
    if root != ps[0].subtreeRoot {
      BatchKeysMembers(ps[1..], root, k);
    }
  }

  lemma {:induction false} BatchKeysSize(ps: seq<Proof>, k: nat, inner: nat)
    requires inner == Pow2(k) - 1
    ensures |BatchKeys(ps, k)| <= |Roots(ps)| * inner
  {
    if ps != [] {
      BatchKeysSize(ps[1..], k, inner);
      if ps[0].subtreeRoot in Roots(ps[1..]) {
        RepeatedRoot(ps, k);
      } else {
        NewRoot(ps, k);
        OneMoreRoot(|BatchKeys(ps, k)|, |BatchKeys(ps[1..], k)|, |Roots(ps[1..])|, inner, |Roots(ps)|);
      }
    }
  }

  lemma NewRoot(ps: seq<Proof>, k: nat)
    requires ps != [] && ps[0].subtreeRoot !in Roots(ps[1..])
    ensures |Roots(ps)| == |Roots(ps[1..])| + 1
    ensures |BatchKeys(ps, k)| <= Pow2(k) - 1 + |BatchKeys(ps[1..], k)|
  {
    RootsCons(ps);
    InnerKeysSize(ps[0].subtreeRoot, 1, k);
    UnionSize(InnerKeys(ps[0].subtreeRoot, 1, k), BatchKeys(ps[1..], k));
  }

  lemma OneMoreRoot(keys: nat, later: nat, r: nat, m: nat, roots: nat)
    requires keys <= m + later && later <= r * m && roots == r + 1
    ensures keys <= roots * m
  {
    assert (r + 1) * m == r * m + m;
  }

  lemma RepeatedRoot(ps: seq<Proof>, k: nat)
    requires ps != [] && ps[0].subtreeRoot in Roots(ps[1..])
    ensures Roots(ps) == Roots(ps[1..]) && BatchKeys(ps, k) == BatchKeys(ps[1..], k)
  {
    RootsCons(ps);
    BatchKeysMembers(ps[1..], ps[0].subtreeRoot, k);
  }

  lemma RootsCons(ps: seq<Proof>)
    requires ps != []
    ensures Roots(ps) == {ps[0].subtreeRoot} + Roots(ps[1..])
  {
    assert forall p :: p in ps <==> p == ps[0] || p in ps[1..];
  }

  lemma UnionSize<T>(a: set<T>, b: set<T>)
    ensures |a + b| <= |a| + |b|
  {
    assert a + b == a + (b - a) && a !! (b - a);
    assert |b - a| <= |b| by {
      assert b == (b - a) + (a * b) && (b - a) !! (a * b);
    }
  }

  lemma {:induction false} ClimbKeys(sha: Sha256d, p: Proof, memo: Memo, j: nat, node: Hash, hashes: nat)
    requires j <= |p.l1|
    ensures var r := Climb(sha, p, memo, j, node, PathIndex(p.l1[j..]), hashes);
            !r.Clash? ==> r.memo.Keys <= memo.Keys + InnerKeys(p.subtreeRoot, 1, |p.l1|)
    decreases |p.l1| - j
  {
    if j < |p.l1| {
      assert p.l1[j..][1..] == p.l1[j + 1..];
      var parent, key := Parent(sha, node, p.l1[j]), NodeKey(p.subtreeRoot, j + 1, PathIndex(p.l1[j + 1..]));
      assert PathIndex(p.l1[j..]) / 2 == key.index;
      PathIndexBound(p.l1[j + 1..]);
      InnerKeysHas(p.subtreeRoot, 1, |p.l1|, key);
      if key !in memo {
        ClimbKeys(sha, p, memo[key := parent], j + 1, parent, hashes + 1);
      }
    }
  }

  lemma {:induction false} BatchFromKeys(sha: Sha256d, ps: seq<Proof>, st: State, chain: HeaderChain, k: nat)
    requires k <= 64 && forall p :: p in ps ==> |p.l1| == k
    ensures var r := BatchFrom(sha, ps, st, chain);
            r.Accepted? ==> r.state.memo.Keys <= st.memo.Keys + BatchKeys(ps, k)
    decreases |ps|
  {
    if ps != [] {
      var p := ps[0];
      assert p.l1[0..] == p.l1;
      ClimbKeys(sha, p, st.memo, 0, p.leaf, st.hashes);
      var step := Step(sha, p, st, chain);
      if step.Accepted? {
        BatchFromKeys(sha, ps[1..], step.state, chain, k);
      }
    }
  }

  /** Amortisation: P proofs of depth k over S subtrees cost one L2 fold per subtree, one hash per
      proof but the first of each subtree, and one per recorded node, of which there are no more
      than the S subtrees have inner nodes. */
  lemma AmortisedCost(sha: Sha256d, ps: seq<Proof>, chain: HeaderChain, k: nat)
    requires k <= 64 && forall p :: p in ps ==> |p.l1| == k
    requires Batch(sha, ps, chain).Accepted?
    ensures var st := Batch(sha, ps, chain).state;
            && st.hashes == |st.memo| + L2Once(ps, {}) + (if k > 0 then |ps| - |Roots(ps)| else 0)
            && |st.memo| <= |Roots(ps)| * (Pow2(k) - 1)
  {
    BatchFromCost(sha, ps, START, chain);
    RepeatsCount(ps, {});
    assert Roots(ps) - {} == Roots(ps);
    if k > 0 {
      MergesExact(sha, ps, START, chain, k);
    } else {
      FlatNeverMerges(sha, ps, START, chain);
    }
    MemoBound(sha, ps, chain, k);
  }

  lemma MemoBound(sha: Sha256d, ps: seq<Proof>, chain: HeaderChain, k: nat)
    requires k <= 64 && forall p :: p in ps ==> |p.l1| == k
    requires Batch(sha, ps, chain).Accepted?
    ensures |Batch(sha, ps, chain).state.memo| <= |Roots(ps)| * (Pow2(k) - 1)
  {
    BatchFromKeys(sha, ps, START, chain, k);
    MapSize(Batch(sha, ps, chain).state.memo, BatchKeys(ps, k));
    BatchKeysSize(ps, k, Pow2(k) - 1);
  }

  lemma {:induction false} FlatNeverMerges(sha: Sha256d, ps: seq<Proof>, st: State, chain: HeaderChain)
    requires forall p :: p in ps ==> p.l1 == []
    ensures Merges(sha, ps, st, chain) == 0
    decreases |ps|
  {
    if ps != [] && Step(sha, ps[0], st, chain).Accepted? {
      FlatNeverMerges(sha, ps[1..], Step(sha, ps[0], st, chain).state, chain);
    }
  }

  lemma MapSize<K, V>(m: map<K, V>, keys: set<K>)
    requires m.Keys <= keys
    ensures |m| <= |keys|
  {
    assert |m| == |m.Keys|;
    SubsetSize(m.Keys, keys);
  }

  lemma SubsetSize<T>(a: set<T>, b: set<T>)
    requires a <= b
    ensures |a| <= |b|
  {
    assert b == a + (b - a) && a !! (b - a);
  }
}
