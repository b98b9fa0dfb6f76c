/** bench/blockverify.go and bench/fabric16.go: Merkle work in sixteen lanes.

    Slices of scratch memory are an array and a length.  The lane buffers `msgs` and `out` keep
    whatever an earlier call left in them: no contract asks anything of their old contents. */
module BlockVerify {
  import opened Commitment
  import opened MerkleTree

  const LANES := 16

  /** The two lane buffers of the kernel. */
  ghost predicate Lanes(msgs: array<seq<byte>>, out: array<Hash>)
    reads msgs
  {
    msgs.Length == out.Length == LANES && forall k :: 0 <= k < LANES ==> |msgs[k]| == 64
  }

  /** The kernel: sixteen digests, lane by lane. */
  method DoubleSHA256x16(sha: Sha256d, msgs: array<seq<byte>>, out: array<Hash>)
    requires Lanes(msgs, out)
    modifies out
    ensures forall k :: 0 <= k < LANES ==> out[k] == sha(msgs[k])
  {
    for k := 0 to LANES
      invariant forall i :: 0 <= i < k ==> out[i] == sha(msgs[i])
    {
      out[k] := sha(msgs[k]);
    }
  }

  /** copy(msg[:32], left); copy(msg[32:], right) */
  method FillLane(msgs: array<seq<byte>>, k: nat, left: Hash, right: Hash)
    requires k < msgs.Length && |msgs[k]| == 64
    modifies msgs
    ensures msgs[k] == PairBytes(left, right)
    ensures forall i :: 0 <= i < msgs.Length && i != k ==> msgs[i] == old(msgs[i])
  {
    msgs[k] := left.bytes + msgs[k][32..];
    msgs[k] := msgs[k][..32] + right.bytes;
  }

  // ---------------------------------------------------------------- one level

  /** One group of at most sixteen pairs. */
  method HashGroup(sha: Sha256d, cur: array<Hash>, n: nat, next: array<Hash>, base: nat, cnt: nat,
                   msgs: array<seq<byte>>, out: array<Hash>)
    requires Lanes(msgs, out) && n <= cur.Length && cnt <= LANES
    requires base + cnt <= next.Length && 2 * (base + cnt) <= n + 1
    requires cur != next && cur != out && next != out
    modifies next, msgs, out
    ensures Lanes(msgs, out)
    ensures forall i :: base <= i < base + cnt ==> next[i] == sha(PairInput(cur[..n], i))
    ensures forall i :: 0 <= i < next.Length && !(base <= i < base + cnt) ==> next[i] == old(next[i])
  {
    LoadGroup(cur, n, base, cnt, msgs, out);
    DoubleSHA256x16(sha, msgs, out);
    StoreGroup(next, base, cnt, out);
    forall i | base <= i < base + cnt ensures next[i] == sha(PairInput(cur[..n], i)) {
      assert next[i] == out[i - base];
    }
  }

  /** The pairs of a group into the lanes. */
  method LoadGroup(cur: array<Hash>, n: nat, base: nat, cnt: nat, msgs: array<seq<byte>>, ghost out: array<Hash>)
    requires Lanes(msgs, out) && n <= cur.Length && cnt <= LANES && 2 * (base + cnt) <= n + 1
    modifies msgs
    ensures Lanes(msgs, out) && forall j :: 0 <= j < cnt ==> msgs[j] == PairInput(cur[..n], base + j)
  {
    for k := 0 to cnt
      invariant Lanes(msgs, out)
      invariant forall j :: 0 <= j < k ==> msgs[j] == PairInput(cur[..n], base + j)
    {
      var i := (base + k) * 2;
      var l := cur[i];
      var r := l;
      if i + 1 < n {
        r := cur[i + 1];
      }
      FillLane(msgs, k, l, r);
    }
  }

  /** The digests of a group into the next level. */
  method StoreGroup(next: array<Hash>, base: nat, cnt: nat, out: array<Hash>)
    requires out.Length == LANES && cnt <= LANES && base + cnt <= next.Length && next != out
    modifies next
    ensures forall i :: base <= i < base + cnt ==> next[i] == out[i - base]
    ensures forall i :: 0 <= i < next.Length && !(base <= i < base + cnt) ==> next[i] == old(next[i])
  {
    for k := 0 to cnt
      invariant forall i :: base <= i < base + k ==> next[i] == out[i - base]
      invariant forall i :: 0 <= i < next.Length && !(base <= i < base + k) ==> next[i] == old(next[i])
    {
      next[base + k] := out[k];
    }
  }

  method BuildLevel16(sha: Sha256d, cur: array<Hash>, n: nat, next: array<Hash>, m: nat,
                      msgs: array<seq<byte>>, out: array<Hash>)
    requires Lanes(msgs, out) && n <= cur.Length && m == (n + 1) / 2 <= next.Length
    requires cur != next && cur != out && next != out
    modifies next, msgs, out
    ensures Lanes(msgs, out)
    ensures next[..m] == NextLevel(sha, cur[..n])
    ensures next[m..] == old(next[m..])
  {
    var base := 0;
    while base < m
      invariant base % LANES == 0 && Lanes(msgs, out)
      invariant forall i :: 0 <= i < base && i < m ==> next[i] == sha(PairInput(cur[..n], i))
      invariant forall i :: m <= i < next.Length ==> next[i] == old(next[i])
    {
      var cnt := m - base;
      if cnt > LANES {
        cnt := LANES;
      }
      HashGroup(sha, cur, n, next, base, cnt, msgs, out);
      base := base + LANES;
    }
  }

  // ---------------------------------------------------------------- the whole tree

  /** Reduces the leaves to their Merkle root, alternating between two scratch buffers. */
  method BuildTree16(sha: Sha256d, leaves: array<Hash>, a: array<Hash>, b: array<Hash>,
                     msgs: array<seq<byte>>, out: array<Hash>) returns (root: Hash)
    requires Lanes(msgs, out) && leaves.Length > 0
    requires a.Length >= (leaves.Length + 1) / 2 && b.Length >= (leaves.Length + 1) / 2
    requires leaves != a && leaves != b && a != b && out != leaves && out != a && out != b
    modifies a, b, msgs, out
    ensures root == Root(sha, leaves[..])
  {
    if leaves.Length == 1 {
      return leaves[0];
    }
    var cur, n := leaves, leaves.Length;
    var dst := a;
    assert cur[..n] == leaves[..];
    while n > 1
      invariant Lanes(msgs, out) && 0 < n <= cur.Length
      invariant (cur == leaves && dst == a) || (cur == a && dst == b) || (cur == b && dst == a)
      invariant cur != leaves ==> n <= (leaves.Length + 1) / 2
      invariant Root(sha, cur[..n]) == Root(sha, leaves[..])
      decreases n
    {
      var m := (n + 1) / 2;
      ghost var level := cur[..n];
      BuildLevel16(sha, cur, n, dst, m, msgs, out);
      assert dst[..m] == NextLevel(sha, level);
      cur, n := dst, m;
      if dst == a {
        dst := b;
      } else {
        dst := a;
      }
    }
    return cur[0];
  }

  // ---------------------------------------------------------------- sixteen proofs in lockstep

  datatype BatchProof = BatchProof(leaf: Hash, l1: seq<PathElem>, l2: seq<PathElem>, subtreeRoot: Hash, blockRoot: Hash)

  /** A group of sixteen proofs, none with a shorter L1 path than the first; on a shorter one the
      lockstep loop would run off its end. */
  ghost predicate IsGroup(group: seq<BatchProof>) {
    |group| == LANES && forall k :: 0 <= k < LANES ==> |group[k].l1| >= |group[0].l1|
  }

  /** The L1 folds of a group, all as long as the first path is. */
  method Fold16(sha: Sha256d, group: seq<BatchProof>, node: array<Hash>, msgs: array<seq<byte>>, out: array<Hash>)
    requires Lanes(msgs, out) && node.Length == LANES && node != out && IsGroup(group)
    modifies node, msgs, out
    ensures Lanes(msgs, out)
    ensures forall k :: 0 <= k < LANES ==> node[k] == Folded(sha, group[k].leaf, group[k].l1[..|group[0].l1|])
  {
    for k := 0 to LANES
      invariant forall i :: 0 <= i < k ==> node[i] == group[i].leaf
      modifies node
    {
      node[k] := group[k].leaf;
    }
    var levels := |group[0].l1|;
    for j := 0 to levels
      invariant Lanes(msgs, out)
      invariant forall k :: 0 <= k < LANES ==>
                  Folded(sha, node[k], group[k].l1[j..levels]) == Folded(sha, group[k].leaf, group[k].l1[..levels])
    {
      HashLevel16(sha, group, j, levels, node, msgs, out);
    }
  }

  /** Level j of all sixteen folds in one kernel call. */
  method HashLevel16(sha: Sha256d, group: seq<BatchProof>, j: nat, ghost levels: nat, node: array<Hash>,
                     msgs: array<seq<byte>>, out: array<Hash>)
    requires Lanes(msgs, out) && node.Length == LANES && node != out && IsGroup(group) && j < levels == |group[0].l1|
    modifies node, msgs, out
    ensures Lanes(msgs, out)
    ensures forall k :: 0 <= k < LANES ==>
              Folded(sha, node[k], group[k].l1[j + 1..levels]) == old(Folded(sha, node[k], group[k].l1[j..levels]))
  {
    for k := 0 to LANES
      invariant Lanes(msgs, out)
      invariant forall i :: 0 <= i < k ==> sha(msgs[i]) == Parent(sha, node[i], group[i].l1[j])
      modifies msgs
    {
      var e := group[k].l1[j];
      if e.right {
        FillLane(msgs, k, node[k], e.sibling);
      } else {
        FillLane(msgs, k, e.sibling, node[k]);
      }
    }
    DoubleSHA256x16(sha, msgs, out);
    ghost var was := node[..];
    for k := 0 to LANES
      invariant forall i :: 0 <= i < k ==> node[i] == out[i]
      modifies node
    {
      node[k] := out[k];
    }
    forall k | 0 <= k < LANES
      ensures Folded(sha, node[k], group[k].l1[j + 1..levels]) == Folded(sha, was[k], group[k].l1[j..levels])
    {
      assert group[k].l1[j..levels][0] == group[k].l1[j] && group[k].l1[j..levels][1..] == group[k].l1[j + 1..levels];
    }
  }

  /** Whether the first proof that names the subtree closes its L2. */
  function SubtreeVerdict(sha: Sha256d, ps: seq<BatchProof>, root: Hash): bool {
    if ps == [] then false
    else if ps[0].subtreeRoot == root then Folded(sha, root, ps[0].l2) == ps[0].blockRoot
    else SubtreeVerdict(sha, ps[1..], root)
  }

  /** The path as far as n levels, as far as it goes. */
  function Front(path: seq<PathElem>, n: nat): seq<PathElem> { if n <= |path| then path[..n] else path }

  /** Lane k of a group counts: its path, cut to the first one's length, closes, and so does its
      subtree. */
  predicate LaneCounts(sha: Sha256d, ps: seq<BatchProof>, group: seq<BatchProof>, k: nat)
    requires k < |group|
  {
    && Folded(sha, group[k].leaf, Front(group[k].l1, |group[0].l1|)) == group[k].subtreeRoot
    && SubtreeVerdict(sha, ps, group[k].subtreeRoot)
  }

  function CountLanes(sha: Sha256d, ps: seq<BatchProof>, group: seq<BatchProof>, n: nat): nat
    requires n <= |group|
  {
    if n == 0 then 0 else CountLanes(sha, ps, group, n - 1) + (if LaneCounts(sha, ps, group, n - 1) then 1 else 0)
  }

  /** The whole groups of `rest`, counted in the batch `ps`. */
  function CountGroups(sha: Sha256d, ps: seq<BatchProof>, rest: seq<BatchProof>): nat
    decreases |rest|
  {
    if |rest| < LANES then 0
    else CountLanes(sha, ps, rest[..LANES], LANES) + CountGroups(sha, ps, rest[LANES..])
  }

  /** Every whole group can be folded in lockstep. */
  ghost predicate Grouped(rest: seq<BatchProof>)
    decreases |rest|
  {
    |rest| < LANES || (IsGroup(rest[..LANES]) && Grouped(rest[LANES..]))
  }

  /** The paths of every whole group are equally long, as the comment on the fold asks. */
  ghost predicate EvenGroups(rest: seq<BatchProof>)
    decreases |rest|
  {
    |rest| < LANES || (Even(rest[..LANES]) && EvenGroups(rest[LANES..]))
  }

  ghost predicate Even(group: seq<BatchProof>) { forall k :: 0 <= k < |group| ==> |group[k].l1| == |group[0].l1| }

  predicate Closes(sha: Sha256d, ps: seq<BatchProof>, p: BatchProof) {
    Folded(sha, p.leaf, p.l1) == p.subtreeRoot && SubtreeVerdict(sha, ps, p.subtreeRoot)
  }

  /** How many of these proofs close one by one. */
  function CountClosing(sha: Sha256d, ps: seq<BatchProof>, some: seq<BatchProof>): nat {
    if some == [] then 0 else (if Closes(sha, ps, some[0]) then 1 else 0) + CountClosing(sha, ps, some[1..])
  }

  lemma {:induction false} CountClosingSplits(sha: Sha256d, ps: seq<BatchProof>, a: seq<BatchProof>, b: seq<BatchProof>)
    ensures CountClosing(sha, ps, a + b) == CountClosing(sha, ps, a) + CountClosing(sha, ps, b)
    decreases a
  {
    if a == [] {
      assert a + b == b;
    } else {
      assert (a + b)[0] == a[0] && (a + b)[1..] == a[1..] + b;
      CountClosingSplits(sha, ps, a[1..], b);
    }
  }

  lemma {:induction false} EvenLanes(sha: Sha256d, ps: seq<BatchProof>, group: seq<BatchProof>, n: nat)
    requires Even(group) && n <= |group|
    ensures CountLanes(sha, ps, group, n) == CountClosing(sha, ps, group[..n])
  {
    if n > 0 {
      var p := group[n - 1];
      EvenLanes(sha, ps, group, n - 1);
      assert group[..n] == group[..n - 1] + [p] && [p][1..] == [];
      CountClosingSplits(sha, ps, group[..n - 1], [p]);
      assert p.l1[..|group[0].l1|] == p.l1;
    }
  }

  /** For such groups the count is that of the proofs that close one by one; what is behind the
      last whole group is left out. */
  lemma {:induction false} EvenGroupsCount(sha: Sha256d, ps: seq<BatchProof>, rest: seq<BatchProof>,
                                           tail: seq<BatchProof>)
    requires |rest| % LANES == 0 && |tail| < LANES && EvenGroups(rest + tail)
    ensures CountGroups(sha, ps, rest + tail) == CountClosing(sha, ps, rest)
    decreases |rest|
  {
    if rest != [] {
      var group, more, all := rest[..LANES], rest[LANES..], rest + tail;
      assert all[..LANES] == group && all[LANES..] == more + tail && rest == group + more && group[..LANES] == group;
      EvenLanes(sha, ps, group, LANES);
      EvenGroupsCount(sha, ps, more, tail);
      CountClosingSplits(sha, ps, group, more);
    }
  }

  /** Proof number m is the first to name the root, and closes its L2. */
  ghost predicate FirstCloses(sha: Sha256d, ps: seq<BatchProof>, root: Hash, m: nat) {
    && m < |ps| && ps[m].subtreeRoot == root && (forall j :: 0 <= j < m ==> ps[j].subtreeRoot != root)
    && Folded(sha, root, ps[m].l2) == ps[m].blockRoot
  }

  /** A subtree counts exactly if the first proof that names it closes its L2. */
  lemma {:induction false} FirstDecides(sha: Sha256d, ps: seq<BatchProof>, root: Hash)
    ensures SubtreeVerdict(sha, ps, root) <==> exists m: nat :: FirstCloses(sha, ps, root, m)
  {
    if ps != [] {
      if ps[0].subtreeRoot == root {
        assert SubtreeVerdict(sha, ps, root) ==> FirstCloses(sha, ps, root, 0);
      } else {
        FirstDecides(sha, ps[1..], root);
        if m: nat :| FirstCloses(sha, ps[1..], root, m) {
          LaterCloses(sha, ps, root, m);
        }
        if m: nat :| FirstCloses(sha, ps, root, m) {
          LaterCloses(sha, ps, root, m - 1);
        }
      }
    }
  }

  lemma LaterCloses(sha: Sha256d, ps: seq<BatchProof>, root: Hash, m: nat)
    requires ps != [] && ps[0].subtreeRoot != root
    ensures FirstCloses(sha, ps[1..], root, m) <==> FirstCloses(sha, ps, root, m + 1)
  {
    if FirstCloses(sha, ps[1..], root, m) {
      forall j | 0 <= j < m + 1 ensures ps[j].subtreeRoot != root {
        assert j > 0 ==> ps[j] == ps[1..][j - 1];
      }
    }
    if FirstCloses(sha, ps, root, m + 1) {
      assert forall j :: 0 <= j < m ==> ps[1..][j] == ps[j + 1];
    }
  }

  /** So a subtree counts if some proof names it and all that do close theirs. */
  lemma {:induction false} VerdictComplete(sha: Sha256d, ps: seq<BatchProof>, root: Hash)
    requires exists p :: p in ps && p.subtreeRoot == root
    requires forall p :: p in ps && p.subtreeRoot == root ==> Folded(sha, root, p.l2) == p.blockRoot
    ensures SubtreeVerdict(sha, ps, root)
  {
    assert ps[0] in ps;
    if ps[0].subtreeRoot != root {
      VerdictComplete(sha, ps[1..], root);
    }
  }

  lemma {:induction false} VerdictSkips(sha: Sha256d, seen: seq<BatchProof>, rest: seq<BatchProof>, root: Hash)
    ensures SubtreeVerdict(sha, seen + rest, root) ==
              if exists p :: p in seen && p.subtreeRoot == root then SubtreeVerdict(sha, seen, root)
              else SubtreeVerdict(sha, rest, root)
  {
    if seen == [] {
      assert seen + rest == rest;
    } else {
      assert (seen + rest)[1..] == seen[1..] + rest;
      assert forall p :: p in seen <==> p == seen[0] || p in seen[1..];
      VerdictSkips(sha, seen[1..], rest, root);
    }
  }

  /** The L2 verdicts, one per distinct subtree. */
  method VerifySubtrees(sha: Sha256d, ps: seq<BatchProof>) returns (validSub: map<Hash, bool>)
    ensures forall p :: p in ps ==> p.subtreeRoot in validSub
    ensures forall root :: root in validSub ==> validSub[root] == SubtreeVerdict(sha, ps, root)
  {
    validSub := map[];
    for i := 0 to |ps|
      invariant forall root :: root in validSub <==> exists p :: p in ps[..i] && p.subtreeRoot == root
      invariant forall root :: root in validSub ==> validSub[root] == SubtreeVerdict(sha, ps, root)
    {
      var p := ps[i];
      assert ps[..i + 1] == ps[..i] + [p];
      assert p in ps[..i + 1];
      if p.subtreeRoot !in validSub {
        var br := Fold(sha, p.subtreeRoot, p.l2);
        assert ps == ps[..i] + ps[i..];
        VerdictSkips(sha, ps[..i], ps[i..], p.subtreeRoot);
        validSub := validSub[p.subtreeRoot := br == p.blockRoot];
      }
    }
    assert ps[..|ps|] == ps;
  }

  // ---------------------------------------------------------------- what is counted

  /** Proofs of one subtree carry one L2 path and one block root. */
  ghost predicate L2Agrees(ps: seq<BatchProof>) {
    forall p, q :: p in ps && q in ps && p.subtreeRoot == q.subtreeRoot ==> p.l2 == q.l2 && p.blockRoot == q.blockRoot
  }

  /** A proof by itself: both folds reach their roots. */
  predicate Valid(sha: Sha256d, p: BatchProof) {
    Folded(sha, p.leaf, p.l1) == p.subtreeRoot && Folded(sha, p.subtreeRoot, p.l2) == p.blockRoot
  }

  /** The positions of valid proofs among the first n. */
  ghost function ValidAt(sha: Sha256d, ps: seq<BatchProof>, n: nat): set<nat>
    requires n <= |ps|
  {
    set i: nat | i < n && Valid(sha, ps[i])
  }

  lemma ClosesIfValid(sha: Sha256d, ps: seq<BatchProof>, p: BatchProof)
    requires L2Agrees(ps) && p in ps
    ensures Closes(sha, ps, p) <==> Valid(sha, p)
  {
    if SubtreeVerdict(sha, ps, p.subtreeRoot) {
      FirstDecides(sha, ps, p.subtreeRoot);
      var m: nat :| FirstCloses(sha, ps, p.subtreeRoot, m);
      assert ps[m] in ps;
    } else if Valid(sha, p) {
      VerdictComplete(sha, ps, p.subtreeRoot);
    }
  }

  ghost predicate CloseIfValid(sha: Sha256d, ps: seq<BatchProof>) {
    forall p :: p in ps ==> (Closes(sha, ps, p) <==> Valid(sha, p))
  }

  lemma {:induction false} ClosingAreValid(sha: Sha256d, ps: seq<BatchProof>, n: nat)
    requires CloseIfValid(sha, ps) && n <= |ps|
    ensures CountClosing(sha, ps, ps[..n]) == |ValidAt(sha, ps, n)|
    decreases n
  {
    if n > 0 {
      ClosingAreValid(sha, ps, n - 1);
      ClosingSnoc(sha, ps, n - 1);
      ValidSnoc(sha, ps, n - 1);
      assert ps[n - 1] in ps;
    }
  }

  lemma ClosingSnoc(sha: Sha256d, ps: seq<BatchProof>, n: nat)
    requires n < |ps|
    ensures CountClosing(sha, ps, ps[..n + 1])
         == CountClosing(sha, ps, ps[..n]) + if Closes(sha, ps, ps[n]) then 1 else 0
  {
    assert ps[..n + 1] == ps[..n] + [ps[n]] && [ps[n]][1..] == [];
    CountClosingSplits(sha, ps, ps[..n], [ps[n]]);
  }

  lemma ValidSnoc(sha: Sha256d, ps: seq<BatchProof>, n: nat)
    requires n < |ps|
    ensures |ValidAt(sha, ps, n + 1)| == |ValidAt(sha, ps, n)| + if Valid(sha, ps[n]) then 1 else 0
  {
    OneMore(ValidAt(sha, ps, n), ValidAt(sha, ps, n + 1), n, Valid(sha, ps[n]));
  }

  lemma OneMore(some: set<nat>, all: set<nat>, x: nat, more: bool)
    requires x !in some && all == if more then some + {x} else some
    ensures |all| == |some| + if more then 1 else 0
  {
  }

  /** On a batch whose groups are even and whose subtrees have one L2 path each, CountValid16 returns
      the number of valid proofs in its whole groups, which is all of them for a valid batch. */
  lemma CountIsValid(sha: Sha256d, ps: seq<BatchProof>, n16: nat)
    requires n16 <= |ps| < n16 + LANES && n16 % LANES == 0 && EvenGroups(ps) && L2Agrees(ps)
    ensures CountGroups(sha, ps, ps) == |ValidAt(sha, ps, n16)|
    ensures (forall p :: p in ps[..n16] ==> Valid(sha, p)) <==> CountGroups(sha, ps, ps) == n16
    ensures Grouped(ps)
  {
    assert ps == ps[..n16] + ps[n16..];
    EvenGroupsCount(sha, ps, ps[..n16], ps[n16..]);
    ValidClose(sha, ps);
    ClosingAreValid(sha, ps, n16);
    AllValid(sha, ps, n16);
    EvenIsGrouped(ps);
  }

  lemma {:induction false} EvenIsGrouped(rest: seq<BatchProof>)
    requires EvenGroups(rest)
    ensures Grouped(rest)
    decreases |rest|
  {
    if |rest| >= LANES {
      EvenIsGrouped(rest[LANES..]);
    }
  }

  lemma ValidClose(sha: Sha256d, ps: seq<BatchProof>)
    requires L2Agrees(ps)
    ensures CloseIfValid(sha, ps)
  {
    forall p | p in ps ensures Closes(sha, ps, p) <==> Valid(sha, p) {
      ClosesIfValid(sha, ps, p);
    }
  }

  lemma AllValid(sha: Sha256d, ps: seq<BatchProof>, n: nat)
    requires n <= |ps|
    ensures (forall p :: p in ps[..n] ==> Valid(sha, p)) <==> |ValidAt(sha, ps, n)| == n
  {
    AllBelow(ValidAt(sha, ps, n), n);
    if forall p :: p in ps[..n] ==> Valid(sha, p) {
      forall i: nat | i < n ensures i in ValidAt(sha, ps, n) {
        assert ps[..n][i] == ps[i];
      }
    } else {
      var p :| p in ps[..n] && !Valid(sha, p);
      var i :| 0 <= i < n && ps[..n][i] == p;
      assert i !in ValidAt(sha, ps, n);
    }
  }

  /** A set of numbers below n has n members exactly if it has all of them. */
  lemma {:induction false} AllBelow(s: set<nat>, n: nat)
    requires forall i :: i in s ==> i < n
    ensures |s| <= n && (|s| == n <==> forall i: nat :: i < n ==> i in s)
    decreases n
  {
    if n > 0 {
      var rest := s - {n - 1};
      AllBelow(rest, n - 1);
      OneMore(rest, s, n - 1, n - 1 in s);
    }
  }

  method CountGroup(sha: Sha256d, ps: seq<BatchProof>, group: seq<BatchProof>, validSub: map<Hash, bool>,
                    node: array<Hash>, before: nat)
    returns (count: nat)
    requires IsGroup(group) && node.Length == LANES && forall k :: 0 <= k < LANES ==> group[k].subtreeRoot in validSub
    requires forall root :: root in validSub ==> validSub[root] == SubtreeVerdict(sha, ps, root)
    requires forall k :: 0 <= k < LANES ==> node[k] == Folded(sha, group[k].leaf, group[k].l1[..|group[0].l1|])
    ensures count == before + CountLanes(sha, ps, group, LANES)
  {
    count := before;
    for k := 0 to LANES
      invariant count == before + CountLanes(sha, ps, group, k)
    {
      if node[k] == group[k].subtreeRoot && validSub[group[k].subtreeRoot] {
        count := count + 1;
      }
    }
  }

  /** The body of the loop of CountValid16, for the whole groups `rest` that are left. */
  method NextGroup(sha: Sha256d, ps: seq<BatchProof>, ghost rest: seq<BatchProof>, group: seq<BatchProof>,
                   validSub: map<Hash, bool>, node: array<Hash>, msgs: array<seq<byte>>, out: array<Hash>, before: nat)
    returns (count: nat)
    requires Lanes(msgs, out) && node.Length == LANES && node != out
    requires |rest| >= LANES && group == rest[..LANES] && Grouped(rest)
    requires forall p :: p in group ==> p.subtreeRoot in validSub
    requires forall root :: root in validSub ==> validSub[root] == SubtreeVerdict(sha, ps, root)
    modifies node, msgs, out
    ensures Lanes(msgs, out) && Grouped(rest[LANES..])
    ensures count + CountGroups(sha, ps, rest[LANES..]) == before + CountGroups(sha, ps, rest)
  {
    Fold16(sha, group, node, msgs, out);
    count := CountGroup(sha, ps, group, validSub, node, before);
  }

  /** Counts the valid proofs among the whole groups of sixteen; a shorter tail is left out. */
  method CountValid16(sha: Sha256d, ps: seq<BatchProof>) returns (count: nat)
    requires Grouped(ps)
    ensures count == CountGroups(sha, ps, ps)
  {
    var validSub := VerifySubtrees(sha, ps);
    var n16 := WholeGroups(|ps|);
    var node := new Hash[LANES];
    var out := new Hash[LANES];
    var msgs := new seq<byte>[LANES](_ => seq(64, _ => 0));
    var base: nat := 0;
    ghost var rest := ps;
    count := 0;
    assert ps[0..] == ps;
    while base < n16
      invariant base % LANES == 0 && base <= n16 && rest == ps[base..] && Lanes(msgs, out)
      invariant Grouped(rest) && count + CountGroups(sha, ps, rest) == CountGroups(sha, ps, ps)
    {
      var group, next := GroupAt(ps, base, n16, rest);
      count := NextGroup(sha, ps, rest, group, validSub, node, msgs, out, count);
      base, rest := next, rest[LANES..];
    }
  }

  method WholeGroups(n: nat) returns (n16: nat)
    ensures n16 <= n < n16 + LANES && n16 % LANES == 0
  {
    n16 := n / LANES * LANES;
  }

  /** proofs[base : base+16], and where the next group starts. */
  method GroupAt(ps: seq<BatchProof>, base: nat, n16: nat, ghost rest: seq<BatchProof>)
    returns (group: seq<BatchProof>, next: nat)
    requires base < n16 <= |ps| && base % LANES == 0 && n16 % LANES == 0 && rest == ps[base..]
    ensures next % LANES == 0 && base < next <= n16
    ensures |rest| >= LANES && group == rest[..LANES] && rest[LANES..] == ps[next..]
    ensures forall p :: p in group ==> p in ps
  {
    next := base + LANES;
    group := ps[base..next];
  }
}
