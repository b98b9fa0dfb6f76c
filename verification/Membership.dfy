/** What a path that folds to a root proves, whatever its length and turns: commitment.Fold against
    the trees of commitment/commitment.go:80-161, and VerifyBlockInChain of
    accumulator/accumulator.go:139-151 against the accumulator.

    A fold can start at a leaf, at an inner node, or below a leaf that is itself a hash of a pair.
    What tells these apart is the length of the preimages: two digests are 64 bytes, a header is 80. */
module Membership {
  import opened Commitment
  import opened MerkleTree
  import opened FieldTree
  import opened Accumulator
  import opened Bits
  import opened Positions

  /** x lies m levels of its path below leaf number i. */
  ghost predicate Below(sha: Sha256d, x: Hash, path: seq<PathElem>, leaves: seq<Hash>, i: nat, m: nat) {
    i < |leaves| && m <= |path| && Folded(sha, x, path[..m]) == leaves[i]
  }

  /** x is the hash of one of these pairs. */
  ghost predicate Inner(sha: Sha256d, x: Hash, pairs: set<seq<byte>>) { exists y :: y in pairs && sha(y) == x }

  /** The last step of a path. */
  lemma LastStep(sha: Sha256d, x: Hash, path: seq<PathElem>, front: seq<PathElem>, e: PathElem)
    requires path == front + [e]
    ensures Folded(sha, x, path) == sha(StepBytes(Folded(sha, x, front), e))
    ensures StepBytes(Folded(sha, x, front), e) in FoldInputs(sha, x, path)
    ensures FoldInputs(sha, x, front) <= FoldInputs(sha, x, path)
  {
    FoldedConcat(sha, x, front, [e]);
    var node := Folded(sha, x, front);
    assert [e][1..] == [];
    assert FoldInputs(sha, node, [e]) == {StepBytes(node, e)} + FoldInputs(sha, Parent(sha, node, e), []);
  }

  /** The first m steps are among all of them. */
  lemma FrontInputs(sha: Sha256d, x: Hash, path: seq<PathElem>, m: nat)
    requires m <= |path|
    ensures FoldInputs(sha, x, path[..m]) <= FoldInputs(sha, x, path)
  {
    assert path == path[..m] + path[m..];
    FoldedConcat(sha, x, path[..m], path[m..]);
  }

  /** A node that is the hash of a pair: the path ends there, or its last step comes from one of the
      two, or the pair and that step collide. */
  lemma AtPair(sha: Sha256d, x: Hash, path: seq<PathElem>, left: Hash, right: Hash, inputs: set<seq<byte>>)
    returns (front: seq<PathElem>)
    requires Folded(sha, x, path) == HashPair(sha, left, right)
    requires PairBytes(left, right) in inputs && FoldInputs(sha, x, path) <= inputs
    ensures CollisionIn(sha, inputs) || path == []
            || (front == path[..|path| - 1] && FoldInputs(sha, x, front) <= inputs
                && (Folded(sha, x, front) == left || Folded(sha, x, front) == right))
  {
    if path == [] {
      front := [];
    } else {
      var e := path[|path| - 1];
      front := path[..|path| - 1];
      LastStep(sha, x, path, front, e);
      var step := StepBytes(Folded(sha, x, front), e);
      if step == PairBytes(left, right) {
        PairParts(Folded(sha, x, front), e, left, right);
      } else {
        assert step in inputs && sha(step) == sha(PairBytes(left, right));
      }
    }
  }

  lemma PairParts(node: Hash, e: PathElem, left: Hash, right: Hash)
    requires StepBytes(node, e) == PairBytes(left, right)
    ensures node == if e.right then left else right
  {
    StepBytesInjective(node, e, if e.right then left else right, PathElem(if e.right then right else left, e.right));
  }

  /** A path to the root of a tree.  Its length says where it starts: x is below a leaf by as many steps
      as the path has more than the tree is high, and an inner node if it has fewer, or hashed preimages
      collide. */
  lemma {:induction false} Descends(sha: Sha256d, x: Hash, path: seq<PathElem>, leaves: seq<Hash>,
                                    inputs: set<seq<byte>>) returns (i: nat, m: nat)
    requires leaves != [] && Folded(sha, x, path) == Root(sha, leaves)
    requires FoldInputs(sha, x, path) + TreeInputs(sha, leaves) <= inputs
    ensures || CollisionIn(sha, inputs)
            || (|path| < CeilLog2(|leaves|) && Inner(sha, x, TreeInputs(sha, leaves)))
            || (|path| == m + CeilLog2(|leaves|) && Below(sha, x, path, leaves, i, m))
    decreases |leaves|
  {
    if |leaves| == 1 {
      i, m := 0, |path|;
      assert path[..|path|] == path;
    } else {
      var next := NextLevel(sha, leaves);
      i, m := 0, 0;
      var j, n := Descends(sha, x, path, next, inputs);
      OneHigher(sha, leaves);
      InnerGrows(sha, x, TreeInputs(sha, next), TreeInputs(sha, leaves));
      if !CollisionIn(sha, inputs) && Below(sha, x, path, next, j, n) && |path| >= CeilLog2(|next|) {
        i, m := OneDown(sha, x, path, leaves, j, n, inputs);
      }
    }
  }

  lemma OneHigher(sha: Sha256d, leaves: seq<Hash>)
    requires |leaves| > 1
    ensures CeilLog2(|leaves|) == 1 + CeilLog2(|NextLevel(sha, leaves)|)
  {
    PathDepth(sha, leaves, 0);
    PathDepth(sha, NextLevel(sha, leaves), 0);
  }

  /** So a path as long as the tree is high starts at a leaf. */
  lemma LeafByLength(sha: Sha256d, x: Hash, path: seq<PathElem>, leaves: seq<Hash>, inputs: set<seq<byte>>)
    requires leaves != [] && Folded(sha, x, path) == Root(sha, leaves) && |path| == CeilLog2(|leaves|)
    requires FoldInputs(sha, x, path) + TreeInputs(sha, leaves) <= inputs
    ensures x in leaves || CollisionIn(sha, inputs)
  {
    var i, m := Descends(sha, x, path, leaves, inputs);
    assert path[..0] == [];
  }

  lemma InnerGrows(sha: Sha256d, x: Hash, some: set<seq<byte>>, all: set<seq<byte>>)
    requires some <= all
    ensures Inner(sha, x, some) ==> Inner(sha, x, all)
  {
  }

  lemma OneDown(sha: Sha256d, x: Hash, path: seq<PathElem>, leaves: seq<Hash>, j: nat, n: nat, inputs: set<seq<byte>>)
    returns (i: nat, m: nat)
    requires |leaves| > 1 && FoldInputs(sha, x, path) + TreeInputs(sha, leaves) <= inputs
    requires !CollisionIn(sha, inputs) && Below(sha, x, path, NextLevel(sha, leaves), j, n)
    ensures if n == 0 then Inner(sha, x, TreeInputs(sha, leaves)) else Below(sha, x, path, leaves, i, m) && n == m + 1
  {
    var l, r := 2 * j, if 2 * j + 1 < |leaves| then 2 * j + 1 else 2 * j;
    PairInside(sha, leaves, j, l, r);
    FrontInputs(sha, x, path, n);
    var front := AtPair(sha, x, path[..n], leaves[l], leaves[r], inputs);
    i, m := 0, 0;
    if n == 0 {
      assert path[..n] == [] && sha(PairInput(leaves, j)) == x;
    } else {
      m := n - 1;
      assert path[..n][..m] == path[..m];
      i := if Folded(sha, x, path[..m]) == leaves[l] then l else r;
    }
  }

  lemma PairInside(sha: Sha256d, leaves: seq<Hash>, j: nat, l: nat, r: nat)
    requires |leaves| > 1 && j < |NextLevel(sha, leaves)| && l == 2 * j && r == if l + 1 < |leaves| then l + 1 else l
    ensures l < |leaves| && PairInput(leaves, j) == PairBytes(leaves[l], leaves[r])
    ensures PairInput(leaves, j) in TreeInputs(sha, leaves) && NextLevel(sha, leaves)[j] == sha(PairInput(leaves, j))
  {
    var pairs := set i | 0 <= i < (|leaves| + 1) / 2 :: PairInput(leaves, i);
    assert PairInput(leaves, j) in pairs;
    assert TreeInputs(sha, leaves) == pairs + TreeInputs(sha, NextLevel(sha, leaves));
  }

  // ---------------------------------------------------------------- the accumulator

  /** The pairs hashed to make the accumulator root. */
  ghost function AccInputs(sha: Sha256d, leaves: seq<Hash>): set<seq<byte>>
    decreases |leaves|
  {
    if leaves == [] then {}
    else
      var p := TopSize(|leaves|);
      if p == |leaves| then TreeInputs(sha, leaves)
      else {PairBytes(Root(sha, leaves[..p]), AccRoot(sha, leaves[p..]))} + TreeInputs(sha, leaves[..p])
           + AccInputs(sha, leaves[p..])
  }

  lemma {:induction false} AccDescends(sha: Sha256d, x: Hash, path: seq<PathElem>, leaves: seq<Hash>,
                                       inputs: set<seq<byte>>) returns (i: nat, m: nat)
    requires leaves != [] && Folded(sha, x, path) == AccRoot(sha, leaves)
    requires FoldInputs(sha, x, path) + AccInputs(sha, leaves) <= inputs
    ensures CollisionIn(sha, inputs) || Inner(sha, x, AccInputs(sha, leaves)) || Below(sha, x, path, leaves, i, m)
    decreases |leaves|, 0
  {
    var p := TopSize(|leaves|);
    if p == |leaves| {
      i, m := Descends(sha, x, path, leaves, inputs);
    } else {
      var left, right := SplitAt(leaves);
      var pair := PairBytes(Root(sha, left), AccRoot(sha, right));
      assert pair in AccInputs(sha, leaves);
      var front := AtPair(sha, x, path, Root(sha, left), AccRoot(sha, right), inputs);
      i, m := 0, 0;
      if path == [] {
        assert sha(pair) == x;
      } else if !CollisionIn(sha, inputs) {
        i, m := BothSides(sha, x, path, front, leaves, left, right, inputs);
      }
    }
  }

  lemma BothSides(sha: Sha256d, x: Hash, path: seq<PathElem>, front: seq<PathElem>, leaves: seq<Hash>, left: seq<Hash>,
                  right: seq<Hash>, inputs: set<seq<byte>>) returns (i: nat, m: nat)
    requires Splits(leaves, left, right) && left != [] && right != [] && front <= path
    requires Folded(sha, x, front) == Root(sha, left) || Folded(sha, x, front) == AccRoot(sha, right)
    requires FoldInputs(sha, x, front) + AccInputs(sha, leaves) <= inputs
    ensures CollisionIn(sha, inputs) || Inner(sha, x, AccInputs(sha, leaves)) || Below(sha, x, path, leaves, i, m)
    decreases |right|, 1
  {
    SidesInputs(sha, leaves, left, right);
    if Folded(sha, x, front) == Root(sha, left) {
      i, m := Descends(sha, x, front, left, inputs);
      InnerGrows(sha, x, TreeInputs(sha, left), AccInputs(sha, leaves));
      SideLeaf(sha, x, path, front, leaves, left, i, m, i);
    } else {
      var k;
      k, m := AccDescends(sha, x, front, right, inputs);
      InnerGrows(sha, x, AccInputs(sha, right), AccInputs(sha, leaves));
      i := |left| + k;
      SideLeaf(sha, x, path, front, leaves, right, k, m, i);
    }
  }

  lemma SideLeaf(sha: Sha256d, x: Hash, path: seq<PathElem>, front: seq<PathElem>, leaves: seq<Hash>, side: seq<Hash>,
                 k: nat, m: nat, i: nat)
    requires front <= path && (k < |side| ==> i < |leaves| && leaves[i] == side[k])
    ensures Below(sha, x, front, side, k, m) ==> Below(sha, x, path, leaves, i, m)
  {
    if m <= |front| {
      assert front[..m] == path[..m];
    }
  }

  lemma SidesInputs(sha: Sha256d, leaves: seq<Hash>, left: seq<Hash>, right: seq<Hash>)
    requires Splits(leaves, left, right) && left != [] && right != []
    ensures TreeInputs(sha, left) <= AccInputs(sha, leaves) && AccInputs(sha, right) <= AccInputs(sha, leaves)
  {
    var p := TopSize(|leaves|);
    assert leaves[..p] == left && leaves[p..] == right;
  }

  lemma {:induction false} AccInputsArePairs(sha: Sha256d, leaves: seq<Hash>)
    ensures forall y :: y in AccInputs(sha, leaves) ==> |y| == 64
    decreases |leaves|
  {
    if leaves != [] {
      var p := TopSize(|leaves|);
      if p == |leaves| {
        TreeInputsArePairs(sha, leaves);
      } else {
        TreeInputsArePairs(sha, leaves[..p]);
        AccInputsArePairs(sha, leaves[p..]);
      }
    }
  }

  lemma {:induction false} TreeInputsArePairs(sha: Sha256d, leaves: seq<Hash>)
    requires leaves != []
    ensures forall y :: y in TreeInputs(sha, leaves) ==> |y| == 64
    decreases |leaves|
  {
    if |leaves| > 1 {
      TreeInputsArePairs(sha, NextLevel(sha, leaves));
    }
  }

  /** Everything hashed to check a header's path, and to make the root it is checked against. */
  ghost function MemberInputs(sha: Sha256d, h: Header, path: seq<PathElem>, hs: seq<Header>): set<seq<byte>> {
    {h.bytes} + HeaderInputs(hs) + FoldInputs(sha, sha(h.bytes), path) + AccInputs(sha, Digests(sha, hs))
  }

  /** The digest of bytes that are no pair is no inner node ... */
  lemma NotInner(sha: Sha256d, z: seq<byte>, pairs: set<seq<byte>>, inputs: set<seq<byte>>)
    requires |z| != 64 && z in inputs && pairs <= inputs && forall y :: y in pairs ==> |y| == 64
    ensures Inner(sha, sha(z), pairs) ==> CollisionIn(sha, inputs)
  {
    if y :| y in pairs && sha(y) == sha(z) {
      assert y in inputs && y != z;
    }
  }

  /** ... and no fold. */
  lemma NotBelow(sha: Sha256d, x: Hash, path: seq<PathElem>, m: nat, z: seq<byte>, inputs: set<seq<byte>>)
    requires 0 < m <= |path| && Folded(sha, x, path[..m]) == sha(z)
    requires |z| != 64 && z in inputs && FoldInputs(sha, x, path) <= inputs
    ensures CollisionIn(sha, inputs)
  {
    var front, e := path[..m - 1], path[m - 1];
    LastStep(sha, x, path[..m], front, e);
    FrontInputs(sha, x, path, m);
    var step := StepBytes(Folded(sha, x, front), e);
    assert step in inputs && |step| == 64;
  }

  /** Soundness: whatever path it comes with, a header that passes against the accumulator root over
      hs is one of hs, or two of the preimages collide. */
  lemma HeaderIsMember(sha: Sha256d, h: Header, path: seq<PathElem>, hs: seq<Header>)
    requires hs != [] && VerifyBlockInChain(sha, h, path, AccRoot(sha, Digests(sha, hs)))
    ensures |path| <= 255 && (h in hs || CollisionIn(sha, MemberInputs(sha, h, path, hs)))
  {
    var leaves, inputs := Digests(sha, hs), MemberInputs(sha, h, path, hs);
    var i, m := AccDescends(sha, sha(h.bytes), path, leaves, inputs);
    AccInputsArePairs(sha, leaves);
    NotInner(sha, h.bytes, AccInputs(sha, leaves), inputs);
    if !CollisionIn(sha, inputs) {
      LeafIsHeader(sha, h, path, hs, i, m, inputs);
    }
  }

  lemma LeafIsHeader(sha: Sha256d, h: Header, path: seq<PathElem>, hs: seq<Header>, i: nat, m: nat,
                     inputs: set<seq<byte>>)
    requires Below(sha, sha(h.bytes), path, Digests(sha, hs), i, m) && !CollisionIn(sha, inputs)
    requires {h.bytes} + HeaderInputs(hs) + FoldInputs(sha, sha(h.bytes), path) <= inputs
    ensures h in hs
  {
    assert hs[i].bytes in HeaderInputs(hs) && hs[i] in hs;
    if m > 0 {
      NotBelow(sha, sha(h.bytes), path, m, hs[i].bytes, inputs);
    }
    assert path[..0] == [] && h.bytes in inputs;
  }

  /** A path that makes the turns of one height proves the header at that height. */
  lemma HeaderAtHeight(sha: Sha256d, h: Header, path: seq<PathElem>, hs: seq<Header>, height: nat)
    requires height < |hs| && SameTurns(path, AccPath(sha, Digests(sha, hs), height))
    requires VerifyBlockInChain(sha, h, path, AccRoot(sha, Digests(sha, hs)))
    ensures var leaves := Digests(sha, hs);
            h == hs[height] || CollisionIn(sha, {h.bytes, hs[height].bytes} + FoldInputs(sha, sha(h.bytes), path)
                                                + FoldInputs(sha, leaves[height], AccPath(sha, leaves, height)))
  {
    var leaves, x, y := Digests(sha, hs), h.bytes, hs[height].bytes;
    var folds := FoldInputs(sha, sha(x), path) + FoldInputs(sha, leaves[height], AccPath(sha, leaves, height));
    AccPathFolds(sha, leaves, height);
    FoldBinding(sha, sha(x), path, leaves[height], AccPath(sha, leaves, height));
    if sha(x) == leaves[height] {
      assert x in {x, y} + folds && y in {x, y} + folds;
    } else {
      CollisionGrows(sha, folds, {x, y} + folds);
    }
  }

  /** So the path of a height proves the header at that height and no other. */
  lemma HeaderProvedIff(sha: Sha256d, h: Header, hs: seq<Header>, height: nat)
    requires height < |hs| < WORD
    requires !CollisionIn(sha, MemberInputs(sha, h, AccPath(sha, Digests(sha, hs), height), hs)
                               + FoldInputs(sha, sha(hs[height].bytes), AccPath(sha, Digests(sha, hs), height)))
    ensures var leaves := Digests(sha, hs);
            VerifyBlockInChain(sha, h, AccPath(sha, leaves, height), AccRoot(sha, leaves)) <==> h == hs[height]
  {
    var leaves := Digests(sha, hs);
    var path := AccPath(sha, leaves, height);
    if VerifyBlockInChain(sha, h, path, AccRoot(sha, leaves)) {
      HeaderAtHeight(sha, h, path, hs, height);
      if h != hs[height] {
        CollisionGrows(sha, {h.bytes, hs[height].bytes} + FoldInputs(sha, sha(h.bytes), path)
                            + FoldInputs(sha, leaves[height], path),
                       MemberInputs(sha, h, path, hs) + FoldInputs(sha, sha(hs[height].bytes), path));
      }
    } else if h == hs[height] {
      StaysProvable(sha, hs, hs, height);
    }
  }

  // ---------------------------------------------------------------- fields of a transaction

  /** The field's digest is that of no pair: a field of 63 bytes and its index are as long as one. */
  predicate NoPair(f: FieldLeaf) { |f.bytes| != 63 }

  ghost function DisclosureInputs(sha: Sha256d, f: FieldLeaf, path: seq<PathElem>,
                                  fields: seq<FieldLeaf>): set<seq<byte>>
    requires fields != []
  {
    {LeafBytes(f)} + FieldInputs(fields) + FoldInputs(sha, LeafHash(sha, f), path)
    + TreeInputs(sha, FieldDigests(sha, fields))
  }

  /** Soundness at level 0: a field whose path folds to the transaction's id is one of its fields, if the
      path is as long as the field tree is high or no field is as long as a pair. */
  lemma {:induction false} FieldIsDisclosed(sha: Sha256d, f: FieldLeaf, path: seq<PathElem>, fields: seq<FieldLeaf>)
    requires fields != [] && Folded(sha, LeafHash(sha, f), path) == TxId(sha, fields)
    requires |path| == CeilLog2(|fields|) || (NoPair(f) && forall g :: g in fields ==> NoPair(g))
    ensures f in fields || CollisionIn(sha, DisclosureInputs(sha, f, path, fields))
  {
    var leaves, inputs := FieldDigests(sha, fields), DisclosureInputs(sha, f, path, fields);
    var i, m := Descends(sha, LeafHash(sha, f), path, leaves, inputs);
    TreeInputsArePairs(sha, leaves);
    if NoPair(f) {
      NotInner(sha, LeafBytes(f), TreeInputs(sha, leaves), inputs);
    }
    if !CollisionIn(sha, inputs) {
      LeafIsField(sha, f, path, fields, i, m, inputs);
    }
  }

  lemma LeafIsField(sha: Sha256d, f: FieldLeaf, path: seq<PathElem>, fields: seq<FieldLeaf>, i: nat, m: nat,
                    inputs: set<seq<byte>>)
    requires Below(sha, LeafHash(sha, f), path, FieldDigests(sha, fields), i, m) && !CollisionIn(sha, inputs)
    requires m == 0 || NoPair(fields[i])
    requires {LeafBytes(f)} + FieldInputs(fields) + FoldInputs(sha, LeafHash(sha, f), path) <= inputs
    ensures f in fields
  {
    assert LeafBytes(fields[i]) in FieldInputs(fields) && LeafBytes(f) in {LeafBytes(f)};
    if m > 0 {
      NotBelow(sha, LeafHash(sha, f), path, m, LeafBytes(fields[i]), inputs);
    }
    assert path[..0] == [];
    SameDigest(sha, f, fields[i], inputs);
  }

  /** Fields with one digest are one field. */
  lemma SameDigest(sha: Sha256d, f: FieldLeaf, g: FieldLeaf, inputs: set<seq<byte>>)
    requires LeafHash(sha, f) == LeafHash(sha, g) && LeafBytes(f) in inputs && LeafBytes(g) in inputs
    ensures f == g || CollisionIn(sha, inputs)
  {
    if f != g {
      LeafBytesDiffer(f, g);
    }
  }

  /** With the turns of one position it is the field there. */
  lemma FieldAtPlace(sha: Sha256d, f: FieldLeaf, path: seq<PathElem>, fields: seq<FieldLeaf>, i: nat)
    requires i < |fields| && Folded(sha, LeafHash(sha, f), path) == TxId(sha, fields)
    requires SameTurns(path, FieldPath(sha, fields, i))
    ensures f == fields[i] ||
            CollisionIn(sha, {LeafBytes(f), LeafBytes(fields[i])} + FoldInputs(sha, LeafHash(sha, f), path)
                                               + FoldInputs(sha, LeafHash(sha, fields[i]), FieldPath(sha, fields, i)))
  {
    var g, there := fields[i], FieldPath(sha, fields, i);
    var folds := FoldInputs(sha, LeafHash(sha, f), path) + FoldInputs(sha, LeafHash(sha, g), there);
    PathFolds(sha, FieldDigests(sha, fields), i);
    FoldBinding(sha, LeafHash(sha, f), path, LeafHash(sha, g), there);
    if LeafHash(sha, f) == LeafHash(sha, g) {
      SameDigest(sha, f, g, {LeafBytes(f), LeafBytes(g)} + folds);
    } else {
      CollisionGrows(sha, folds, {LeafBytes(f), LeafBytes(g)} + folds);
    }
  }

  /** These 64 bytes as a field. */
  function AsField(pair: seq<byte>): (f: FieldLeaf)
    requires |pair| == 64
    ensures LeafBytes(f) == pair && |f.bytes| == 63
  {
    FieldLeaf(pair[0], pair[1..])
  }

  /** Neither condition can be dropped: the pair under the root of any transaction of two or more
      fields, taken for a field, passes with the empty path ... */
  lemma PairPasses(sha: Sha256d, fields: seq<FieldLeaf>) returns (f: FieldLeaf)
    requires |fields| > 1
    ensures Folded(sha, LeafHash(sha, f), []) == TxId(sha, fields) && |f.bytes| == 63
    ensures (forall g :: g in fields ==> NoPair(g)) ==> f !in fields
  {
    var l, r := TopPair(sha, FieldDigests(sha, fields));
    f := AsField(PairBytes(l, r));
  }

  lemma {:induction false} TopPair(sha: Sha256d, leaves: seq<Hash>) returns (l: Hash, r: Hash)
    requires |leaves| > 1
    ensures Root(sha, leaves) == HashPair(sha, l, r)
    decreases |leaves|
  {
    var next := NextLevel(sha, leaves);
    if |next| > 1 {
      l, r := TopPair(sha, next);
    } else {
      l, r := leaves[0], leaves[1];
    }
  }

  /** ... and any field passes against a transaction that has its digest inside a field of 63 bytes. */
  lemma InsidePasses(sha: Sha256d, f: FieldLeaf, s: Hash)
    ensures var g := AsField(PairBytes(LeafHash(sha, f), s));
            Folded(sha, LeafHash(sha, f), [PathElem(s, true)]) == TxId(sha, [g]) && (NoPair(f) ==> f !in [g])
  {
    var g, e := AsField(PairBytes(LeafHash(sha, f), s)), PathElem(s, true);
    assert FieldDigests(sha, [g]) == [LeafHash(sha, g)] && [e][1..] == [];
    assert Folded(sha, LeafHash(sha, f), [e]) == Folded(sha, Parent(sha, LeafHash(sha, f), e), []);
  }

  // ---------------------------------------------------------------- all levels at once

  /** The transaction is leaf number i of a subtree that is number j of the block. */
  ghost predicate Nested(sha: Sha256d, fields: seq<FieldLeaf>, leaves: seq<Hash>, i: nat, roots: seq<Hash>, j: nat) {
    && fields != [] && i < |leaves| && leaves[i] == TxId(sha, fields)
    && j < |roots| && roots[j] == Root(sha, leaves)
  }

  /** From field number k up to the block root. */
  function SpanPath(sha: Sha256d, fields: seq<FieldLeaf>, k: nat, leaves: seq<Hash>, i: nat, roots: seq<Hash>, j: nat):
    seq<PathElem>
    requires k < |fields| && i < |leaves| && j < |roots|
  {
    FieldPath(sha, fields, k) + PathOf(sha, leaves, i) + PathOf(sha, roots, j)
  }

  lemma SpanFolds(sha: Sha256d, fields: seq<FieldLeaf>, k: nat, leaves: seq<Hash>, i: nat, roots: seq<Hash>, j: nat)
    requires Nested(sha, fields, leaves, i, roots, j) && k < |fields|
    ensures Folded(sha, LeafHash(sha, fields[k]), SpanPath(sha, fields, k, leaves, i, roots, j)) == Root(sha, roots)
  {
    var leaf, l0, l1 := LeafHash(sha, fields[k]), FieldPath(sha, fields, k), PathOf(sha, leaves, i);
    PathFolds(sha, FieldDigests(sha, fields), k);
    PathFolds(sha, leaves, i);
    PathFolds(sha, roots, j);
    FoldedConcat(sha, leaf, l0, l1);
    FoldedConcat(sha, leaf, l0 + l1, PathOf(sha, roots, j));
  }

  /** A field whose path makes the turns of one field of one transaction of the block is that field. */
  lemma FieldInBlock(sha: Sha256d, f: FieldLeaf, path: seq<PathElem>, fields: seq<FieldLeaf>, k: nat, leaves: seq<Hash>,
                     i: nat, roots: seq<Hash>, j: nat, inputs: set<seq<byte>>)
    requires Nested(sha, fields, leaves, i, roots, j) && k < |fields|
    requires SameTurns(path, SpanPath(sha, fields, k, leaves, i, roots, j))
    requires Folded(sha, LeafHash(sha, f), path) == Root(sha, roots)
    requires LeafBytes(f) in inputs && LeafBytes(fields[k]) in inputs
    requires FoldInputs(sha, LeafHash(sha, f), path) <= inputs
    requires FoldInputs(sha, LeafHash(sha, fields[k]), SpanPath(sha, fields, k, leaves, i, roots, j)) <= inputs
    ensures f == fields[k] || CollisionIn(sha, inputs)
  {
    var x, y, there := LeafHash(sha, f), LeafHash(sha, fields[k]), SpanPath(sha, fields, k, leaves, i, roots, j);
    SpanFolds(sha, fields, k, leaves, i, roots, j);
    FoldBinding(sha, x, path, y, there);
    if x == y {
      SameDigest(sha, f, fields[k], inputs);
    } else {
      CollisionGrows(sha, FoldInputs(sha, x, path) + FoldInputs(sha, y, there), inputs);
    }
  }

  /** The check across all levels, exactly: with the three paths of a field it accepts that field's
      digest and no other, if they stay within 255 elements and the middle one within 20. */
  lemma ClosesIff(sha: Sha256d, x: Hash, fields: seq<FieldLeaf>, k: nat, leaves: seq<Hash>, i: nat, roots: seq<Hash>,
                  j: nat)
    requires Nested(sha, fields, leaves, i, roots, j) && k < |fields|
    requires var there := SpanPath(sha, fields, k, leaves, i, roots, j);
             !CollisionIn(sha, FoldInputs(sha, x, there) + FoldInputs(sha, LeafHash(sha, fields[k]), there))
    ensures var l0, l1, l2 := FieldPath(sha, fields, k), PathOf(sha, leaves, i), PathOf(sha, roots, j);
            ClosesToRoot(sha, x, l0, l1, l2, Root(sha, roots)) <==>
              x == LeafHash(sha, fields[k]) && CeilLog2(|leaves|) <= 20
              && CeilLog2(|fields|) + CeilLog2(|leaves|) + CeilLog2(|roots|) <= 255
  {
    var there := SpanPath(sha, fields, k, leaves, i, roots, j);
    SpanFolds(sha, fields, k, leaves, i, roots, j);
    PathDepth(sha, FieldDigests(sha, fields), k);
    PathDepth(sha, leaves, i);
    PathDepth(sha, roots, j);
    if Folded(sha, x, there) == Root(sha, roots) {
      FoldBinding(sha, x, there, LeafHash(sha, fields[k]), there);
    }
  }
}
