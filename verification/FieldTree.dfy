/** commitment/commitment.go:184-284: level 0, the Merkle tree over a transaction's fields whose
    root is the transaction id, and the check that spans all levels. */
module FieldTree {
  import opened Commitment
  import opened MerkleTree
  import opened Positions

  /** A field's digest covers its index, so a field cannot be moved. */
  function LeafBytes(f: FieldLeaf): seq<byte> { [f.index] + f.bytes }

  function LeafHash(sha: Sha256d, f: FieldLeaf): Hash { sha(LeafBytes(f)) }

  function FieldDigests(sha: Sha256d, fields: seq<FieldLeaf>): (leaves: seq<Hash>)
    ensures |leaves| == |fields|
  {
    seq(|fields|, i requires 0 <= i < |fields| => LeafHash(sha, fields[i]))
  }

  function TxId(sha: Sha256d, fields: seq<FieldLeaf>): Hash
    requires fields != []
  {
    Root(sha, FieldDigests(sha, fields))
  }

  method BuildMTxID(sha: Sha256d, fields: seq<FieldLeaf>) returns (r: Result<(Hash, seq<seq<Hash>>)>)
    ensures r.Err? <==> fields == []
    ensures r.Ok? ==> r.value == (TxId(sha, fields), Layers(sha, FieldDigests(sha, fields)))
  {
    if |fields| == 0 {
      return Err;
    }
    var leaves := [];
    for i := 0 to |fields|
      invariant leaves == FieldDigests(sha, fields)[..i]
    {
      leaves := leaves + [LeafHash(sha, fields[i])];
    }
    assert leaves == FieldDigests(sha, fields);
    r := BuildMerkleTree(sha, leaves);
  }

  /** The path that discloses one field. */
  function FieldPath(sha: Sha256d, fields: seq<FieldLeaf>, i: nat): seq<PathElem>
    requires i < |fields|
  {
    PathOf(sha, FieldDigests(sha, fields), i)
  }

  method MTxIDPath(sha: Sha256d, fields: seq<FieldLeaf>, i: byte) returns (r: Result<(Hash, seq<PathElem>, Hash)>)
    ensures r.Err? <==> i as nat >= |fields|
    ensures r.Ok? ==> r.value == (LeafHash(sha, fields[i as nat]), FieldPath(sha, fields, i as nat), TxId(sha, fields))
    ensures r.Ok? ==> Folded(sha, r.value.0, r.value.1) == r.value.2 && |r.value.1| == CeilLog2(|fields|)
  {
    if i as nat >= |fields| {
      return Err;
    }
    var built := BuildMTxID(sha, fields);
    PathThroughLayers(sha, FieldDigests(sha, fields), i as nat);
    var path := MerklePath(built.value.1, i as nat);
    PathFolds(sha, FieldDigests(sha, fields), i as nat);
    PathDepth(sha, FieldDigests(sha, fields), i as nat);
    return Ok((LeafHash(sha, fields[i as nat]), path.value, built.value.0));
  }

  predicate ClosesToRoot(sha: Sha256d, leaf: Hash, l0: seq<PathElem>, l1: seq<PathElem>, l2: seq<PathElem>,
                         root: Hash)
  {
    |l0| + |l1| + |l2| <= MAX_DEPTH && |l1| <= 20 && Folded(sha, leaf, l0 + l1 + l2) == root
  }

  method VerifyToBlockRoot(sha: Sha256d, leaf: Hash, l0: seq<PathElem>, l1: seq<PathElem>, l2: seq<PathElem>,
                           root: Hash)
    returns (ok: bool, depth: nat)
    ensures ok == ClosesToRoot(sha, leaf, l0, l1, l2, root) && depth == |l0 + l1 + l2|
  {
    depth := |l0| + |l1| + |l2|;
    if depth > MAX_DEPTH || |l1| > 20 {
      return false, depth;
    }
    var mtxid := Fold(sha, leaf, l0);
    var sub := Fold(sha, mtxid, l1);
    var top := Fold(sha, sub, l2);
    FoldedConcat(sha, leaf, l0, l1);
    FoldedConcat(sha, leaf, l0 + l1, l2);
    return top == root, depth;
  }

  // ---------------------------------------------------------------- an id determines its fields

  ghost function FieldInputs(fields: seq<FieldLeaf>): set<seq<byte>> {
    set i | 0 <= i < |fields| :: LeafBytes(fields[i])
  }

  /** A transaction id determines its fields: neither their bytes, nor their order, nor their
      index bytes can change under an unchanged id and field count without a collision. */
  lemma TxIdBinding(sha: Sha256d, f: seq<FieldLeaf>, g: seq<FieldLeaf>)
    requires f != [] && |f| == |g| && TxId(sha, f) == TxId(sha, g)
    ensures f == g ||
            CollisionIn(sha, FieldInputs(f) + FieldInputs(g)
                           + TreeInputs(sha, FieldDigests(sha, f)) + TreeInputs(sha, FieldDigests(sha, g)))
  {
    var df, dg := FieldDigests(sha, f), FieldDigests(sha, g);
    var nodes := TreeInputs(sha, df) + TreeInputs(sha, dg);
    var all := FieldInputs(f) + FieldInputs(g) + TreeInputs(sha, df) + TreeInputs(sha, dg);
    RootBinding(sha, df, dg);
    if df != dg {
      CollisionGrows(sha, nodes, all);
    } else if f != g {
      var i :| 0 <= i < |f| && f[i] != g[i];
      var x, y := LeafBytes(f[i]), LeafBytes(g[i]);
      assert x in FieldInputs(f) && y in FieldInputs(g);
      assert df[i] == dg[i] && sha(x) == sha(y);
      LeafBytesDiffer(f[i], g[i]);
    }
  }

  lemma LeafBytesDiffer(f: FieldLeaf, g: FieldLeaf)
    requires f != g
    ensures LeafBytes(f) != LeafBytes(g)
  {
    assert LeafBytes(f)[0] == f.index && LeafBytes(g)[0] == g.index;
    assert LeafBytes(f)[1..] == f.bytes && LeafBytes(g)[1..] == g.bytes;
  }
}
