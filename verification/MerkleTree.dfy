/** commitment/commitment.go:80-161: Merkle trees with odd-node duplication, their sibling paths, and
    what a root says about its leaves. */
module MerkleTree {
  import opened Commitment
  import opened Positions

  /** What is hashed for node i of the next level: neighbours are paired, an odd last node is
      paired with itself. */
  function PairInput(level: seq<Hash>, i: nat): seq<byte>
    requires 2 * i < |level|
  {
    PairBytes(level[2 * i], if 2 * i + 1 < |level| then level[2 * i + 1] else level[2 * i])
  }

  /** One level up. */
  function NextLevel(sha: Sha256d, level: seq<Hash>): (next: seq<Hash>)
    ensures |next| == (|level| + 1) / 2
    ensures forall i :: 0 <= i < |next| ==> next[i] == sha(PairInput(level, i))
  {
    seq((|level| + 1) / 2, i requires 0 <= i < (|level| + 1) / 2 => sha(PairInput(level, i)))
  }

  lemma NextLevelSplits(sha: Sha256d, a: seq<Hash>, b: seq<Hash>)
    requires |a| % 2 == 0
    ensures NextLevel(sha, a + b) == NextLevel(sha, a) + NextLevel(sha, b)
  {
    var ab, h := a + b, |a| / 2;
    assert |a| == 2 * h;
    forall i | 0 <= i < |NextLevel(sha, ab)|
      ensures NextLevel(sha, ab)[i] == if i < h then NextLevel(sha, a)[i] else NextLevel(sha, b)[i - h]
    {
      if i < h {
        assert ab[2 * i] == a[2 * i] && ab[2 * i + 1] == a[2 * i + 1];
      } else {
        assert ab[2 * i] == b[2 * (i - h)];
        assert 2 * i + 1 < |ab| ==> ab[2 * i + 1] == b[2 * (i - h) + 1];
      }
    }
  }

  function Root(sha: Sha256d, leaves: seq<Hash>): Hash
    requires leaves != []
    decreases |leaves|
  {
    if |leaves| == 1 then leaves[0] else Root(sha, NextLevel(sha, leaves))
  }

  function Layers(sha: Sha256d, leaves: seq<Hash>): (layers: seq<seq<Hash>>)
    requires leaves != []
    ensures |layers| >= 1 && layers[0] == leaves && layers[|layers| - 1] == [Root(sha, leaves)]
    decreases |leaves|
  {
    if |leaves| == 1 then [leaves] else [leaves] + Layers(sha, NextLevel(sha, leaves))
  }

  method BuildMerkleTree(sha: Sha256d, leaves: seq<Hash>) returns (r: Result<(Hash, seq<seq<Hash>>)>)
    ensures r.Err? <==> leaves == []
    ensures r.Ok? ==> r.value == (Root(sha, leaves), Layers(sha, leaves))
  {
    if |leaves| == 0 {
      return Err;
    }
    var level := leaves;
    var layers := [level];
    ghost var below: seq<seq<Hash>> := [];
    while |level| > 1
      invariant level != [] && layers == below + [level]
      invariant Root(sha, level) == Root(sha, leaves)
      invariant below + Layers(sha, level) == Layers(sha, leaves)
      decreases |level|
    {
      var next := PairUp(sha, level);
      LayersGrow(sha, below, level, next);
      below := layers;
      layers := layers + [next];
      level := next;
    }
    assert Layers(sha, level) == [level];
    return Ok((layers[|layers| - 1][0], layers));
  }

  lemma LayersGrow(sha: Sha256d, below: seq<seq<Hash>>, level: seq<Hash>, next: seq<Hash>)
    requires |level| > 1 && next == NextLevel(sha, level)
    ensures below + Layers(sha, level) == below + [level] + Layers(sha, next)
  {
    var above := Layers(sha, next);
    assert Layers(sha, level) == [level] + above;
    assert below + ([level] + above) == below + [level] + above;
  }

  /** The inner loop of BuildMerkleTree. */
  method PairUp(sha: Sha256d, level: seq<Hash>) returns (next: seq<Hash>)
    ensures next == NextLevel(sha, level)
  {
    next := [];
    var i := 0;
    while i < |level|
      invariant i == 2 * |next| <= |level| + 1
      invariant forall k :: 0 <= k < |next| ==> next[k] == NextLevel(sha, level)[k]
    {
      var left := level[i];
      var right := left;
      if i + 1 < |level| {
        right := level[i + 1];
      }
      next := next + [HashPair(sha, left, right)];
      i := i + 2;
    }
  }

  // ---------------------------------------------------------------- sibling paths

  /** The shape MerklePath relies on: each layer is half of the one below, rounded up. */
  ghost predicate Shaped(layers: seq<seq<Hash>>) {
    forall l :: 0 <= l < |layers| ==>
      layers[l] != [] && (l + 1 < |layers| ==> |layers[l + 1]| == (|layers[l]| + 1) / 2)
  }

  function SiblingAt(level: seq<Hash>, index: nat): PathElem
    requires index < |level|
  {
    if index % 2 == 0 then PathElem(level[if index + 1 < |level| then index + 1 else index], true)
    else PathElem(level[index - 1], false)
  }

  /** The sibling path of leaf `index`, read off the leaves alone. */
  function PathOf(sha: Sha256d, leaves: seq<Hash>, index: nat): seq<PathElem>
    requires index < |leaves|
    decreases |leaves|
  {
    if |leaves| == 1 then [] else [SiblingAt(leaves, index)] + PathOf(sha, NextLevel(sha, leaves), index / 2)
  }

  /** What MerklePath extracts from already built layers, from `level` upwards. */
  function PathFrom(layers: seq<seq<Hash>>, level: nat, index: nat): (path: seq<PathElem>)
    requires Shaped(layers) && level < |layers| && index < |layers[level]|
    ensures |path| == |layers| - 1 - level
    decreases |layers| - level
  {
    if level + 1 == |layers| then []
    else [SiblingAt(layers[level], index)] + PathFrom(layers, level + 1, index / 2)
  }

  function PathThrough(layers: seq<seq<Hash>>, index: nat): seq<PathElem>
    requires layers != [] && Shaped(layers) && index < |layers[0]|
  {
    PathFrom(layers, 0, index)
  }

  method MerklePath(layers: seq<seq<Hash>>, index: int) returns (r: Result<seq<PathElem>>)
    requires Shaped(layers)
    ensures r.Err? <==> layers == [] || index < 0 || index >= |layers[0]|
    ensures r.Ok? ==> r.value == PathThrough(layers, index)
  {
    if |layers| == 0 || index < 0 || index >= |layers[0]| {
      return Err;
    }
    var path := [];
    var idx := index;
    for level := 0 to |layers| - 1
      invariant 0 <= idx < |layers[level]|
      invariant path + PathFrom(layers, level, idx) == PathThrough(layers, index)
    {
      var e := SiblingIn(layers[level], idx);
      path := path + [e];
      idx := idx / 2;
    }
    return Ok(path);
  }

  /** MerklePath into a caller's buffer: the path is written over the front of `dst`, and a larger
      array is taken only if `dst` is too short. */
  method MerklePathInto(layers: seq<seq<Hash>>, index: int, dst: array<PathElem>)
    returns (r: Result<(array<PathElem>, nat)>)
    requires Shaped(layers)
    modifies dst
    ensures r.Err? <==> layers == [] || index < 0 || index >= |layers[0]|
    ensures r.Err? ==> dst[..] == old(dst[..])
    ensures r.Ok? ==> r.value.1 <= r.value.0.Length && r.value.0[..r.value.1] == PathThrough(layers, index)
    ensures r.Ok? ==> r.value.1 == |layers| - 1 && (r.value.0 == dst || fresh(r.value.0))
    ensures r.Ok? && |layers| - 1 <= dst.Length ==>
              r.value.0 == dst && dst[|layers| - 1..] == old(dst[|layers| - 1..])
  {
    if |layers| == 0 || index < 0 || index >= |layers[0]| {
      return Err;
    }
    var out := WritePath(layers, index, dst);
    return Ok((out, |layers| - 1));
  }

  /** The loop of MerklePathInto. */
  method WritePath(layers: seq<seq<Hash>>, index: nat, dst: array<PathElem>) returns (out: array<PathElem>)
    requires layers != [] && Shaped(layers) && index < |layers[0]|
    modifies dst
    ensures out == dst || fresh(out)
    ensures |layers| - 1 <= out.Length && out[..|layers| - 1] == PathThrough(layers, index)
    ensures |layers| - 1 <= dst.Length ==> out == dst && dst[|layers| - 1..] == old(dst[|layers| - 1..])
  {
    out := dst;
    ghost var was, path := dst[..], [];
    var idx := index;
    for level := 0 to |layers| - 1
      invariant 0 <= idx < |layers[level]|
      invariant path + PathFrom(layers, level, idx) == PathThrough(layers, index)
      invariant |path| == level <= out.Length && out[..level] == path
      invariant out == dst || fresh(out)
      invariant |layers| - 1 <= dst.Length ==> out == dst && dst[level..] == was[level..]
      modifies dst
    {
      var e := SiblingIn(layers[level], idx);
      out := Put(out, level, e);
      PathOneUp(layers, level, idx, path, e);
      path := path + [e];
      idx := idx / 2;
    }
  }

  /** Taking one element of a path from the levels to the front. */
  lemma PathOneUp(layers: seq<seq<Hash>>, level: nat, idx: nat, path: seq<PathElem>, e: PathElem)
    requires Shaped(layers) && level + 1 < |layers| && idx < |layers[level]| && e == SiblingAt(layers[level], idx)
    ensures idx / 2 < |layers[level + 1]|
    ensures path + PathFrom(layers, level, idx) == path + [e] + PathFrom(layers, level + 1, idx / 2)
  {
  }

  /** append(dst[:at], e): in place while there is room. */
  method Put(dst: array<PathElem>, at: nat, e: PathElem) returns (out: array<PathElem>)
    requires at <= dst.Length
    modifies dst
    ensures out == dst || fresh(out)
    ensures at < out.Length && out[..at + 1] == old(dst[..at]) + [e]
    ensures at < dst.Length ==> out == dst && dst[at + 1..] == old(dst[at + 1..])
    ensures at == dst.Length ==> dst[..] == old(dst[..])
  {
    out := dst;
    if at == dst.Length {
      out := Grown(dst, e);
      assert dst[..at] == dst[..];
    }
    out[at] := e;
  }

  /** The branch both path extractors take at one level. */
  method SiblingIn(cur: seq<Hash>, idx: nat) returns (e: PathElem)
    requires idx < |cur|
    ensures e == SiblingAt(cur, idx)
  {
    if idx % 2 == 0 {
      var sib := idx;
      if idx + 1 < |cur| {
        sib := idx + 1;
      }
      e := PathElem(cur[sib], true);
    } else {
      e := PathElem(cur[idx - 1], false);
    }
  }

  /** A longer array with the same front, as append takes when its slice is full. */
  method Grown(a: array<PathElem>, fill: PathElem) returns (b: array<PathElem>)
    ensures fresh(b) && b.Length == 2 * a.Length + 1 && b[..a.Length] == a[..]
  {
    b := new PathElem[2 * a.Length + 1](_ => fill);
    for i := 0 to a.Length
      invariant b[..i] == a[..i]
    {
      b[i] := a[i];
    }
    assert a[..a.Length] == a[..];
  }

  lemma {:induction false} LayersShaped(sha: Sha256d, leaves: seq<Hash>)
    requires leaves != []
    ensures Shaped(Layers(sha, leaves))
    decreases |leaves|
  {
    if |leaves| > 1 {
      var next := NextLevel(sha, leaves);
      LayersShaped(sha, next);
      var tail, all := Layers(sha, next), Layers(sha, leaves);
      forall l | 0 <= l < |all|
        ensures all[l] != [] && (l + 1 < |all| ==> |all[l + 1]| == (|all[l]| + 1) / 2)
      {
        if l > 0 {
          assert all[l] == tail[l - 1] && (l + 1 < |all| ==> all[l + 1] == tail[l]);
        }
      }
    }
  }

  lemma {:induction false} PathFromLayers(sha: Sha256d, layers: seq<seq<Hash>>, level: nat, leaves: seq<Hash>,
                                          index: nat)
    requires Shaped(layers) && level < |layers| && index < |leaves|
    requires layers[level..] == Layers(sha, leaves)
    ensures layers[level] == leaves && PathFrom(layers, level, index) == PathOf(sha, leaves, index)
    decreases |leaves|
  {
    assert layers[level] == layers[level..][0];
    if |leaves| > 1 {
      assert layers[level + 1..] == layers[level..][1..];
      PathFromLayers(sha, layers, level + 1, NextLevel(sha, leaves), index / 2);
    }
  }

  /** Reading a path off the layers of a tree is the same as reading it off the leaves. */
  lemma PathThroughLayers(sha: Sha256d, leaves: seq<Hash>, index: nat)
    requires index < |leaves|
    ensures Shaped(Layers(sha, leaves))
    ensures PathThrough(Layers(sha, leaves), index) == PathOf(sha, leaves, index)
  {
    LayersShaped(sha, leaves);
    var layers := Layers(sha, leaves);
    assert layers[0..] == layers;
    PathFromLayers(sha, layers, 0, leaves, index);
  }

  /** The depth law: a path has exactly CeilLog2(n) elements. */
  lemma {:induction false} PathDepth(sha: Sha256d, leaves: seq<Hash>, index: nat)
    requires index < |leaves|
    ensures |PathOf(sha, leaves, index)| == CeilLog2(|leaves|)
    decreases |leaves|
  {
    if |leaves| > 1 {
      PathDepth(sha, NextLevel(sha, leaves), index / 2);
      DepthHalves(|leaves|);
    }
  }

  /** Completeness: every leaf's own path folds to the root and turns by the bits of its index. */
  lemma {:induction false} PathFolds(sha: Sha256d, leaves: seq<Hash>, index: nat)
    requires index < |leaves|
    ensures Folded(sha, leaves[index], PathOf(sha, leaves, index)) == Root(sha, leaves)
    ensures PathIndex(PathOf(sha, leaves, index)) == index
    decreases |leaves|
  {
    if |leaves| > 1 {
      var next := NextLevel(sha, leaves);
      var e, rest := SiblingAt(leaves, index), PathOf(sha, next, index / 2);
      PathFolds(sha, next, index / 2);
      assert PathOf(sha, leaves, index)[1..] == rest;
      ParentAt(sha, leaves, index);
    }
  }

  /** A node and its sibling hash to the node above them. */
  lemma ParentAt(sha: Sha256d, level: seq<Hash>, index: nat)
    requires index < |level|
    ensures NextLevel(sha, level)[index / 2] == Parent(sha, level[index], SiblingAt(level, index))
  {
    var h := index / 2;
    assert index == if index % 2 == 0 then 2 * h else 2 * h + 1;
    assert NextLevel(sha, level)[h]
        == HashPair(sha, level[2 * h], if 2 * h + 1 < |level| then level[2 * h + 1] else level[2 * h]);
  }

  // ---------------------------------------------------------------- a root determines its leaves

  /** The preimages hashed when a tree is built. */
  ghost function TreeInputs(sha: Sha256d, leaves: seq<Hash>): set<seq<byte>>
    requires leaves != []
    decreases |leaves|
  {
    if |leaves| == 1 then {}
    else (set i | 0 <= i < (|leaves| + 1) / 2 :: PairInput(leaves, i)) + TreeInputs(sha, NextLevel(sha, leaves))
  }

  lemma LevelBinding(sha: Sha256d, a: seq<Hash>, b: seq<Hash>, inputs: set<seq<byte>>)
    requires |a| == |b| && NextLevel(sha, a) == NextLevel(sha, b)
    requires forall i :: 0 <= i < (|a| + 1) / 2 ==> PairInput(a, i) in inputs && PairInput(b, i) in inputs
    ensures a == b || CollisionIn(sha, inputs)
  {
    if !CollisionIn(sha, inputs) {
      forall k | 0 <= k < |a| ensures a[k] == b[k] {
        var i := k / 2;
        assert k == 2 * i || k == 2 * i + 1;
        assert sha(PairInput(a, i)) == NextLevel(sha, a)[i] == NextLevel(sha, b)[i] == sha(PairInput(b, i));
        var ra := if 2 * i + 1 < |a| then a[2 * i + 1] else a[2 * i];
        var rb := if 2 * i + 1 < |b| then b[2 * i + 1] else b[2 * i];
        StepBytesInjective(a[2 * i], PathElem(ra, true), b[2 * i], PathElem(rb, true));
      }
    }
  }

  /** Two leaf lists of one length with one root are equal, or two of the preimages hashed while
      building the two trees collide. */
  lemma {:induction false} RootBinding(sha: Sha256d, a: seq<Hash>, b: seq<Hash>)
    requires a != [] && |a| == |b| && Root(sha, a) == Root(sha, b)
    ensures a == b || CollisionIn(sha, TreeInputs(sha, a) + TreeInputs(sha, b))
    decreases |a|
  {
    if |a| > 1 {
      var na, nb := NextLevel(sha, a), NextLevel(sha, b);
      var all := TreeInputs(sha, a) + TreeInputs(sha, b);
      RootBinding(sha, na, nb);
      if na == nb {
        LevelBinding(sha, a, b, all);
      } else {
        CollisionGrows(sha, TreeInputs(sha, na) + TreeInputs(sha, nb), all);
      }
    }
  }

  lemma NextLevelForgets(sha: Sha256d, level: seq<Hash>, more: seq<Hash>)
    requires |level| % 2 == 1 && more == level + [level[|level| - 1]]
    ensures NextLevel(sha, level) == NextLevel(sha, more)
  {
    forall i | 0 <= i < (|level| + 1) / 2 ensures PairInput(level, i) == PairInput(more, i) {
    }
  }

  lemma NextRoot(sha: Sha256d, leaves: seq<Hash>)
    requires |leaves| > 1
    ensures Root(sha, leaves) == Root(sha, NextLevel(sha, leaves))
  {
  }

  /** The length matters: with an odd last node, repeating it changes the list and not the root. */
  lemma RootForgetsRepeats(sha: Sha256d, leaves: seq<Hash>)
    requires |leaves| > 1 && |leaves| % 2 == 1
    ensures Root(sha, leaves) == Root(sha, leaves + [leaves[|leaves| - 1]])
  {
    NextLevelForgets(sha, leaves, leaves + [leaves[|leaves| - 1]]);
    NextRoot(sha, leaves);
    NextRoot(sha, leaves + [leaves[|leaves| - 1]]);
  }
}
