/** commitment/commitment.go: the hash vocabulary shared by every other module, and the fold that
    checks a sibling path.

    SHA-256d is never opened.  Every member takes it as the parameter `sha`, so every
    statement holds for every function from byte strings to 32-byte digests.  Such a function
    has collisions by counting alone, therefore binding results never say "or a collision
    exists": they name the finite set of preimages that the two computations hash. */
module Commitment {

  newtype byte = b: int | 0 <= b < 256
  const ZEROS: seq<byte> := [0, 0, 0, 0, 0, 0, 0, 0, 0, 0, 0, 0, 0, 0, 0, 0]

  type Bytes32 = b: seq<byte> | |b| == 32 witness ZEROS + ZEROS
  type Bytes80 = b: seq<byte> | |b| == 80 witness ZEROS + ZEROS + ZEROS + ZEROS + ZEROS

  datatype Hash = Hash(bytes: Bytes32)
  datatype Header = Header(bytes: Bytes80)
  type Sha256d = seq<byte> -> Hash

  /** The all-zero digest that Go's Hash{} denotes. */
  function ZeroHash(): Hash { Hash(seq(32, _ => 0)) }

  const MAX_DEPTH := 255

  datatype Result<+T> = Ok(value: T) | Err
  datatype Option<+T> = None | Some(value: T)

  datatype PathElem = PathElem(sibling: Hash, right: bool)
  datatype FieldLeaf = FieldLeaf(index: byte, bytes: seq<byte>)

  /** teranode.HeaderChain; NoChain is the nil interface. */
  datatype HeaderChain = NoChain | Chain(contains: Header -> bool)

  /** The Merkle root inside an 80-byte header. */
  function HeaderMerkleRoot(header: Header): Hash { Hash(header.bytes[36..68]) }

  // ---------------------------------------------------------------- hashing and folding

  /** What HashPair feeds to SHA-256d. */
  function PairBytes(left: Hash, right: Hash): seq<byte> { left.bytes + right.bytes }

  function HashPair(sha: Sha256d, left: Hash, right: Hash): Hash { sha(PairBytes(left, right)) }

  /** The preimage hashed when `node` is combined with path element `e`. */
  function StepBytes(node: Hash, e: PathElem): seq<byte> {
    if e.right then PairBytes(node, e.sibling) else PairBytes(e.sibling, node)
  }

  function Parent(sha: Sha256d, node: Hash, e: PathElem): Hash { sha(StepBytes(node, e)) }

  /** The root implied by climbing `path` from `leaf`. */
  function Folded(sha: Sha256d, leaf: Hash, path: seq<PathElem>): Hash
    decreases path
  {
    if path == [] then leaf else Folded(sha, Parent(sha, leaf, path[0]), path[1..])
  }

  /** The preimages hashed while climbing. */
  ghost function FoldInputs(sha: Sha256d, leaf: Hash, path: seq<PathElem>): set<seq<byte>>
    decreases path
  {
    if path == [] then {}
    else {StepBytes(leaf, path[0])} + FoldInputs(sha, Parent(sha, leaf, path[0]), path[1..])
  }

  method Fold(sha: Sha256d, leaf: Hash, path: seq<PathElem>) returns (node: Hash)
    ensures node == Folded(sha, leaf, path)
  {
    node := leaf;
    for i := 0 to |path|
      invariant Folded(sha, leaf, path) == Folded(sha, node, path[i..])
    {
      var e := path[i];
      if e.right {
        node := HashPair(sha, node, e.sibling);
      } else {
        node := HashPair(sha, e.sibling, node);
      }
    }
  }

  lemma {:induction false} FoldedConcat(sha: Sha256d, leaf: Hash, p: seq<PathElem>, q: seq<PathElem>)
    ensures Folded(sha, leaf, p + q) == Folded(sha, Folded(sha, leaf, p), q)
    ensures FoldInputs(sha, leaf, p + q) == FoldInputs(sha, leaf, p) + FoldInputs(sha, Folded(sha, leaf, p), q)
    decreases p
  {
    if p == [] {
      assert p + q == q;
    } else {
      assert (p + q)[1..] == p[1..] + q;
      FoldedConcat(sha, Parent(sha, leaf, p[0]), p[1..], q);
    }
  }

  // ---------------------------------------------------------------- binding

  /** Two different members of the finite set `inputs` with one digest. */
  ghost predicate CollisionIn(sha: Sha256d, inputs: set<seq<byte>>) {
    exists x, y :: x in inputs && y in inputs && x != y && sha(x) == sha(y)
  }

  /** The preimages of the headers' digests. */
  ghost function HeaderInputs(headers: seq<Header>): set<seq<byte>> {
    set i | 0 <= i < |headers| :: headers[i].bytes
  }

  ghost predicate SameTurns(p: seq<PathElem>, q: seq<PathElem>) {
    |p| == |q| && forall i :: 0 <= i < |p| ==> p[i].right == q[i].right
  }

  /** Binding: paths with the same turns that end in one root start at one leaf and carry the
      same siblings, unless two of the preimages hashed by the two folds collide. */
  lemma {:induction false} FoldBinding(sha: Sha256d, a: Hash, p: seq<PathElem>, b: Hash, q: seq<PathElem>)
    requires SameTurns(p, q)
    requires Folded(sha, a, p) == Folded(sha, b, q)
    ensures (a == b && p == q) || CollisionIn(sha, FoldInputs(sha, a, p) + FoldInputs(sha, b, q))
    decreases p
  {
    if p != [] {
      var x, y := StepBytes(a, p[0]), StepBytes(b, q[0]);
      var inner := FoldInputs(sha, sha(x), p[1..]) + FoldInputs(sha, sha(y), q[1..]);
      var all := FoldInputs(sha, a, p) + FoldInputs(sha, b, q);
      assert x in all && y in all && inner <= all;
      FoldBinding(sha, Parent(sha, a, p[0]), p[1..], Parent(sha, b, q[0]), q[1..]);
      if sha(x) == sha(y) && p[1..] == q[1..] {
        if x == y {
          StepBytesInjective(a, p[0], b, q[0]);
          assert p == [p[0]] + p[1..] && q == [q[0]] + q[1..];
        }
      } else {
        CollisionGrows(sha, inner, all);
      }
    }
  }

  lemma StepBytesInjective(a: Hash, e: PathElem, b: Hash, f: PathElem)
    requires e.right == f.right && StepBytes(a, e) == StepBytes(b, f)
    ensures a == b && e == f
  {
    var x, y := StepBytes(a, e), StepBytes(b, f);
    assert x[..32] == (if e.right then a else e.sibling).bytes && x[32..] == (if e.right then e.sibling else a).bytes;
    assert y[..32] == (if f.right then b else f.sibling).bytes && y[32..] == (if f.right then f.sibling else b).bytes;
  }

  lemma CollisionGrows(sha: Sha256d, small: set<seq<byte>>, big: set<seq<byte>>)
    requires CollisionIn(sha, small) && small <= big
    ensures CollisionIn(sha, big)
  {
    var x, y :| x in small && y in small && x != y && sha(x) == sha(y);
    assert x in big && y in big;
  }
}
