/** fabric/stream.go:39-198: the batch verifier on packed integer keys and interned subtree roots, as
    a function of the decoded proofs.  Within the ranges the key has bits for it reports what
    BatchVerify reports; one level or one subtree more and it does not. */
module PackedBatch {
  import opened Commitment
  import opened Positions
  import opened Bits
  import opened Fabric
  import opened FabricClimb
  import opened FabricSoundness
  import opened FabricCompleteness
  import opened FabricCost
  import opened FabricLimits

  const MAX_PACKED_L1 := 33
  const MAX_PACKED_IDS := 0x100_0000

  // ---------------------------------------------------------------- packed keys

  /** subID<<40 | level<<32 | index on uint64. */
  function PackKey(id: nat, level: nat, index: nat): nat {
    Or(Or(Low64(0x100_0000_0000 * id), Low64(0x1_0000_0000 * level)), index)
  }

  function Low64(x: nat): u64 { x % WORD }

  lemma Shift40(x: nat, k: nat)
    requires k == 32
    ensures Shl(x, k) == 0x1_0000_0000 * x && Pow2(k) == 0x1_0000_0000
    ensures Shl(x, k + 8) == 0x100_0000_0000 * x && Pow2(k + 8) == 0x100_0000_0000
  {
    Shift32(x, k - 32);
    Shift8(x, k);
  }

  /** Or is addition when the low operand stays below the shifted one. */
  lemma OrFields(x: nat, y: nat, k: nat)
    requires k == 32
    ensures y < 0x1_0000_0000 ==> Or(0x1_0000_0000 * x, y) == 0x1_0000_0000 * x + y
    ensures y < 0x100_0000_0000 ==> Or(0x100_0000_0000 * x, y) == 0x100_0000_0000 * x + y
  {
    Shift40(x, k);
    if y < 0x1_0000_0000 {
      OrBelow(x, k, y);
    }
    if y < 0x100_0000_0000 {
      OrBelow(x, k + 8, y);
    }
  }

  /** The three fields fit their bits. */
  predicate Packable(id: nat, level: nat, index: nat) {
    id < MAX_PACKED_IDS && level < 0x100 && index < 0x1_0000_0000
  }

  lemma OrThree(id: nat, level: nat, index: nat, high: nat, low: nat)
    requires Packable(id, level, index) && high == 0x100_0000_0000 * id && low == 0x1_0000_0000 * level
    ensures Or(Or(high, low), index) == high + low + index
  {
    OrFields(id, low, 32);
    assert high + low == 0x1_0000_0000 * (0x100 * id + level);
    OrFields(0x100 * id + level, index, 32);
  }

  lemma PackKeyValue(id: nat, level: nat, index: nat)
    requires Packable(id, level, index)
    ensures PackKey(id, level, index) == id * 0x100_0000_0000 + level * 0x1_0000_0000 + index
  {
    var high, low := Low64(0x100_0000_0000 * id), Low64(0x1_0000_0000 * level);
    assert high == 0x100_0000_0000 * id && low == 0x1_0000_0000 * level;
    OrThree(id, level, index, high, low);
  }

  /** Within their bits the fields of a key can be told apart ... */
  lemma PackKeyInjective(id: nat, level: nat, index: nat, id': nat, level': nat, index': nat)
    requires Packable(id, level, index) && Packable(id', level', index')
    requires PackKey(id, level, index) == PackKey(id', level', index')
    ensures id == id' && level == level' && index == index'
  {
    PackKeyValue(id, level, index);
    PackKeyValue(id', level', index');
  }

  // ---------------------------------------------------------------- the verifier as a function

  type PackedMemo = map<nat, Hash>

  datatype Stop = Clashed | MetKnown | RanOut

  /** How the L1 loop ends, with the memo, the running node and the hash count it leaves. */
  datatype PackedClimb = PackedClimb(stop: Stop, memo: PackedMemo, node: Hash, hashes: nat)

  function ClimbPacked(sha: Sha256d, l1: seq<PathElem>, id: nat, memo: PackedMemo, j: nat, node: Hash, idx: nat,
                       hashes: nat): PackedClimb
    requires j <= |l1|
    decreases |l1| - j
  {
    if j == |l1| then PackedClimb(RanOut, memo, node, hashes)
    else
      var parent := Parent(sha, node, l1[j]);
      var key := PackKey(id, j + 1, idx / 2);
      if key in memo then PackedClimb(if memo[key] == parent then MetKnown else Clashed, memo, node, hashes + 1)
      else ClimbPacked(sha, l1, id, memo[key := parent], j + 1, parent, idx / 2, hashes + 1)
  }

  /** The four maps of a Verifier and the work done. */
  datatype PackedState = PackedState(memo: PackedMemo, subID: map<Hash, nat>, subOK: set<nat>, hdrOK: set<Hash>,
                                     hashes: nat)

  datatype PackedOutcome = Refused(hashes: nat) | Passed(state: PackedState)

  /** The id a root has or is given. */
  function IdOf(subID: map<Hash, nat>, root: Hash): nat { if root in subID then subID[root] else |subID| }

  function Interned(subID: map<Hash, nat>, root: Hash): map<Hash, nat> { subID[root := IdOf(subID, root)] }

  function CheckPacked(sha: Sha256d, p: Proof, id: nat, st: PackedState, chain: HeaderChain): PackedOutcome {
    var known := id in st.subOK;
    var hashes := st.hashes + (if known then 0 else |p.l2|);
    if !known && !L2Closes(sha, p) then Refused(hashes)
    else
      var digest := sha(p.header.bytes);
      if digest !in st.hdrOK && !OnChain(chain, p.header) then Refused(hashes)
      else Passed(st.(subOK := st.subOK + {id}, hdrOK := st.hdrOK + {digest}, hashes := hashes))
  }

  /** A step once the root has its id. */
  function PackedRest(sha: Sha256d, p: Proof, id: nat, st: PackedState, chain: HeaderChain): PackedOutcome {
    var c := ClimbPacked(sha, p.l1, id, st.memo, 0, p.leaf, LeafIndexOf(p.l1), st.hashes);
    if c.stop == Clashed || (c.stop == RanOut && c.node != p.subtreeRoot) then Refused(c.hashes)
    else CheckPacked(sha, p, id, st.(memo := c.memo, hashes := c.hashes), chain)
  }

  function PackedStep(sha: Sha256d, p: Proof, st: PackedState, chain: HeaderChain): PackedOutcome {
    PackedRest(sha, p, IdOf(st.subID, p.subtreeRoot), st.(subID := Interned(st.subID, p.subtreeRoot)), chain)
  }

  function PackedFrom(sha: Sha256d, ps: seq<Proof>, st: PackedState, chain: HeaderChain): PackedOutcome
    decreases |ps|
  {
    if ps == [] then Passed(st)
    else
      match PackedStep(sha, ps[0], st, chain)
      case Refused(hashes) => Refused(hashes)
      case Passed(next) => PackedFrom(sha, ps[1..], next, chain)
  }

  const PACKED_START := PackedState(map[], map[], {}, {}, 0)

  function Packed(sha: Sha256d, ps: seq<Proof>, chain: HeaderChain): PackedOutcome {
    PackedFrom(sha, ps, PACKED_START, chain)
  }

  predicate PackedReports(outcome: PackedOutcome, ok: bool, hashes: nat) {
    match outcome
    case Refused(n) => !ok && hashes == n
    case Passed(st) => ok && hashes == st.hashes
  }

  // ---------------------------------------------------------------- the same state, packed and plain

  /** The batch stays within what a packed key can tell apart. */
  ghost predicate Streamable(ps: seq<Proof>) {
    |Roots(ps)| <= MAX_PACKED_IDS && forall p :: p in ps ==> |p.l1| <= MAX_PACKED_L1
  }

  predicate UsableKey(k: NodeKey) { 1 <= k.level <= MAX_PACKED_L1 && k.index < 0x1_0000_0000 }

  /** The ids are 0, 1, 2 and so on, each given once. */
  ghost predicate Ids(subID: map<Hash, nat>) {
    && |subID| <= MAX_PACKED_IDS
    && (forall h :: h in subID ==> subID[h] < |subID|)
    && (forall g, h :: g in subID && h in subID && subID[g] == subID[h] ==> g == h)
  }

  /** The packed memo holds exactly the nodes of the plain one. */
  ghost predicate SameMemo(packed: PackedMemo, subID: map<Hash, nat>, memo: Memo) {
    && (forall k :: k in memo ==> k.subtree in subID)
    && (forall x :: x in packed ==> x < |subID| * 0x100_0000_0000)
    && (forall k: NodeKey :: k.subtree in subID && UsableKey(k) ==>
          SameNode(packed, memo, PackKey(subID[k.subtree], k.level, k.index), k))
  }

  ghost predicate SameNode(packed: PackedMemo, memo: Memo, x: nat, k: NodeKey) {
    (x in packed <==> k in memo) && (k in memo ==> packed[x] == memo[k])
  }

  ghost predicate SameSet(subOK: set<nat>, subID: map<Hash, nat>, roots: set<Hash>) {
    && (forall h :: h in roots ==> h in subID)
    && (forall h :: h in subID ==> (subID[h] in subOK <==> h in roots))
    && (forall id :: id in subOK ==> id < |subID|)
  }

  ghost predicate Mirrors(st: PackedState, plain: State) {
    && Ids(st.subID) && SameMemo(st.memo, st.subID, plain.memo)
    && SameSet(st.subOK, st.subID, plain.subtreeOK) && st.hdrOK == plain.headerOK && st.hashes == plain.hashes
  }

  lemma SameMemoRecords(packed: PackedMemo, subID: map<Hash, nat>, memo: Memo, key: NodeKey, x: nat, h: Hash)
    requires SameMemo(packed, subID, memo) && Ids(subID) && key.subtree in subID && UsableKey(key)
    requires x == PackKey(subID[key.subtree], key.level, key.index)
    ensures SameMemo(packed[x := h], subID, memo[key := h])
  {
    PackKeyValue(subID[key.subtree], key.level, key.index);
    forall k: NodeKey | k.subtree in subID && UsableKey(k)
      ensures SameNode(packed[x := h], memo[key := h], PackKey(subID[k.subtree], k.level, k.index), k)
    {
      assert SameNode(packed, memo, PackKey(subID[k.subtree], k.level, k.index), k);
      if PackKey(subID[k.subtree], k.level, k.index) == x {
        PackKeyInjective(subID[key.subtree], key.level, key.index, subID[k.subtree], k.level, k.index);
      }
    }
  }

  lemma SameMemoInterns(packed: PackedMemo, subID: map<Hash, nat>, memo: Memo, root: Hash)
    requires SameMemo(packed, subID, memo) && Ids(subID) && root !in subID && |subID| < MAX_PACKED_IDS
    ensures SameMemo(packed, Interned(subID, root), memo)
  {
    var more := Interned(subID, root);
    forall k: NodeKey | k.subtree in more && UsableKey(k)
      ensures SameNode(packed, memo, PackKey(more[k.subtree], k.level, k.index), k)
    {
      if k.subtree == root {
        PackKeyValue(more[k.subtree], k.level, k.index);
      } else {
        assert SameNode(packed, memo, PackKey(subID[k.subtree], k.level, k.index), k);
      }
    }
  }

  /** Node indices of a 33-level path fit the 32 bits the packed key has for them. */
  lemma IndexFits(p: seq<PathElem>, j: nat)
    requires j < |p| <= MAX_PACKED_L1
    ensures PathIndex(p[j..]) / 2 == PathIndex(p[j + 1..]) < 0x1_0000_0000
  {
    PathIndexTail(p, j);
    PathIndexBound(p[j + 1..]);
    Pow2Monotone(|p| - j - 1, 32);
    Shift40(0, 32);
  }

  // ---------------------------------------------------------------- within range

  ghost predicate SameClimb(c: PackedClimb, subID: map<Hash, nat>, r: ClimbResult) {
    match r
    case Clash(n) => c.stop == Clashed && c.hashes == n
    case Merged(memo, n) => c.stop == MetKnown && c.hashes == n && SameMemo(c.memo, subID, memo)
    case Reached(memo, node, n) => c.stop == RanOut && c.hashes == n && c.node == node && SameMemo(c.memo, subID, memo)
  }

  lemma {:induction false} ClimbMirrors(sha: Sha256d, p: Proof, subID: map<Hash, nat>, packed: PackedMemo, memo: Memo,
                                        j: nat, node: Hash, idx: nat, hashes: nat)
    requires j <= |p.l1| <= MAX_PACKED_L1 && p.subtreeRoot in subID && Ids(subID) && SameMemo(packed, subID, memo)
    requires idx == PathIndex(p.l1[j..])
    ensures SameClimb(ClimbPacked(sha, p.l1, subID[p.subtreeRoot], packed, j, node, idx, hashes), subID,
                      Climb(sha, p, memo, j, node, idx, hashes))
    decreases |p.l1| - j
  {
    if j < |p.l1| {
      var parent, id := Parent(sha, node, p.l1[j]), subID[p.subtreeRoot];
      var key, x := NodeKey(p.subtreeRoot, j + 1, idx / 2), PackKey(id, j + 1, idx / 2);
      IndexFits(p.l1, j);
      assert SameNode(packed, memo, x, key);
      if key !in memo {
        SameMemoRecords(packed, subID, memo, key, x, parent);
        ClimbMirrors(sha, p, subID, packed[x := parent], memo[key := parent], j + 1, parent, idx / 2, hashes + 1);
      }
    }
  }

  ghost predicate SameOutcome(packed: PackedOutcome, plain: Outcome) {
    match plain
    case Rejected(n) => packed == Refused(n)
    case Accepted(st) => packed.Passed? && Mirrors(packed.state, st)
  }

  lemma CheckMirrors(sha: Sha256d, p: Proof, st: PackedState, plain: State, chain: HeaderChain)
    requires Mirrors(st, plain) && p.subtreeRoot in st.subID
    ensures SameOutcome(CheckPacked(sha, p, st.subID[p.subtreeRoot], st, chain), CheckAbove(sha, p, plain, chain))
  {
  }

  lemma InternMirrors(st: PackedState, plain: State, root: Hash)
    requires Mirrors(st, plain) && (root in st.subID || |st.subID| < MAX_PACKED_IDS)
    ensures Mirrors(st.(subID := Interned(st.subID, root)), plain)
  {
    if root in st.subID {
      assert Interned(st.subID, root) == st.subID;
    } else {
      SameMemoInterns(st.memo, st.subID, plain.memo, root);
    }
  }

  /** The L1 loops from the start. */
  lemma ClimbsMirror(sha: Sha256d, p: Proof, subID: map<Hash, nat>, packed: PackedMemo, memo: Memo, idx: nat,
                     hashes: nat)
    requires |p.l1| <= MAX_PACKED_L1 && p.subtreeRoot in subID && Ids(subID) && SameMemo(packed, subID, memo)
    requires idx == LeafIndexOf(p.l1)
    ensures SameClimb(ClimbPacked(sha, p.l1, subID[p.subtreeRoot], packed, 0, p.leaf, idx, hashes), subID,
                      Climb(sha, p, memo, 0, p.leaf, idx, hashes))
  {
    assert p.l1[0..] == p.l1;
    ClimbMirrors(sha, p, subID, packed, memo, 0, p.leaf, idx, hashes);
  }

  lemma RestMirrors(sha: Sha256d, p: Proof, st: PackedState, plain: State, chain: HeaderChain)
    requires Mirrors(st, plain) && |p.l1| <= MAX_PACKED_L1 && p.subtreeRoot in st.subID
    ensures SameOutcome(PackedRest(sha, p, st.subID[p.subtreeRoot], st, chain), Step(sha, p, plain, chain))
  {
    var idx, id := LeafIndexOf(p.l1), st.subID[p.subtreeRoot];
    ClimbsMirror(sha, p, st.subID, st.memo, plain.memo, idx, st.hashes);
    var c := ClimbPacked(sha, p.l1, id, st.memo, 0, p.leaf, idx, st.hashes);
    var r := Climb(sha, p, plain.memo, 0, p.leaf, idx, plain.hashes);
    if !r.Clash? {
      CheckMirrors(sha, p, st.(memo := c.memo, hashes := c.hashes), plain.(memo := r.memo, hashes := r.hashes), chain);
    }
  }

  lemma StepMirrors(sha: Sha256d, p: Proof, st: PackedState, plain: State, chain: HeaderChain)
    requires Mirrors(st, plain) && |p.l1| <= MAX_PACKED_L1
    requires p.subtreeRoot in st.subID || |st.subID| < MAX_PACKED_IDS
    ensures SameOutcome(PackedStep(sha, p, st, chain), Step(sha, p, plain, chain))
  {
    InternMirrors(st, plain, p.subtreeRoot);
    RestMirrors(sha, p, st.(subID := Interned(st.subID, p.subtreeRoot)), plain, chain);
  }

  /** The roots seen so far leave room for the next one. */
  lemma RootsFit(ps: seq<Proof>, p: Proof, subID: map<Hash, nat>)
    requires Streamable(ps) && p in ps && subID.Keys <= Roots(ps)
    ensures p.subtreeRoot in Roots(ps) && |p.l1| <= MAX_PACKED_L1
    ensures p.subtreeRoot in subID || |subID| < MAX_PACKED_IDS
  {
    if p.subtreeRoot !in subID {
      SubsetSize(subID.Keys + {p.subtreeRoot}, Roots(ps));
    }
  }

  /** Passing a proof names its root and no other. */
  lemma StepInterns(sha: Sha256d, p: Proof, st: PackedState, chain: HeaderChain)
    requires PackedStep(sha, p, st, chain).Passed?
    ensures PackedStep(sha, p, st, chain).state.subID == Interned(st.subID, p.subtreeRoot)
  {
  }

  lemma {:induction false} FromMirrors(sha: Sha256d, ps: seq<Proof>, i: nat, st: PackedState, plain: State,
                                       chain: HeaderChain)
    requires Streamable(ps) && i <= |ps| && Mirrors(st, plain) && st.subID.Keys <= Roots(ps)
    ensures SameOutcome(PackedFrom(sha, ps[i..], st, chain), BatchFrom(sha, ps[i..], plain, chain))
    decreases |ps| - i
  {
    if i < |ps| {
      var p := ps[i];
      assert ps[i..][0] == p && ps[i..][1..] == ps[i + 1..];
      RootsFit(ps, p, st.subID);
      StepMirrors(sha, p, st, plain, chain);
      if PackedStep(sha, p, st, chain).Passed? {
        StepInterns(sha, p, st, chain);
        FromMirrors(sha, ps, i + 1, PackedStep(sha, p, st, chain).state, Step(sha, p, plain, chain).state, chain);
      }
    }
  }

  /** Refinement: within range the packed verifier reports what BatchVerify reports, verdict and
      hash count, for every batch. */
  lemma PackedRefines(sha: Sha256d, ps: seq<Proof>, chain: HeaderChain, ok: bool, hashes: nat)
    requires Streamable(ps)
    ensures PackedReports(Packed(sha, ps, chain), ok, hashes) <==> Reports(Batch(sha, ps, chain), ok, hashes)
  {
    assert ps[0..] == ps;
    FromMirrors(sha, ps, 0, PACKED_START, START, chain);
  }

  // ---------------------------------------------------------------- one level too many

  /** Or-ing bit k and something below it into a shifted number makes that number odd. */
  lemma {:induction false} OrBit(x: nat, k: nat, y: nat, both: nat)
    requires y < Pow2(k) && both == Pow2(k) + y
    ensures Or(Shl(x, k), both) == Shl(x + 1 - x % 2, k) + y
  {
    if k > 0 {
      var half, rest := Shl(x, k - 1), both / 2;
      assert both % 2 == y % 2 && rest == Pow2(k - 1) + y / 2;
      OrBit(x, k - 1, y / 2, rest);
      OrTwice(half, both);
    }
  }

  lemma OrTwice(half: nat, both: nat)
    requires both > 0
    ensures Or(2 * half, both) == both % 2 + 2 * Or(half, both / 2)
  {
    assert (2 * half) / 2 == half && (2 * half) % 2 == 0;
    assert both == 1 ==> Or(half, 0) == half;
  }

  /** A key is its index under the shifted number of its id and level. */
  lemma KeyShape(id: nat, level: nat, index: nat, x: nat, k: nat)
    requires id < MAX_PACKED_IDS && level < 0x100 && x == 0x100 * id + level && k == 32
    ensures PackKey(id, level, index) == Or(Shl(x, k), index)
  {
    var high, low := Low64(0x100_0000_0000 * id), Low64(0x1_0000_0000 * level);
    assert high == 0x100_0000_0000 * id && low == 0x1_0000_0000 * level;
    OrFields(id, low, k);
    Shift40(x, k);
    assert high + low == 0x1_0000_0000 * x;
  }

  /** The 33rd bit of an index falls on the level: an even level takes the key of the level above
      it, and an odd one that of the index without the bit. */
  lemma PackedIndexOverflows(id: nat, level: nat, index: nat)
    requires Packable(id, level, index)
    ensures PackKey(id, level, index + 0x1_0000_0000) == PackKey(id, level + 1 - level % 2, index)
  {
    var x, odd := 0x100 * id + level, level + 1 - level % 2;
    var y := SameParity(id, level, odd, x);
    KeysMeet(id, level, odd, index, index + 0x1_0000_0000, x, y, 32);
  }

  lemma SameParity(id: nat, level: nat, odd: nat, x: nat) returns (y: nat)
    requires x == 0x100 * id + level && odd == level + 1 - level % 2 && level < 0x100
    ensures y == 0x100 * id + odd && y == x + 1 - x % 2 && odd < 0x100
  {
    assert x == 2 * (0x80 * id) + level;
    y := 0x100 * id + odd;
  }

  lemma KeysMeet(id: nat, level: nat, odd: nat, index: nat, high: nat, x: nat, y: nat, k: nat)
    requires Packable(id, level, index) && Packable(id, odd, index) && high == index + 0x1_0000_0000 && k == 32
    requires x == 0x100 * id + level && y == 0x100 * id + odd && y == x + 1 - x % 2
    ensures PackKey(id, level, high) == PackKey(id, odd, index)
  {
    KeyShape(id, level, high, x, k);
    KeyShape(id, odd, index, y, k);
    BitFallsOn(x, y, index, high, k);
  }

  lemma BitFallsOn(x: nat, odd: nat, y: nat, both: nat, k: nat)
    requires odd == x + 1 - x % 2 && y < 0x1_0000_0000 && both == 0x1_0000_0000 + y && k == 32
    ensures Or(Shl(x, k), both) == Or(Shl(odd, k), y)
  {
    Shift40(x, k);
    OrBit(x, k, y, both);
    OrBelow(odd, k, y);
  }

  /** A climb all of whose keys lie above those in the memo is the plain fold. */
  lemma {:induction false} ClimbPackedFresh(sha: Sha256d, l1: seq<PathElem>, id: nat, memo: PackedMemo, j: nat,
                                            node: Hash, idx: nat, hashes: nat, base: nat)
    requires j <= |l1| <= 64 && id < MAX_PACKED_IDS && base == 0x100_0000_0000 * id && idx < 0x2_0000_0000
    requires forall x :: x in memo ==> x < base + 0x1_0000_0000 * (j + 1)
    ensures var c := ClimbPacked(sha, l1, id, memo, j, node, idx, hashes);
            && c.stop == RanOut && c.node == Folded(sha, node, l1[j..])
            && (forall x :: x in c.memo ==> x < base + 0x100_0000_0000)
            && (forall x :: x in memo ==> x in c.memo && c.memo[x] == memo[x])
    decreases |l1| - j
  {
    if j < |l1| {
      var parent, x := Parent(sha, node, l1[j]), PackKey(id, j + 1, idx / 2);
      PackKeyValue(id, j + 1, idx / 2);
      assert l1[j..][1..] == l1[j + 1..];
      ClimbPackedFresh(sha, l1, id, memo[x := parent], j + 1, parent, idx / 2, hashes + 1, base);
    }
  }

  /** A left sibling at the top sets the top bit. */
  lemma TopTurn(p: seq<PathElem>, q: seq<PathElem>, n: nat)
    requires |p| == |q| == n + 1 && SameTurns(p[..n], q[..n]) && !p[n].right && q[n].right
    ensures PathIndex(p) == PathIndex(q) + Pow2(n) && PathIndex(q) < Pow2(n)
  {
    assert p == p[..n] + [p[n]] && q == q[..n] + [q[n]];
    PathIndexSnoc(p[..n], p[n]);
    PathIndexSnoc(q[..n], q[n]);
    SameTurnsSameIndex(p[..n], q[..n]);
    PathIndexBound(q[..n]);
  }

  /** Two 34-level proofs of one subtree that turn alike except under the root. */
  ghost predicate Antipodal(p: Proof, q: Proof) {
    && |p.l1| == |q.l1| == MAX_PACKED_L1 + 1 && p.subtreeRoot == q.subtreeRoot
    && SameTurns(p.l1[..MAX_PACKED_L1], q.l1[..MAX_PACKED_L1])
    && !p.l1[MAX_PACKED_L1].right && q.l1[MAX_PACKED_L1].right
  }

  lemma AntipodalIndices(p: Proof, q: Proof)
    requires Antipodal(p, q)
    ensures LeafIndexOf(p.l1) == LeafIndexOf(q.l1) + 0x2_0000_0000 && LeafIndexOf(q.l1) < 0x2_0000_0000
  {
    TopTurn(p.l1, q.l1, MAX_PACKED_L1);
    Shift40(0, 32);
    assert Pow2(33) == 2 * Pow2(32);
  }

  lemma AntipodalKeys(p: Proof, q: Proof, level: nat)
    requires Antipodal(p, q) && level <= MAX_PACKED_L1
    ensures KeyAt(p, level) != KeyAt(q, level)
  {
    var a, b, n := p.l1[level..], q.l1[level..], MAX_PACKED_L1 - level;
    assert a[..n] == p.l1[..MAX_PACKED_L1][level..] && b[..n] == q.l1[..MAX_PACKED_L1][level..];
    TopTurn(a, b, n);
  }

  /** The packed verifier after p alone. */
  lemma DeepFirst(sha: Sha256d, chain: HeaderChain, p: Proof, q: Proof) returns (st: PackedState)
    requires Antipodal(p, q) && Valid(sha, chain, p)
    ensures PackedStep(sha, p, PACKED_START, chain) == Passed(st)
    ensures p.subtreeRoot in st.subID && st.subID[p.subtreeRoot] == 0 && 0 in st.subOK
    ensures PackKey(0, 1, LeafIndexOf(q.l1) / 2) in st.memo
    ensures st.memo[PackKey(0, 1, LeafIndexOf(q.l1) / 2)] == Parent(sha, p.leaf, p.l1[0])
  {
    var parent, idx := Parent(sha, p.leaf, p.l1[0]), LeafIndexOf(p.l1);
    var x := PackKey(0, 1, idx / 2);
    AntipodalIndices(p, q);
    PackedIndexOverflows(0, 1, LeafIndexOf(q.l1) / 2);
    PackKeyValue(0, 1, LeafIndexOf(q.l1) / 2);
    assert idx / 2 == LeafIndexOf(q.l1) / 2 + 0x1_0000_0000;
    ClimbPackedFresh(sha, p.l1, 0, map[x := parent], 1, parent, idx / 2, 1, 0);
    st := PackedStep(sha, p, PACKED_START, chain).state;
  }

  /** With 34 levels the two verifiers part.  The packed one takes the two first nodes for one and
      the same, so q passes iff the nodes are equal, whatever its other siblings are; BatchVerify
      folds q to the root.  So the one accepts proofs that do not close and refuses proofs that do. */
  lemma DeepPathsConfused(sha: Sha256d, chain: HeaderChain, p: Proof, q: Proof)
    requires Antipodal(p, q) && Valid(sha, chain, p) && OnChain(chain, q.header)
    ensures Packed(sha, [p, q], chain).Passed? <==> Parent(sha, p.leaf, p.l1[0]) == Parent(sha, q.leaf, q.l1[0])
    ensures Batch(sha, [p, q], chain).Accepted? <==> L1Closes(sha, q)
  {
    var st := DeepFirst(sha, chain, p, q);
    assert [p, q][1..] == [q] && [q][1..] == [];
    assert PackedFrom(sha, [p, q], PACKED_START, chain) == PackedFrom(sha, [q], st, chain);
    assert PackedFrom(sha, [q], st, chain).Passed? <==> PackedStep(sha, q, st, chain).Passed?;
    forall l: nat | 0 < l < MAX_PACKED_L1 + 1 ensures KeyAt(p, l) != KeyAt(q, l) {
      AntipodalKeys(p, q, l);
    }
    NodesEnd(sha, p);
    NodesEnd(sha, q);
    PairIff(sha, chain, p, q, MAX_PACKED_L1 + 1);
  }

  /** A proof of `leaf` along `path`, in a block of one subtree. */
  function DeepProof(sha: Sha256d, leaf: Hash, path: seq<PathElem>): Proof {
    var root := Folded(sha, leaf, path);
    Proof(leaf, path, root, [], HeaderWith(root))
  }

  /** That proof, and after it the same leaf for the same root with (s, right) on top of the path. */
  function DeepPair(sha: Sha256d, leaf: Hash, path: seq<PathElem>, s: Hash): seq<Proof>
    requires |path| == MAX_PACKED_L1 + 1
  {
    var p := DeepProof(sha, leaf, path);
    [p, p.(l1 := path[..MAX_PACKED_L1] + [PathElem(s, true)])]
  }

  lemma DeepPairParts(sha: Sha256d, leaf: Hash, path: seq<PathElem>, s: Hash)
    requires |path| == MAX_PACKED_L1 + 1 && !path[MAX_PACKED_L1].right
    ensures Packed(sha, DeepPair(sha, leaf, path, s), NoChain).Passed?
    ensures Batch(sha, DeepPair(sha, leaf, path, s), NoChain).Accepted? <==>
              HashPair(sha, Folded(sha, leaf, path[..MAX_PACKED_L1]), s) == Folded(sha, leaf, path)
  {
    var p, q := DeepPair(sha, leaf, path, s)[0], DeepPair(sha, leaf, path, s)[1];
    var front, top := path[..MAX_PACKED_L1], [PathElem(s, true)];
    assert q.l1[..MAX_PACKED_L1] == front && q.l1[0] == p.l1[0];
    assert Folded(sha, p.subtreeRoot, []) == p.subtreeRoot;
    FoldedConcat(sha, leaf, front, top);
    assert top[1..] == [];
    DeepPathsConfused(sha, NoChain, p, q);
  }

  /** So 33 levels are sharp, for every hash function: whatever the 34-level path with a left
      sibling on top, of two batches that differ in one sibling the packed verifier passes both and
      BatchVerify rejects at least one, unless two preimages collide. */
  lemma DeepVerdictsDiffer(sha: Sha256d, leaf: Hash, path: seq<PathElem>, s: Hash, t: Hash)
    requires |path| == MAX_PACKED_L1 + 1 && !path[MAX_PACKED_L1].right && s != t
    ensures Packed(sha, DeepPair(sha, leaf, path, s), NoChain).Passed?
    ensures Packed(sha, DeepPair(sha, leaf, path, t), NoChain).Passed?
    ensures var node := Folded(sha, leaf, path[..MAX_PACKED_L1]);
            || Batch(sha, DeepPair(sha, leaf, path, s), NoChain).Rejected?
            || Batch(sha, DeepPair(sha, leaf, path, t), NoChain).Rejected?
            || CollisionIn(sha, {PairBytes(node, s), PairBytes(node, t)})
  {
    var node := Folded(sha, leaf, path[..MAX_PACKED_L1]);
    DeepPairParts(sha, leaf, path, s);
    DeepPairParts(sha, leaf, path, t);
    if PairBytes(node, s) == PairBytes(node, t) {
      StepBytesInjective(node, PathElem(s, true), node, PathElem(t, true));
    }
  }

  // ---------------------------------------------------------------- one subtree too many

  /** An id beyond 24 bits is shifted out. */
  lemma PackedIdOverflows(id: nat, over: nat, level: nat, index: nat)
    requires over == id + MAX_PACKED_IDS
    ensures PackKey(over, level, index) == PackKey(id, level, index)
  {
    var a := 0x100_0000_0000 * over;
    assert a == 0x100_0000_0000 * id + 0x1_0000_0000_0000_0000;
    assert Low64(a) == Low64(0x100_0000_0000 * id);
  }

  /** Valid proofs of different subtrees, each within the 33 levels. */
  ghost predicate Scattered(sha: Sha256d, chain: HeaderChain, ps: seq<Proof>) {
    && DistinctSubtrees(ps) && DigestOnly(sha, chain) && AllValid(sha, chain, ps)
    && forall i :: 0 <= i < |ps| ==> 0 < |ps[i].l1| <= MAX_PACKED_L1
  }

  /** The key under which the first proof recorded its first node. */
  function FirstKey(ps: seq<Proof>): nat
    requires ps != []
  {
    PackKey(0, 1, LeafIndexOf(ps[0].l1) / 2)
  }

  ghost predicate StackIds(ps: seq<Proof>, i: nat, subID: map<Hash, nat>) {
    |subID| == i <= |ps| && forall h :: h in subID ==> exists m: nat :: m < i && ps[m].subtreeRoot == h
  }

  ghost predicate StackMemo(sha: Sha256d, ps: seq<Proof>, i: nat, memo: PackedMemo) {
    && (forall x :: x in memo ==> x < 0x100_0000_0000 * i)
    && (i > 0 && ps != [] && ps[0].l1 != [] ==>
          FirstKey(ps) in memo && memo[FirstKey(ps)] == Parent(sha, ps[0].leaf, ps[0].l1[0]))
  }

  ghost predicate FoundOnChain(sha: Sha256d, chain: HeaderChain, hdrOK: set<Hash>) {
    forall d, h: Header :: d in hdrOK && sha(h.bytes) == d ==> OnChain(chain, h)
  }

  /** The state after i of them, i small enough for the key. */
  ghost predicate Stacked(sha: Sha256d, chain: HeaderChain, ps: seq<Proof>, i: nat, st: PackedState) {
    && StackIds(ps, i, st.subID) && StackMemo(sha, ps, i, st.memo)
    && (forall id :: id in st.subOK ==> id < i) && FoundOnChain(sha, chain, st.hdrOK)
  }

  lemma StackNames(ps: seq<Proof>, i: nat, subID: map<Hash, nat>)
    requires DistinctSubtrees(ps) && StackIds(ps, i, subID) && i < |ps|
    ensures ps[i].subtreeRoot !in subID && IdOf(subID, ps[i].subtreeRoot) == i
    ensures StackIds(ps, i + 1, Interned(subID, ps[i].subtreeRoot))
  {
    forall m: nat | m < i ensures ps[m].subtreeRoot != ps[i].subtreeRoot {
    }
  }

  lemma IndexSmall(p: Proof)
    requires |p.l1| <= MAX_PACKED_L1
    ensures LeafIndexOf(p.l1) < 0x2_0000_0000
  {
    PathIndexBound(p.l1);
    Pow2Monotone(|p.l1|, 33);
    Shift40(0, 32);
    assert Pow2(33) == 2 * Pow2(32);
  }

  lemma StackClimb(sha: Sha256d, chain: HeaderChain, ps: seq<Proof>, i: nat, st: PackedState) returns (c: PackedClimb)
    requires Scattered(sha, chain, ps) && StackMemo(sha, ps, i, st.memo) && i < |ps| && i < MAX_PACKED_IDS
    ensures c == ClimbPacked(sha, ps[i].l1, i, st.memo, 0, ps[i].leaf, LeafIndexOf(ps[i].l1), st.hashes)
    ensures c.stop == RanOut && c.node == ps[i].subtreeRoot && StackMemo(sha, ps, i + 1, c.memo)
  {
    var p, idx := ps[i], LeafIndexOf(ps[i].l1);
    var x, parent := PackKey(i, 1, idx / 2), Parent(sha, p.leaf, p.l1[0]);
    IndexSmall(p);
    PackKeyValue(i, 1, idx / 2);
    assert p.l1[0..] == p.l1;
    ClimbPackedFresh(sha, p.l1, i, st.memo[x := parent], 1, parent, idx / 2, st.hashes + 1, 0x100_0000_0000 * i);
    c := ClimbPacked(sha, p.l1, i, st.memo, 0, p.leaf, idx, st.hashes);
  }

  /** A valid proof with a new id passes the checks above its root. */
  lemma StackCheck(sha: Sha256d, chain: HeaderChain, p: Proof, id: nat, st: PackedState)
    requires Valid(sha, chain, p) && DigestOnly(sha, chain) && id !in st.subOK && FoundOnChain(sha, chain, st.hdrOK)
    ensures var r := CheckPacked(sha, p, id, st, chain);
            && r.Passed? && r.state.memo == st.memo && r.state.subID == st.subID
            && r.state.subOK == st.subOK + {id} && FoundOnChain(sha, chain, r.state.hdrOK)
  {
  }

  lemma StackStep(sha: Sha256d, chain: HeaderChain, ps: seq<Proof>, i: nat, st: PackedState)
    requires Scattered(sha, chain, ps) && Stacked(sha, chain, ps, i, st) && i < |ps| && i < MAX_PACKED_IDS
    ensures var r := PackedStep(sha, ps[i], st, chain); r.Passed? && Stacked(sha, chain, ps, i + 1, r.state)
  {
    var c := StackClimb(sha, chain, ps, i, st);
    StackNames(ps, i, st.subID);
    StackCheck(sha, chain, ps[i], i,
               PackedState(c.memo, Interned(st.subID, ps[i].subtreeRoot), st.subOK, st.hdrOK, c.hashes));
  }

  lemma {:induction false} StackFrom(sha: Sha256d, chain: HeaderChain, ps: seq<Proof>, i: nat, n: nat, st: PackedState,
                                     later: seq<Proof>)
    returns (full: PackedState)
    requires Scattered(sha, chain, ps) && Stacked(sha, chain, ps, i, st) && i <= n <= |ps| && n <= MAX_PACKED_IDS
    requires later == ps[i..]
    ensures Stacked(sha, chain, ps, n, full)
    ensures PackedFrom(sha, later, st, chain) == PackedFrom(sha, ps[n..], full, chain)
    decreases n - i
  {
    if i == n {
      full := st;
    } else {
      assert later[0] == ps[i] && later[1..] == ps[i + 1..];
      StackStep(sha, chain, ps, i, st);
      full := StackFrom(sha, chain, ps, i + 1, n, PackedStep(sha, ps[i], st, chain).state, later[1..]);
    }
  }

  lemma KnownAtOnce(sha: Sha256d, p: Proof, id: nat, memo: PackedMemo, idx: nat, half: nat, x: nat, hashes: nat)
    requires p.l1 != [] && half == idx / 2 && x == PackKey(id, 1, half) && x in memo
    ensures ClimbPacked(sha, p.l1, id, memo, 0, p.leaf, idx, hashes)
         == PackedClimb(if memo[x] == Parent(sha, p.leaf, p.l1[0]) then MetKnown else Clashed, memo, p.leaf, hashes + 1)
  {
  }

  lemma FirstKeyAgain(ps: seq<Proof>, id: nat, half: nat)
    requires ps != [] && id == MAX_PACKED_IDS && half == LeafIndexOf(ps[0].l1) / 2
    ensures PackKey(id, 1, half) == FirstKey(ps)
  {
    PackedIdOverflows(0, id, 1, half);
  }

  lemma StackLast(sha: Sha256d, chain: HeaderChain, ps: seq<Proof>, id: nat, last: Proof, st: PackedState, half: nat)
    requires Scattered(sha, chain, ps) && Stacked(sha, chain, ps, id, st) && |ps| == id + 1 && id > 0
    requires last == ps[id] && half == LeafIndexOf(last.l1) / 2 && PackKey(id, 1, half) == FirstKey(ps)
    ensures PackedStep(sha, last, st, chain).Passed? <==>
              Parent(sha, ps[0].leaf, ps[0].l1[0]) == Parent(sha, last.leaf, last.l1[0])
  {
    StackNames(ps, id, st.subID);
    KnownAtOnce(sha, last, id, st.memo, LeafIndexOf(last.l1), half, FirstKey(ps), st.hashes);
    var next := PackedState(st.memo, Interned(st.subID, last.subtreeRoot), st.subOK, st.hdrOK, st.hashes + 1);
    StackCheck(sha, chain, last, id, next);
  }

  /** With 2^24 + 1 subtrees the two verifiers part as well: BatchVerify accepts all valid proofs of
      different subtrees, the packed one takes the last one's first node for the first one's if
      their positions are equal, and passes it only if the nodes are. */
  lemma ManySubtreesConfused(sha: Sha256d, chain: HeaderChain, ps: seq<Proof>)
    requires Scattered(sha, chain, ps) && |ps| == MAX_PACKED_IDS + 1
    requires LeafIndexOf(ps[MAX_PACKED_IDS].l1) / 2 == LeafIndexOf(ps[0].l1) / 2
    ensures Batch(sha, ps, chain).Accepted?
    ensures Packed(sha, ps, chain).Passed? <==>
              Parent(sha, ps[0].leaf, ps[0].l1[0]) == Parent(sha, ps[MAX_PACKED_IDS].leaf, ps[MAX_PACKED_IDS].l1[0])
  {
    var last := ps[MAX_PACKED_IDS];
    BatchExactOnDistinctSubtrees(sha, chain, ps);
    assert ps[0..] == ps && ps[MAX_PACKED_IDS..] == [last] && [last][1..] == [];
    var st := StackFrom(sha, chain, ps, 0, MAX_PACKED_IDS, PACKED_START, ps);
    FirstKeyAgain(ps, MAX_PACKED_IDS, LeafIndexOf(last.l1) / 2);
    StackLast(sha, chain, ps, MAX_PACKED_IDS, last, st, LeafIndexOf(last.l1) / 2);
    OneMore(sha, chain, last, st);
  }

  lemma OneMore(sha: Sha256d, chain: HeaderChain, p: Proof, st: PackedState)
    ensures PackedFrom(sha, [p], st, chain) == PackedStep(sha, p, st, chain)
  {
    assert [p][1..] == [];
  }

  /** A subtree of one leaf and its duplicate, alone in its block. */
  function TwinProof(sha: Sha256d, x: Hash): Proof { DeepProof(sha, x, [PathElem(x, true)]) }

  function Twins(sha: Sha256d, xs: seq<Hash>): (ps: seq<Proof>)
    ensures |ps| == |xs|
  {
    seq(|xs|, i requires 0 <= i < |xs| => TwinProof(sha, xs[i]))
  }

  lemma TwinValid(sha: Sha256d, x: Hash)
    ensures Valid(sha, NoChain, TwinProof(sha, x)) && TwinProof(sha, x).subtreeRoot == HashPair(sha, x, x)
    ensures LeafIndexOf(TwinProof(sha, x).l1) == 0
  {
    var p := TwinProof(sha, x);
    assert p.l1[1..] == [] && Folded(sha, p.subtreeRoot, []) == p.subtreeRoot;
    assert Folded(sha, x, p.l1) == Folded(sha, Parent(sha, x, p.l1[0]), []);
    assert PathIndex(p.l1) == 2 * PathIndex([]);
  }

  /** So 2^24 subtrees are sharp: any 2^24 + 1 leaves whose pairs with themselves have distinct
      hashes make a batch that BatchVerify accepts and the packed verifier refuses. */
  lemma ManyVerdictsDiffer(sha: Sha256d, xs: seq<Hash>)
    requires |xs| == MAX_PACKED_IDS + 1
    requires forall m, i :: 0 <= m < i < |xs| ==> HashPair(sha, xs[m], xs[m]) != HashPair(sha, xs[i], xs[i])
    ensures Batch(sha, Twins(sha, xs), NoChain).Accepted? && Packed(sha, Twins(sha, xs), NoChain).Refused?
  {
    var ps := Twins(sha, xs);
    forall i | 0 <= i < |ps| ensures Valid(sha, NoChain, ps[i]) && ps[i].subtreeRoot == HashPair(sha, xs[i], xs[i])
      && LeafIndexOf(ps[i].l1) == 0
    {
      TwinValid(sha, xs[i]);
    }
    ManySubtreesConfused(sha, NoChain, ps);
  }
}
