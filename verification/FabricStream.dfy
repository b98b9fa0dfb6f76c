/** fabric/stream.go: the verifier that decodes and verifies a batch in one pass over its wire
    bytes.  Its loops are proved to compute, for all bytes, a function of the bytes (`StreamedWire`)
    that is the packed batch verifier of PackedBatch on the proofs they parse into; so within the
    ranges of the packed key it agrees with decoding first and running BatchVerify. */
module FabricStream {
  import opened Commitment
  import opened Positions
  import opened Fabric
  import opened FabricCost
  import opened Bytes
  import opened FabricCodec
  import opened PackedBatch

  const WIRE_L1_LIMIT := 64        // len(sibs)
  const WIRE_L2_LIMIT := 0xffff    // whatever a u16 can say

  /** The locals that intern subtree roots: the next free id and the previous proof's root. */
  datatype Cursor = Cursor(nextID: nat, last: Option<(Hash, nat)>)

  ghost predicate CursorOK(cursor: Cursor, subID: map<Hash, nat>) {
    && cursor.nextID == |subID|
    && (cursor.last.Some? ==> cursor.last.value.0 in subID && subID[cursor.last.value.0] == cursor.last.value.1)
  }

  /** The fixed part of a proof, as read into locals and the two stack arrays. */
  datatype Head = Head(leaf: Hash, n1: nat, index: nat, root: Hash, end: nat)

  /** The arrays hold the path `p`; what lies behind it is left over from earlier proofs. */
  ghost predicate Holds(sibs: array<Hash>, rights: array<bool>, p: seq<PathElem>)
    reads sibs, rights
  {
    && sibs.Length == rights.Length == WIRE_L1_LIMIT && |p| <= WIRE_L1_LIMIT
    && forall j :: 0 <= j < |p| ==> p[j] == PathElem(sibs[j], rights[j])
  }

  function HeadOf(p: Proof, end: nat): Head { Head(p.leaf, |p.l1|, LeafIndexOf(p.l1), p.subtreeRoot, end) }

  /** One more element read. */
  lemma IndexSnoc(b: seq<byte>, o: nat, j: nat)
    requires o == 34 + 33 * j && o + 33 <= |b|
    ensures PathIndex(ElemsAt(b, 34, j + 1)) == PathIndex(ElemsAt(b, 34, j)) + if b[o] == 1 then 0 else Pow2(j)
  {
    assert ElemsAt(b, 34, j + 1) == ElemsAt(b, 34, j) + [ElemAt(b, o)];
    PathIndexSnoc(ElemsAt(b, 34, j), ElemAt(b, o));
  }

  class Verifier {
    var memo: map<nat, Hash>        // packed position -> node
    var subID: map<Hash, nat>       // subtree root -> its id
    var subOK: set<nat>             // ids of subtrees with a closed L2 path
    var hdrOK: set<Hash>            // digests of headers found on the chain

    constructor () {
      memo, subID, subOK, hdrOK := map[], map[], {}, {};
    }

    /** The maps, and the hashes counted so far, as a state of the packed verifier. */
    ghost function View(hashes: nat): PackedState
      reads this
    {
      PackedState(memo, subID, subOK, hdrOK, hashes)
    }

    method Reset()
      modifies this
      ensures View(0) == PACKED_START
    {
      memo, subID, subOK, hdrOK := map[], map[], {}, {};
    }

    /** Leaf, L1 path and subtree root of a proof; the path goes into the arrays. */
    method ReadHead(b: seq<byte>, sibs: array<Hash>, rights: array<bool>) returns (r: Option<Head>)
      requires sibs.Length == rights.Length == WIRE_L1_LIMIT
      modifies sibs, rights
      ensures if |b| < 32 || ReadPath(b, 32, WIRE_L1_LIMIT).None? then r.None? else
              var (l1, o) := ReadPath(b, 32, WIRE_L1_LIMIT).value;
              if o + 32 > |b| then r.None? else
              r == Some(Head(HashAt(b, 0), |l1|, LeafIndexOf(l1), HashAt(b, o), o + 32)) && Holds(sibs, rights, l1)
    {
      if 32 > |b| {
        return None;
      }
      var cur := HashAt(b, 0);
      var o := 32;
      if o + 2 > |b| {
        return None;
      }
      var n1 := UIntAt(b, o, 2);
      o := o + 2;
      if n1 > sibs.Length {
        return None;
      }
      var idx, end := ReadL1(b, n1, sibs, rights);
      if end.None? || end.value + 32 > |b| {
        return None;
      }
      o := end.value;
      return Some(Head(cur, n1, idx, HashAt(b, o), o + 32));
    }

    /** The n1 elements of the L1 path, which begin at byte 34, and the turns as an index. */
    method ReadL1(b: seq<byte>, n1: nat, sibs: array<Hash>, rights: array<bool>) returns (idx: nat, end: Option<nat>)
      requires sibs.Length == rights.Length >= n1 && 34 <= |b|
      modifies sibs, rights
      ensures end == if 34 + 33 * n1 > |b| then None else Some(34 + 33 * n1)
      ensures end.Some? ==> idx == PathIndex(ElemsAt(b, 34, n1))
                            && forall i :: 0 <= i < n1 ==> ElemAt(b, 34 + 33 * i) == PathElem(sibs[i], rights[i])
    {
      var o := 34;
      idx := 0;
      for j := 0 to n1
        invariant o == 34 + 33 * j <= |b|
        invariant forall i :: 0 <= i < j ==> ElemAt(b, 34 + 33 * i) == PathElem(sibs[i], rights[i])
        invariant idx == PathIndex(ElemsAt(b, 34, j))
      {
        if o + 33 > |b| {
          return idx, None;
        }
        rights[j] := b[o] == 1;
        sibs[j] := HashAt(b, o + 1);
        IndexSnoc(b, o, j);
        o := o + 33;
        if !rights[j] {
          idx := idx + Pow2(j);   // idx |= 1 << j, bit j still clear
        }
      }
      end := Some(o);
    }

    /** The id of a subtree root: the previous proof's, a known one, or the next free one. */
    method Intern(root: Hash, cursor: Cursor) returns (id: nat, next: Cursor)
      requires CursorOK(cursor, subID)
      modifies this`subID
      ensures id == IdOf(old(subID), root) && subID == Interned(old(subID), root)
      ensures CursorOK(next, subID)
    {
      next := cursor;
      if cursor.last.Some? && root == cursor.last.value.0 {
        id := cursor.last.value.1;
      } else {
        if root in subID {
          id := subID[root];
        } else {
          id := cursor.nextID;
          next := next.(nextID := cursor.nextID + 1);
          subID := subID[root := id];
        }
        next := next.(last := Some((root, id)));
      }
    }

    /** The L1 fold with the packed memo. */
    method FoldL1(sha: Sha256d, id: nat, head: Head, sibs: array<Hash>, rights: array<bool>, done: nat,
                  ghost path: seq<PathElem>)
      returns (stop: Stop, cur: Hash, hashes: nat)
      requires Holds(sibs, rights, path) && head.n1 == |path|
      modifies this`memo
      ensures PackedClimb(stop, memo, cur, hashes)
           == ClimbPacked(sha, path, id, old(memo), 0, head.leaf, head.index, done)
    {
      cur, hashes := head.leaf, done;
      var idx := head.index;
      for j := 0 to head.n1
        invariant ClimbPacked(sha, path, id, memo, j, cur, idx, hashes)
               == ClimbPacked(sha, path, id, old(memo), 0, head.leaf, head.index, done)
      {
        var parent;
        if rights[j] {
          parent := HashPair(sha, cur, sibs[j]);
        } else {
          parent := HashPair(sha, sibs[j], cur);
        }
        hashes := hashes + 1;
        var pidx := idx / 2;
        var key := PackKey(id, j + 1, pidx);
        if key in memo {
          if memo[key] != parent {
            return Clashed, cur, hashes;
          }
          return MetKnown, cur, hashes;
        }
        memo := memo[key := parent];
        cur := parent;
        idx := pidx;
      }
      stop := RanOut;
    }

    /** The L2 fold straight from the bytes. */
    method FoldL2(sha: Sha256d, root: Hash, b: seq<byte>, start: nat, n2: nat, done: nat)
      returns (node: Hash, hashes: nat)
      requires start + 33 * n2 <= |b|
      ensures node == Folded(sha, root, ElemsAt(b, start, n2)) && hashes == done + n2
    {
      node, hashes := root, done;
      ghost var path := ElemsAt(b, start, n2);
      for j := 0 to n2
        invariant Folded(sha, root, path) == Folded(sha, node, path[j..]) && hashes == done + j
      {
        var at := start + 33 * j;
        var right, sib := b[at] == 1, HashAt(b, at + 1);
        NextElem(b, start, n2, path, j, at);
        if right {
          node := HashPair(sha, node, sib);
        } else {
          node := HashPair(sha, sib, node);
        }
        hashes := hashes + 1;
      }
    }

    /** The L2 path and the header that follow the subtree root at offset `o`. */
    method Finish(sha: Sha256d, chain: HeaderChain, b: seq<byte>, o: nat, id: nat, root: Hash, done: nat,
                  ghost p: Proof)
      returns (ok: bool, hashes: nat)
      requires o <= |b|
      modifies this`subOK, this`hdrOK
      ensures !HasTail(b, o) ==> !ok && hashes == done
      ensures TailAt(b, o, p) && root == p.subtreeRoot ==>
                match CheckPacked(sha, p, id, old(View(done)), chain)
                case Refused(n) => !ok && hashes == n
                case Passed(next) => ok && View(hashes) == next
    {
      hashes := done;
      if o + 2 > |b| {
        return false, hashes;
      }
      var n2 := UIntAt(b, o, 2);
      LEOfUnLE(b[o..o + 2]);
      Widths();
      var end := o + 2 + 33 * n2;
      if end + 80 > |b| {
        return false, hashes;
      }
      var header := HeaderAt(b, end);
      if id !in subOK {
        var node;
        node, hashes := FoldL2(sha, root, b, o + 2, n2, hashes);
        if node != HeaderMerkleRoot(header) {
          return false, hashes;
        }
        subOK := subOK + {id};
      }
      var digest := sha(header.bytes);
      if digest !in hdrOK {
        if chain.Chain? && !chain.contains(header) {
          return false, hashes;
        }
        hdrOK := hdrOK + {digest};
      }
      ok := true;
      assert old(subOK) + {id} == subOK && old(hdrOK) + {digest} == hdrOK;
    }

    /** What a step on proof p leaves behind. */
    ghost predicate Took(r: PackedOutcome, ok: bool, hashes: nat)
      reads this
    {
      match r
      case Refused(n) => !ok && hashes == n
      case Passed(next) => ok && View(hashes) == next
    }

    /** One proof: the body of VerifyWire's loop behind the length prefix. */
    method VerifyPayload(sha: Sha256d, chain: HeaderChain, b: seq<byte>, cursor: Cursor, sibs: array<Hash>,
                         rights: array<bool>, done: nat)
      returns (ok: bool, hashes: nat, next: Cursor)
      requires sibs.Length == rights.Length == WIRE_L1_LIMIT && CursorOK(cursor, subID)
      modifies this, sibs, rights
      ensures CursorOK(next, subID)
      ensures match ReadProof(b, WIRE_L1_LIMIT, WIRE_L2_LIMIT)
              case None => !ok && hashes == UnreadHashes(sha, b, old(View(done)))
              case Some(p) => Took(PackedStep(sha, p, old(View(done)), chain), ok, hashes)
    {
      var head := ReadHead(b, sibs, rights);
      if head.None? {
        return false, done, cursor;
      }
      ghost var path := ReadPath(b, 32, WIRE_L1_LIMIT).value.0;
      var id;
      id, next := Intern(head.value.root, cursor);
      ghost var p := SomeProof(b);
      ok, hashes := FoldAndFinish(sha, chain, b, id, head.value, sibs, rights, done, path, p);
    }

    /** The two folds and the checks, once the proof's root has its id. */
    method FoldAndFinish(sha: Sha256d, chain: HeaderChain, b: seq<byte>, id: nat, head: Head, sibs: array<Hash>,
                         rights: array<bool>, done: nat, ghost path: seq<PathElem>, ghost p: Proof)
      returns (ok: bool, hashes: nat)
      requires Holds(sibs, rights, path) && head.n1 == |path| && head.end <= |b|
      modifies this`memo, this`subOK, this`hdrOK
      ensures !HasTail(b, head.end) ==>
                !ok && hashes == ClimbPacked(sha, path, id, old(memo), 0, head.leaf, head.index, done).hashes
      ensures path == p.l1 && head == HeadOf(p, head.end) && TailAt(b, head.end, p) ==>
                Took(PackedRest(sha, p, id, old(View(done)), chain), ok, hashes)
    {
      var stop, cur;
      stop, cur, hashes := FoldL1(sha, id, head, sibs, rights, done, path);
      if stop == Clashed || (stop == RanOut && cur != head.root) {
        return false, hashes;
      }
      ok, hashes := Finish(sha, chain, b, head.end, id, head.root, hashes, p);
    }

    /** The next length-prefixed payload and the offset behind it. */
    method NextPayload(wire: seq<byte>, off: nat, ghost inner: seq<byte> -> Option<Proof>)
      returns (r: Option<(seq<byte>, nat)>)
      ensures r.Some? ==> r.value.1 <= |wire|
      ensures r == PayloadAt(wire, off)
      ensures ReadFramed(inner, wire, off) ==
                if r.None? then None
                else match inner(r.value.0) case None => None case Some(x) => Some((x, r.value.1))
    {
      if off + 4 > |wire| {
        return None;
      }
      var plen := UIntAt(wire, off, 4);
      if off + 4 + plen > |wire| {
        return None;
      }
      r := Some((wire[off + 4..off + 4 + plen], off + 4 + plen));
    }

    /** One length-prefixed proof: the body of VerifyWire's loop. */
    method VerifyFrame(sha: Sha256d, chain: HeaderChain, wire: seq<byte>, off: nat, cursor: Cursor, sibs: array<Hash>,
                       rights: array<bool>, done: nat)
      returns (ok: bool, hashes: nat, end: nat, next: Cursor)
      requires sibs.Length == rights.Length == WIRE_L1_LIMIT && CursorOK(cursor, subID)
      modifies this, sibs, rights
      ensures CursorOK(next, subID)
      ensures match WireFrame(wire, off)
              case None => !ok && hashes == StuckHashes(sha, wire, off, old(View(done)))
              case Some((p, o)) => Took(PackedStep(sha, p, old(View(done)), chain), ok, hashes) && (ok ==> end == o)
    {
      var payload := NextPayload(wire, off, ProofReader(WIRE_L1_LIMIT, WIRE_L2_LIMIT));
      if payload.None? {
        return false, done, off, cursor;
      }
      end := payload.value.1;
      ok, hashes, next := VerifyPayload(sha, chain, payload.value.0, cursor, sibs, rights, done);
    }

    /** VerifyWire's loop over n proofs. */
    method VerifyFrames(sha: Sha256d, chain: HeaderChain, wire: seq<byte>, n: nat, sibs: array<Hash>,
                        rights: array<bool>)
      returns (ok: bool, hashes: nat, nproofs: nat)
      requires sibs.Length == rights.Length == WIRE_L1_LIMIT && View(0) == PACKED_START
      modifies this, sibs, rights
      ensures Report(ok, hashes, nproofs) == Streamed(StreamingOf(sha, chain, wire), wire, 4, n, PACKED_START, 0)
    {
      var off: nat, cursor := 4, Cursor(0, None);
      hashes := 0;
      ghost var left: nat, s := n, StreamingOf(sha, chain, wire);
      for i := 0 to n
        invariant left == n - i && CursorOK(cursor, subID)
        invariant Streamed(s, wire, off, left, View(hashes), i) == Streamed(s, wire, 4, n, PACKED_START, 0)
      {
        ghost var fewer: nat, before, at := left - 1, View(hashes), off;
        ok, hashes, off, cursor := VerifyFrame(sha, chain, wire, off, cursor, sibs, rights, hashes);
        StreamedStep(s, wire, at, left, fewer, before, i);
        if !ok {
          return false, hashes, i;
        }
        left := fewer;
      }
      return true, hashes, n;
    }

    method VerifyWire(sha: Sha256d, wire: seq<byte>, chain: HeaderChain) returns (ok: bool, hashes: nat, nproofs: nat)
      modifies this
      ensures Report(ok, hashes, nproofs) == StreamedWire(sha, chain, wire)
      ensures ReportsOn(sha, chain, ReadBatch(wire, WIRE_L1_LIMIT, WIRE_L2_LIMIT), Report(ok, hashes, nproofs))
      ensures CountsInRange(wire) ==>
                match Decoded(wire)
                case Err => !ok
                case Ok(ps) => Reports(Batch(sha, ps, chain), ok, hashes) && (ok ==> nproofs == |ps|)
    {
      Reset();
      StreamedIsPacked(sha, chain, wire);
      if |wire| < 4 {
        return false, 0, 0;
      }
      var n := UIntAt(wire, 0, 4);
      var sibs := new Hash[WIRE_L1_LIMIT];
      var rights := new bool[WIRE_L1_LIMIT];
      ok, hashes, nproofs := VerifyFrames(sha, chain, wire, n, sibs, rights);
      if CountsInRange(wire) {
        LimitsAgree(wire);
        ghost var full := ReadBatch(wire, WIRE_L1_LIMIT, WIRE_L2_LIMIT);
        if full.Some? {
          PackedRefines(sha, full.value.0, chain, ok, hashes);
        }
      }
    }
  }

  /** The proof that the bytes parse into, or any other. */
  ghost function SomeProof(b: seq<byte>): Proof {
    var r := ReadProof(b, WIRE_L1_LIMIT, WIRE_L2_LIMIT);
    if r.Some? then r.value else Proof(ZeroHash(), [], ZeroHash(), [], Header(seq(80, _ => 0)))
  }

  lemma NextElem(b: seq<byte>, start: nat, n: nat, path: seq<PathElem>, j: nat, at: nat)
    requires start + 33 * n <= |b| && path == ElemsAt(b, start, n) && j < n && at == start + 33 * j
    ensures path[j..][0] == ElemAt(b, at) && path[j..][1..] == path[j + 1..]
  {
  }

  function WireFrame(wire: seq<byte>, off: nat): Option<(Proof, nat)> {
    FrameReader(WIRE_L1_LIMIT, WIRE_L2_LIMIT)(wire, off)
  }

  function PayloadAt(wire: seq<byte>, off: nat): Option<(seq<byte>, nat)> {
    if off + 4 > |wire| then None
    else
      var end := off + 4 + UIntAt(wire, off, 4);
      if end > |wire| then None else Some((wire[off + 4..end], end))
  }

  /** The hash count at a payload that holds no proof: that of the climb, if it could begin. */
  function UnreadHashes(sha: Sha256d, b: seq<byte>, st: PackedState): nat {
    if |b| < 32 || ReadPath(b, 32, WIRE_L1_LIMIT).None? then st.hashes
    else
      var (l1, o) := ReadPath(b, 32, WIRE_L1_LIMIT).value;
      if o + 32 > |b| then st.hashes
      else ClimbPacked(sha, l1, IdOf(st.subID, HashAt(b, o)), st.memo, 0, HashAt(b, 0), LeafIndexOf(l1),
                       st.hashes).hashes
  }

  function StuckHashes(sha: Sha256d, wire: seq<byte>, off: nat, st: PackedState): nat {
    match PayloadAt(wire, off)
    case None => st.hashes
    case Some((b, _)) => UnreadHashes(sha, b, st)
  }

  /** What VerifyWire returns. */
  datatype Report = Report(ok: bool, hashes: nat, nproofs: nat)

  function Stuck(sha: Sha256d, wire: seq<byte>): (nat, PackedState) -> nat {
    (off: nat, st: PackedState) => StuckHashes(sha, wire, off, st)
  }

  type Stepper = (Proof, PackedState) -> PackedOutcome

  function Stepping(sha: Sha256d, chain: HeaderChain): Stepper {
    (p: Proof, st: PackedState) => PackedStep(sha, p, st, chain)
  }

  /** How a verifier reads, steps, and counts where it cannot read. */
  datatype Streaming = Streaming(read: Reader<Proof>, step: Stepper, stuck: (nat, PackedState) -> nat)

  function StreamingOf(sha: Sha256d, chain: HeaderChain, wire: seq<byte>): Streaming {
    Streaming(FrameReader(WIRE_L1_LIMIT, WIRE_L2_LIMIT), Stepping(sha, chain), Stuck(sha, wire))
  }

  /** The report on n proofs from `off`, `done` of them behind it: step by step, up to the first proof
      that is refused or cannot be read. */
  function Streamed(s: Streaming, wire: seq<byte>, off: nat, n: nat, st: PackedState, done: nat): Report
    decreases n
  {
    if n == 0 then Report(true, st.hashes, done)
    else
      match s.read(wire, off)
      case None => Report(false, s.stuck(off, st), done)
      case Some((p, o)) =>
        match s.step(p, st)
        case Refused(hashes) => Report(false, hashes, done)
        case Passed(next) => Streamed(s, wire, o, n - 1, next, done + 1)
  }

  function StreamedWire(sha: Sha256d, chain: HeaderChain, wire: seq<byte>): Report {
    if |wire| < 4 then Report(false, 0, 0)
    else Streamed(StreamingOf(sha, chain, wire), wire, 4, UIntAt(wire, 0, 4), PACKED_START, 0)
  }

  lemma StreamedStep(s: Streaming, wire: seq<byte>, off: nat, n: nat, fewer: nat, st: PackedState, done: nat)
    requires n == fewer + 1
    ensures Streamed(s, wire, off, n, st, done)
         == match s.read(wire, off)
            case None => Report(false, s.stuck(off, st), done)
            case Some((p, o)) =>
              match s.step(p, st)
              case Refused(hashes) => Report(false, hashes, done)
              case Passed(next) => Streamed(s, wire, o, fewer, next, done + 1)
  {
  }

  /** The report on proofs that have all been read. */
  function Stepped(step: Stepper, ps: seq<Proof>, st: PackedState, done: nat): Report
    decreases |ps|
  {
    if ps == [] then Report(true, st.hashes, done)
    else
      match step(ps[0], st)
      case Refused(hashes) => Report(false, hashes, done)
      case Passed(next) => Stepped(step, ps[1..], next, done + 1)
  }

  /** Reading and verifying in one pass is reading first and then verifying; what cannot be read is
      rejected. */
  lemma {:induction false} StreamedFrom(s: Streaming, wire: seq<byte>, off: nat, n: nat, st: PackedState, done: nat)
    ensures var r := Streamed(s, wire, off, n, st, done);
            var parsed := ReadMany(s.read, wire, off, n);
            if parsed.None? then !r.ok else r == Stepped(s.step, parsed.value.0, st, done)
    decreases n
  {
    if n > 0 && s.read(wire, off).Some? {
      var (p, o) := s.read(wire, off).value;
      var rest := ReadMany(s.read, wire, o, n - 1);
      if s.step(p, st).Passed? {
        StreamedFrom(s, wire, o, n - 1, s.step(p, st).state, done + 1);
      }
      if rest.Some? {
        assert ([p] + rest.value.0)[1..] == rest.value.0;
      }
    }
  }

  lemma {:induction false} SteppedVerdict(sha: Sha256d, chain: HeaderChain, ps: seq<Proof>, st: PackedState, done: nat)
    ensures var r := Stepped(Stepping(sha, chain), ps, st, done);
            PackedReports(PackedFrom(sha, ps, st, chain), r.ok, r.hashes)
    decreases |ps|
  {
    if ps != [] {
      var step := PackedStep(sha, ps[0], st, chain);
      if step.Passed? {
        SteppedVerdict(sha, chain, ps[1..], step.state, done + 1);
      }
    }
  }

  lemma {:induction false} SteppedAll(step: Stepper, ps: seq<Proof>, st: PackedState, done: nat)
    ensures var r := Stepped(step, ps, st, done);
            done <= r.nproofs <= done + |ps| && (r.ok <==> r.nproofs == done + |ps|)
    decreases |ps|
  {
    if ps != [] && step(ps[0], st).Passed? {
      SteppedAll(step, ps[1..], step(ps[0], st).state, done + 1);
    }
  }

  /** r is a rejection, if nothing was parsed, or else what the packed verifier says of the proofs. */
  ghost predicate ReportsOn(sha: Sha256d, chain: HeaderChain, parsed: Option<(seq<Proof>, nat)>, r: Report) {
    if parsed.None? then !r.ok
    else
      && PackedReports(Packed(sha, parsed.value.0, chain), r.ok, r.hashes)
      && r == Stepped(Stepping(sha, chain), parsed.value.0, PACKED_START, 0)
      && (r.ok <==> r.nproofs == |parsed.value.0|)
  }

  lemma StreamedIsPacked(sha: Sha256d, chain: HeaderChain, wire: seq<byte>)
    ensures ReportsOn(sha, chain, ReadBatch(wire, WIRE_L1_LIMIT, WIRE_L2_LIMIT), StreamedWire(sha, chain, wire))
  {
    if |wire| >= 4 {
      StreamedFrom(StreamingOf(sha, chain, wire), wire, 4, UIntAt(wire, 0, 4), PACKED_START, 0);
      var parsed := ReadBatch(wire, WIRE_L1_LIMIT, WIRE_L2_LIMIT);
      if parsed.Some? {
        SteppedVerdict(sha, chain, parsed.value.0, PACKED_START, 0);
        SteppedAll(Stepping(sha, chain), parsed.value.0, PACKED_START, 0);
      }
    }
  }

  /** An L2 path and a header can be read at offset `o`. */
  predicate HasTail(b: seq<byte>, o: nat) {
    var r := ReadPath(b, o, WIRE_L2_LIMIT);
    r.Some? && r.value.1 + 80 <= |b|
  }

  predicate TailAt(b: seq<byte>, o: nat, p: Proof) {
    HasTail(b, o) &&
    var (l2, end) := ReadPath(b, o, WIRE_L2_LIMIT).value;
    p.l2 == l2 && p.header == HeaderAt(b, end)
  }

  // ---------------------------------------------------------------- agreement with decode-then-verify

  ghost predicate L2Decodable(ps: seq<Proof>) { forall p :: p in ps ==> |p.l2| <= DECODE_LIMIT }

  /** Every path count either verifier would accept lies where both accept it. */
  ghost predicate CountsInRange(wire: seq<byte>) {
    var streamed := ReadBatch(wire, WIRE_L1_LIMIT, WIRE_L2_LIMIT);
    && (streamed.Some? ==> Streamable(streamed.value.0) && L2Decodable(streamed.value.0))
    && (Decoded(wire).Ok? ==> Streamable(Decoded(wire).value))
  }

  lemma ReadProofLimits(b: seq<byte>, a1: nat, a2: nat, c1: nat, c2: nat)
    requires ReadProof(b, a1, a2).Some?
    requires |ReadProof(b, a1, a2).value.l1| <= c1 && |ReadProof(b, a1, a2).value.l2| <= c2
    ensures ReadProof(b, c1, c2) == ReadProof(b, a1, a2)
  {
  }

  lemma FrameLimits(w: seq<byte>, o: nat, a1: nat, a2: nat, c1: nat, c2: nat)
    requires FrameReader(a1, a2)(w, o).Some?
    requires var p := FrameReader(a1, a2)(w, o).value.0; |p.l1| <= c1 && |p.l2| <= c2
    ensures FrameReader(c1, c2)(w, o) == FrameReader(a1, a2)(w, o)
  {
    ReadProofLimits(w[o + 4..o + 4 + UIntAt(w, o, 4)], a1, a2, c1, c2);
  }

  ghost predicate AllWithin(ps: seq<Proof>, c1: nat, c2: nat) { forall p :: p in ps ==> |p.l1| <= c1 && |p.l2| <= c2 }

  lemma {:induction false} ReadManyLimits(w: seq<byte>, o: nat, n: nat, a1: nat, a2: nat, c1: nat, c2: nat)
    requires ReadMany(FrameReader(a1, a2), w, o, n).Some?
    requires AllWithin(ReadMany(FrameReader(a1, a2), w, o, n).value.0, c1, c2)
    ensures ReadMany(FrameReader(c1, c2), w, o, n) == ReadMany(FrameReader(a1, a2), w, o, n)
    decreases n
  {
    if n > 0 {
      var a, c := FrameReader(a1, a2), FrameReader(c1, c2);
      ReadManyStep(a, w, o, n);
      var (p, mid) := a(w, o).value;
      var all, rest := ReadMany(a, w, o, n).value.0, ReadMany(a, w, mid, n - 1).value.0;
      assert all == [p] + rest;
      FrameLimits(w, o, a1, a2, c1, c2);
      ReadManyLimits(w, mid, n - 1, a1, a2, c1, c2);
      ReadManyStep(c, w, o, n);
    }
  }

  /** Within the range both verifiers see the same proofs, or none. */
  lemma LimitsAgree(wire: seq<byte>)
    requires CountsInRange(wire)
    ensures var streamed := ReadBatch(wire, WIRE_L1_LIMIT, WIRE_L2_LIMIT);
            if streamed.None? then Decoded(wire).Err? else Decoded(wire) == Ok(streamed.value.0)
  {
    if |wire| >= 4 {
      var n := UIntAt(wire, 0, 4);
      if ReadBatch(wire, WIRE_L1_LIMIT, WIRE_L2_LIMIT).Some? {
        ReadManyLimits(wire, 4, n, WIRE_L1_LIMIT, WIRE_L2_LIMIT, DECODE_LIMIT, DECODE_LIMIT);
      } else if Decoded(wire).Ok? {
        ReadManyL2(wire, 4, n);
        ReadManyLimits(wire, 4, n, DECODE_LIMIT, DECODE_LIMIT, WIRE_L1_LIMIT, WIRE_L2_LIMIT);
      }
    }
  }

  /** What DecodeBatch accepts keeps its own ceiling. */
  lemma {:induction false} ReadManyL2(w: seq<byte>, o: nat, n: nat)
    requires ReadMany(FrameReader(DECODE_LIMIT, DECODE_LIMIT), w, o, n).Some?
    ensures L2Decodable(ReadMany(FrameReader(DECODE_LIMIT, DECODE_LIMIT), w, o, n).value.0)
    decreases n
  {
    if n > 0 {
      var read := FrameReader(DECODE_LIMIT, DECODE_LIMIT);
      ReadManyStep(read, w, o, n);
      ReadManyL2(w, read(w, o).value.1, n - 1);
    }
  }

  /** Encoded batches of up to 33 L1 levels, 4096 L2 levels and 2^24 subtrees are in range, so
      on their bytes VerifyWire reports what BatchVerify reports on the batch. */
  lemma EncodedBatchStreams(ps: seq<Proof>)
    requires Encodable(ps, MAX_PACKED_L1, DECODE_LIMIT) && |Roots(ps)| <= MAX_PACKED_IDS
    ensures CountsInRange(BatchBytes(ps)) && Decoded(BatchBytes(ps)) == Ok(ps)
  {
    assert Streamable(ps) && L2Decodable(ps);
    assert Encodable(ps, WIRE_L1_LIMIT, WIRE_L2_LIMIT) && Encodable(ps, DECODE_LIMIT, DECODE_LIMIT);
    BatchRoundTrip(ps, WIRE_L1_LIMIT, WIRE_L2_LIMIT);
    BatchRoundTrip(ps, DECODE_LIMIT, DECODE_LIMIT);
  }

  /** The 33 levels are sharp on bytes.  Both verifiers read p and q off this batch, and then they
      part: the streaming one passes q iff its first node is p's, the decoding one iff q closes. */
  lemma DeepBytesConfused(sha: Sha256d, chain: HeaderChain, p: Proof, q: Proof)
    requires Antipodal(p, q) && Valid(sha, chain, p) && OnChain(chain, q.header)
    requires |p.l2| <= DECODE_LIMIT && |q.l2| <= DECODE_LIMIT
    ensures var wire := BatchBytes([p, q]);
            && ReadBatch(wire, WIRE_L1_LIMIT, WIRE_L2_LIMIT) == Some(([p, q], |wire|)) && Decoded(wire) == Ok([p, q])
    ensures Packed(sha, [p, q], chain).Passed? <==> Parent(sha, p.leaf, p.l1[0]) == Parent(sha, q.leaf, q.l1[0])
    ensures Batch(sha, [p, q], chain).Accepted? <==> L1Closes(sha, q)
  {
    assert Encodable([p, q], WIRE_L1_LIMIT, WIRE_L2_LIMIT) && Encodable([p, q], DECODE_LIMIT, DECODE_LIMIT);
    BatchRoundTrip([p, q], WIRE_L1_LIMIT, WIRE_L2_LIMIT);
    BatchRoundTrip([p, q], DECODE_LIMIT, DECODE_LIMIT);
    DeepPathsConfused(sha, chain, p, q);
  }

  /** So on bytes, for every hash function: of the encodings of two such batches the streaming
      verifier passes both, and decoding first and running BatchVerify rejects at least one. */
  lemma DeepBytesDiffer(sha: Sha256d, leaf: Hash, path: seq<PathElem>, s: Hash, t: Hash)
    requires |path| == MAX_PACKED_L1 + 1 && !path[MAX_PACKED_L1].right && s != t
    ensures StreamPasses(sha, BatchBytes(DeepPair(sha, leaf, path, s))) &&
            StreamPasses(sha, BatchBytes(DeepPair(sha, leaf, path, t)))
    ensures var node := Folded(sha, leaf, path[..MAX_PACKED_L1]);
            || DecodedRejected(sha, BatchBytes(DeepPair(sha, leaf, path, s)))
            || DecodedRejected(sha, BatchBytes(DeepPair(sha, leaf, path, t)))
            || CollisionIn(sha, {PairBytes(node, s), PairBytes(node, t)})
  {
    DeepPairReads(sha, leaf, path, s);
    DeepPairReads(sha, leaf, path, t);
    DeepVerdictsDiffer(sha, leaf, path, s, t);
  }

  /** What VerifyWire reports on these bytes is acceptance. */
  ghost predicate StreamPasses(sha: Sha256d, wire: seq<byte>) {
    && ReadBatch(wire, WIRE_L1_LIMIT, WIRE_L2_LIMIT).Some?
    && Packed(sha, ReadBatch(wire, WIRE_L1_LIMIT, WIRE_L2_LIMIT).value.0, NoChain).Passed?
  }

  /** They decode to a batch that BatchVerify rejects. */
  ghost predicate DecodedRejected(sha: Sha256d, wire: seq<byte>) {
    Decoded(wire).Ok? && Batch(sha, Decoded(wire).value, NoChain).Rejected?
  }

  lemma DeepPairReads(sha: Sha256d, leaf: Hash, path: seq<PathElem>, s: Hash)
    requires |path| == MAX_PACKED_L1 + 1
    ensures var ps, wire := DeepPair(sha, leaf, path, s), BatchBytes(DeepPair(sha, leaf, path, s));
            ReadBatch(wire, WIRE_L1_LIMIT, WIRE_L2_LIMIT) == Some((ps, |wire|)) && Decoded(wire) == Ok(ps)
  {
    var ps := DeepPair(sha, leaf, path, s);
    assert Encodable(ps, WIRE_L1_LIMIT, WIRE_L2_LIMIT) && Encodable(ps, DECODE_LIMIT, DECODE_LIMIT);
    BatchRoundTrip(ps, WIRE_L1_LIMIT, WIRE_L2_LIMIT);
    BatchRoundTrip(ps, DECODE_LIMIT, DECODE_LIMIT);
  }

  /** And of the encoding of 2^24 + 1 subtrees the streaming verifier refuses what decoding first and
      running BatchVerify accepts. */
  lemma ManyBytesDiffer(sha: Sha256d, xs: seq<Hash>)
    requires |xs| == MAX_PACKED_IDS + 1
    requires forall m, i :: 0 <= m < i < |xs| ==> HashPair(sha, xs[m], xs[m]) != HashPair(sha, xs[i], xs[i])
    ensures var ps, wire := Twins(sha, xs), BatchBytes(Twins(sha, xs));
            && ReadBatch(wire, WIRE_L1_LIMIT, WIRE_L2_LIMIT) == Some((ps, |wire|)) && Packed(sha, ps, NoChain).Refused?
            && Decoded(wire) == Ok(ps) && Batch(sha, ps, NoChain).Accepted?
  {
    var ps := Twins(sha, xs);
    assert Encodable(ps, WIRE_L1_LIMIT, WIRE_L2_LIMIT) && Encodable(ps, DECODE_LIMIT, DECODE_LIMIT);
    BatchRoundTrip(ps, WIRE_L1_LIMIT, WIRE_L2_LIMIT);
    BatchRoundTrip(ps, DECODE_LIMIT, DECODE_LIMIT);
    ManyVerdictsDiffer(sha, xs);
  }
}
