/** fabric/codec.go: the wire form of proofs and batches.

    Encoders and decoders are methods, as in the source; `ProofBytes`/`BatchBytes` and
    `ReadProof`/`ReadBatch` say what they produce.  The readers take the ceilings on the path
    counts as parameters because the streaming verifier uses other ceilings. */
module FabricCodec {
  import opened Commitment
  import opened Fabric
  import opened Bytes
  import opened Wire

  const DECODE_LIMIT := 4096

  // ---------------------------------------------------------------- encoding

  function ProofBytes(p: Proof): (s: seq<byte>)
    ensures |s| == 148 + 33 * (|p.l1| + |p.l2|)
  {
    p.leaf.bytes + (PathBytes(p.l1) + (p.subtreeRoot.bytes + (PathBytes(p.l2) + p.header.bytes)))
  }

  function FrameBytes(p: Proof): seq<byte> { Framed(ProofBytes(p)) }

  function BatchBytes(ps: seq<Proof>): seq<byte> { Counted(FrameBytes, 4, ps) }

  method EncodePath(dst: seq<byte>, p: seq<PathElem>) returns (out: seq<byte>)
    ensures out == dst + PathBytes(p)
  {
    out := dst + LE(|p|, 2);
    for i := 0 to |p|
      invariant out + Elems(p[i..]) == dst + PathBytes(p)
    {
      assert p[i..][0] == p[i] && p[i..][1..] == p[i + 1..];
      out := out + [if p[i].right then 1 else 0];
      out := out + p[i].sibling.bytes;
    }
  }

  method EncodeProof(dst: seq<byte>, p: Proof) returns (out: seq<byte>)
    ensures out == dst + ProofBytes(p)
  {
    out := dst + p.leaf.bytes;
    out := EncodePath(out, p.l1);
    out := out + p.subtreeRoot.bytes;
    out := EncodePath(out, p.l2);
    out := out + p.header.bytes;
  }

  method EncodeFrame(dst: seq<byte>, p: Proof) returns (out: seq<byte>)
    ensures out == dst + FrameBytes(p)
  {
    var pb := EncodeProof([], p);
    assert pb == ProofBytes(p);
    out := dst + LE(|pb|, 4);
    out := out + pb;
  }

  method EncodeBatch(ps: seq<Proof>) returns (out: seq<byte>)
    ensures out == BatchBytes(ps)
  {
    out := LE(|ps|, 4);
    for i := 0 to |ps|
      invariant out + Many(FrameBytes, ps[i..]) == BatchBytes(ps)
    {
      ManyStep(FrameBytes, ps, i, out);
      out := EncodeFrame(out, ps[i]);
    }
  }

  // ---------------------------------------------------------------- what decoding means

  function ReadProof(b: seq<byte>, limit1: nat, limit2: nat): Option<Proof> {
    if 32 > |b| then None
    else
      match ReadPath(b, 32, limit1)
      case None => None
      case Some((l1, o)) =>
        if o + 32 > |b| then None
        else
          match ReadPath(b, o + 32, limit2)
          case None => None
          case Some((l2, o')) =>
            if o' + 80 > |b| then None
            else Some(Proof(HashAt(b, 0), l1, HashAt(b, o), l2, HeaderAt(b, o')))
  }

  function ProofReader(limit1: nat, limit2: nat): seq<byte> -> Option<Proof> {
    (b: seq<byte>) => ReadProof(b, limit1, limit2)
  }

  /** Length-prefixed proofs. */
  function FrameReader(limit1: nat, limit2: nat): Reader<Proof> { FramedReader(ProofReader(limit1, limit2)) }

  /** A batch and the offset behind it; later bytes are ignored, as in the source. */
  function ReadBatch(w: seq<byte>, limit1: nat, limit2: nat): Option<(seq<Proof>, nat)> {
    ReadCounted(FrameReader(limit1, limit2), 4, w, 0)
  }

  // ---------------------------------------------------------------- decoding

  class Decoder {
    const b: seq<byte>
    var off: nat

    constructor (b: seq<byte>, off: nat)
      requires off <= |b|
      ensures this.b == b && this.off == off
    {
      this.b := b;
      this.off := off;
    }

    method Take(n: nat) returns (s: Option<seq<byte>>)
      requires off <= |b|
      modifies this
      ensures off <= |b|
      ensures s.Some? <==> old(off) + n <= |b|
      ensures off == if s.Some? then old(off) + n else old(off)
      ensures s.Some? ==> s.value == b[old(off)..off]
    {
      if off + n > |b| {
        return None;
      }
      s := Some(b[off..off + n]);
      off := off + n;
    }

    method DecodePath() returns (r: Option<seq<PathElem>>)
      requires off <= |b|
      modifies this
      ensures off <= |b|
      ensures match ReadPath(b, old(off), DECODE_LIMIT)
              case None => r.None?
              case Some((p, o)) => r == Some(p) && off == o
    {
      var cb := Take(2);
      if cb.None? {
        return None;
      }
      var n := UnLE(cb.value);
      if n == 0 {
        return Some([]);
      }
      if n > DECODE_LIMIT {
        return None;
      }
      ghost var start := off;
      var p: seq<PathElem> := [];
      for i := 0 to n
        invariant off == start + 33 * i <= |b| && |p| == i
        invariant forall j :: 0 <= j < i ==> p[j] == ElemAt(b, start + 33 * j)
      {
        var rb := Take(1);
        if rb.None? {
          return None;
        }
        var sb := Take(32);
        if sb.None? {
          return None;
        }
        p := p + [PathElem(Hash(sb.value), rb.value[0] == 1)];
      }
      assert p == ElemsAt(b, start, n);
      return Some(p);
    }

    method DecodeProof() returns (r: Option<Proof>)
      requires off == 0
      modifies this
      ensures r == ReadProof(b, DECODE_LIMIT, DECODE_LIMIT)
    {
      var leaf := Take(32);
      if leaf.None? {
        return None;
      }
      var l1 := DecodePath();
      if l1.None? {
        return None;
      }
      var root := Take(32);
      if root.None? {
        return None;
      }
      var l2 := DecodePath();
      if l2.None? {
        return None;
      }
      var header := Take(80);
      if header.None? {
        return None;
      }
      return Some(Proof(Hash(leaf.value), l1.value, Hash(root.value), l2.value, Header(header.value)));
    }

    /** One length-prefixed proof: the body of DecodeBatch's loop. */
    method DecodeFrame() returns (r: Option<Proof>)
      requires off <= |b|
      modifies this
      ensures off <= |b|
      ensures match ReadFramed(ProofReader(DECODE_LIMIT, DECODE_LIMIT), b, old(off))
              case None => r.None?
              case Some((p, end)) => r == Some(p) && off == end
    {
      var lp := Take(4);
      if lp.None? {
        return None;
      }
      var plen := UnLE(lp.value);
      var pb := Take(plen);
      if pb.None? {
        return None;
      }
      var pd := new Decoder(pb.value, 0);
      r := pd.DecodeProof();
    }
  }

  function Decoded(w: seq<byte>): Result<seq<Proof>> {
    match ReadBatch(w, DECODE_LIMIT, DECODE_LIMIT)
    case None => Err
    case Some((ps, _)) => Ok(ps)
  }

  method DecodeBatch(data: seq<byte>) returns (r: Result<seq<Proof>>)
    ensures r == Decoded(data)
  {
    if |data| < 4 {
      return Err;
    }
    var n := UnLE(data[0..4]);
    var d := new Decoder(data, 4);
    r := DecodeFrames(d, n);
  }

  /** What DecodeBatch and the streaming verifier hand to the readers of frames. */
  function Frames(): Reader<Proof> { FrameReader(DECODE_LIMIT, DECODE_LIMIT) }

  /** The loop of DecodeBatch. */
  method DecodeFrames(d: Decoder, n: nat) returns (r: Result<seq<Proof>>)
    requires d.off <= |d.b|
    modifies d
    ensures match ReadMany(Frames(), d.b, old(d.off), n)
            case None => r.Err?
            case Some((ps, _)) => r == Ok(ps)
  {
    var dst: seq<Proof> := [];
    ghost var all := ReadMany(Frames(), d.b, d.off, n);
    assert all.Some? ==> [] + all.value.0 == all.value.0;
    ghost var left := n;
    for i := 0 to n
      invariant d.off <= |d.b| && left == n - i
      invariant Onward(ReadMany(Frames(), d.b, d.off, left), all, dst)
    {
      var p;
      p, left := NextProof(d, left, all, dst);
      if p.None? {
        return Err;
      }
      dst := dst + [p.value];
    }
    assert dst + [] == dst;
    return Ok(dst);
  }

  method NextProof(d: Decoder, ghost left: nat, ghost all: Option<(seq<Proof>, nat)>, ghost done: seq<Proof>)
    returns (p: Option<Proof>, ghost fewer: nat)
    requires d.off <= |d.b| && left > 0 && Onward(ReadMany(Frames(), d.b, d.off, left), all, done)
    modifies d
    ensures d.off <= |d.b| && (p.None? ==> all.None?)
    ensures fewer == left - 1
    ensures p.Some? ==> Onward(ReadMany(Frames(), d.b, d.off, fewer), all, done + [p.value])
  {
    fewer := left - 1;
    OnwardStep(Frames(), d.b, d.off, left, fewer, all, done);
    p := d.DecodeFrame();
  }

  // ---------------------------------------------------------------- what is decoded, exactly

  /** Path counts within the ceilings, and these within the two bytes of a count. */
  predicate Fits(p: Proof, limit1: nat, limit2: nat) {
    |p.l1| <= limit1 <= 0xffff && |p.l2| <= limit2 <= 0xffff
  }

  /** The flags of a proof's encoding: one for every path element. */
  function ProofFlags(p: Proof): (m: seq<bool>)
    ensures |m| == |ProofBytes(p)|
  {
    Plain(32) + (PathFlags(p.l1) + (Plain(32) + (PathFlags(p.l2) + Plain(80))))
  }

  /** What stands behind the first path of a proof. */
  function Behind(p: Proof): seq<byte> { p.subtreeRoot.bytes + (PathBytes(p.l2) + p.header.bytes) }

  function BehindFlags(p: Proof): seq<bool> { Plain(32) + (PathFlags(p.l2) + Plain(80)) }

  lemma FrontSplit(b: seq<byte>, p: Proof, o: nat)
    requires o == 34 + 33 * |p.l1|
    ensures Spelt(b, 0, ProofBytes(p), ProofFlags(p)) <==>
              && At(b, 0, p.leaf.bytes) && Spelt(b, 32, PathBytes(p.l1), PathFlags(p.l1))
              && Spelt(b, o, Behind(p), BehindFlags(p))
  {
    SpeltSplit(b, 0, p.leaf.bytes, Plain(32), PathBytes(p.l1) + Behind(p), PathFlags(p.l1) + BehindFlags(p));
    SpeltSplit(b, 32, PathBytes(p.l1), PathFlags(p.l1), Behind(p), BehindFlags(p));
    PlainSpelt(b, 0, p.leaf.bytes);
  }

  lemma BehindSplit(b: seq<byte>, p: Proof, o: nat, mid: nat, end: nat)
    requires mid == o + 32 && end == mid + |PathBytes(p.l2)|
    ensures Spelt(b, o, Behind(p), BehindFlags(p)) <==>
              && At(b, o, p.subtreeRoot.bytes) && Spelt(b, mid, PathBytes(p.l2), PathFlags(p.l2))
              && At(b, end, p.header.bytes)
  {
    SpeltSplit(b, o, p.subtreeRoot.bytes, Plain(32), PathBytes(p.l2) + p.header.bytes, PathFlags(p.l2) + Plain(80));
    SpeltSplit(b, mid, PathBytes(p.l2), PathFlags(p.l2), p.header.bytes, Plain(80));
    PlainSpelt(b, o, p.subtreeRoot.bytes);
    PlainSpelt(b, end, p.header.bytes);
  }

  /** The five pieces of a spelt proof. */
  lemma ProofSplit(b: seq<byte>, p: Proof, o: nat, mid: nat, end: nat)
    requires o == 34 + 33 * |p.l1| && mid == o + 32 && end == mid + |PathBytes(p.l2)|
    ensures Spelt(b, 0, ProofBytes(p), ProofFlags(p)) <==>
              && At(b, 0, p.leaf.bytes) && Spelt(b, 32, PathBytes(p.l1), PathFlags(p.l1))
              && At(b, o, p.subtreeRoot.bytes)
              && Spelt(b, mid, PathBytes(p.l2), PathFlags(p.l2)) && At(b, end, p.header.bytes)
  {
    FrontSplit(b, p, o);
    BehindSplit(b, p, o, mid, end);
  }

  lemma ReadSpeltProof(b: seq<byte>, p: Proof, limit1: nat, limit2: nat)
    requires Fits(p, limit1, limit2) && Spelt(b, 0, ProofBytes(p), ProofFlags(p))
    ensures ReadProof(b, limit1, limit2) == Some(p)
  {
    var o := 34 + 33 * |p.l1|;
    var mid := o + 32;
    var end := mid + |PathBytes(p.l2)|;
    ProofSplit(b, p, o, mid, end);
    ReadSpeltPath(b, 32, p.l1, limit1, o);
    ReadSpeltPath(b, mid, p.l2, limit2, end);
    ReadPieces(b, p, limit1, limit2, o, mid, end);
  }

  lemma ReadPieces(b: seq<byte>, p: Proof, limit1: nat, limit2: nat, o: nat, mid: nat, end: nat)
    requires At(b, 0, p.leaf.bytes) && At(b, o, p.subtreeRoot.bytes) && mid == o + 32 && At(b, end, p.header.bytes)
    requires ReadPath(b, 32, limit1) == Some((p.l1, o)) && ReadPath(b, mid, limit2) == Some((p.l2, end))
    ensures ReadProof(b, limit1, limit2) == Some(p)
  {
  }

  lemma PiecesRead(b: seq<byte>, p: Proof, limit1: nat, limit2: nat) returns (o: nat, mid: nat, end: nat)
    requires ReadProof(b, limit1, limit2) == Some(p)
    ensures At(b, 0, p.leaf.bytes) && At(b, o, p.subtreeRoot.bytes) && mid == o + 32 && At(b, end, p.header.bytes)
    ensures ReadPath(b, 32, limit1) == Some((p.l1, o)) && ReadPath(b, mid, limit2) == Some((p.l2, end))
  {
    o := ReadPath(b, 32, limit1).value.1;
    mid := o + 32;
    end := ReadPath(b, mid, limit2).value.1;
  }

  lemma ProofReadSpelt(b: seq<byte>, p: Proof, limit1: nat, limit2: nat)
    requires ReadProof(b, limit1, limit2) == Some(p) && limit1 <= 0xffff && limit2 <= 0xffff
    ensures Fits(p, limit1, limit2) && Spelt(b, 0, ProofBytes(p), ProofFlags(p))
  {
    var o, mid, end := PiecesRead(b, p, limit1, limit2);
    PathReadSpelt(b, 32, limit1, p.l1, o);
    PathReadSpelt(b, mid, limit2, p.l2, end);
    ProofSplit(b, p, o, mid, end);
  }

  /** A proof and the bytes behind it that its frame has room for and the decoder never looks at. */
  type Padded = (Proof, seq<byte>)

  function Payload(x: Padded): seq<byte> { ProofBytes(x.0) + x.1 }

  function PaddedW(): Writer<Padded> { (x: Padded) => Framed(Payload(x)) }

  function PaddedMarks(x: Padded): seq<bool> { Plain(4) + (ProofFlags(x.0) + Plain(|x.1|)) }

  /** The frame of a proof with what is left of it. */
  function ReadPadded(limit1: nat, limit2: nat, b: seq<byte>, o: nat): Option<(Padded, nat)> {
    match FrameReader(limit1, limit2)(b, o)
    case None => None
    case Some((p, end)) =>
      var from := o + 4 + |ProofBytes(p)|;
      if from <= end <= |b| then Some(((p, b[from..end]), end)) else None
  }

  function PaddedReader(limit1: nat, limit2: nat): Reader<Padded> {
    (b: seq<byte>, o: nat) => ReadPadded(limit1, limit2, b, o)
  }

  function PaddedF(limit1: nat, limit2: nat): Format<Padded> {
    Format(PaddedReader(limit1, limit2), PaddedW(), PaddedMarks)
  }

  ghost function FitsFrame(limit1: nat, limit2: nat): Padded -> bool {
    (x: Padded) => Fits(x.0, limit1, limit2) && |Payload(x)| < 0x1_0000_0000
  }

  /** A payload spelt in a frame, in its pieces. */
  lemma PayloadSplit(b: seq<byte>, o: nat, x: Padded, from: nat, end: nat)
    requires from == o + |ProofBytes(x.0)| && end == o + |Payload(x)| && end <= |b|
    ensures Spelt(b, o, Payload(x), ProofFlags(x.0) + Plain(|x.1|)) <==>
              Spelt(b[o..end], 0, ProofBytes(x.0), ProofFlags(x.0)) && b[from..end] == x.1
  {
    SpeltSplit(b, o, ProofBytes(x.0), ProofFlags(x.0), x.1, Plain(|x.1|));
    PlainSpelt(b, from, x.1);
    assert b[o..end][0..|ProofBytes(x.0)|] == b[o..from];
  }

  lemma PaddedFaithful(x: Padded, limit1: nat, limit2: nat)
    requires FitsFrame(limit1, limit2)(x)
    ensures Faithful(PaddedF(limit1, limit2), x, true)
  {
    var w, m := Framed(Payload(x)), PaddedMarks(x);
    PaddedSelf(x);
    forall b, o: nat | Spelt(b, o, w, m) ensures ReadPadded(limit1, limit2, b, o) == Some((x, o + |w|)) {
      ReadSpeltFrame(b, o, x, limit1, limit2, o + 4, o + |w|);
    }
    FaithfulAs(PaddedF(limit1, limit2), x, w, m, true);
  }

  lemma PaddedSelf(x: Padded)
    ensures Spells(Framed(Payload(x)), Framed(Payload(x)), PaddedMarks(x))
  {
    var b, n := Payload(x), |ProofBytes(x.0)|;
    ProofSelf(x.0);
    SpellsSplit(ProofBytes(x.0), x.1, ProofBytes(x.0), ProofFlags(x.0), x.1, Plain(|x.1|));
    SpellsSplit(LE(|b|, 4), b, LE(|b|, 4), Plain(4), b, ProofFlags(x.0) + Plain(|x.1|));
  }

  lemma ProofSelf(p: Proof)
    ensures Spells(ProofBytes(p), ProofBytes(p), ProofFlags(p))
  {
    var w4, m4 := PathBytes(p.l2) + p.header.bytes, PathFlags(p.l2) + Plain(80);
    var w3, m3 := p.subtreeRoot.bytes + w4, Plain(32) + m4;
    var w2, m2 := PathBytes(p.l1) + w3, PathFlags(p.l1) + m3;
    PathSelf(p.l1);
    PathSelf(p.l2);
    SpellsSplit(PathBytes(p.l2), p.header.bytes, PathBytes(p.l2), PathFlags(p.l2), p.header.bytes, Plain(80));
    SpellsSplit(p.subtreeRoot.bytes, w4, p.subtreeRoot.bytes, Plain(32), w4, m4);
    SpellsSplit(PathBytes(p.l1), w3, PathBytes(p.l1), PathFlags(p.l1), w3, m3);
    SpellsSplit(p.leaf.bytes, w2, p.leaf.bytes, Plain(32), w2, m2);
  }

  lemma ReadSpeltFrame(b: seq<byte>, o: nat, x: Padded, limit1: nat, limit2: nat, mid: nat, end: nat)
    requires FitsFrame(limit1, limit2)(x) && Spelt(b, o, Framed(Payload(x)), PaddedMarks(x))
    requires mid == o + 4 && end == mid + |Payload(x)|
    ensures ReadPadded(limit1, limit2, b, o) == Some((x, end))
  {
    Widths();
    CountThenBody(b, o, 4, mid, |Payload(x)|, Payload(x), ProofFlags(x.0) + Plain(|x.1|));
    PayloadSplit(b, mid, x, mid + |ProofBytes(x.0)|, end);
    ReadSpeltProof(b[mid..end], x.0, limit1, limit2);
    FrameAt(b, o, mid, end, x.0, limit1, limit2);
    PaddingAt(b, o, x, limit1, limit2, mid + |ProofBytes(x.0)|, end);
  }

  lemma PaddingAt(b: seq<byte>, o: nat, x: Padded, limit1: nat, limit2: nat, from: nat, end: nat)
    requires FrameReader(limit1, limit2)(b, o) == Some((x.0, end)) && from == o + 4 + |ProofBytes(x.0)|
    requires from <= end <= |b| && b[from..end] == x.1
    ensures ReadPadded(limit1, limit2, b, o) == Some((x, end))
  {
  }

  lemma FrameAt(b: seq<byte>, o: nat, mid: nat, end: nat, p: Proof, limit1: nat, limit2: nat)
    requires mid == o + 4 <= end <= |b|
    ensures FrameReader(limit1, limit2)(b, o) == Some((p, end)) <==>
              UIntAt(b, o, 4) == end - mid && ReadProof(b[mid..end], limit1, limit2) == Some(p)
  {
  }

  /** What is read off a frame is spelt there, and padding is all that is left. */
  lemma FrameReadSpelt(b: seq<byte>, o: nat, p: Proof, limit1: nat, limit2: nat, mid: nat, from: nat, end: nat)
    requires FrameReader(limit1, limit2)(b, o) == Some((p, end)) && mid == o + 4 && from == mid + |ProofBytes(p)|
    requires limit1 <= 0xffff && limit2 <= 0xffff
    ensures from <= end <= |b|
    ensures FitsFrame(limit1, limit2)((p, b[from..end]))
    ensures Spelt(b, o, Framed(Payload((p, b[from..end]))), PaddedMarks((p, b[from..end])))
  {
    FrameAt(b, o, mid, end, p, limit1, limit2);
    ProofReadSpelt(b[mid..end], p, limit1, limit2);
    var x := (p, b[from..end]);
    PayloadSplit(b, mid, x, from, end);
    CountBeforeBody(b, o, 4, mid, |Payload(x)|, Payload(x), ProofFlags(p) + Plain(|x.1|));
    Widths();
  }

  lemma PaddedWritten(b: seq<byte>, o: nat, x: Padded, limit1: nat, limit2: nat, from: nat, end: nat, w: seq<byte>)
    requires ReadPadded(limit1, limit2, b, o) == Some((x, end)) && limit1 <= 0xffff && limit2 <= 0xffff
    requires from == o + 4 + |ProofBytes(x.0)| && w == Framed(Payload(x))
    ensures FitsFrame(limit1, limit2)(x) && end == o + |w| && Spelt(b, o, w, PaddedMarks(x))
  {
    FrameReadSpelt(b, o, x.0, limit1, limit2, o + 4, from, end);
    assert x == (x.0, b[from..end]);
  }

  lemma PaddedStrict(limit1: nat, limit2: nat)
    requires limit1 <= 0xffff && limit2 <= 0xffff
    ensures Strict(PaddedF(limit1, limit2), FitsFrame(limit1, limit2))
  {
    var f, good := PaddedF(limit1, limit2), FitsFrame(limit1, limit2);
    forall b, o: nat | f.read(b, o).Some? ensures Written(f, good, b, o, f.read(b, o).value) {
      var (x, end) := ReadPadded(limit1, limit2, b, o).value;
      PaddedWritten(b, o, x, limit1, limit2, o + 4 + |ProofBytes(x.0)|, end, Framed(Payload(x)));
    }
  }

  // ---------------------------------------------------------------- whole batches

  function Firsts(xs: seq<Padded>): (ps: seq<Proof>)
    ensures |ps| == |xs|
  {
    seq(|xs|, i requires 0 <= i < |xs| => xs[i].0)
  }

  /** One reading is the other without its padding. */
  ghost predicate Trimmed(padded: Option<(seq<Padded>, nat)>, trimmed: Option<(seq<Proof>, nat)>) {
    match padded
    case None => trimmed.None?
    case Some((xs, end)) => trimmed == Some((Firsts(xs), end))
  }

  lemma {:induction false} ReadManyFirsts(b: seq<byte>, o: nat, n: nat, limit1: nat, limit2: nat)
    requires limit1 <= 0xffff && limit2 <= 0xffff
    ensures Trimmed(ReadMany(PaddedReader(limit1, limit2), b, o, n), ReadMany(FrameReader(limit1, limit2), b, o, n))
    decreases n
  {
    if n > 0 {
      var fewer := n - 1;
      OneTrimmed(b, o, limit1, limit2);
      if FrameReader(limit1, limit2)(b, o).Some? {
        ReadManyFirsts(b, FrameReader(limit1, limit2)(b, o).value.1, fewer, limit1, limit2);
      }
      FirstsStep(b, o, n, fewer, PaddedReader(limit1, limit2), FrameReader(limit1, limit2));
    }
  }

  ghost predicate SameItem(padded: Option<(Padded, nat)>, item: Option<(Proof, nat)>) {
    match padded
    case None => item.None?
    case Some((x, end)) => item == Some((x.0, end))
  }

  lemma OneTrimmed(b: seq<byte>, o: nat, limit1: nat, limit2: nat)
    requires limit1 <= 0xffff && limit2 <= 0xffff
    ensures SameItem(PaddedReader(limit1, limit2)(b, o), FrameReader(limit1, limit2)(b, o))
  {
    if FrameReader(limit1, limit2)(b, o).Some? {
      var (p, end) := FrameReader(limit1, limit2)(b, o).value;
      FrameReadSpelt(b, o, p, limit1, limit2, o + 4, o + 4 + |ProofBytes(p)|, end);
    }
  }

  lemma FirstsStep(b: seq<byte>, o: nat, n: nat, fewer: nat, padded: Reader<Padded>, read: Reader<Proof>)
    requires n == fewer + 1 && SameItem(padded(b, o), read(b, o))
    requires read(b, o).Some? ==>
               Trimmed(ReadMany(padded, b, read(b, o).value.1, fewer), ReadMany(read, b, read(b, o).value.1, fewer))
    ensures Trimmed(ReadMany(padded, b, o, n), ReadMany(read, b, o, n))
  {
    if padded(b, o).Some? && ReadMany(padded, b, read(b, o).value.1, fewer).Some? {
      var x, xs := padded(b, o).value.0, ReadMany(padded, b, read(b, o).value.1, fewer).value.0;
      assert Firsts([x] + xs) == [x.0] + Firsts(xs);
    }
  }

  /** A batch of padded frames, and the marks of its flags. */
  function PaddedBatch(xs: seq<Padded>): seq<byte> { CountedW(PaddedW(), 4)(xs) }

  function BatchFlags(xs: seq<Padded>): seq<bool> { Plain(4) + Many(PaddedMarks, xs) }

  ghost predicate Framable(xs: seq<Padded>, limit1: nat, limit2: nat) {
    |xs| < 0x1_0000_0000 && forall i :: 0 <= i < |xs| ==> FitsFrame(limit1, limit2)(xs[i])
  }

  /** At the front of `w` stand the frames `xs`, up to their flags. */
  ghost predicate StartsWith(w: seq<byte>, xs: seq<Padded>) { Spelt(w, 0, PaddedBatch(xs), BatchFlags(xs)) }

  /** Wherever frames are spelt their proofs are read. */
  lemma SpeltFramesRead(w: seq<byte>, xs: seq<Padded>, limit1: nat, limit2: nat)
    requires Framable(xs, limit1, limit2) && limit1 <= 0xffff && limit2 <= 0xffff && StartsWith(w, xs)
    ensures ReadBatch(w, limit1, limit2) == Some((Firsts(xs), |PaddedBatch(xs)|))
  {
    Widths();
    forall i | 0 <= i < |xs| ensures Faithful(PaddedF(limit1, limit2), xs[i], true) {
      PaddedFaithful(xs[i], limit1, limit2);
    }
    CountedFaithful(PaddedF(limit1, limit2), 4, xs);
    BatchOfFrames(w, limit1, limit2);
  }

  lemma BatchOfFrames(w: seq<byte>, limit1: nat, limit2: nat)
    requires limit1 <= 0xffff && limit2 <= 0xffff
    ensures Trimmed(CountedReader(PaddedReader(limit1, limit2), 4)(w, 0), ReadBatch(w, limit1, limit2))
  {
    if |w| >= 4 {
      ReadManyFirsts(w, 4, UIntAt(w, 0, 4), limit1, limit2);
    }
  }

  /** And what is read are the proofs of frames that are spelt there. */
  lemma ReadFramesSpelt(w: seq<byte>, limit1: nat, limit2: nat) returns (xs: seq<Padded>)
    requires limit1 <= 0xffff && limit2 <= 0xffff && ReadBatch(w, limit1, limit2).Some?
    ensures Framable(xs, limit1, limit2) && StartsWith(w, xs)
    ensures ReadBatch(w, limit1, limit2) == Some((Firsts(xs), |PaddedBatch(xs)|))
  {
    var f, good := PaddedF(limit1, limit2), FitsFrame(limit1, limit2);
    Widths();
    BatchOfFrames(w, limit1, limit2);
    PaddedStrict(limit1, limit2);
    CountedStrict(f, 4, good);
    var r := CountedF(f, 4).read(w, 0).value;
    xs := r.0;
    FramesWritten(w, xs, r.1, limit1, limit2);
  }

  lemma FramesWritten(w: seq<byte>, xs: seq<Padded>, end: nat, limit1: nat, limit2: nat)
    requires Written(CountedF(PaddedF(limit1, limit2), 4), Each(4, FitsFrame(limit1, limit2)), w, 0, (xs, end))
    ensures Framable(xs, limit1, limit2) && StartsWith(w, xs) && end == |PaddedBatch(xs)|
  {
    Widths();
    forall i | 0 <= i < |xs| ensures FitsFrame(limit1, limit2)(xs[i]) {
      assert xs[i] in xs;
    }
  }

  /** What DecodeBatch accepts, exactly: it returns ps on the bytes that begin with ps in frames of
      any room, up to flag bytes, where anything but one stands for zero. */
  lemma DecodedIff(w: seq<byte>, ps: seq<Proof>)
    ensures Decoded(w) == Ok(ps) <==>
            exists xs :: Firsts(xs) == ps && Framable(xs, DECODE_LIMIT, DECODE_LIMIT) && StartsWith(w, xs)
  {
    if Decoded(w) == Ok(ps) {
      var xs := ReadFramesSpelt(w, DECODE_LIMIT, DECODE_LIMIT);
      assert Firsts(xs) == ps;
    }
    if xs :| Firsts(xs) == ps && Framable(xs, DECODE_LIMIT, DECODE_LIMIT) && StartsWith(w, xs) {
      SpeltFramesRead(w, xs, DECODE_LIMIT, DECODE_LIMIT);
    }
  }

  /** Path counts within the decoder's ceilings, and a count that fits its prefix. */
  ghost predicate Encodable(ps: seq<Proof>, limit1: nat, limit2: nat) {
    |ps| < 0x1_0000_0000 && forall i :: 0 <= i < |ps| ==> Fits(ps[i], limit1, limit2)
  }

  function Unpadded(ps: seq<Proof>): (xs: seq<Padded>)
    ensures |xs| == |ps|
  {
    seq(|ps|, i requires 0 <= i < |ps| => (ps[i], []))
  }

  /** The encoder writes frames without padding. */
  lemma {:induction false} UnpaddedBytes(ps: seq<Proof>)
    ensures Many(PaddedW(), Unpadded(ps)) == Many(FrameBytes, ps)
    decreases ps
  {
    if ps != [] {
      assert Unpadded(ps)[1..] == Unpadded(ps[1..]);
      assert Payload((ps[0], [])) == ProofBytes(ps[0]);
      UnpaddedBytes(ps[1..]);
    }
  }

  lemma EncodedFrames(ps: seq<Proof>, limit1: nat, limit2: nat)
    requires Encodable(ps, limit1, limit2)
    ensures var xs := Unpadded(ps);
            && Firsts(xs) == ps && Framable(xs, limit1, limit2) && PaddedBatch(xs) == BatchBytes(ps)
            && StartsWith(BatchBytes(ps), xs)
  {
    var xs := Unpadded(ps);
    UnpaddedBytes(ps);
    forall i | 0 <= i < |xs| 
      ensures FitsFrame(limit1, limit2)(xs[i]) && Faithful(PaddedF(limit1, limit2), xs[i], true)
    {
      assert Payload(xs[i]) == ProofBytes(ps[i]);
      PaddedFaithful(xs[i], limit1, limit2);
    }
    ManySelf(PaddedF(limit1, limit2), xs);
    var body, marks := Many(PaddedW(), xs), Many(PaddedMarks, xs);
    SpellsSplit(LE(|xs|, 4), body, LE(|xs|, 4), Plain(4), body, marks);
    assert BatchBytes(ps)[0..|BatchBytes(ps)|] == BatchBytes(ps);
    assert Firsts(xs) == ps;
  }

  /** Decoding what was encoded gives the batch back and consumes every byte. */
  lemma BatchRoundTrip(ps: seq<Proof>, limit1: nat, limit2: nat)
    requires Encodable(ps, limit1, limit2) && limit1 <= 0xffff && limit2 <= 0xffff
    ensures ReadBatch(BatchBytes(ps), limit1, limit2) == Some((ps, |BatchBytes(ps)|))
  {
    EncodedFrames(ps, limit1, limit2);
    SpeltFramesRead(BatchBytes(ps), Unpadded(ps), limit1, limit2);
  }

  /** Accepted bytes are the encoding of the batch they decode to exactly if no frame is padded,
      nothing follows the last one, and the flags are zeros and ones. */
  lemma CanonicalIff(w: seq<byte>, xs: seq<Padded>)
    requires Framable(xs, DECODE_LIMIT, DECODE_LIMIT) && StartsWith(w, xs)
    ensures Decoded(w) == Ok(Firsts(xs))
    ensures w == BatchBytes(Firsts(xs)) <==>
            xs == Unpadded(Firsts(xs)) && |w| == |BatchFlags(xs)| && ZeroOrOne(w, BatchFlags(xs))
  {
    var ps := Firsts(xs);
    SpeltFramesRead(w, xs, DECODE_LIMIT, DECODE_LIMIT);
    assert w[0..|w|] == w;
    if w == BatchBytes(ps) {
      EncodedFrames(ps, DECODE_LIMIT, DECODE_LIMIT);
      SameFrames(w, xs, Unpadded(ps));
      Canonical(w, PaddedBatch(xs), BatchFlags(xs));
    } else if xs == Unpadded(ps) && |w| == |BatchFlags(xs)| && ZeroOrOne(w, BatchFlags(xs)) {
      EncodedFrames(ps, DECODE_LIMIT, DECODE_LIMIT);
      Canonical(w, PaddedBatch(xs), BatchFlags(xs));
    }
  }

  /** The frames at the front of some bytes are determined by them. */
  lemma SameFrames(w: seq<byte>, xs: seq<Padded>, ys: seq<Padded>)
    requires Framable(xs, DECODE_LIMIT, DECODE_LIMIT) && StartsWith(w, xs)
    requires Framable(ys, DECODE_LIMIT, DECODE_LIMIT) && StartsWith(w, ys)
    ensures xs == ys
  {
    var f := PaddedF(DECODE_LIMIT, DECODE_LIMIT);
    Widths();
    forall i | 0 <= i < |xs| ensures Faithful(f, xs[i], true) {
      PaddedFaithful(xs[i], DECODE_LIMIT, DECODE_LIMIT);
    }
    forall i | 0 <= i < |ys| ensures Faithful(f, ys[i], true) {
      PaddedFaithful(ys[i], DECODE_LIMIT, DECODE_LIMIT);
    }
    CountedFaithful(f, 4, xs);
    CountedFaithful(f, 4, ys);
    assert f.write == PaddedW() && f.flags == PaddedMarks;
  }

  // ---------------------------------------------------------------- truncation

  /** Decoding uses up the frames and nothing else: the bytes cut off behind them, or anywhere
      further on, decode alike, and cut off any earlier they do not decode. */
  lemma BatchPrefixes(w: seq<byte>, k: nat)
    requires Decoded(w).Ok? && k <= |w|
    ensures var end := ReadBatch(w, DECODE_LIMIT, DECODE_LIMIT).value.1;
            Decoded(w[..k]) == if k < end then Err else Decoded(w)
  {
    var xs := ReadFramesSpelt(w, DECODE_LIMIT, DECODE_LIMIT);
    var n := |PaddedBatch(xs)|;
    if n <= k {
      assert w[..k][0..n] == w[0..n];
      SpeltFramesRead(w[..k], xs, DECODE_LIMIT, DECODE_LIMIT);
    } else if Decoded(w[..k]).Ok? {
      var ys := ReadFramesSpelt(w[..k], DECODE_LIMIT, DECODE_LIMIT);
      assert w[..k][0..|PaddedBatch(ys)|] == w[0..|PaddedBatch(ys)|];
      assert StartsWith(w, ys);
      SpeltFramesRead(w, ys, DECODE_LIMIT, DECODE_LIMIT);
    }
  }
}
