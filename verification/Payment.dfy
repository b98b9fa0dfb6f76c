/** payment/payment.go: the payment message on the wire, and the bytes that a signature covers. */
module Payment {
  import opened Commitment
  import opened Bytes
  import opened Wire
  import Bundle
  import BundleCodec

  datatype TxIn = TxIn(txid: Hash, vout: nat, sig: seq<byte>, pubKey: seq<byte>)
  datatype TxOut = TxOut(value: nat, script: seq<byte>)
  datatype Tx3 = Tx3(version: nat, inputs: seq<TxIn>, outputs: seq<TxOut>, lockTime: nat)
  datatype Message = Message(tx: Tx3, bundles: seq<Bundle.Bundle>)

  type InParts = (Hash, (nat, (seq<byte>, seq<byte>)))
  type OutParts = (nat, seq<byte>)
  type TxParts = (nat, (seq<TxIn>, (seq<TxOut>, nat)))

  // ---------------------------------------------------------------- the format

  function MakeIn(p: InParts): TxIn { TxIn(p.0, p.1.0, p.1.1.0, p.1.1.1) }

  function InPartsOf(i: TxIn): InParts { (i.txid, (i.vout, (i.sig, i.pubKey))) }

  function InReader(): Reader<TxIn> {
    Via(Both(HashReader(), Both(UInt(4), Both(Blob(2), Blob(2)))), MakeIn)
  }

  function InW(): Writer<TxIn> {
    ViaW(BothW(HashW(), BothW(UIntW(4), BothW(BlobW(2), BlobW(2)))), InPartsOf)
  }

  function InPartsF(): Format<InParts> { BothF(HashF(), BothF(UIntF(4), BothF(BlobF(2), BlobF(2)))) }

  function InF(): Format<TxIn> { ViaF(InPartsF(), MakeIn, InPartsOf) }

  function MakeOut(p: OutParts): TxOut { TxOut(p.0, p.1) }

  function OutPartsOf(o: TxOut): OutParts { (o.value, o.script) }

  function OutReader(): Reader<TxOut> { Via(Both(UInt(8), Blob(4)), MakeOut) }

  function OutW(): Writer<TxOut> { ViaW(BothW(UIntW(8), BlobW(4)), OutPartsOf) }

  function OutF(): Format<TxOut> { ViaF(BothF(UIntF(8), BlobF(4)), MakeOut, OutPartsOf) }

  function MakeTx(p: TxParts): Tx3 { Tx3(p.0, p.1.0, p.1.1.0, p.1.1.1) }

  function TxPartsOf(t: Tx3): TxParts { (t.version, (t.inputs, (t.outputs, t.lockTime))) }

  function InsF(): Format<seq<TxIn>> { CountedF(InF(), 4) }

  function OutsF(): Format<seq<TxOut>> { CountedF(OutF(), 4) }

  function TxPartsF(): Format<TxParts> { BothF(UIntF(4), BothF(InsF(), BothF(OutsF(), UIntF(4)))) }

  function TxF(): Format<Tx3> { ViaF(TxPartsF(), MakeTx, TxPartsOf) }

  function TxReader(): Reader<Tx3> {
    Via(Both(UInt(4), Both(CountedReader(InReader(), 4), Both(CountedReader(OutReader(), 4), UInt(4)))), MakeTx)
  }

  function TxW(): Writer<Tx3> {
    ViaW(BothW(UIntW(4), BothW(CountedW(InW(), 4), BothW(CountedW(OutW(), 4), UIntW(4)))), TxPartsOf)
  }

  /** A bundle behind its u32 length, taking up all of it. */
  function FrameReader(): Reader<Bundle.Bundle> { Prefixed(BundleCodec.BundleReader(), 4) }

  function FrameW(): Writer<Bundle.Bundle> { PrefixedW(BundleCodec.BundleF().write, 4) }

  function FrameF(): Format<Bundle.Bundle> { PrefixedF(BundleCodec.BundleF(), 4) }

  function FramesF(): Format<seq<Bundle.Bundle>> { CountedF(FrameF(), 4) }

  function MakeMessage(p: (Tx3, seq<Bundle.Bundle>)): Message { Message(p.0, p.1) }

  function MessagePartsOf(m: Message): (Tx3, seq<Bundle.Bundle>) { (m.tx, m.bundles) }

  function MessageReader(): Reader<Message> { Via(Both(TxReader(), CountedReader(FrameReader(), 4)), MakeMessage) }

  function MessageW(): Writer<Message> { ViaW(BothW(TxW(), CountedW(FrameW(), 4)), MessagePartsOf) }

  function MessageF(): Format<Message> { ViaF(BothF(TxF(), FramesF()), MakeMessage, MessagePartsOf) }

  function Encoded(m: Message): seq<byte> { MessageW()(m) }

  /** Which bytes of an encoding are flags: those inside its bundles. */
  function MessageFlags(m: Message): seq<bool> { MessageF().flags(m) }

  function Decoded(data: seq<byte>): Option<Message> { DecodeAll(MessageReader(), data) }

  // ---------------------------------------------------------------- encoding

  method WriteIn(w: WireWriter, i: TxIn)
    modifies w
    ensures w.buf == old(w.buf) + InW()(i)
  {
    w.WriteBytes(i.txid.bytes);
    w.Unsigned(i.vout, 4);
    w.WriteBlob(i.sig, 2);
    w.WriteBlob(i.pubKey, 2);
    InLayout(i);
    NestFour(old(w.buf), i.txid.bytes, UIntW(4)(i.vout), BlobW(2)(i.sig), BlobW(2)(i.pubKey));
  }

  lemma InLayout(i: TxIn)
    ensures InW()(i) == i.txid.bytes + (UIntW(4)(i.vout) + (BlobW(2)(i.sig) + BlobW(2)(i.pubKey)))
  {
    var p := InPartsOf(i);
    var w3 := BothW(BlobW(2), BlobW(2));
    var w2 := BothW(UIntW(4), w3);
    var w1 := BothW(HashW(), w2);
    assert w3(p.1.1) == BlobW(2)(i.sig) + BlobW(2)(i.pubKey);
    assert w2(p.1) == UIntW(4)(i.vout) + w3(p.1.1);
    assert w1(p) == i.txid.bytes + w2(p.1);
    assert InW()(i) == w1(p);
  }

  lemma NestFour(front: seq<byte>, a: seq<byte>, b: seq<byte>, c: seq<byte>, d: seq<byte>)
    ensures front + a + b + c + d == front + (a + (b + (c + d)))
  {
    BundleCodec.Regroup(front + a + b, c, d);
    BundleCodec.Regroup(front + a, b, c + d);
    BundleCodec.Regroup(front, a, b + (c + d));
  }

  method WriteOut(w: WireWriter, o: TxOut)
    modifies w
    ensures w.buf == old(w.buf) + OutW()(o)
  {
    w.Unsigned(o.value, 8);
    w.WriteBlob(o.script, 4);
    OutLayout(o);
    BundleCodec.Regroup(old(w.buf), UIntW(8)(o.value), BlobW(4)(o.script));
  }

  lemma OutLayout(o: TxOut)
    ensures OutW()(o) == UIntW(8)(o.value) + BlobW(4)(o.script)
  {
    var w1 := BothW(UIntW(8), BlobW(4));
    assert w1(OutPartsOf(o)) == UIntW(8)(o.value) + BlobW(4)(o.script);
    assert OutW()(o) == w1(OutPartsOf(o));
  }

  /** The body of the loop of WriteIns. */
  method WriteInAt(w: WireWriter, xs: seq<TxIn>, i: nat, ghost goal: seq<byte>)
    requires i < |xs| && w.buf + Many(InW(), xs[i..]) == goal
    modifies w
    ensures w.buf + Many(InW(), xs[i + 1..]) == goal
  {
    ManyStep(InW(), xs, i, w.buf);
    WriteIn(w, xs[i]);
  }

  method WriteIns(w: WireWriter, xs: seq<TxIn>)
    modifies w
    ensures w.buf == old(w.buf) + CountedW(InW(), 4)(xs)
  {
    ghost var goal := w.buf + Counted(InW(), 4, xs);
    w.Unsigned(|xs|, 4);
    for i := 0 to |xs|
      invariant w.buf + Many(InW(), xs[i..]) == goal
    {
      WriteInAt(w, xs, i, goal);
    }
  }

  /** The body of the loop of WriteOuts. */
  method WriteOutAt(w: WireWriter, xs: seq<TxOut>, i: nat, ghost goal: seq<byte>)
    requires i < |xs| && w.buf + Many(OutW(), xs[i..]) == goal
    modifies w
    ensures w.buf + Many(OutW(), xs[i + 1..]) == goal
  {
    ManyStep(OutW(), xs, i, w.buf);
    WriteOut(w, xs[i]);
  }

  method WriteOuts(w: WireWriter, xs: seq<TxOut>)
    modifies w
    ensures w.buf == old(w.buf) + CountedW(OutW(), 4)(xs)
  {
    ghost var goal := w.buf + Counted(OutW(), 4, xs);
    w.Unsigned(|xs|, 4);
    for i := 0 to |xs|
      invariant w.buf + Many(OutW(), xs[i..]) == goal
    {
      WriteOutAt(w, xs, i, goal);
    }
  }

  method EncodeTx(w: WireWriter, t: Tx3)
    modifies w
    ensures w.buf == old(w.buf) + TxW()(t)
  {
    w.Unsigned(t.version, 4);
    WriteIns(w, t.inputs);
    WriteOuts(w, t.outputs);
    w.Unsigned(t.lockTime, 4);
    TxLayout(t);
    NestFour(old(w.buf), UIntW(4)(t.version), CountedW(InW(), 4)(t.inputs), CountedW(OutW(), 4)(t.outputs),
             UIntW(4)(t.lockTime));
  }

  lemma TxLayout(t: Tx3)
    ensures TxW()(t)
            == UIntW(4)(t.version)
                + (CountedW(InW(), 4)(t.inputs) + (CountedW(OutW(), 4)(t.outputs) + UIntW(4)(t.lockTime)))
  {
    var p := TxPartsOf(t);
    var w3 := BothW(CountedW(OutW(), 4), UIntW(4));
    var w2 := BothW(CountedW(InW(), 4), w3);
    var w1 := BothW(UIntW(4), w2);
    assert w3(p.1.1) == CountedW(OutW(), 4)(t.outputs) + UIntW(4)(t.lockTime);
    assert w2(p.1) == CountedW(InW(), 4)(t.inputs) + w3(p.1.1);
    assert w1(p) == UIntW(4)(t.version) + w2(p.1);
    assert TxW()(t) == w1(p);
  }

  /** The body of the loop of WriteFrameBodies. */
  method WriteFrameAt(w: WireWriter, bs: seq<Bundle.Bundle>, i: nat, ghost goal: seq<byte>)
    requires i < |bs| && w.buf + Many(FrameW(), bs[i..]) == goal
    modifies w
    ensures w.buf + Many(FrameW(), bs[i + 1..]) == goal
  {
    ManyStep(FrameW(), bs, i, w.buf);
    var bb := BundleCodec.Serialize(bs[i]);
    w.WriteBlob(bb, 4);
  }

  method WriteFrames(w: WireWriter, bs: seq<Bundle.Bundle>)
    modifies w
    ensures w.buf == old(w.buf) + CountedW(FrameW(), 4)(bs)
  {
    ghost var start := w.buf;
    w.Unsigned(|bs|, 4);
    WriteFrameBodies(w, bs);
    BundleCodec.Regroup(start, LE(|bs|, 4), Many(FrameW(), bs));
  }

  method WriteFrameBodies(w: WireWriter, bs: seq<Bundle.Bundle>)
    modifies w
    ensures w.buf == old(w.buf) + Many(FrameW(), bs)
  {
    ghost var goal := w.buf + Many(FrameW(), bs);
    for i := 0 to |bs|
      invariant w.buf + Many(FrameW(), bs[i..]) == goal
    {
      WriteFrameAt(w, bs, i, goal);
    }
  }

  method Encode(m: Message) returns (data: seq<byte>)
    ensures data == Encoded(m)
  {
    var w := new WireWriter();
    EncodeTx(w, m.tx);
    WriteFrames(w, m.bundles);
    data := w.buf;
    MessageLayout(m);
  }

  lemma MessageLayout(m: Message)
    ensures Encoded(m) == [] + TxW()(m.tx) + CountedW(FrameW(), 4)(m.bundles)
  {
    var w1 := BothW(TxW(), CountedW(FrameW(), 4));
    assert w1(MessagePartsOf(m)) == TxW()(m.tx) + CountedW(FrameW(), 4)(m.bundles);
    assert Encoded(m) == w1(MessagePartsOf(m));
    assert [] + TxW()(m.tx) == TxW()(m.tx);
  }

  // ---------------------------------------------------------------- decoding

  method ReadIn(r: WireReader) returns (i: TxIn)
    requires r.Valid()
    modifies r
    ensures r.Valid() && Did(InReader(), r.buf, old(r.At()), r.At(), i)
  {
    ghost var p0 := r.At();
    var txid := r.ReadHash();
    ghost var p1 := r.At();
    var vout := r.Unsigned(4);
    ghost var p2 := r.At();
    var sig := r.ReadBytes(2);
    ghost var p3 := r.At();
    var pubKey := r.ReadBytes(2);
    i := TxIn(txid, vout, sig, pubKey);
    var r3 := Both(Blob(2), Blob(2));
    var r2 := Both(UInt(4), r3);
    DidBoth(Blob(2), Blob(2), r.buf, p2, p3, r.At(), sig, pubKey);
    DidBoth(UInt(4), r3, r.buf, p1, p2, r.At(), vout, (sig, pubKey));
    DidBoth(HashReader(), r2, r.buf, p0, p1, r.At(), txid, (vout, (sig, pubKey)));
    DidVia(Both(HashReader(), r2), MakeIn, r.buf, p0, r.At(), InPartsOf(i));
  }

  method ReadOut(r: WireReader) returns (o: TxOut)
    requires r.Valid()
    modifies r
    ensures r.Valid() && Did(OutReader(), r.buf, old(r.At()), r.At(), o)
  {
    ghost var p0 := r.At();
    var value := r.Unsigned(8);
    ghost var p1 := r.At();
    var script := r.ReadBytes(4);
    o := TxOut(value, script);
    DidBoth(UInt(8), Blob(4), r.buf, p0, p1, r.At(), value, script);
    DidVia(Both(UInt(8), Blob(4)), MakeOut, r.buf, p0, r.At(), OutPartsOf(o));
  }

  /** The body of the loop of ReadIns. */
  method NextIn(r: WireReader, ghost left: nat, ghost all: Option<(seq<TxIn>, nat)>, ghost done: seq<TxIn>)
    returns (x: TxIn, ghost fewer: nat)
    requires r.Valid() && !r.err && left > 0 && Onward(ReadMany(InReader(), r.buf, r.off, left), all, done)
    modifies r
    ensures r.Valid() && (r.err ==> all.None?)
    ensures fewer == left - 1
    ensures !r.err ==> Onward(ReadMany(InReader(), r.buf, r.off, fewer), all, done + [x])
  {
    fewer := left - 1;
    OnwardStep(InReader(), r.buf, r.off, left, fewer, all, done);
    x := ReadIn(r);
  }

  method ReadIns(r: WireReader) returns (xs: seq<TxIn>)
    requires r.Valid()
    modifies r
    ensures r.Valid() && Did(CountedReader(InReader(), 4), r.buf, old(r.At()), r.At(), xs)
  {
    var n := r.Unsigned(4);
    xs := [];
    ghost var all := if r.err then None else ReadMany(InReader(), r.buf, r.off, n);
    assert all.Some? ==> [] + all.value.0 == all.value.0;
    var i := 0;
    ghost var left := n;
    while i < n && !r.err
      invariant r.Valid() && i <= n && left == n - i && (old(r.err) ==> r.err)
      invariant r.err ==> all.None?
      invariant !r.err ==> Onward(ReadMany(InReader(), r.buf, r.off, left), all, xs)
      decreases n - i
    {
      var x;
      x, left := NextIn(r, left, all, xs);
      xs := xs + [x];
      i := i + 1;
    }
    assert xs + [] == xs;
  }

  /** The body of the loop of ReadOuts. */
  method NextOut(r: WireReader, ghost left: nat, ghost all: Option<(seq<TxOut>, nat)>, ghost done: seq<TxOut>)
    returns (x: TxOut, ghost fewer: nat)
    requires r.Valid() && !r.err && left > 0 && Onward(ReadMany(OutReader(), r.buf, r.off, left), all, done)
    modifies r
    ensures r.Valid() && (r.err ==> all.None?)
    ensures fewer == left - 1
    ensures !r.err ==> Onward(ReadMany(OutReader(), r.buf, r.off, fewer), all, done + [x])
  {
    fewer := left - 1;
    OnwardStep(OutReader(), r.buf, r.off, left, fewer, all, done);
    x := ReadOut(r);
  }

  method ReadOuts(r: WireReader) returns (xs: seq<TxOut>)
    requires r.Valid()
    modifies r
    ensures r.Valid() && Did(CountedReader(OutReader(), 4), r.buf, old(r.At()), r.At(), xs)
  {
    var n := r.Unsigned(4);
    xs := [];
    ghost var all := if r.err then None else ReadMany(OutReader(), r.buf, r.off, n);
    assert all.Some? ==> [] + all.value.0 == all.value.0;
    var i := 0;
    ghost var left := n;
    while i < n && !r.err
      invariant r.Valid() && i <= n && left == n - i && (old(r.err) ==> r.err)
      invariant r.err ==> all.None?
      invariant !r.err ==> Onward(ReadMany(OutReader(), r.buf, r.off, left), all, xs)
      decreases n - i
    {
      var x;
      x, left := NextOut(r, left, all, xs);
      xs := xs + [x];
      i := i + 1;
    }
    assert xs + [] == xs;
  }

  method DecodeTx(r: WireReader) returns (t: Tx3)
    requires r.Valid()
    modifies r
    ensures r.Valid() && Did(TxReader(), r.buf, old(r.At()), r.At(), t)
  {
    ghost var p0 := r.At();
    var version := r.Unsigned(4);
    ghost var p1 := r.At();
    var inputs := ReadIns(r);
    ghost var p2 := r.At();
    var outputs := ReadOuts(r);
    ghost var p3 := r.At();
    var lockTime := r.Unsigned(4);
    t := Tx3(version, inputs, outputs, lockTime);
    TxDid(r.buf, p0, p1, p2, p3, r.At(), t);
  }

  lemma TxDid(b: seq<byte>, p0: Pos, p1: Pos, p2: Pos, p3: Pos, p4: Pos, t: Tx3)
    requires Did(UInt(4), b, p0, p1, t.version) && Did(CountedReader(InReader(), 4), b, p1, p2, t.inputs)
    requires Did(CountedReader(OutReader(), 4), b, p2, p3, t.outputs) && Did(UInt(4), b, p3, p4, t.lockTime)
    ensures Did(TxReader(), b, p0, p4, t)
  {
    var ri, ro := CountedReader(InReader(), 4), CountedReader(OutReader(), 4);
    var r3 := Both(ro, UInt(4));
    var r2 := Both(ri, r3);
    DidBoth(ro, UInt(4), b, p2, p3, p4, t.outputs, t.lockTime);
    DidBoth(ri, r3, b, p1, p2, p4, t.inputs, (t.outputs, t.lockTime));
    DidBoth(UInt(4), r2, b, p0, p1, p4, t.version, (t.inputs, (t.outputs, t.lockTime)));
    DidVia(Both(UInt(4), r2), MakeTx, b, p0, p4, TxPartsOf(t));
  }

  /** The bundles of a message; a bundle that does not parse ends it at once. */
  method ReadFrames(r: WireReader) returns (bs: Option<seq<Bundle.Bundle>>)
    requires r.Valid() && !r.err
    modifies r
    ensures r.Valid() && (bs.Some? ==> !r.err)
    ensures match CountedReader(FrameReader(), 4)(r.buf, old(r.off))
            case None => bs.None?
            case Some((xs, end)) => bs == Some(xs) && r.off == end
  {
    var n := r.Unsigned(4);
    if r.err {
      return None;
    }
    bs := ReadFrameList(r, n, FrameReader());
  }

  /** The body of the loop of ReadFrameList. */
  method NextFrame(r: WireReader, ghost read: Reader<Bundle.Bundle>, ghost left: nat,
                   ghost all: Option<(seq<Bundle.Bundle>, nat)>, ghost done: seq<Bundle.Bundle>)
    returns (x: Option<Bundle.Bundle>, ghost fewer: nat)
    requires read == FrameReader()
    requires r.Valid() && !r.err && left > 0 && Onward(ReadMany(read, r.buf, r.off, left), all, done)
    modifies r
    ensures r.Valid() && (x.Some? ==> !r.err) && (x.None? ==> all.None?)
    ensures fewer == left - 1
    ensures x.Some? ==> Onward(ReadMany(read, r.buf, r.off, fewer), all, done + [x.value])
  {
    fewer := left - 1;
    OnwardStep(read, r.buf, r.off, left, fewer, all, done);
    x := ReadFrame(r);
  }

  method ReadFrameList(r: WireReader, n: nat, ghost read: Reader<Bundle.Bundle>)
    returns (bs: Option<seq<Bundle.Bundle>>)
    requires read == FrameReader() && r.Valid() && !r.err
    modifies r
    ensures r.Valid() && (bs.Some? ==> !r.err)
    ensures match ReadMany(read, r.buf, old(r.off), n)
            case None => bs.None?
            case Some((xs, end)) => bs == Some(xs) && r.off == end
  {
    var xs := [];
    ghost var all := ReadMany(read, r.buf, r.off, n);
    assert all.Some? ==> [] + all.value.0 == all.value.0;
    ghost var left := n;
    for i := 0 to n
      invariant r.Valid() && !r.err && left == n - i
      invariant Onward(ReadMany(read, r.buf, r.off, left), all, xs)
    {
      var x;
      x, left := NextFrame(r, read, left, all, xs);
      if x.None? {
        return None;
      }
      xs := xs + [x.value];
    }
    assert xs + [] == xs;
    return Some(xs);
  }

  method ReadFrame(r: WireReader) returns (x: Option<Bundle.Bundle>)
    requires r.Valid() && !r.err
    modifies r
    ensures r.Valid() && (x.Some? ==> !r.err)
    ensures match FrameReader()(r.buf, old(r.off))
            case None => x.None?
            case Some((y, end)) => x == Some(y) && r.off == end
  {
    ghost var from := r.At();
    var bb := r.ReadBytes(4);
    DidParsed(Blob(4), Decoder(BundleCodec.BundleReader()), r.buf, from, r.At(), bb);
    if r.err {
      return None;
    }
    x := BundleCodec.Deserialize(bb);
  }

  method DecodeMessage(data: seq<byte>) returns (m: Option<Message>)
    ensures m == Decoded(data)
  {
    var r := new WireReader(data);
    var tx := DecodeTx(r);
    if r.err {
      return None;
    }
    var bs := ReadFrames(r);
    if bs.None? {
      return None;
    }
    if r.off != |r.buf| {
      return None;
    }
    return Some(Message(tx, bs.value));
  }

  // ---------------------------------------------------------------- results

  const U32 := 0x1_0000_0000

  ghost predicate InSized(i: TxIn) { i.vout < U32 && |i.sig| < 0x1_0000 && |i.pubKey| < 0x1_0000 }

  ghost predicate OutSized(o: TxOut) { o.value < U32 * U32 && |o.script| < U32 }

  /** Numbers and lengths within the width of their fields on the wire. */
  ghost predicate TxSized(t: Tx3) {
    && t.version < U32 && t.lockTime < U32 && |t.inputs| < U32 && |t.outputs| < U32
    && (forall i :: 0 <= i < |t.inputs| ==> InSized(t.inputs[i]))
    && (forall i :: 0 <= i < |t.outputs| ==> OutSized(t.outputs[i]))
  }

  /** A bundle that comes back, of a length that fits its prefix. */
  ghost predicate BundleOk(b: Bundle.Bundle) {
    BundleCodec.Sized(b) && BundleCodec.PathsShort(b) && |BundleCodec.Serialized(b)| < U32
  }

  ghost predicate MessageSized(m: Message) {
    TxSized(m.tx) && |m.bundles| < U32 && forall i :: 0 <= i < |m.bundles| ==> BundleOk(m.bundles[i])
  }

  lemma InFaithful(i: TxIn)
    requires InSized(i)
    ensures Faithful(InF(), i, true)
  {
    Widths();
    HashFaithful(i.txid);
    UIntFaithful(4, i.vout);
    BlobFaithful(2, i.sig);
    BlobFaithful(2, i.pubKey);
    BothFaithful(BlobF(2), BlobF(2), i.sig, i.pubKey, true, true);
    ThreeFaithful(HashF(), UIntF(4), BothF(BlobF(2), BlobF(2)), i.txid, i.vout, (i.sig, i.pubKey), true, true, true);
    ViaFaithful(InPartsF(), MakeIn, InPartsOf, i, true);
  }

  lemma OutFaithful(o: TxOut)
    requires OutSized(o)
    ensures Faithful(OutF(), o, true)
  {
    Widths();
    UIntFaithful(8, o.value);
    BlobFaithful(4, o.script);
    BothFaithful(UIntF(8), BlobF(4), o.value, o.script, true, true);
    ViaFaithful(BothF(UIntF(8), BlobF(4)), MakeOut, OutPartsOf, o, true);
  }

  lemma InsFaithful(xs: seq<TxIn>)
    requires |xs| < U32 && forall i :: 0 <= i < |xs| ==> InSized(xs[i])
    ensures Faithful(InsF(), xs, true)
  {
    Widths();
    forall i | 0 <= i < |xs| ensures Faithful(InF(), xs[i], true) {
      InFaithful(xs[i]);
    }
    CountedFaithful(InF(), 4, xs);
  }

  lemma OutsFaithful(xs: seq<TxOut>)
    requires |xs| < U32 && forall i :: 0 <= i < |xs| ==> OutSized(xs[i])
    ensures Faithful(OutsF(), xs, true)
  {
    Widths();
    forall i | 0 <= i < |xs| ensures Faithful(OutF(), xs[i], true) {
      OutFaithful(xs[i]);
    }
    CountedFaithful(OutF(), 4, xs);
  }

  /** A transaction from its parts, whatever their formats. */
  lemma TxOfParts(t: Tx3, fa: Format<nat>, fb: Format<seq<TxIn>>, fc: Format<(seq<TxOut>, nat)>)
    requires Faithful(fa, t.version, true) && Faithful(fb, t.inputs, true) &&
             Faithful(fc, (t.outputs, t.lockTime), true)
    ensures Faithful(ViaF(BothF(fa, BothF(fb, fc)), MakeTx, TxPartsOf), t, true)
  {
    ThreeFaithful(fa, fb, fc, t.version, t.inputs, (t.outputs, t.lockTime), true, true, true);
    ViaFaithful(BothF(fa, BothF(fb, fc)), MakeTx, TxPartsOf, t, true);
  }

  lemma U32Faithful(n: nat)
    requires n < U32
    ensures Faithful(UIntF(4), n, true)
  {
    Widths();
    UIntFaithful(4, n);
  }

  lemma TxEndFaithful(outs: seq<TxOut>, lockTime: nat)
    requires |outs| < U32 && (forall i :: 0 <= i < |outs| ==> OutSized(outs[i])) && lockTime < U32
    ensures Faithful(BothF(OutsF(), UIntF(4)), (outs, lockTime), true)
  {
    OutsFaithful(outs);
    U32Faithful(lockTime);
    BothFaithful(OutsF(), UIntF(4), outs, lockTime, true, true);
  }

  lemma TxFaithful(t: Tx3)
    requires TxSized(t)
    ensures Faithful(TxF(), t, true)
  {
    U32Faithful(t.version);
    InsFaithful(t.inputs);
    TxEndFaithful(t.outputs, t.lockTime);
    TxOfParts(t, UIntF(4), InsF(), BothF(OutsF(), UIntF(4)));
  }

  lemma FramesFaithful(bs: seq<Bundle.Bundle>)
    requires |bs| < U32 && forall i :: 0 <= i < |bs| ==> BundleOk(bs[i])
    ensures Faithful(FramesF(), bs, true)
  {
    Widths();
    BundleCodec.BundleExact();
    forall i | 0 <= i < |bs| ensures Faithful(FrameF(), bs[i], true) {
      GoodFrameIff(bs[i]);
      PrefixedFaithful(BundleCodec.BundleF(), BundleCodec.Good(), 4, bs[i]);
    }
    CountedFaithful(FrameF(), 4, bs);
  }

  /** A message from its parts, whatever their formats. */
  lemma MessageOfParts(m: Message, fa: Format<Tx3>, fb: Format<seq<Bundle.Bundle>>)
    requires Faithful(fa, m.tx, true) && Faithful(fb, m.bundles, true)
    ensures Faithful(ViaF(BothF(fa, fb), MakeMessage, MessagePartsOf), m, true)
  {
    BothFaithful(fa, fb, m.tx, m.bundles, true, true);
    ViaFaithful(BothF(fa, fb), MakeMessage, MessagePartsOf, m, true);
  }

  lemma MessageFaithful(m: Message)
    requires MessageSized(m)
    ensures Faithful(MessageF(), m, true)
  {
    TxFaithful(m.tx);
    FramesFaithful(m.bundles);
    MessageOfParts(m, TxF(), FramesF());
  }

  // ---------------------------------------------------------------- what is read

  ghost function GoodIn(): TxIn -> bool { (i: TxIn) => InSized(i) }

  lemma InStrict()
    ensures Strict(InF(), GoodIn())
  {
    var f3, g3 := BothF(BlobF(2), BlobF(2)), Pairs(Shorter<byte>(2), Shorter<byte>(2));
    var f2, g2 := BothF(UIntF(4), f3), Pairs(Below(Pow256(4)), g3);
    Widths();
    HashStrict();
    UIntStrict(4);
    BlobStrict(2);
    BothStrict(BlobF(2), BlobF(2), Shorter(2), Shorter(2));
    BothStrict(UIntF(4), f3, Below(Pow256(4)), g3);
    BothStrict(HashF(), f2, All(), g2);
    ViaStrict(InPartsF(), MakeIn, InPartsOf, Pairs(All(), g2), GoodIn());
  }

  ghost function GoodOut(): TxOut -> bool { (o: TxOut) => OutSized(o) }

  lemma OutStrict()
    ensures Strict(OutF(), GoodOut())
  {
    Widths();
    UIntStrict(8);
    BlobStrict(4);
    BothStrict(UIntF(8), BlobF(4), Below(Pow256(8)), Shorter(4));
    ViaStrict(BothF(UIntF(8), BlobF(4)), MakeOut, OutPartsOf, Pairs(Below(Pow256(8)), Shorter(4)), GoodOut());
  }

  ghost function GoodTx(): Tx3 -> bool { (t: Tx3) => TxSized(t) }

  ghost function GoodTxParts(): TxParts -> bool {
    Pairs(Below(Pow256(4)), Pairs(Each(4, GoodIn()), Pairs(Each(4, GoodOut()), Below(Pow256(4)))))
  }

  lemma TxStrict()
    ensures Strict(TxF(), GoodTx())
  {
    var u := Below(Pow256(4));
    var g3 := Pairs(Each(4, GoodOut()), u);
    UIntStrict(4);
    InStrict();
    OutStrict();
    CountedStrict(InF(), 4, GoodIn());
    CountedStrict(OutF(), 4, GoodOut());
    BothStrict(OutsF(), UIntF(4), Each(4, GoodOut()), u);
    BothStrict(InsF(), BothF(OutsF(), UIntF(4)), Each(4, GoodIn()), g3);
    BothStrict(UIntF(4), BothF(InsF(), BothF(OutsF(), UIntF(4))), u, Pairs(Each(4, GoodIn()), g3));
    forall p | GoodTxParts()(p) ensures GoodTx()(MakeTx(p)) && TxPartsOf(MakeTx(p)) == p {
      GoodTxOf(p);
    }
    ViaStrict(TxPartsF(), MakeTx, TxPartsOf, GoodTxParts(), GoodTx());
  }

  lemma GoodTxOf(p: TxParts)
    requires GoodTxParts()(p)
    ensures GoodTx()(MakeTx(p)) && TxPartsOf(MakeTx(p)) == p
  {
    Widths();
    assert Each(4, GoodIn())(p.1.0) && Each(4, GoodOut())(p.1.1.0) && Below(Pow256(4))(p.1.1.1);
    forall i | 0 <= i < |p.1.0| ensures InSized(p.1.0[i]) {
      assert GoodIn()(p.1.0[i]);
    }
    forall i | 0 <= i < |p.1.1.0| ensures OutSized(p.1.1.0[i]) {
      assert GoodOut()(p.1.1.0[i]);
    }
  }

  ghost function GoodFrame(): Bundle.Bundle -> bool { Fitting(BundleCodec.BundleF(), BundleCodec.Good(), 4) }

  lemma GoodFrameIff(b: Bundle.Bundle)
    ensures GoodFrame()(b) <==> BundleOk(b)
  {
    Widths();
  }

  ghost function GoodMessage(): Message -> bool { (m: Message) => MessageSized(m) }

  lemma MessageStrict()
    ensures Strict(MessageF(), GoodMessage())
  {
    var fs, gs := FramesF(), Each(4, GoodFrame());
    var g := Pairs(GoodTx(), gs);
    TxStrict();
    BundleCodec.BundleExact();
    PrefixedStrict(BundleCodec.BundleF(), BundleCodec.Good(), 4);
    CountedStrict(FrameF(), 4, GoodFrame());
    BothStrict(TxF(), fs, GoodTx(), gs);
    forall p | g(p) ensures GoodMessage()(MakeMessage(p)) && MessagePartsOf(MakeMessage(p)) == p {
      assert gs(p.1) && GoodTx()(p.0);
      GoodMessageOf(p.0, p.1);
    }
    ViaStrict(BothF(TxF(), fs), MakeMessage, MessagePartsOf, g, GoodMessage());
  }

  lemma GoodMessageOf(t: Tx3, bs: seq<Bundle.Bundle>)
    requires TxSized(t) && Each(4, GoodFrame())(bs)
    ensures MessageSized(Message(t, bs))
  {
    Widths();
    forall i | 0 <= i < |bs| ensures BundleOk(bs[i]) {
      assert GoodFrame()(bs[i]);
      GoodFrameIff(bs[i]);
    }
  }

  lemma MessageExact()
    ensures Exact(MessageF(), GoodMessage())
  {
    MessageStrict();
    forall m | GoodMessage()(m) ensures Faithful(MessageF(), m, true) {
      MessageFaithful(m);
    }
  }

  /** What DecodeMessage accepts, exactly: it returns m on the bytes that are m's encoding up to the
      flags inside its bundles, and on no others. */
  lemma DecodedIff(data: seq<byte>, m: Message)
    ensures Decoded(data) == Some(m) <==> MessageSized(m) && Spells(data, Encoded(m), MessageFlags(m))
  {
    MessageExact();
    DecodesSpellings(MessageF(), GoodMessage(), data, m);
  }

  /** DecodeMessage inverts Encode. */
  lemma MessageRoundTrip(m: Message)
    ensures Decoded(Encoded(m)) == Some(m) <==> MessageSized(m)
  {
    if MessageSized(m) {
      MessageFaithful(m);
    }
    DecodedIff(Encoded(m), m);
  }

  /** Bytes are the encoding of the message they decode to exactly if their flags are zeros and ones. */
  lemma MessageCanonicalIff(data: seq<byte>, m: Message)
    requires Decoded(data) == Some(m)
    ensures data == Encoded(m) <==> ZeroOrOne(data, MessageFlags(m))
  {
    DecodedIff(data, m);
    Canonical(data, Encoded(m), MessageFlags(m));
  }

  /** No strict prefix of accepted bytes is accepted, and nothing may follow them. */
  lemma OnlyWholeMessage(data: seq<byte>, k: nat, more: seq<byte>)
    requires Decoded(data).Some? && k < |data|
    ensures Decoded(data[..k]).None?
    ensures more != [] ==> Decoded(data + more).None?
  {
    MessageExact();
    OnlyWhole(MessageF(), GoodMessage(), data, k, more);
  }

  // ---------------------------------------------------------------- what a signature covers

  /** An input as the signature sees it: its key stands there without a length, which a reader
      would have to know. */
  function BareInF(keyLength: nat): Format<TxIn> {
    ViaF(BothF(HashF(), BothF(UIntF(4), ExactlyF(keyLength))), MakeBare, BareParts)
  }

  function BareInW(): Writer<TxIn> { ViaW(BothW(HashW(), BothW(UIntW(4), RawW())), BareParts) }

  function BareParts(i: TxIn): (Hash, (nat, seq<byte>)) { (i.txid, (i.vout, i.pubKey)) }

  function MakeBare(p: (Hash, (nat, seq<byte>))): TxIn { TxIn(p.0, p.1.0, [], p.1.1) }

  type PreimageParts = (nat, (seq<TxIn>, (seq<TxOut>, (nat, nat))))

  function PreimageW(): Writer<PreimageParts> {
    BothW(UIntW(4), BothW(CountedW(BareInW(), 4), BothW(CountedW(OutW(), 4), BothW(UIntW(4), UIntW(4)))))
  }

  /** The transaction without its signatures. */
  function Unsigned(t: Tx3): Tx3 { t.(inputs := Stripped(t.inputs)) }

  function Stripped(xs: seq<TxIn>): (ys: seq<TxIn>)
    ensures |ys| == |xs|
  {
    seq(|xs|, i requires 0 <= i < |xs| => xs[i].(sig := []))
  }

  function PreimageOf(t: Tx3, index: nat): PreimageParts {
    (t.version, (Stripped(t.inputs), (t.outputs, (t.lockTime, index))))
  }

  function Preimage(t: Tx3, index: nat): seq<byte> { PreimageW()(PreimageOf(t, index)) }

  function Sighash(sha: Sha256d, t: Tx3, index: nat): Hash { sha(Preimage(t, index)) }

  method BuildPreimage(t: Tx3, index: nat) returns (data: seq<byte>)
    ensures data == Preimage(t, index)
  {
    var w := new WireWriter();
    w.Unsigned(t.version, 4);
    WriteBareIns(w, t.inputs);
    WriteOuts(w, t.outputs);
    w.Unsigned(t.lockTime, 4);
    w.Unsigned(index, 4);
    data := w.buf;
    PreimageLayout(t, index);
  }

  lemma PreimageLayout(t: Tx3, index: nat)
    ensures Preimage(t, index) == [] + UIntW(4)(t.version) + CountedW(BareInW(), 4)(Stripped(t.inputs))
                                  + CountedW(OutW(), 4)(t.outputs) + UIntW(4)(t.lockTime) + UIntW(4)(index)
  {
    var p := PreimageOf(t, index);
    var w4 := BothW(UIntW(4), UIntW(4));
    var w3 := BothW(CountedW(OutW(), 4), w4);
    var w2 := BothW(CountedW(BareInW(), 4), w3);
    var w1 := BothW(UIntW(4), w2);
    assert w4(p.1.1.1) == UIntW(4)(t.lockTime) + UIntW(4)(index);
    assert w3(p.1.1) == CountedW(OutW(), 4)(t.outputs) + w4(p.1.1.1);
    assert w2(p.1) == CountedW(BareInW(), 4)(Stripped(t.inputs)) + w3(p.1.1);
    assert w1(p) == UIntW(4)(t.version) + w2(p.1);
    NestFour(UIntW(4)(t.version), CountedW(BareInW(), 4)(Stripped(t.inputs)), CountedW(OutW(), 4)(t.outputs),
             UIntW(4)(t.lockTime), UIntW(4)(index));
    assert [] + UIntW(4)(t.version) == UIntW(4)(t.version);
  }

  method WriteBareIns(w: WireWriter, xs: seq<TxIn>)
    modifies w
    ensures w.buf == old(w.buf) + CountedW(BareInW(), 4)(Stripped(xs))
  {
    ghost var ys := Stripped(xs);
    ghost var goal := w.buf + Counted(BareInW(), 4, ys);
    w.Unsigned(|xs|, 4);
    for i := 0 to |xs|
      invariant w.buf + Many(BareInW(), ys[i..]) == goal
    {
      ManyStep(BareInW(), ys, i, w.buf);
      WriteBareIn(w, xs[i]);
    }
  }

  method WriteBareIn(w: WireWriter, i: TxIn)
    modifies w
    ensures w.buf == old(w.buf) + BareInW()(i.(sig := []))
  {
    w.WriteBytes(i.txid.bytes);
    w.Unsigned(i.vout, 4);
    w.WriteBytes(i.pubKey);
    BareLayout(i.(sig := []));
    BundleCodec.Regroup(old(w.buf) + i.txid.bytes, UIntW(4)(i.vout), i.pubKey);
    BundleCodec.Regroup(old(w.buf), i.txid.bytes, UIntW(4)(i.vout) + i.pubKey);
  }

  lemma BareLayout(i: TxIn)
    ensures BareInW()(i) == i.txid.bytes + (UIntW(4)(i.vout) + i.pubKey)
  {
    var p := BareParts(i);
    var w2 := BothW(UIntW(4), RawW());
    var w1 := BothW(HashW(), w2);
    assert w2(p.1) == UIntW(4)(i.vout) + i.pubKey;
    assert w1(p) == i.txid.bytes + w2(p.1);
    assert BareInW()(i) == w1(p);
  }

  // ---------------------------------------------------------------- what those bytes determine

  const KEY_LENGTH := 33

  lemma BareFaithful(i: TxIn)
    requires i.vout < U32 && i.sig == []
    ensures Faithful(BareInF(|i.pubKey|), i, true)
  {
    var n := |i.pubKey|;
    Widths();
    HashFaithful(i.txid);
    UIntFaithful(4, i.vout);
    ExactlyFaithful(n, i.pubKey);
    ThreeFaithful(HashF(), UIntF(4), ExactlyF(n), i.txid, i.vout, i.pubKey, true, true, true);
    ViaFaithful(BothF(HashF(), BothF(UIntF(4), ExactlyF(n))), MakeBare, BareParts, i, true);
  }

  /** Two values that one format takes off the front of the same bytes. */
  lemma SameFront<T(!new)>(f: Format<T>, x: T, y: T, r: seq<byte>, s: seq<byte>)
    requires Faithful(f, x, true) && Faithful(f, y, true) && f.write(x) + r == f.write(y) + s
    ensures x == y && r == s
  {
    var w := f.write(x) + r;
    assert w[0..|f.write(x)|] == f.write(x) && w[0..|f.write(y)|] == f.write(y);
    assert Spelt(w, 0, f.write(x), f.flags(x)) && Spelt(w, 0, f.write(y), f.flags(y));
    assert w[|f.write(x)|..] == r && w[|f.write(y)|..] == s;
  }

  ghost predicate SameKeyLengths(xs: seq<TxIn>, ys: seq<TxIn>) {
    |xs| == |ys| && forall i :: 0 <= i < |xs| ==> |xs[i].pubKey| == |ys[i].pubKey|
  }

  ghost predicate Bare(xs: seq<TxIn>) { forall i :: 0 <= i < |xs| ==> xs[i].vout < U32 && xs[i].sig == [] }

  lemma {:induction false} SameInputs(xs: seq<TxIn>, ys: seq<TxIn>, r: seq<byte>, s: seq<byte>)
    requires SameKeyLengths(xs, ys) && Bare(xs) && Bare(ys)
    requires Many(BareInW(), xs) + r == Many(BareInW(), ys) + s
    ensures xs == ys && r == s
    decreases xs
  {
    if xs != [] {
      var xs', ys' := xs[1..], ys[1..];
      BundleCodec.Regroup(BareInW()(xs[0]), Many(BareInW(), xs'), r);
      BundleCodec.Regroup(BareInW()(ys[0]), Many(BareInW(), ys'), s);
      BareFaithful(xs[0]);
      BareFaithful(ys[0]);
      SameFront(BareInF(|xs[0].pubKey|), xs[0], ys[0], Many(BareInW(), xs') + r, Many(BareInW(), ys') + s);
      SameInputs(xs', ys', r, s);
      assert xs == [xs[0]] + xs' && ys == [ys[0]] + ys';
    } else {
      assert Many(BareInW(), xs) + r == r && Many(BareInW(), ys) + s == s;
    }
  }

  type TailParts = (seq<TxOut>, (nat, nat))

  /** Outputs, lock time and input index. */
  function TailF(): Format<TailParts> { BothF(OutsF(), BothF(UIntF(4), UIntF(4))) }

  function TailW(): Writer<TailParts> { BothW(CountedW(OutW(), 4), BothW(UIntW(4), UIntW(4))) }

  lemma TailFaithful(t: Tx3, index: nat)
    requires TxSized(t) && index < U32
    ensures Faithful(TailF(), (t.outputs, (t.lockTime, index)), true)
  {
    OutsFaithful(t.outputs);
    U32Faithful(t.lockTime);
    U32Faithful(index);
    ThreeFaithful(OutsF(), UIntF(4), UIntF(4), t.outputs, t.lockTime, index, true, true, true);
  }

  /** The signed bytes behind the input count. */
  function InputsAndTail(t: Tx3, index: nat): seq<byte> {
    Many(BareInW(), Stripped(t.inputs)) + TailW()((t.outputs, (t.lockTime, index)))
  }

  /** The signed bytes: version, input count, inputs, and the rest. */
  lemma PreimageShape(t: Tx3, index: nat)
    ensures Preimage(t, index) == UIntW(4)(t.version) + (UIntW(4)(|t.inputs|) + InputsAndTail(t, index))
  {
    var p := PreimageOf(t, index);
    var w2 := BothW(CountedW(BareInW(), 4), TailW());
    assert w2(p.1) == CountedW(BareInW(), 4)(Stripped(t.inputs)) + TailW()(p.1.1);
    assert BothW(UIntW(4), w2)(p) == UIntW(4)(t.version) + w2(p.1);
    BundleCodec.Regroup(LE(|t.inputs|, 4), Many(BareInW(), Stripped(t.inputs)), TailW()(p.1.1));
  }

  lemma SameUInt(n: nat, m: nat, r: seq<byte>, s: seq<byte>)
    requires n < U32 && m < U32 && UIntW(4)(n) + r == UIntW(4)(m) + s
    ensures n == m && r == s
  {
    U32Faithful(n);
    U32Faithful(m);
    SameFront(UIntF(4), n, m, r, s);
  }

  /** Equal signed bytes have equal versions and equally many inputs. */
  lemma SameCounts(t: Tx3, i: nat, u: Tx3, j: nat)
    requires TxSized(t) && TxSized(u) && Preimage(t, i) == Preimage(u, j)
    ensures t.version == u.version && |t.inputs| == |u.inputs| && InputsAndTail(t, i) == InputsAndTail(u, j)
  {
    var a, b := InputsAndTail(t, i), InputsAndTail(u, j);
    PreimageShape(t, i);
    PreimageShape(u, j);
    SameUInt(t.version, u.version, UIntW(4)(|t.inputs|) + a, UIntW(4)(|u.inputs|) + b);
    SameUInt(|t.inputs|, |u.inputs|, a, b);
  }

  lemma SamePreimage(t: Tx3, i: nat, u: Tx3, j: nat)
    requires TxSized(t) && i < U32 && TxSized(u) && j < U32
    requires Preimage(t, i) == Preimage(u, j) && SameKeyLengths(t.inputs, u.inputs)
    ensures Unsigned(t) == Unsigned(u) && i == j
  {
    SameCounts(t, i, u, j);
    StrippedBare(t);
    StrippedBare(u);
    var a, b := (t.outputs, (t.lockTime, i)), (u.outputs, (u.lockTime, j));
    SameInputs(Stripped(t.inputs), Stripped(u.inputs), TailW()(a), TailW()(b));
    TailFaithful(t, i);
    TailFaithful(u, j);
    SameFront(TailF(), a, b, [], []);
  }

  lemma StrippedBare(t: Tx3)
    requires TxSized(t)
    ensures Bare(Stripped(t.inputs))
  {
    forall i | 0 <= i < |t.inputs| ensures Stripped(t.inputs)[i].vout < U32 && Stripped(t.inputs)[i].sig == [] {
      assert InSized(t.inputs[i]);
    }
  }

  /** What the signed bytes determine, exactly: together with the lengths of the keys they are the
      unsigned transaction and the input index, and without them they are not (KeyLengthMatters). */
  lemma PreimageIff(t: Tx3, i: nat, u: Tx3, j: nat)
    requires TxSized(t) && i < U32 && TxSized(u) && j < U32
    ensures Preimage(t, i) == Preimage(u, j) && SameKeyLengths(t.inputs, u.inputs) <==>
            Unsigned(t) == Unsigned(u) && i == j
  {
    if Preimage(t, i) == Preimage(u, j) && SameKeyLengths(t.inputs, u.inputs) {
      SamePreimage(t, i, u, j);
    } else if Unsigned(t) == Unsigned(u) && i == j {
      forall k | 0 <= k < |t.inputs| ensures |t.inputs[k].pubKey| == |u.inputs[k].pubKey| {
        assert Stripped(t.inputs)[k].pubKey == Stripped(u.inputs)[k].pubKey;
      }
    }
  }

  ghost predicate KeysCompressed(t: Tx3) { forall i :: 0 <= i < |t.inputs| ==> |t.inputs[i].pubKey| == KEY_LENGTH }

  /** With 33-byte keys the signed bytes determine the unsigned transaction and the input index. */
  lemma PreimageInjective(t: Tx3, i: nat, u: Tx3, j: nat)
    requires TxSized(t) && KeysCompressed(t) && i < U32 && TxSized(u) && KeysCompressed(u) && j < U32
    requires Preimage(t, i) == Preimage(u, j)
    ensures Unsigned(t) == Unsigned(u) && i == j
  {
    SameCounts(t, i, u, j);
    SamePreimage(t, i, u, j);
  }

  /** So a signature digest stands for one unsigned transaction and one input, unless the two
      signed byte strings collide. */
  lemma SighashBinds(sha: Sha256d, t: Tx3, i: nat, u: Tx3, j: nat)
    requires TxSized(t) && KeysCompressed(t) && i < U32 && TxSized(u) && KeysCompressed(u) && j < U32
    requires Sighash(sha, t, i) == Sighash(sha, u, j)
    ensures (Unsigned(t) == Unsigned(u) && i == j) || CollisionIn(sha, {Preimage(t, i), Preimage(u, j)})
  {
    if Preimage(t, i) == Preimage(u, j) {
      PreimageInjective(t, i, u, j);
    }
  }

  lemma {:induction false} ManySnoc<T>(write: Writer<T>, xs: seq<T>, x: T)
    ensures Many(write, xs + [x]) == Many(write, xs) + write(x)
    decreases xs
  {
    if xs == [] {
      assert [] + [x] == [x] && [x][1..] == [];
      assert Many(write, []) + write(x) == write(x);
    } else {
      assert (xs + [x])[0] == xs[0] && (xs + [x])[1..] == xs[1..] + [x];
      ManySnoc(write, xs[1..], x);
      BundleCodec.Regroup(write(xs[0]), Many(write, xs[1..]), write(x));
    }
  }

  /** The key lengths matter: behind any inputs, the signed one with its 33-byte key among them, a
      last input's 12-byte key can pass for an output, and two different transactions have one
      preimage. */
  lemma KeyLengthMatters(version: nat, signed: seq<TxIn>, txid: Hash, vout: nat, value: nat, lockTime: nat, index: nat)
    ensures var t := Tx3(version, signed + [TxIn(txid, vout, [], LE(1, 4) + LE(value, 8))], [], lockTime);
            var u := Tx3(version, signed + [TxIn(txid, vout, [], [])], [TxOut(value, [])], lockTime);
            Preimage(t, index) == Preimage(u, index) && Unsigned(t) != Unsigned(u)
  {
    var a, b := TxIn(txid, vout, [], LE(1, 4) + LE(value, 8)), TxIn(txid, vout, [], []);
    var o := TxOut(value, []);
    var t, u := Tx3(version, signed + [a], [], lockTime), Tx3(version, signed + [b], [o], lockTime);
    assert Stripped(signed + [a]) == Stripped(signed) + [a] && Stripped(signed + [b]) == Stripped(signed) + [b];
    ManySnoc(BareInW(), Stripped(signed), a);
    ManySnoc(BareInW(), Stripped(signed), b);
    LastKeyAsOutput(Many(BareInW(), Stripped(signed)), a, b, o, UIntW(4)(lockTime) + UIntW(4)(index));
    TailLayout([], lockTime, index);
    TailLayout([o], lockTime, index);
    PreimageShape(t, index);
    PreimageShape(u, index);
  }

  lemma TailLayout(outs: seq<TxOut>, lockTime: nat, index: nat)
    ensures TailW()((outs, (lockTime, index))) == CountedW(OutW(), 4)(outs) + (UIntW(4)(lockTime) + UIntW(4)(index))
  {
    assert BothW(UIntW(4), UIntW(4))((lockTime, index)) == UIntW(4)(lockTime) + UIntW(4)(index);
  }

  lemma LastKeyAsOutput(front: seq<byte>, a: TxIn, b: TxIn, o: TxOut, rest: seq<byte>)
    requires a == b.(pubKey := LE(1, 4) + LE(o.value, 8)) && b.pubKey == [] && o.script == []
    ensures front + BareInW()(a) + (CountedW(OutW(), 4)([]) + rest)
            == front + BareInW()(b) + (CountedW(OutW(), 4)([o]) + rest)
  {
    BareLayout(a);
    BareLayout(b);
    OutLayout(o);
    assert BlobW(4)([]) == LE(0, 4) + [] == LE(0, 4);
    assert Many(OutW(), [o]) == OutW()(o) + Many(OutW(), [o][1..]) == OutW()(o) + [];
    assert CountedW(OutW(), 4)([o]) == LE(1, 4) + (LE(o.value, 8) + LE(0, 4)) &&
           CountedW(OutW(), 4)([]) == LE(0, 4) + [];
    KeyAsOutput(a.txid.bytes, UIntW(4)(a.vout), LE(1, 4), LE(o.value, 8), LE(0, 4));
    BundleCodec.Regroup(front, BareInW()(a), LE(0, 4) + rest);
    BundleCodec.Regroup(BareInW()(a), LE(0, 4), rest);
    BundleCodec.Regroup(front, BareInW()(b), CountedW(OutW(), 4)([o]) + rest);
    BundleCodec.Regroup(BareInW()(b), CountedW(OutW(), 4)([o]), rest);
  }

  lemma KeyAsOutput(id: seq<byte>, vout: seq<byte>, one: seq<byte>, value: seq<byte>, zero: seq<byte>)
    ensures (id + (vout + (one + value))) + zero == (id + (vout + [])) + (one + (value + zero))
  {
    assert vout + [] == vout;
    BundleCodec.Regroup(id, vout + (one + value), zero);
    BundleCodec.Regroup(vout, one + value, zero);
    BundleCodec.Regroup(one, value, zero);
    BundleCodec.Regroup(id, vout, one + (value + zero));
  }
}
