/** bundle/serialize.go: the wire form of bundles, and exactly which bytes are read as which bundle. */
module BundleCodec {
  import opened Commitment
  import opened Bytes
  import opened Wire
  import opened Bundle

  /** The ceiling the reader puts on a path count. */
  const PATH_LIMIT := MAX_DEPTH + 1

  type Paths = (seq<PathElem>, (seq<PathElem>, seq<PathElem>))
  type AnchorParts = (Hash, (seq<PathElem>, (seq<FieldLeaf>, (Paths, (Hash, Header)))))
  type BundleParts = (Hash, (nat, (seq<FieldLeaf>, (Paths, (Header, Option<AnchorProof>)))))

  // ---------------------------------------------------------------- the format

  function PathsF(): Format<Paths> { BothF(PathF(PATH_LIMIT), BothF(PathF(PATH_LIMIT), PathF(PATH_LIMIT))) }

  function PathsReader(): Reader<Paths> { PathsF().read }

  function PathsW(): Writer<Paths> { PathsF().write }

  function FieldsF(): Format<seq<FieldLeaf>> { CountedF(FieldF(), 2) }

  function FieldsReader(): Reader<seq<FieldLeaf>> { FieldsF().read }

  function FieldsW(): Writer<seq<FieldLeaf>> { FieldsF().write }

  function MakeAnchor(p: AnchorParts): AnchorProof {
    AnchorProof(p.0, p.1.0, p.1.1.0, p.1.1.1.0.0, p.1.1.1.0.1.0, p.1.1.1.0.1.1, p.1.1.1.1.0, p.1.1.1.1.1)
  }

  function AnchorPartsOf(a: AnchorProof): AnchorParts {
    (a.accRoot, (a.accPath, (a.genFields, ((a.genL0, (a.genL1, a.genL2)), (a.carryingRoot, a.carryingHeader)))))
  }

  function AnchorPartsF(): Format<AnchorParts> {
    BothF(HashF(), BothF(PathF(PATH_LIMIT), BothF(FieldsF(), BothF(PathsF(), BothF(HashF(), HeaderF())))))
  }

  function AnchorF(): Format<AnchorProof> { ViaF(AnchorPartsF(), MakeAnchor, AnchorPartsOf) }

  function AnchorReader(): Reader<AnchorProof> { AnchorF().read }

  function AnchorW(): Writer<AnchorProof> { AnchorF().write }

  function OptionalF(): Format<Option<AnchorProof>> { FlaggedF(AnchorF()) }

  function OptionalReader(): Reader<Option<AnchorProof>> { OptionalF().read }

  function OptionalW(): Writer<Option<AnchorProof>> { OptionalF().write }

  function MakeBundle(p: BundleParts): Bundle {
    Bundle(OutputRef(p.0, p.1.0), p.1.1.0, p.1.1.1.0.0, p.1.1.1.0.1.0, p.1.1.1.0.1.1, p.1.1.1.1.0, p.1.1.1.1.1)
  }

  function BundlePartsOf(b: Bundle): BundleParts {
    (b.output.txid, (b.output.vout, (b.fields, ((b.mtxidPath, (b.subtreePath, b.blockPath)), (b.header, b.anchor)))))
  }

  function BundlePartsF(): Format<BundleParts> {
    BothF(HashF(), BothF(UIntF(4), BothF(FieldsF(), BothF(PathsF(), BothF(HeaderF(), OptionalF())))))
  }

  function BundleF(): Format<Bundle> { ViaF(BundlePartsF(), MakeBundle, BundlePartsOf) }

  function BundleReader(): Reader<Bundle> { BundleF().read }

  function Serialized(b: Bundle): seq<byte> { BundleF().write(b) }

  /** Which bytes of an encoding are flags: the one of the anchor and one of every path element. */
  function BundleFlags(b: Bundle): seq<bool> { BundleF().flags(b) }

  function Deserialized(data: seq<byte>): Option<Bundle> { DecodeAll(BundleReader(), data) }

  // ---------------------------------------------------------------- the methods

  method WritePaths(w: WireWriter, p: seq<PathElem>, q: seq<PathElem>, r: seq<PathElem>)
    modifies w
    ensures w.buf == old(w.buf) + PathsW()((p, (q, r)))
  {
    w.WritePathElems(p);
    w.WritePathElems(q);
    w.WritePathElems(r);
  }

  /** The encoding of an anchor, piece by piece. */
  lemma AnchorLayout(a: AnchorProof)
    ensures AnchorW()(a)
         == a.accRoot.bytes + (PathW()(a.accPath) + (FieldsW()(a.genFields) + (PathsW()((a.genL0, (a.genL1, a.genL2)))
            + (a.carryingRoot.bytes + a.carryingHeader.bytes))))
  {
    var p := AnchorPartsOf(a);
    var w5 := BothW(HashW(), HeaderW());
    var w4 := BothW(PathsW(), w5);
    var w3 := BothW(FieldsW(), w4);
    var w2 := BothW(PathW(), w3);
    var w1 := BothW(HashW(), w2);
    assert w5(p.1.1.1.1) == a.carryingRoot.bytes + a.carryingHeader.bytes;
    assert w4(p.1.1.1) == PathsW()(p.1.1.1.0) + w5(p.1.1.1.1);
    assert w3(p.1.1) == FieldsW()(p.1.1.0) + w4(p.1.1.1);
    assert w2(p.1) == PathW()(p.1.0) + w3(p.1.1);
    assert w1(p) == a.accRoot.bytes + w2(p.1);
    assert AnchorW()(a) == w1(p);
  }

  /** The encoding of a bundle, piece by piece. */
  lemma BundleLayout(b: Bundle)
    ensures Serialized(b)
         == [] + (b.output.txid.bytes + (UIntW(4)(b.output.vout) + (FieldsW()(b.fields)
            + (PathsW()((b.mtxidPath, (b.subtreePath, b.blockPath))) + (b.header.bytes + OptionalW()(b.anchor))))))
  {
    var p := BundlePartsOf(b);
    var w5 := BothW(HeaderW(), OptionalW());
    var w4 := BothW(PathsW(), w5);
    var w3 := BothW(FieldsW(), w4);
    var w2 := BothW(UIntW(4), w3);
    var w1 := BothW(HashW(), w2);
    assert w5(p.1.1.1.1) == b.header.bytes + OptionalW()(b.anchor);
    assert w4(p.1.1.1) == PathsW()(p.1.1.1.0) + w5(p.1.1.1.1);
    assert w3(p.1.1) == FieldsW()(p.1.1.0) + w4(p.1.1.1);
    assert w2(p.1) == UIntW(4)(p.1.0) + w3(p.1.1);
    assert w1(p) == b.output.txid.bytes + w2(p.1);
    assert Serialized(b) == w1(p);
  }

  lemma Nested(front: seq<byte>, a: seq<byte>, b: seq<byte>, c: seq<byte>, d: seq<byte>, e: seq<byte>, f: seq<byte>)
    ensures front + a + b + c + d + e + f == front + (a + (b + (c + (d + (e + f)))))
  {
    Regroup(front + a + b + c + d, e, f);
    Regroup(front + a + b + c, d, e + f);
    Regroup(front + a + b, c, d + (e + f));
    Regroup(front + a, b, c + (d + (e + f)));
    Regroup(front, a, b + (c + (d + (e + f))));
  }

  lemma Regroup(a: seq<byte>, b: seq<byte>, c: seq<byte>)
    ensures a + b + c == a + (b + c)
  {
  }

  method WriteAnchor(w: WireWriter, a: AnchorProof)
    modifies w
    ensures w.buf == old(w.buf) + AnchorW()(a)
  {
    w.WriteBytes(a.accRoot.bytes);
    w.WritePathElems(a.accPath);
    w.WriteFields(a.genFields);
    WritePaths(w, a.genL0, a.genL1, a.genL2);
    w.WriteBytes(a.carryingRoot.bytes);
    w.WriteBytes(a.carryingHeader.bytes);
    AnchorLayout(a);
    Nested(old(w.buf), a.accRoot.bytes, PathW()(a.accPath), FieldsW()(a.genFields),
           PathsW()((a.genL0, (a.genL1, a.genL2))),
           a.carryingRoot.bytes, a.carryingHeader.bytes);
  }

  method Serialize(b: Bundle) returns (data: seq<byte>)
    ensures data == Serialized(b)
  {
    var w := new WireWriter();
    w.WriteBytes(b.output.txid.bytes);
    w.Unsigned(b.output.vout, 4);
    w.WriteFields(b.fields);
    WritePaths(w, b.mtxidPath, b.subtreePath, b.blockPath);
    w.WriteBytes(b.header.bytes);
    WriteOptional(w, b.anchor);
    data := w.buf;
    Nested([], b.output.txid.bytes, UIntW(4)(b.output.vout), FieldsW()(b.fields),
           PathsW()((b.mtxidPath, (b.subtreePath, b.blockPath))), b.header.bytes, OptionalW()(b.anchor));
    BundleLayout(b);
  }

  method WriteOptional(w: WireWriter, a: Option<AnchorProof>)
    modifies w
    ensures w.buf == old(w.buf) + OptionalW()(a)
  {
    if a.None? {
      w.U8(0);
    } else {
      w.U8(1);
      WriteAnchor(w, a.value);
      Regroup(old(w.buf), [1], AnchorW()(a.value));
    }
  }

  method ReadPaths(r: WireReader) returns (p: seq<PathElem>, q: seq<PathElem>, s: seq<PathElem>)
    requires r.Valid()
    modifies r
    ensures r.Valid() && Did(PathsReader(), r.buf, old(r.At()), r.At(), (p, (q, s)))
  {
    ghost var p0 := r.At();
    p := r.ReadPathElems(PATH_LIMIT);
    ghost var p1 := r.At();
    q := r.ReadPathElems(PATH_LIMIT);
    ghost var p2 := r.At();
    s := r.ReadPathElems(PATH_LIMIT);
    DidBoth(PathReader(PATH_LIMIT), PathReader(PATH_LIMIT), r.buf, p1, p2, r.At(), q, s);
    DidBoth(PathReader(PATH_LIMIT), Both(PathReader(PATH_LIMIT), PathReader(PATH_LIMIT)), r.buf, p0, p1, r.At(), p,
            (q, s));
  }

  method ReadAnchor(r: WireReader) returns (a: AnchorProof)
    requires r.Valid()
    modifies r
    ensures r.Valid() && Did(AnchorReader(), r.buf, old(r.At()), r.At(), a)
  {
    ghost var p0 := r.At();
    var accRoot := r.ReadHash();
    ghost var p1 := r.At();
    var accPath := r.ReadPathElems(PATH_LIMIT);
    ghost var p2 := r.At();
    var fields := r.Fields();
    ghost var p3 := r.At();
    var l0, l1, l2 := ReadPaths(r);
    ghost var p4 := r.At();
    var root := r.ReadHash();
    ghost var p5 := r.At();
    var header := r.ReadHeader();
    a := AnchorProof(accRoot, accPath, fields, l0, l1, l2, root, header);
    AnchorDid(r.buf, p0, p1, p2, p3, p4, p5, r.At(), a);
  }

  lemma AnchorDid(b: seq<byte>, p0: Pos, p1: Pos, p2: Pos, p3: Pos, p4: Pos, p5: Pos, p6: Pos, a: AnchorProof)
    requires Did(HashReader(), b, p0, p1, a.accRoot) && Did(PathReader(PATH_LIMIT), b, p1, p2, a.accPath)
    requires Did(FieldsReader(), b, p2, p3, a.genFields) && Did(PathsReader(), b, p3, p4, (a.genL0, (a.genL1, a.genL2)))
    requires Did(HashReader(), b, p4, p5, a.carryingRoot) && Did(HeaderReader(), b, p5, p6, a.carryingHeader)
    ensures Did(AnchorReader(), b, p0, p6, a)
  {
    var parts := AnchorPartsOf(a);
    var r5 := Both(HashReader(), HeaderReader());
    var r4 := Both(PathsReader(), r5);
    var r3 := Both(FieldsReader(), r4);
    var r2 := Both(PathReader(PATH_LIMIT), r3);
    DidBoth(HashReader(), HeaderReader(), b, p4, p5, p6, a.carryingRoot, a.carryingHeader);
    DidBoth(PathsReader(), r5, b, p3, p4, p6, parts.1.1.1.0, parts.1.1.1.1);
    DidBoth(FieldsReader(), r4, b, p2, p3, p6, parts.1.1.0, parts.1.1.1);
    DidBoth(PathReader(PATH_LIMIT), r3, b, p1, p2, p6, parts.1.0, parts.1.1);
    DidBoth(HashReader(), r2, b, p0, p1, p6, parts.0, parts.1);
    DidVia(Both(HashReader(), r2), MakeAnchor, b, p0, p6, parts);
  }

  method ReadOptionalAnchor(r: WireReader) returns (a: Option<AnchorProof>)
    requires r.Valid()
    modifies r
    ensures r.Valid() && Did(OptionalReader(), r.buf, old(r.At()), r.At(), a)
  {
    var has := r.U8();
    a := None;
    ghost var p1 := r.At();
    if !r.err && has == 1 {
      var anchor := ReadAnchor(r);
      a := Some(anchor);
    }
    DidFlagged(AnchorReader(), r.buf, old(r.At()), p1, r.At(), has, a);
  }

  lemma BundleDid(data: seq<byte>, p0: Pos, p1: Pos, p2: Pos, p3: Pos, p4: Pos, p5: Pos, p6: Pos, b: Bundle)
    requires Did(HashReader(), data, p0, p1, b.output.txid) && Did(UInt(4), data, p1, p2, b.output.vout)
    requires Did(FieldsReader(), data, p2, p3, b.fields)
    requires Did(PathsReader(), data, p3, p4, (b.mtxidPath, (b.subtreePath, b.blockPath)))
    requires Did(HeaderReader(), data, p4, p5, b.header) && Did(OptionalReader(), data, p5, p6, b.anchor)
    ensures Did(BundleReader(), data, p0, p6, b)
  {
    var parts := BundlePartsOf(b);
    var r5 := Both(HeaderReader(), OptionalReader());
    var r4 := Both(PathsReader(), r5);
    var r3 := Both(FieldsReader(), r4);
    var r2 := Both(UInt(4), r3);
    DidBoth(HeaderReader(), OptionalReader(), data, p4, p5, p6, b.header, b.anchor);
    DidBoth(PathsReader(), r5, data, p3, p4, p6, parts.1.1.1.0, parts.1.1.1.1);
    DidBoth(FieldsReader(), r4, data, p2, p3, p6, parts.1.1.0, parts.1.1.1);
    DidBoth(UInt(4), r3, data, p1, p2, p6, parts.1.0, parts.1.1);
    DidBoth(HashReader(), r2, data, p0, p1, p6, parts.0, parts.1);
    DidVia(Both(HashReader(), r2), MakeBundle, data, p0, p6, parts);
  }

  /** A failed read leaves the error set, so the reads after it change nothing: the source's early
      returns and the single check at the end reject the same inputs. */
  method Deserialize(data: seq<byte>) returns (r: Option<Bundle>)
    ensures r == Deserialized(data)
  {
    var rd := new WireReader(data);
    ghost var p0 := rd.At();
    var txid := rd.ReadHash();
    ghost var p1 := rd.At();
    var vout := rd.Unsigned(4);
    ghost var p2 := rd.At();
    var fields := rd.Fields();
    ghost var p3 := rd.At();
    var l0, l1, l2 := ReadPaths(rd);
    ghost var p4 := rd.At();
    var header := rd.ReadHeader();
    ghost var p5 := rd.At();
    var anchor := ReadOptionalAnchor(rd);
    var b := Bundle(OutputRef(txid, vout), fields, l0, l1, l2, header, anchor);
    BundleDid(data, p0, p1, p2, p3, p4, p5, rd.At(), b);
    DidAll(BundleReader(), data, rd.At(), b);
    if rd.err {
      return None;
    }
    if rd.off != |rd.buf| {
      return None;
    }
    return Some(b);
  }

  // ---------------------------------------------------------------- results

  /** Lengths and numbers within the width of their fields on the wire. */
  ghost predicate FieldsSized(fs: seq<FieldLeaf>) {
    |fs| < 0x1_0000 && forall i :: 0 <= i < |fs| ==> |fs[i].bytes| < 0x1_0000
  }

  ghost predicate AnchorSized(a: AnchorProof) {
    && FieldsSized(a.genFields)
    && |a.accPath| < 0x1_0000 && |a.genL0| < 0x1_0000 && |a.genL1| < 0x1_0000 && |a.genL2| < 0x1_0000
  }

  ghost predicate Sized(b: Bundle) {
    && b.output.vout < 0x1_0000_0000 && FieldsSized(b.fields)
    && |b.mtxidPath| < 0x1_0000 && |b.subtreePath| < 0x1_0000 && |b.blockPath| < 0x1_0000
    && (b.anchor.Some? ==> AnchorSized(b.anchor.value))
  }

  predicate AnchorPathsShort(a: AnchorProof) {
    |a.accPath| <= PATH_LIMIT && |a.genL0| <= PATH_LIMIT && |a.genL1| <= PATH_LIMIT && |a.genL2| <= PATH_LIMIT
  }

  predicate PathsShort(b: Bundle) {
    && |b.mtxidPath| <= PATH_LIMIT && |b.subtreePath| <= PATH_LIMIT && |b.blockPath| <= PATH_LIMIT
    && (b.anchor.Some? ==> AnchorPathsShort(b.anchor.value))
  }

  lemma FieldsFaithful(fs: seq<FieldLeaf>)
    requires FieldsSized(fs)
    ensures Faithful(FieldsF(), fs, true)
  {
    Widths();
    forall i | 0 <= i < |fs| ensures Faithful(FieldF(), fs[i], true) {
      FieldFaithful(fs[i]);
    }
    CountedFaithful(FieldF(), 2, fs);
  }

  lemma PathsFaithful(p: seq<PathElem>, q: seq<PathElem>, r: seq<PathElem>)
    requires |p| < 0x1_0000 && |q| < 0x1_0000 && |r| < 0x1_0000
    ensures Faithful(PathsF(), (p, (q, r)), |p| <= PATH_LIMIT && |q| <= PATH_LIMIT && |r| <= PATH_LIMIT)
  {
    var f, gp, gq, gr := PathF(PATH_LIMIT), |p| <= PATH_LIMIT, |q| <= PATH_LIMIT, |r| <= PATH_LIMIT;
    PathFaithful(PATH_LIMIT, p);
    PathFaithful(PATH_LIMIT, q);
    PathFaithful(PATH_LIMIT, r);
    BothFaithful(f, f, q, r, gq, gr);
    BothFaithful(f, BothF(f, f), p, (q, r), gp, gq && gr);
  }

  /** The fields, the paths, the root and the header of an anchor. */
  lemma AnchorTailFaithful(a: AnchorProof, g: bool)
    requires AnchorSized(a)
    requires g == (|a.genL0| <= PATH_LIMIT && |a.genL1| <= PATH_LIMIT && |a.genL2| <= PATH_LIMIT)
    ensures Faithful(BothF(FieldsF(), BothF(PathsF(), BothF(HashF(), HeaderF()))), AnchorPartsOf(a).1.1, g)
  {
    var parts := AnchorPartsOf(a);
    FieldsFaithful(a.genFields);
    PathsFaithful(a.genL0, a.genL1, a.genL2);
    HashFaithful(a.carryingRoot);
    HeaderFaithful(a.carryingHeader);
    BothFaithful(HashF(), HeaderF(), a.carryingRoot, a.carryingHeader, true, true);
    ThreeFaithful(FieldsF(), PathsF(), BothF(HashF(), HeaderF()), parts.1.1.0, parts.1.1.1.0, parts.1.1.1.1, true, g,
                  true);
  }

  lemma AnchorFaithful(a: AnchorProof)
    requires AnchorSized(a)
    ensures Faithful(AnchorF(), a, AnchorPathsShort(a))
  {
    var parts := AnchorPartsOf(a);
    var f3 := BothF(FieldsF(), BothF(PathsF(), BothF(HashF(), HeaderF())));
    var g0 := |a.accPath| <= PATH_LIMIT;
    var g := |a.genL0| <= PATH_LIMIT && |a.genL1| <= PATH_LIMIT && |a.genL2| <= PATH_LIMIT;
    HashFaithful(a.accRoot);
    PathFaithful(PATH_LIMIT, a.accPath);
    AnchorTailFaithful(a, g);
    ThreeFaithful(HashF(), PathF(PATH_LIMIT), f3, parts.0, parts.1.0, parts.1.1, true, g0, g);
    ViaFaithful(AnchorPartsF(), MakeAnchor, AnchorPartsOf, a, AnchorPathsShort(a));
  }

  lemma OptionalFaithful(a: Option<AnchorProof>)
    requires a.Some? ==> AnchorSized(a.value)
    ensures Faithful(OptionalF(), a, a.Some? ==> AnchorPathsShort(a.value))
  {
    if a.Some? {
      AnchorFaithful(a.value);
      SomeFaithful(AnchorF(), a.value, AnchorPathsShort(a.value));
    } else {
      NoneFaithful(AnchorF());
    }
  }

  /** The fields, the paths, the header and the anchor of a bundle. */
  lemma TailFaithful(b: Bundle, g: bool, g0: bool)
    requires Sized(b)
    requires g == (|b.mtxidPath| <= PATH_LIMIT && |b.subtreePath| <= PATH_LIMIT && |b.blockPath| <= PATH_LIMIT)
    requires g0 == (b.anchor.Some? ==> AnchorPathsShort(b.anchor.value))
    ensures Faithful(BothF(FieldsF(), BothF(PathsF(), BothF(HeaderF(), OptionalF()))), BundlePartsOf(b).1.1, g && g0)
  {
    var parts := BundlePartsOf(b);
    var f5 := BothF(HeaderF(), OptionalF());
    FieldsFaithful(b.fields);
    PathsFaithful(b.mtxidPath, b.subtreePath, b.blockPath);
    HeaderFaithful(b.header);
    OptionalFaithful(b.anchor);
    BothFaithful(HeaderF(), OptionalF(), b.header, b.anchor, true, g0);
    ThreeFaithful(FieldsF(), PathsF(), f5, parts.1.1.0, parts.1.1.1.0, parts.1.1.1.1, true, g, g0);
  }

  lemma BundlePartsFaithful(b: Bundle, g: bool, g0: bool)
    requires Sized(b) &&
             g == (|b.mtxidPath| <= PATH_LIMIT && |b.subtreePath| <= PATH_LIMIT && |b.blockPath| <= PATH_LIMIT)
    requires g0 == (b.anchor.Some? ==> AnchorPathsShort(b.anchor.value))
    ensures Faithful(BundlePartsF(), BundlePartsOf(b), g && g0)
  {
    var parts := BundlePartsOf(b);
    var f3 := BothF(FieldsF(), BothF(PathsF(), BothF(HeaderF(), OptionalF())));
    Widths();
    HashFaithful(b.output.txid);
    UIntFaithful(4, b.output.vout);
    TailFaithful(b, g, g0);
    ThreeFaithful(HashF(), UIntF(4), f3, parts.0, parts.1.0, parts.1.1, true, true, g && g0);
  }

  lemma BundleFaithful(b: Bundle)
    requires Sized(b)
    ensures Faithful(BundleF(), b, PathsShort(b))
  {
    BundlePartsFaithful(b, |b.mtxidPath| <= PATH_LIMIT && |b.subtreePath| <= PATH_LIMIT && |b.blockPath| <= PATH_LIMIT,
                        b.anchor.Some? ==> AnchorPathsShort(b.anchor.value));
    ViaFaithful(BundlePartsF(), MakeBundle, BundlePartsOf, b, PathsShort(b));
  }

  /** Deserialize inverts Serialize exactly on the bundles whose paths have at most 256 elements. */
  lemma RoundTripIff(b: Bundle)
    requires Sized(b)
    ensures Deserialized(Serialized(b)) == Some(b) <==> PathsShort(b)
    ensures !PathsShort(b) ==> Deserialized(Serialized(b)).None?
  {
    BundleFaithful(b);
    var w := Serialized(b);
    assert w[0..|w|] == w;
    assert Spelt(w, 0, w, BundleFlags(b));
  }

  // ---------------------------------------------------------------- what is read

  ghost function GoodPaths(): Paths -> bool {
    Pairs(PathShort(PATH_LIMIT), Pairs(PathShort(PATH_LIMIT), PathShort(PATH_LIMIT)))
  }

  lemma PathsStrict()
    ensures Strict(PathsF(), GoodPaths())
  {
    var f, g := PathF(PATH_LIMIT), PathShort(PATH_LIMIT);
    PathStrict(PATH_LIMIT);
    BothStrict(f, f, g, g);
    BothStrict(f, BothF(f, f), g, Pairs(g, g));
  }

  ghost function GoodFields(): seq<FieldLeaf> -> bool { Each(2, FieldShort()) }

  lemma FieldsStrict()
    ensures Strict(FieldsF(), GoodFields())
  {
    FieldStrict();
    CountedStrict(FieldF(), 2, FieldShort());
  }

  lemma GoodFieldsSized(fs: seq<FieldLeaf>)
    requires GoodFields()(fs)
    ensures FieldsSized(fs)
  {
    Widths();
    forall i | 0 <= i < |fs| ensures |fs[i].bytes| < 0x1_0000 {
      assert FieldShort()(fs[i]);
    }
  }

  ghost function GoodAnchor(): AnchorProof -> bool { (a: AnchorProof) => AnchorSized(a) && AnchorPathsShort(a) }

  ghost function GoodAnchorParts(): AnchorParts -> bool {
    Pairs(All(), Pairs(PathShort(PATH_LIMIT), Pairs(GoodFields(), Pairs(GoodPaths(), Pairs(All(), All())))))
  }

  lemma AnchorStrict()
    ensures Strict(AnchorF(), GoodAnchor())
  {
    var f5, g5 := BothF(HashF(), HeaderF()), Pairs(All<Hash>(), All<Header>());
    var f4, g4 := BothF(PathsF(), f5), Pairs(GoodPaths(), g5);
    var f3, g3 := BothF(FieldsF(), f4), Pairs(GoodFields(), g4);
    var f2, g2 := BothF(PathF(PATH_LIMIT), f3), Pairs(PathShort(PATH_LIMIT), g3);
    HashStrict();
    HeaderStrict();
    PathStrict(PATH_LIMIT);
    PathsStrict();
    FieldsStrict();
    BothStrict(HashF(), HeaderF(), All(), All());
    BothStrict(PathsF(), f5, GoodPaths(), g5);
    BothStrict(FieldsF(), f4, GoodFields(), g4);
    BothStrict(PathF(PATH_LIMIT), f3, PathShort(PATH_LIMIT), g3);
    BothStrict(HashF(), f2, All(), g2);
    forall p | GoodAnchorParts()(p) ensures GoodAnchor()(MakeAnchor(p)) && AnchorPartsOf(MakeAnchor(p)) == p {
      GoodAnchorOf(p);
    }
    ViaStrict(AnchorPartsF(), MakeAnchor, AnchorPartsOf, GoodAnchorParts(), GoodAnchor());
  }

  lemma GoodAnchorOf(p: AnchorParts)
    requires GoodAnchorParts()(p)
    ensures GoodAnchor()(MakeAnchor(p)) && AnchorPartsOf(MakeAnchor(p)) == p
  {
    Widths();
    GoodFieldsSized(p.1.1.0);
    assert GoodPaths()(p.1.1.1.0);
  }

  ghost function GoodOptional(): Option<AnchorProof> -> bool { Maybe(GoodAnchor()) }

  ghost function Good(): Bundle -> bool { (b: Bundle) => Sized(b) && PathsShort(b) }

  ghost function GoodParts(): BundleParts -> bool {
    Pairs(All(), Pairs(Below(Pow256(4)), Pairs(GoodFields(), Pairs(GoodPaths(), Pairs(All(), GoodOptional())))))
  }

  lemma BundleStrict()
    ensures Strict(BundleF(), Good())
  {
    var f5, g5 := BothF(HeaderF(), OptionalF()), Pairs(All<Header>(), GoodOptional());
    var f4, g4 := BothF(PathsF(), f5), Pairs(GoodPaths(), g5);
    var f3, g3 := BothF(FieldsF(), f4), Pairs(GoodFields(), g4);
    var f2, g2 := BothF(UIntF(4), f3), Pairs(Below(Pow256(4)), g3);
    HashStrict();
    UIntStrict(4);
    HeaderStrict();
    PathsStrict();
    FieldsStrict();
    AnchorStrict();
    FlaggedStrict(AnchorF(), GoodAnchor());
    BothStrict(HeaderF(), OptionalF(), All(), GoodOptional());
    BothStrict(PathsF(), f5, GoodPaths(), g5);
    BothStrict(FieldsF(), f4, GoodFields(), g4);
    BothStrict(UIntF(4), f3, Below(Pow256(4)), g3);
    BothStrict(HashF(), f2, All(), g2);
    forall p | GoodParts()(p) ensures Good()(MakeBundle(p)) && BundlePartsOf(MakeBundle(p)) == p {
      GoodOf(p);
    }
    ViaStrict(BundlePartsF(), MakeBundle, BundlePartsOf, GoodParts(), Good());
  }

  lemma GoodOf(p: BundleParts)
    requires GoodParts()(p)
    ensures Good()(MakeBundle(p)) && BundlePartsOf(MakeBundle(p)) == p
  {
    Widths();
    GoodFieldsSized(p.1.1.0);
    assert GoodPaths()(p.1.1.1.0);
    assert GoodOptional()(p.1.1.1.1.1) && Below(Pow256(4))(p.1.0);
    assert p.1.1.1.1.1.Some? ==> GoodAnchor()(p.1.1.1.1.1.value);
  }

  lemma BundleExact()
    ensures Exact(BundleF(), Good())
  {
    BundleStrict();
    forall b | Good()(b) ensures Faithful(BundleF(), b, true) {
      BundleFaithful(b);
    }
  }

  /** What Deserialize accepts, exactly: it returns b on the bytes that are b's encoding up to flag
      bytes, where anything but one stands for the zero that Serialize writes, and on no others. */
  lemma DeserializedIff(data: seq<byte>, b: Bundle)
    ensures Deserialized(data) == Some(b) <==> Sized(b) && PathsShort(b) && Spells(data, Serialized(b), BundleFlags(b))
  {
    BundleExact();
    DecodesSpellings(BundleF(), Good(), data, b);
  }

  /** So the format is canonical up to those flags: bytes are the encoding of the bundle they decode
      to exactly if their flags are zeros and ones. */
  lemma CanonicalIff(data: seq<byte>, b: Bundle)
    requires Deserialized(data) == Some(b)
    ensures data == Serialized(b) <==> ZeroOrOne(data, BundleFlags(b))
  {
    DeserializedIff(data, b);
    Canonical(data, Serialized(b), BundleFlags(b));
  }

  /** No strict prefix of accepted bytes is accepted, and nothing may follow them. */
  lemma OnlyWholeBundle(data: seq<byte>, k: nat, more: seq<byte>)
    requires Deserialized(data).Some? && k < |data|
    ensures Deserialized(data[..k]).None?
    ensures more != [] ==> Deserialized(data + more).None?
  {
    BundleExact();
    OnlyWhole(BundleF(), Good(), data, k, more);
  }
}
