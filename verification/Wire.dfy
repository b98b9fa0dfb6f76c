/** The reader and writer objects behind bundle/serialize.go:94-223 and payment/payment.go:207-273,
    and readers as values: what a sequence of reads accepts is a reader put together from smaller
    ones, and so are the facts that it inverts a writer and that it reads nothing but what the
    writer writes, up to flag bytes. */
module Wire {
  import opened Commitment
  import opened Bytes

  type Writer<!T> = T -> seq<byte>

  // ---------------------------------------------------------------- elementary readers

  function UInt(k: nat): Reader<nat> {
    (b: seq<byte>, o: nat) => if o + k > |b| then None else Some((UIntAt(b, o, k), o + k))
  }

  function UIntW(k: nat): Writer<nat> { (n: nat) => LE(n, k) }

  /** A fixed number of bytes. */
  function Exactly(k: nat): Reader<seq<byte>> {
    (b: seq<byte>, o: nat) => if o + k > |b| then None else Some((b[o..o + k], o + k))
  }

  function RawW(): Writer<seq<byte>> { (s: seq<byte>) => s }

  function HashReader(): Reader<Hash> {
    (b: seq<byte>, o: nat) => if o + 32 > |b| then None else Some((HashAt(b, o), o + 32))
  }

  function HashW(): Writer<Hash> { (h: Hash) => h.bytes }

  function HeaderReader(): Reader<Header> {
    (b: seq<byte>, o: nat) => if o + 80 > |b| then None else Some((HeaderAt(b, o), o + 80))
  }

  function HeaderW(): Writer<Header> { (h: Header) => h.bytes }

  /** A k-byte length and that many bytes. */
  function ReadBlob(k: nat, b: seq<byte>, o: nat): Option<(seq<byte>, nat)> {
    if o + k > |b| then None
    else
      var end := o + k + UIntAt(b, o, k);
      if end > |b| then None else Some((b[o + k..end], end))
  }

  function Blob(k: nat): Reader<seq<byte>> { (b: seq<byte>, o: nat) => ReadBlob(k, b, o) }

  function BlobW(k: nat): Writer<seq<byte>> { (s: seq<byte>) => LE(|s|, k) + s }

  function PathReader(limit: nat): Reader<seq<PathElem>> { (b: seq<byte>, o: nat) => ReadPath(b, o, limit) }

  function PathW(): Writer<seq<PathElem>> { (p: seq<PathElem>) => PathBytes(p) }

  /** A transaction field: index byte, u16 length, bytes. */
  function ReadField(b: seq<byte>, o: nat): Option<(FieldLeaf, nat)> {
    if o + 1 > |b| then None
    else
      match ReadBlob(2, b, o + 1)
      case None => None
      case Some((s, end)) => Some((FieldLeaf(b[o], s), end))
  }

  function FieldReader(): Reader<FieldLeaf> { (b: seq<byte>, o: nat) => ReadField(b, o) }

  function FieldW(): Writer<FieldLeaf> { (f: FieldLeaf) => [f.index] + (LE(|f.bytes|, 2) + f.bytes) }

  // ---------------------------------------------------------------- readers from readers

  function ReadBoth<A, B>(ra: Reader<A>, rb: Reader<B>, b: seq<byte>, o: nat): Option<((A, B), nat)> {
    match ra(b, o)
    case None => None
    case Some((x, mid)) =>
      match rb(b, mid)
      case None => None
      case Some((y, end)) => Some(((x, y), end))
  }

  /** One reader after another. */
  function Both<A, B>(ra: Reader<A>, rb: Reader<B>): Reader<(A, B)> {
    (b: seq<byte>, o: nat) => ReadBoth(ra, rb, b, o)
  }

  /** One after the other; `C` is a byte when writing and a mark when marking flags. */
  function BothW<A, B, C>(wa: A -> seq<C>, wb: B -> seq<C>): ((A, B)) -> seq<C> { (p: (A, B)) => wa(p.0) + wb(p.1) }

  function ReadVia<A, B>(read: Reader<A>, make: A -> B, b: seq<byte>, o: nat): Option<(B, nat)> {
    match read(b, o)
    case None => None
    case Some((x, end)) => Some((make(x), end))
  }

  /** A record read as its parts. */
  function Via<A, B>(read: Reader<A>, make: A -> B): Reader<B> { (b: seq<byte>, o: nat) => ReadVia(read, make, b, o) }

  function ViaW<A, B, C>(write: A -> seq<C>, parts: B -> A): B -> seq<C> { (x: B) => write(parts(x)) }

  function ReadParsed<A, B>(read: Reader<A>, parse: A -> Option<B>, b: seq<byte>, o: nat): Option<(B, nat)> {
    match read(b, o)
    case None => None
    case Some((x, end)) =>
      match parse(x)
      case None => None
      case Some(y) => Some((y, end))
  }

  /** A value that has to be parsed once it is read. */
  function Parsed<A, B>(read: Reader<A>, parse: A -> Option<B>): Reader<B> {
    (b: seq<byte>, o: nat) => ReadParsed(read, parse, b, o)
  }

  function ReadFlagged<T>(read: Reader<T>, b: seq<byte>, o: nat): Option<(Option<T>, nat)> {
    if o + 1 > |b| then None
    else if b[o] != 1 then Some((None, o + 1))
    else
      match read(b, o + 1)
      case None => None
      case Some((x, end)) => Some((Some(x), end))
  }

  /** A flag byte, and a value if the flag is one; every other flag means that there is none. */
  function Flagged<T>(read: Reader<T>): Reader<Option<T>> { (b: seq<byte>, o: nat) => ReadFlagged(read, b, o) }

  function FlaggedW<T>(write: Writer<T>): Writer<Option<T>> {
    (x: Option<T>) => if x.None? then [0] else [1] + write(x.value)
  }

  function CountedReader<T>(read: Reader<T>, k: nat): Reader<seq<T>> {
    (b: seq<byte>, o: nat) => ReadCounted(read, k, b, o)
  }

  function CountedW<T>(write: Writer<T>, k: nat): Writer<seq<T>> { (xs: seq<T>) => Counted(write, k, xs) }

  /** All of the input. */
  function DecodeAll<T>(read: Reader<T>, data: seq<byte>): Option<T> {
    match read(data, 0)
    case None => None
    case Some((x, end)) => if end == |data| then Some(x) else None
  }

  function Decoder<T>(read: Reader<T>): seq<byte> -> Option<T> { (s: seq<byte>) => DecodeAll(read, s) }

  /** A value behind its k-byte length, taking up all of it. */
  function Prefixed<T>(read: Reader<T>, k: nat): Reader<T> { Parsed(Blob(k), Decoder(read)) }

  function PrefixedW<T>(write: Writer<T>, k: nat): Writer<T> { (x: T) => BlobW(k)(write(x)) }

  // ---------------------------------------------------------------- formats

  /** How values are read, how they are written, and which of the written bytes are flags. */
  datatype Format<!T> = Format(read: Reader<T>, write: Writer<T>, flags: T -> seq<bool>)

  function UIntF(k: nat): Format<nat> { Format(UInt(k), UIntW(k), (n: nat) => Plain(k)) }

  function ExactlyF(k: nat): Format<seq<byte>> { Format(Exactly(k), RawW(), (s: seq<byte>) => Plain(|s|)) }

  function HashF(): Format<Hash> { Format(HashReader(), HashW(), (h: Hash) => Plain(32)) }

  function HeaderF(): Format<Header> { Format(HeaderReader(), HeaderW(), (h: Header) => Plain(80)) }

  function BlobF(k: nat): Format<seq<byte>> { Format(Blob(k), BlobW(k), (s: seq<byte>) => Plain(k + |s|)) }

  function FieldF(): Format<FieldLeaf> { Format(FieldReader(), FieldW(), (f: FieldLeaf) => Plain(3 + |f.bytes|)) }

  function PathF(limit: nat): Format<seq<PathElem>> {
    Format(PathReader(limit), PathW(), (p: seq<PathElem>) => PathFlags(p))
  }

  function BothF<A, B>(fa: Format<A>, fb: Format<B>): Format<(A, B)> {
    Format(Both(fa.read, fb.read), BothW(fa.write, fb.write), BothW(fa.flags, fb.flags))
  }

  function ViaF<A, B>(f: Format<A>, make: A -> B, parts: B -> A): Format<B> {
    Format(Via(f.read, make), ViaW(f.write, parts), ViaW(f.flags, parts))
  }

  function FlaggedF<T>(f: Format<T>): Format<Option<T>> {
    Format(Flagged(f.read), FlaggedW(f.write), (x: Option<T>) => if x.None? then [true] else [true] + f.flags(x.value))
  }

  function CountedF<T>(f: Format<T>, k: nat): Format<seq<T>> {
    Format(CountedReader(f.read, k), CountedW(f.write, k), (xs: seq<T>) => Plain(k) + Many(f.flags, xs))
  }

  function PrefixedF<T>(f: Format<T>, k: nat): Format<T> {
    Format(Prefixed(f.read, k), PrefixedW(f.write, k), (x: T) => Plain(k) + f.flags(x))
  }

  // ---------------------------------------------------------------- every spelling is read

  /** Wherever `x` is spelt it comes back if `good`, and is rejected otherwise. */
  ghost predicate Faithful<T(!new)>(f: Format<T>, x: T, good: bool) {
    && Spells(f.write(x), f.write(x), f.flags(x))
    && forall b, o: nat :: Spelt(b, o, f.write(x), f.flags(x)) ==>
         f.read(b, o) == if good then Some((x, o + |f.write(x)|)) else None
  }

  /** Faithfulness, checked on the bytes that are written. */
  lemma FaithfulAs<T(!new)>(f: Format<T>, x: T, w: seq<byte>, m: seq<bool>, good: bool)
    requires f.write(x) == w && f.flags(x) == m && Spells(w, w, m)
    requires forall b, o: nat :: Spelt(b, o, w, m) ==> f.read(b, o) == if good then Some((x, o + |w|)) else None
    ensures Faithful(f, x, good)
  {
  }

  lemma BothFaithful<A(!new), B(!new)>(fa: Format<A>, fb: Format<B>, x: A, y: B, gx: bool, gy: bool)
    requires Faithful(fa, x, gx) && Faithful(fb, y, gy)
    ensures Faithful(BothF(fa, fb), (x, y), gx && gy)
  {
    var f, wx, wy, mx, my := BothF(fa, fb), fa.write(x), fb.write(y), fa.flags(x), fb.flags(y);
    SpellsSplit(wx, wy, wx, mx, wy, my);
    forall b, o: nat | Spelt(b, o, wx + wy, mx + my)
      ensures f.read(b, o) == if gx && gy then Some(((x, y), o + |wx + wy|)) else None
    {
      SpeltSplit(b, o, wx, mx, wy, my);
    }
    FaithfulAs(f, (x, y), wx + wy, mx + my, gx && gy);
  }

  lemma ThreeFaithful<A(!new), B(!new), C(!new)>(fa: Format<A>, fb: Format<B>, fc: Format<C>, x: A, y: B, z: C,
                                                 gx: bool, gy: bool, gz: bool)
    requires Faithful(fa, x, gx) && Faithful(fb, y, gy) && Faithful(fc, z, gz)
    ensures Faithful(BothF(fa, BothF(fb, fc)), (x, (y, z)), gx && gy && gz)
  {
    BothFaithful(fb, fc, y, z, gy, gz);
    BothFaithful(fa, BothF(fb, fc), x, (y, z), gx, gy && gz);
  }

  lemma ViaFaithful<A(!new), B(!new)>(f: Format<A>, make: A -> B, parts: B -> A, x: B, good: bool)
    requires make(parts(x)) == x && Faithful(f, parts(x), good)
    ensures Faithful(ViaF(f, make, parts), x, good)
  {
    var w, m := f.write(parts(x)), f.flags(parts(x));
    forall b, o: nat | Spelt(b, o, w, m)
      ensures ViaF(f, make, parts).read(b, o) == if good then Some((x, o + |w|)) else None
    {
    }
    FaithfulAs(ViaF(f, make, parts), x, w, m, good);
  }

  lemma NoneFaithful<T(!new)>(f: Format<T>)
    ensures Faithful(FlaggedF(f), None, true)
  {
    var w: seq<byte> := [0];
    forall b, o: nat | Spelt(b, o, w, [true]) ensures Flagged(f.read)(b, o) == Some((None, o + |w|)) {
      FlagSpelt(b, o, 0);
    }
    FaithfulAs(FlaggedF(f), None, w, [true], true);
  }

  /** A flag, spelt. */
  lemma FlagSpelt(b: seq<byte>, o: nat, flag: byte)
    ensures Spelt(b, o, [flag], [true]) <==> o < |b| && flag == Normal(b[o], true)
  {
    if o < |b| {
      assert b[o..o + 1] == [b[o]];
    }
  }

  lemma SomeFaithful<T(!new)>(f: Format<T>, x: T, good: bool)
    requires Faithful(f, x, good)
    ensures Faithful(FlaggedF(f), Some(x), good)
  {
    var w, m := f.write(x), f.flags(x);
    var flagged := [1] + w;
    SpellsSplit([1], w, [1], [true], w, m);
    forall b, o: nat | Spelt(b, o, flagged, [true] + m)
      ensures Flagged(f.read)(b, o) == if good then Some((Some(x), o + |flagged|)) else None
    {
      BehindFlag(f, b, o, x, o + |flagged|, good);
    }
    FaithfulAs(FlaggedF(f), Some(x), flagged, [true] + m, good);
  }

  lemma BehindFlag<T(!new)>(f: Format<T>, b: seq<byte>, o: nat, x: T, end: nat, good: bool)
    requires Faithful(f, x, good) && Spelt(b, o, [1] + f.write(x), [true] + f.flags(x)) && end == o + 1 + |f.write(x)|
    ensures ReadFlagged(f.read, b, o) == if good then Some((Some(x), end)) else None
  {
    SpeltSplit(b, o, [1], [true], f.write(x), f.flags(x));
    FlagSpelt(b, o, 1);
  }

  lemma CountedFaithful<T(!new)>(f: Format<T>, k: nat, xs: seq<T>)
    requires |xs| < Pow256(k) && forall i :: 0 <= i < |xs| ==> Faithful(f, xs[i], true)
    ensures Faithful(CountedF(f, k), xs, true)
  {
    var w, m := CountedW(f.write, k)(xs), Plain(k) + Many(f.flags, xs);
    ManySelf(f, xs);
    SpellsSplit(LE(|xs|, k), Many(f.write, xs), LE(|xs|, k), Plain(k), Many(f.write, xs), Many(f.flags, xs));
    forall b, o: nat | Spelt(b, o, w, m) ensures CountedReader(f.read, k)(b, o) == Some((xs, o + |w|)) {
      CountThenMany(f, k, b, o, o + k, xs, o + |w|);
    }
    FaithfulAs(CountedF(f, k), xs, w, m, true);
  }

  lemma CountThenMany<T(!new)>(f: Format<T>, k: nat, b: seq<byte>, o: nat, mid: nat, xs: seq<T>, end: nat)
    requires |xs| < Pow256(k) && forall i :: 0 <= i < |xs| ==> Faithful(f, xs[i], true)
    requires Spelt(b, o, LE(|xs|, k) + Many(f.write, xs), Plain(k) + Many(f.flags, xs))
    requires mid == o + k && end == mid + |Many(f.write, xs)|
    ensures ReadCounted(f.read, k, b, o) == Some((xs, end))
  {
    CountThenBody(b, o, k, mid, |xs|, Many(f.write, xs), Many(f.flags, xs));
    ReadManySpelt(f, b, mid, xs, end);
    BehindCount(f.read, k, b, o, mid, |xs|, Some((xs, end)));
  }

  lemma BehindCount<T>(read: Reader<T>, k: nat, b: seq<byte>, o: nat, mid: nat, n: nat, r: Option<(seq<T>, nat)>)
    requires mid == o + k <= |b| && UIntAt(b, o, k) == n && ReadMany(read, b, mid, n) == r
    ensures ReadCounted(read, k, b, o) == r
  {
  }

  lemma CountThenBody(b: seq<byte>, o: nat, k: nat, mid: nat, n: nat, body: seq<byte>, marks: seq<bool>)
    requires mid == o + k && Spelt(b, o, LE(n, k) + body, Plain(k) + marks) && n < Pow256(k)
    ensures mid <= |b| && UIntAt(b, o, k) == n && Spelt(b, mid, body, marks)
  {
    SpeltSplit(b, o, LE(n, k), Plain(k), body, marks);
    PlainSpelt(b, o, LE(n, k));
    UIntAtLE(b, o, n, k);
  }

  lemma {:induction false} ManySelf<T(!new)>(f: Format<T>, xs: seq<T>)
    requires forall i :: 0 <= i < |xs| ==> Faithful(f, xs[i], true)
    ensures Spells(Many(f.write, xs), Many(f.write, xs), Many(f.flags, xs))
    decreases xs
  {
    if xs != [] {
      var w, ws, m, ms := f.write(xs[0]), Many(f.write, xs[1..]), f.flags(xs[0]), Many(f.flags, xs[1..]);
      ManySelf(f, xs[1..]);
      SpellsSplit(w, ws, w, m, ws, ms);
    }
  }

  lemma {:induction false} ReadManySpelt<T(!new)>(f: Format<T>, b: seq<byte>, o: nat, xs: seq<T>, end: nat)
    requires forall i :: 0 <= i < |xs| ==> Faithful(f, xs[i], true)
    requires Spelt(b, o, Many(f.write, xs), Many(f.flags, xs)) && end == o + |Many(f.write, xs)|
    ensures ReadMany(f.read, b, o, |xs|) == Some((xs, end))
    decreases xs
  {
    if xs != [] {
      var mid := o + |f.write(xs[0])|;
      FirstOfMany(f, b, o, mid, xs, end);
      ReadManySpelt(f, b, mid, xs[1..], end);
      JoinMany(f.read, b, o, mid, xs, end);
    }
  }

  lemma FirstOfMany<T(!new)>(f: Format<T>, b: seq<byte>, o: nat, mid: nat, xs: seq<T>, end: nat)
    requires xs != [] && Faithful(f, xs[0], true) && Spelt(b, o, Many(f.write, xs), Many(f.flags, xs))
    requires mid == o + |f.write(xs[0])| && end == o + |Many(f.write, xs)|
    ensures f.read(b, o) == Some((xs[0], mid)) && end == mid + |Many(f.write, xs[1..])|
    ensures Spelt(b, mid, Many(f.write, xs[1..]), Many(f.flags, xs[1..]))
  {
    SpeltSplit(b, o, f.write(xs[0]), f.flags(xs[0]), Many(f.write, xs[1..]), Many(f.flags, xs[1..]));
  }

  lemma JoinMany<T>(read: Reader<T>, b: seq<byte>, o: nat, mid: nat, xs: seq<T>, end: nat)
    requires xs != [] && read(b, o) == Some((xs[0], mid))
    requires ReadMany(read, b, mid, |xs[1..]|) == Some((xs[1..], end))
    ensures ReadMany(read, b, o, |xs|) == Some((xs, end))
  {
    assert [xs[0]] + xs[1..] == xs;
  }

  /** Without flags a spelling is what was written. */
  lemma FlaglessFaithful<T(!new)>(f: Format<T>, x: T, w: seq<byte>)
    requires f.write(x) == w && f.flags(x) == Plain(|w|)
    requires forall b, o: nat :: At(b, o, w) ==> f.read(b, o) == Some((x, o + |w|))
    ensures Faithful(f, x, true)
  {
    forall b, o: nat | Spelt(b, o, w, Plain(|w|)) ensures f.read(b, o) == Some((x, o + |w|)) {
      PlainSpelt(b, o, w);
    }
    FaithfulAs(f, x, w, Plain(|w|), true);
  }

  lemma UIntFaithful(k: nat, n: nat)
    requires n < Pow256(k)
    ensures Faithful(UIntF(k), n, true)
  {
    forall b, o: nat | At(b, o, LE(n, k)) ensures UInt(k)(b, o) == Some((n, o + |LE(n, k)|)) {
      UIntAtLE(b, o, n, k);
    }
    FlaglessFaithful(UIntF(k), n, LE(n, k));
  }

  lemma ExactlyFaithful(k: nat, s: seq<byte>)
    requires |s| == k
    ensures Faithful(ExactlyF(k), s, true)
  {
    FlaglessFaithful(ExactlyF(k), s, s);
  }

  lemma HashFaithful(h: Hash)
    ensures Faithful(HashF(), h, true)
  {
    FlaglessFaithful(HashF(), h, h.bytes);
  }

  lemma HeaderFaithful(h: Header)
    ensures Faithful(HeaderF(), h, true)
  {
    FlaglessFaithful(HeaderF(), h, h.bytes);
  }

  lemma BlobAt(b: seq<byte>, o: nat, k: nat, s: seq<byte>, total: nat)
    requires At(b, o, LE(|s|, k) + s) && |s| < Pow256(k) && total == k + |s|
    ensures ReadBlob(k, b, o) == Some((s, o + total))
  {
    AtSplit(b, o, LE(|s|, k), s);
    UIntAtLE(b, o, |s|, k);
    SizedBlob(b, o, k, UIntAt(b, o, k), s, total);
  }

  lemma AtSplit(b: seq<byte>, o: nat, s: seq<byte>, t: seq<byte>)
    requires At(b, o, s + t)
    ensures At(b, o, s) && At(b, o + |s|, t)
  {
    var w := b[o..o + |s + t|];
    assert w[..|s|] == s && w[|s|..] == t;
    assert b[o..o + |s|] == w[..|s|] && b[o + |s|..o + |s| + |t|] == w[|s|..];
  }

  lemma SizedBlob(b: seq<byte>, o: nat, k: nat, n: nat, s: seq<byte>, total: nat)
    requires o + k <= |b| && n == UIntAt(b, o, k) && n == |s| && At(b, o + k, s) && total == k + |s|
    ensures ReadBlob(k, b, o) == Some((s, o + total))
  {
  }

  lemma BlobFaithful(k: nat, s: seq<byte>)
    requires |s| < Pow256(k)
    ensures Faithful(BlobF(k), s, true)
  {
    var w := BlobW(k)(s);
    forall b, o: nat | At(b, o, w) ensures Blob(k)(b, o) == Some((s, o + |w|)) {
      BlobAt(b, o, k, s, |w|);
    }
    FlaglessFaithful(BlobF(k), s, w);
  }

  lemma FieldFaithful(f: FieldLeaf)
    requires |f.bytes| < 0x1_0000
    ensures Faithful(FieldF(), f, true)
  {
    var w := FieldW()(f);
    Widths();
    forall b, o: nat | At(b, o, w) ensures FieldReader()(b, o) == Some((f, o + |w|)) {
      AtSplit(b, o, [f.index], LE(|f.bytes|, 2) + f.bytes);
      assert b[o] == b[o..o + 1][0];
      BlobAt(b, o + 1, 2, f.bytes, 2 + |f.bytes|);
      assert o + 1 + (2 + |f.bytes|) == o + |w|;
    }
    FlaglessFaithful(FieldF(), f, w);
  }

  /** A path comes back exactly when it is within the reader's ceiling. */
  lemma PathFaithful(limit: nat, p: seq<PathElem>)
    requires |p| < 0x1_0000
    ensures Faithful(PathF(limit), p, |p| <= limit)
  {
    PathSelf(p);
    forall b, o: nat | Spelt(b, o, PathBytes(p), PathFlags(p))
      ensures PathReader(limit)(b, o) == if |p| <= limit then Some((p, o + |PathBytes(p)|)) else None
    {
      ReadSpeltPath(b, o, p, limit, o + |PathBytes(p)|);
    }
    FaithfulAs(PathF(limit), p, PathBytes(p), PathFlags(p), |p| <= limit);
  }

  lemma PathSelf(p: seq<PathElem>)
    ensures Spells(PathBytes(p), PathBytes(p), PathFlags(p))
  {
    var w := Elems(p);
    ElemsOfElems(p);
    SpellsSplit(LE(|p|, 2), w, LE(|p|, 2), Plain(2), w, ElemFlags(p));
  }

  lemma {:induction false} ElemsOfElems(p: seq<PathElem>)
    ensures Spells(Elems(p), Elems(p), ElemFlags(p))
    decreases p
  {
    if p != [] {
      var e, m := Elem(p[0]), [true] + Plain(32);
      ElemsOfElems(p[1..]);
      SpellsSplit(e, Elems(p[1..]), e, m, Elems(p[1..]), ElemFlags(p[1..]));
    }
  }

  // ---------------------------------------------------------------- only spellings are read

  /** What was read at `o`: a good value, spelt there. */
  ghost predicate Written<T>(f: Format<T>, good: T -> bool, b: seq<byte>, o: nat, r: (T, nat)) {
    good(r.0) && r.1 == o + |f.write(r.0)| && Spelt(b, o, f.write(r.0), f.flags(r.0))
  }

  ghost predicate Strict<T(!new)>(f: Format<T>, good: T -> bool) {
    forall b, o: nat :: f.read(b, o).Some? ==> Written(f, good, b, o, f.read(b, o).value)
  }

  ghost function All<T>(): T -> bool { (x: T) => true }

  ghost function Pairs<A, B>(ga: A -> bool, gb: B -> bool): ((A, B)) -> bool { (p: (A, B)) => ga(p.0) && gb(p.1) }

  ghost function Shorter<T>(k: nat): seq<T> -> bool { (s: seq<T>) => |s| < Pow256(k) }

  ghost function Each<T(!new)>(k: nat, good: T -> bool): seq<T> -> bool {
    (xs: seq<T>) => |xs| < Pow256(k) && forall x :: x in xs ==> good(x)
  }

  lemma BothStrict<A(!new), B(!new)>(fa: Format<A>, fb: Format<B>, ga: A -> bool, gb: B -> bool)
    requires Strict(fa, ga) && Strict(fb, gb)
    ensures Strict(BothF(fa, fb), Pairs(ga, gb))
  {
    var f := BothF(fa, fb);
    forall b, o: nat | f.read(b, o).Some? ensures Written(f, Pairs(ga, gb), b, o, f.read(b, o).value) {
      var (x, mid) := fa.read(b, o).value;
      var (y, end) := fb.read(b, mid).value;
      SpeltSplit(b, o, fa.write(x), fa.flags(x), fb.write(y), fb.flags(y));
    }
  }

  lemma ViaStrict<A(!new), B(!new)>(f: Format<A>, make: A -> B, parts: B -> A, ga: A -> bool, gb: B -> bool)
    requires Strict(f, ga) && forall p :: ga(p) ==> gb(make(p)) && parts(make(p)) == p
    ensures Strict(ViaF(f, make, parts), gb)
  {
    var via := ViaF(f, make, parts);
    forall b, o: nat | via.read(b, o).Some? ensures Written(via, gb, b, o, via.read(b, o).value) {
      assert Written(f, ga, b, o, f.read(b, o).value);
    }
  }

  ghost function Maybe<T>(good: T -> bool): Option<T> -> bool { (x: Option<T>) => x.Some? ==> good(x.value) }

  lemma FlaggedStrict<T(!new)>(f: Format<T>, good: T -> bool)
    requires Strict(f, good)
    ensures Strict(FlaggedF(f), Maybe(good))
  {
    var g := FlaggedF(f);
    forall b, o: nat | g.read(b, o).Some? ensures Written(g, Maybe(good), b, o, g.read(b, o).value) {
      if b[o] != 1 {
        FlagSpelt(b, o, 0);
      } else {
        var (x, end) := f.read(b, o + 1).value;
        assert Written(f, good, b, o + 1, (x, end));
        FlagSpelt(b, o, 1);
        SpeltSplit(b, o, [1], [true], f.write(x), f.flags(x));
      }
    }
  }

  lemma CountedStrict<T(!new)>(f: Format<T>, k: nat, good: T -> bool)
    requires Strict(f, good)
    ensures Strict(CountedF(f, k), Each(k, good))
  {
    var counted := CountedF(f, k);
    forall b, o: nat | counted.read(b, o).Some?
      ensures Written(counted, Each(k, good), b, o, counted.read(b, o).value)
    {
      var (xs, end) := ReadCounted(f.read, k, b, o).value;
      CountedWritten(f, k, good, b, o, xs, end, CountedW(f.write, k)(xs));
    }
  }

  lemma CountedWritten<T(!new)>(f: Format<T>, k: nat, good: T -> bool, b: seq<byte>, o: nat, xs: seq<T>, end: nat,
                                w: seq<byte>)
    requires Strict(f, good) && ReadCounted(f.read, k, b, o) == Some((xs, end)) && w == LE(|xs|, k) + Many(f.write, xs)
    ensures Each(k, good)(xs) && end == o + |w| && Spelt(b, o, w, Plain(k) + Many(f.flags, xs))
  {
    ReadManyStrict(f, good, b, o + k, |xs|, xs, end);
    CountBeforeBody(b, o, k, o + k, |xs|, Many(f.write, xs), Many(f.flags, xs));
  }

  lemma CountBeforeBody(b: seq<byte>, o: nat, k: nat, mid: nat, n: nat, body: seq<byte>, marks: seq<bool>)
    requires mid == o + k <= |b| && n == UIntAt(b, o, k) && Spelt(b, mid, body, marks)
    ensures n < Pow256(k) && Spelt(b, o, LE(n, k) + body, Plain(k) + marks)
  {
    UIntWritten(b, o, k);
    PlainSpelt(b, o, LE(n, k));
    SpeltSplit(b, o, LE(n, k), Plain(k), body, marks);
  }

  lemma UIntWritten(b: seq<byte>, o: nat, k: nat)
    requires o + k <= |b|
    ensures UIntAt(b, o, k) < Pow256(k) && At(b, o, LE(UIntAt(b, o, k), k))
  {
    LEOfUnLE(b[o..o + k]);
  }

  lemma {:induction false} ReadManyStrict<T(!new)>(f: Format<T>, good: T -> bool, b: seq<byte>, o: nat, n: nat,
                                                   xs: seq<T>, end: nat)
    requires Strict(f, good) && o <= |b| && ReadMany(f.read, b, o, n) == Some((xs, end))
    ensures (forall x :: x in xs ==> good(x)) && end == o + |Many(f.write, xs)|
    ensures Spelt(b, o, Many(f.write, xs), Many(f.flags, xs))
    decreases n
  {
    if n > 0 {
      var (x, mid) := f.read(b, o).value;
      assert Written(f, good, b, o, (x, mid));
      ReadManyStrict(f, good, b, mid, n - 1, xs[1..], end);
      FirstAndMany(f, b, o, mid, xs, end);
    }
  }

  lemma FirstAndMany<T(!new)>(f: Format<T>, b: seq<byte>, o: nat, mid: nat, xs: seq<T>, end: nat)
    requires xs != [] && mid == o + |f.write(xs[0])| && Spelt(b, o, f.write(xs[0]), f.flags(xs[0]))
    requires end == mid + |Many(f.write, xs[1..])| && Spelt(b, mid, Many(f.write, xs[1..]), Many(f.flags, xs[1..]))
    ensures end == o + |Many(f.write, xs)| && Spelt(b, o, Many(f.write, xs), Many(f.flags, xs))
  {
    SpeltSplit(b, o, f.write(xs[0]), f.flags(xs[0]), Many(f.write, xs[1..]), Many(f.flags, xs[1..]));
  }

  lemma FlaglessStrict<T(!new)>(f: Format<T>, good: T -> bool)
    requires forall b, o: nat :: f.read(b, o).Some? ==>
               var (x, end) := f.read(b, o).value;
               good(x) && end == o + |f.write(x)| && At(b, o, f.write(x)) && f.flags(x) == Plain(|f.write(x)|)
    ensures Strict(f, good)
  {
    forall b, o: nat | f.read(b, o).Some? ensures Written(f, good, b, o, f.read(b, o).value) {
      PlainSpelt(b, o, f.write(f.read(b, o).value.0));
    }
  }

  ghost function Below(n: nat): nat -> bool { (v: nat) => v < n }

  lemma UIntStrict(k: nat)
    ensures Strict(UIntF(k), Below(Pow256(k)))
  {
    forall b, o: nat | UInt(k)(b, o).Some?
      ensures var (x, end) := UInt(k)(b, o).value; x < Pow256(k) && end == o + |UIntW(k)(x)| && At(b, o, UIntW(k)(x))
    {
      UIntWritten(b, o, k);
    }
    FlaglessStrict(UIntF(k), Below(Pow256(k)));
  }

  lemma HashStrict()
    ensures Strict(HashF(), All())
  {
    FlaglessStrict(HashF(), All());
  }

  lemma HeaderStrict()
    ensures Strict(HeaderF(), All())
  {
    FlaglessStrict(HeaderF(), All());
  }

  lemma ReadBlobStrict(k: nat, b: seq<byte>, o: nat)
    requires ReadBlob(k, b, o).Some?
    ensures var (s, end) := ReadBlob(k, b, o).value;
            |s| < Pow256(k) && end == o + k + |s| && At(b, o, LE(|s|, k) + s)
  {
    var s := ReadBlob(k, b, o).value.0;
    UIntWritten(b, o, k);
    assert b[o..o + k] + s == b[o..o + k + |s|];
  }

  lemma BlobStrict(k: nat)
    ensures Strict(BlobF(k), Shorter(k))
  {
    forall b, o: nat | Blob(k)(b, o).Some?
      ensures var (s, end) := Blob(k)(b, o).value; |s| < Pow256(k) && end == o + |BlobW(k)(s)| && At(b, o, BlobW(k)(s))
    {
      ReadBlobStrict(k, b, o);
    }
    FlaglessStrict(BlobF(k), Shorter(k));
  }

  ghost function FieldShort(): FieldLeaf -> bool { (f: FieldLeaf) => |f.bytes| < 0x1_0000 }

  lemma FieldStrict()
    ensures Strict(FieldF(), FieldShort())
  {
    Widths();
    forall b, o: nat | FieldReader()(b, o).Some?
      ensures var (f, end) := FieldReader()(b, o).value;
              |f.bytes| < 0x1_0000 && end == o + |FieldW()(f)| && At(b, o, FieldW()(f))
    {
      var f := FieldReader()(b, o).value.0;
      ReadBlobStrict(2, b, o + 1);
      assert b[o..o + |FieldW()(f)|] == [b[o]] + b[o + 1..o + |FieldW()(f)|];
    }
    FlaglessStrict(FieldF(), FieldShort());
  }

  ghost function PathShort(limit: nat): seq<PathElem> -> bool {
    (p: seq<PathElem>) => |p| <= limit && |p| < 0x1_0000
  }

  lemma PathStrict(limit: nat)
    ensures Strict(PathF(limit), PathShort(limit))
  {
    var f := PathF(limit);
    forall b, o: nat | f.read(b, o).Some? ensures Written(f, PathShort(limit), b, o, f.read(b, o).value) {
      var (p, end) := f.read(b, o).value;
      PathReadSpelt(b, o, limit, p, end);
    }
  }

  // ---------------------------------------------------------------- whole inputs

  /** The format reads the good values, each from all of its spellings, and nothing else. */
  ghost predicate Exact<T(!new)>(f: Format<T>, good: T -> bool) {
    Strict(f, good) && forall x :: good(x) ==> Faithful(f, x, true)
  }

  /** What decodes to a value: its spellings. */
  lemma DecodesSpellings<T(!new)>(f: Format<T>, good: T -> bool, d: seq<byte>, x: T)
    requires Exact(f, good)
    ensures DecodeAll(f.read, d) == Some(x) <==> good(x) && Spells(d, f.write(x), f.flags(x))
  {
    assert d[0..|d|] == d;
    if DecodeAll(f.read, d) == Some(x) {
      assert Written(f, good, d, 0, f.read(d, 0).value);
    }
    if good(x) && Spells(d, f.write(x), f.flags(x)) {
      assert Faithful(f, x, true) && Spelt(d, 0, f.write(x), f.flags(x));
    }
  }

  /** Where all of `d` is accepted, no strict prefix of it is, and nothing that goes on behind it. */
  lemma OnlyWhole<T(!new)>(f: Format<T>, good: T -> bool, d: seq<byte>, k: nat, more: seq<byte>)
    requires Exact(f, good) && DecodeAll(f.read, d).Some? && k < |d|
    ensures DecodeAll(f.read, d[..k]).None?
    ensures more != [] ==> DecodeAll(f.read, d + more).None?
  {
    var x := DecodeAll(f.read, d).value;
    DecodesSpellings(f, good, d, x);
    assert Faithful(f, x, true);
    assert d[0..|d|] == d && (d + more)[0..|d|] == d;
    assert Spelt(d, 0, f.write(x), f.flags(x)) && Spelt(d + more, 0, f.write(x), f.flags(x));
    if DecodeAll(f.read, d[..k]).Some? {
      var y := f.read(d[..k], 0).value.0;
      assert Written(f, good, d[..k], 0, f.read(d[..k], 0).value) && Faithful(f, y, true);
      assert d[..k][0..k] == d[0..k];
      assert Spelt(d, 0, f.write(y), f.flags(y));
    }
  }

  // ---------------------------------------------------------------- length-prefixed values

  ghost function Fitting<T>(f: Format<T>, good: T -> bool, k: nat): T -> bool {
    (x: T) => good(x) && |f.write(x)| < Pow256(k)
  }

  lemma PrefixedFaithful<T(!new)>(f: Format<T>, good: T -> bool, k: nat, x: T)
    requires Exact(f, good) && Fitting(f, good, k)(x)
    ensures Faithful(PrefixedF(f, k), x, true)
  {
    var w, m := f.write(x), f.flags(x);
    var prefixed := LE(|w|, k) + w;
    assert Faithful(f, x, true);
    SpellsSplit(LE(|w|, k), w, LE(|w|, k), Plain(k), w, m);
    forall d, o: nat | Spelt(d, o, prefixed, Plain(k) + m)
      ensures Prefixed(f.read, k)(d, o) == Some((x, o + |prefixed|))
    {
      PrefixedSpelt(f, good, k, d, o, x, o + k, o + |prefixed|);
    }
    FaithfulAs(PrefixedF(f, k), x, prefixed, Plain(k) + m, true);
  }

  lemma PrefixedSpelt<T(!new)>(f: Format<T>, good: T -> bool, k: nat, d: seq<byte>, o: nat, x: T, mid: nat, end: nat)
    requires Exact(f, good) && Fitting(f, good, k)(x)
    requires Spelt(d, o, LE(|f.write(x)|, k) + f.write(x), Plain(k) + f.flags(x))
    requires mid == o + k && end == mid + |f.write(x)|
    ensures Prefixed(f.read, k)(d, o) == Some((x, end))
  {
    CountThenBody(d, o, k, mid, |f.write(x)|, f.write(x), f.flags(x));
    DecodesSpellings(f, good, d[mid..end], x);
    PrefixedAt(f.read, k, d, o, mid, end, x);
  }

  lemma PrefixedAt<T(!new)>(read: Reader<T>, k: nat, d: seq<byte>, o: nat, mid: nat, end: nat, x: T)
    requires mid == o + k <= end <= |d|
    ensures Prefixed(read, k)(d, o) == Some((x, end)) <==>
              UIntAt(d, o, k) == end - mid && DecodeAll(read, d[mid..end]) == Some(x)
  {
  }

  lemma PrefixedStrict<T(!new)>(f: Format<T>, good: T -> bool, k: nat)
    requires Exact(f, good)
    ensures Strict(PrefixedF(f, k), Fitting(f, good, k))
  {
    var g := PrefixedF(f, k);
    forall d, o: nat | g.read(d, o).Some? ensures Written(g, Fitting(f, good, k), d, o, g.read(d, o).value) {
      var (x, end) := g.read(d, o).value;
      PrefixedWritten(f, good, k, d, o, x, o + k, end, f.write(x));
    }
  }

  lemma PrefixedWritten<T(!new)>(f: Format<T>, good: T -> bool, k: nat, d: seq<byte>, o: nat, x: T, mid: nat, end: nat,
                                 w: seq<byte>)
    requires Exact(f, good) && Prefixed(f.read, k)(d, o) == Some((x, end)) && mid == o + k && w == f.write(x)
    ensures Fitting(f, good, k)(x) && end == mid + |w|
    ensures Spelt(d, o, LE(|w|, k) + w, Plain(k) + f.flags(x))
  {
    PrefixedAt(f.read, k, d, o, mid, end, x);
    DecodesSpellings(f, good, d[mid..end], x);
    CountBeforeBody(d, o, k, mid, |w|, w, f.flags(x));
  }

  // ---------------------------------------------------------------- the reader object

  /** Where a reader stands: its offset, and whether a read has failed. */
  datatype Pos = Pos(err: bool, off: nat)

  /** A read that started at p and left the object at q did what `read` says.  Once the error is
      set it stays, and nothing is said about the value. */
  ghost predicate Did<T(!new)>(read: Reader<T>, b: seq<byte>, p: Pos, q: Pos, x: T) {
    && (p.err ==> q.err)
    && (!p.err ==> match read(b, p.off)
                   case None => q.err
                   case Some((y, end)) => !q.err && x == y && q.off == end)
  }

  /** Two reads in a row are one read of both. */
  lemma DidBoth<A(!new), B(!new)>(ra: Reader<A>, rb: Reader<B>, b: seq<byte>, p: Pos, q: Pos, r: Pos, x: A, y: B)
    requires Did(ra, b, p, q, x) && Did(rb, b, q, r, y)
    ensures Did(Both(ra, rb), b, p, r, (x, y))
  {
  }

  lemma DidVia<A(!new), B(!new)>(read: Reader<A>, make: A -> B, b: seq<byte>, p: Pos, q: Pos, x: A)
    requires Did(read, b, p, q, x)
    ensures Did(Via(read, make), b, p, q, make(x))
  {
  }

  lemma DidParsed<A(!new), B(!new)>(read: Reader<A>, parse: A -> Option<B>, b: seq<byte>, p: Pos, q: Pos, x: A)
    requires !p.err && Did(read, b, p, q, x)
    ensures match Parsed(read, parse)(b, p.off)
            case None => q.err || parse(x).None?
            case Some((y, end)) => !q.err && parse(x) == Some(y) && end == q.off
  {
  }

  lemma DidFlagged<T(!new)>(read: Reader<T>, b: seq<byte>, p: Pos, q: Pos, r: Pos, flag: byte, x: Option<T>)
    requires Did(Exactly(1), b, p, q, [flag]) && (x.Some? <==> !q.err && flag == 1)
    requires if x.Some? then Did(read, b, q, r, x.value) else r == q
    ensures Did(Flagged(read), b, p, r, x)
  {
    if !p.err && p.off < |b| {
      assert b[p.off] == b[p.off..p.off + 1][0] == flag;
    }
  }

  /** A whole decode is a read from the start that leaves nothing. */
  lemma DidAll<T(!new)>(read: Reader<T>, b: seq<byte>, q: Pos, x: T)
    requires Did(read, b, Pos(false, 0), q, x)
    ensures DecodeAll(read, b) == if q.err || q.off != |b| then None else Some(x)
  {
  }

  class WireReader {
    const buf: seq<byte>
    var off: nat
    var err: bool

    ghost predicate Valid()
      reads this
    {
      off <= |buf|
    }

    ghost function At(): Pos
      reads this
    {
      Pos(err, off)
    }

    constructor (data: seq<byte>)
      ensures Valid() && buf == data && off == 0 && !err
    {
      buf, off, err := data, 0, false;
    }

    method Take(n: nat) returns (s: Option<seq<byte>>)
      requires Valid()
      modifies this
      ensures Valid() && (s.Some? <==> !err)
      ensures Did(Exactly(n), buf, old(At()), At(), if s.Some? then s.value else [])
    {
      if err {
        return None;
      }
      if off + n > |buf| {
        err := true;
        return None;
      }
      s := Some(buf[off..off + n]);
      off := off + n;
    }

    method ReadHash() returns (h: Hash)
      requires Valid()
      modifies this
      ensures Valid() && Did(HashReader(), buf, old(At()), At(), h)
    {
      var s := Take(32);
      h := if s.None? then ZeroHash() else Hash(s.value);
    }

    method ReadHeader() returns (h: Header)
      requires Valid()
      modifies this
      ensures Valid() && Did(HeaderReader(), buf, old(At()), At(), h)
    {
      var s := Take(80);
      h := Header(if s.None? then seq(80, _ => 0) else s.value);
    }

    method U8() returns (v: byte)
      requires Valid()
      modifies this
      ensures Valid() && Did(Exactly(1), buf, old(At()), At(), [v])
    {
      var s := Take(1);
      v := if s.None? then 0 else s.value[0];
      assert s.Some? ==> s.value == [v];
    }

    /** u16, u32 and u64 */
    method Unsigned(k: nat) returns (v: nat)
      requires Valid()
      modifies this
      ensures Valid() && Did(UInt(k), buf, old(At()), At(), v)
      ensures err ==> v == 0
    {
      var s := Take(k);
      v := if s.None? then 0 else UnLE(s.value);
    }

    /** A k-byte length and that many bytes. */
    method ReadBytes(k: nat) returns (s: seq<byte>)
      requires Valid()
      modifies this
      ensures Valid() && Did(Blob(k), buf, old(At()), At(), s)
    {
      var n := Unsigned(k);
      var t := Take(n);
      s := if t.None? then [] else t.value;
    }

    /** A u16 count, at most `limit`, and that many path elements. */
    method ReadPathElems(limit: nat) returns (p: seq<PathElem>)
      requires Valid()
      modifies this
      ensures Valid() && Did(PathReader(limit), buf, old(At()), At(), p)
    {
      var n := Unsigned(2);
      if err || n == 0 {
        return [];
      }
      if n > limit {
        err := true;
        return [];
      }
      ghost var start := off;
      p := [];
      for i := 0 to n
        invariant !err && off == start + 33 * i <= |buf| && |p| == i
        invariant forall j :: 0 <= j < i ==> p[j] == ElemAt(buf, start + 33 * j)
      {
        var e := NextElem();
        if err {
          return [];
        }
        p := p + [e];
      }
      assert p == ElemsAt(buf, start, n);
    }

    /** One path element. */
    method NextElem() returns (e: PathElem)
      requires Valid() && !err
      modifies this
      ensures Valid() && (err <==> old(off) + 33 > |buf|)
      ensures !err ==> off == old(off) + 33 && e == ElemAt(buf, old(off))
    {
      var flag := U8();
      var sibling := ReadHash();
      e := PathElem(sibling, flag == 1);
    }

    /** A u16 count and that many fields. */
    method Fields() returns (fs: seq<FieldLeaf>)
      requires Valid()
      modifies this
      ensures Valid() && Did(CountedReader(FieldReader(), 2), buf, old(At()), At(), fs)
    {
      var n := Unsigned(2);
      fs := [];
      if err || n == 0 {
        return;
      }
      ghost var all := ReadMany(FieldReader(), buf, off, n);
      assert all.Some? ==> [] + all.value.0 == all.value.0;
      ghost var left := n;
      for i := 0 to n
        invariant Valid() && !err && left == n - i
        invariant Onward(ReadMany(FieldReader(), buf, off, left), all, fs)
      {
        var f;
        f, left := NextField(left, all, fs);
        if err {
          return [];
        }
        fs := fs + [f];
      }
      assert fs + [] == fs;
    }

    /** The body of the loop of Fields. */
    method NextField(ghost left: nat, ghost all: Option<(seq<FieldLeaf>, nat)>, ghost done: seq<FieldLeaf>)
      returns (f: FieldLeaf, ghost fewer: nat)
      requires Valid() && !err && left > 0 && Onward(ReadMany(FieldReader(), buf, off, left), all, done)
      modifies this
      ensures Valid() && (err ==> all.None?)
      ensures fewer == left - 1
      ensures !err ==> Onward(ReadMany(FieldReader(), buf, off, fewer), all, done + [f])
    {
      fewer := left - 1;
      OnwardStep(FieldReader(), buf, off, left, fewer, all, done);
      f := Field();
    }

    /** One field. */
    method Field() returns (f: FieldLeaf)
      requires Valid() && !err
      modifies this
      ensures Valid() && Did(FieldReader(), buf, old(At()), At(), f)
    {
      var index := U8();
      var bytes := ReadBytes(2);
      f := FieldLeaf(index, bytes);
    }
  }

  class WireWriter {
    var buf: seq<byte>

    constructor ()
      ensures buf == []
    {
      buf := [];
    }

    method U8(v: byte)
      modifies this
      ensures buf == old(buf) + [v]
    {
      buf := buf + [v];
    }

    /** u16, u32 and u64: the low k bytes, as the conversions to those types keep. */
    method Unsigned(n: nat, k: nat)
      modifies this
      ensures buf == old(buf) + UIntW(k)(n)
    {
      buf := buf + LE(n, k);
    }

    method WriteBytes(s: seq<byte>)
      modifies this
      ensures buf == old(buf) + s
    {
      buf := buf + s;
    }

    /** A k-byte length and the bytes. */
    method WriteBlob(s: seq<byte>, k: nat)
      modifies this
      ensures buf == old(buf) + BlobW(k)(s)
    {
      Unsigned(|s|, k);
      WriteBytes(s);
    }

    method WritePathElems(p: seq<PathElem>)
      modifies this
      ensures buf == old(buf) + PathW()(p)
    {
      ghost var goal := buf + PathBytes(p);
      Unsigned(|p|, 2);
      for i := 0 to |p|
        invariant buf + Elems(p[i..]) == goal
      {
        ElemsStep(p, i, buf);
        WriteElem(p[i]);
      }
    }

    method WriteElem(e: PathElem)
      modifies this
      ensures buf == old(buf) + Elem(e)
    {
      U8(if e.right then 1 else 0);
      WriteBytes(e.sibling.bytes);
    }

    method WriteFields(fs: seq<FieldLeaf>)
      modifies this
      ensures buf == old(buf) + CountedW(FieldW(), 2)(fs)
    {
      ghost var goal := buf + Counted(FieldW(), 2, fs);
      Unsigned(|fs|, 2);
      for i := 0 to |fs|
        invariant buf + Many(FieldW(), fs[i..]) == goal
      {
        ManyStep(FieldW(), fs, i, buf);
        WriteField(fs[i]);
      }
    }

    method WriteField(f: FieldLeaf)
      modifies this
      ensures buf == old(buf) + FieldW()(f)
    {
      U8(f.index);
      WriteBlob(f.bytes, 2);
    }
  }

  lemma ElemsStep(p: seq<PathElem>, i: nat, front: seq<byte>)
    requires i < |p|
    ensures front + Elems(p[i..]) == front + Elem(p[i]) + Elems(p[i + 1..])
  {
    assert p[i..][0] == p[i] && p[i..][1..] == p[i + 1..];
  }
}
