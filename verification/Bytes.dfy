/** Little-endian integers and reading at an offset: what the three wire formats share
    (encoding/binary as used in fabric/codec.go, bundle/serialize.go, payment/payment.go). */
module Bytes {
  import opened Commitment

  function Pow256(k: nat): (p: nat)
    ensures p >= 1
  {
    if k == 0 then 1 else 256 * Pow256(k - 1)
  }

  /** Byte i of n, counted from the least significant one. */
  function Digit(n: nat, i: nat): byte {
    if i == 0 then (n % 256) as byte else Digit(n / 256, i - 1)
  }

  /** The low k bytes of n, least significant first. */
  function LE(n: nat, k: nat): (s: seq<byte>)
    ensures |s| == k
  {
    seq(k, i requires 0 <= i < k => Digit(n, i))
  }

  function UnLE(s: seq<byte>): nat {
    if s == [] then 0 else s[0] as nat + 256 * UnLE(s[1..])
  }

  lemma {:induction false} UnLEOfLE(n: nat, k: nat)
    requires n < Pow256(k)
    ensures UnLE(LE(n, k)) == n
  {
    if k > 0 {
      UnLEOfLE(n / 256, k - 1);
      assert LE(n, k)[1..] == LE(n / 256, k - 1);
    }
  }

  lemma {:induction false} LEOfUnLE(s: seq<byte>)
    ensures UnLE(s) < Pow256(|s|) && LE(UnLE(s), |s|) == s
  {
    if s != [] {
      LEOfUnLE(s[1..]);
      assert UnLE(s) / 256 == UnLE(s[1..]) && UnLE(s) % 256 == s[0] as nat;
      assert LE(UnLE(s), |s|)[1..] == LE(UnLE(s[1..]), |s| - 1);
    }
  }

  /** `s` stands in `b` at offset `o`. */
  ghost predicate At(b: seq<byte>, o: nat, s: seq<byte>) {
    o + |s| <= |b| && b[o..o + |s|] == s
  }

  // ---------------------------------------------------------------- spellings

  /** What an encoder writes where `c` is read: a flag is set by one and by nothing else. */
  function Normal(c: byte, flag: bool): byte { if flag && c != 1 then 0 else c }

  /** `c` is `s` up to its flags: bytes marked as flags may be anything but one where `s` has a zero. */
  ghost predicate Spells(c: seq<byte>, s: seq<byte>, flags: seq<bool>) {
    |c| == |s| == |flags| && forall i :: 0 <= i < |s| ==> s[i] == Normal(c[i], flags[i])
  }

  /** `s` stands in `b` at offset `o`, up to its flags. */
  ghost predicate Spelt(b: seq<byte>, o: nat, s: seq<byte>, flags: seq<bool>) {
    o + |s| <= |b| && Spells(b[o..o + |s|], s, flags)
  }

  /** No flags. */
  function Plain(n: nat): (flags: seq<bool>)
    ensures |flags| == n
  {
    seq(n, _ => false)
  }

  lemma PlainSpelt(b: seq<byte>, o: nat, s: seq<byte>)
    ensures Spelt(b, o, s, Plain(|s|)) <==> At(b, o, s)
  {
  }

  lemma SpeltSplit(b: seq<byte>, o: nat, s: seq<byte>, m: seq<bool>, t: seq<byte>, n: seq<bool>)
    requires |s| == |m|
    ensures Spelt(b, o, s + t, m + n) <==> Spelt(b, o, s, m) && Spelt(b, o + |s|, t, n)
  {
    if o + |s + t| <= |b| {
      var w := b[o..o + |s + t|];
      assert b[o..o + |s|] == w[..|s|] && b[o + |s|..o + |s| + |t|] == w[|s|..];
      SpellsSplit(w[..|s|], w[|s|..], s, m, t, n);
      assert w[..|s|] + w[|s|..] == w;
    }
  }

  lemma SpellsSplit(c: seq<byte>, d: seq<byte>, s: seq<byte>, m: seq<bool>, t: seq<byte>, n: seq<bool>)
    requires |c| == |s| == |m|
    ensures Spells(c + d, s + t, m + n) <==> Spells(c, s, m) && Spells(d, t, n)
  {
    if Spells(c + d, s + t, m + n) {
      forall i | 0 <= i < |s| ensures s[i] == Normal(c[i], m[i]) {
        assert (s + t)[i] == Normal((c + d)[i], (m + n)[i]);
      }
      forall i | 0 <= i < |t| ensures t[i] == Normal(d[i], n[i]) {
        assert (s + t)[|s| + i] == Normal((c + d)[|s| + i], (m + n)[|s| + i]);
      }
    }
  }

  ghost predicate ZeroOrOne(c: seq<byte>, flags: seq<bool>) {
    |c| == |flags| && forall i :: 0 <= i < |c| && flags[i] ==> c[i] <= 1
  }

  /** A spelling is what the encoder writes exactly if its flags are zeros and ones. */
  lemma Canonical(c: seq<byte>, s: seq<byte>, flags: seq<bool>)
    requires Spells(c, s, flags)
    ensures c == s <==> ZeroOrOne(c, flags)
  {
    if c == s {
      forall i | 0 <= i < |c| && flags[i] ensures c[i] <= 1 {
        assert s[i] == Normal(c[i], flags[i]);
      }
    }
  }

  /** A fixed-width integer read at an offset. */
  function UIntAt(b: seq<byte>, o: nat, k: nat): nat
    requires o + k <= |b|
  {
    UnLE(b[o..o + k])
  }

  lemma UIntAtLE(b: seq<byte>, o: nat, n: nat, k: nat)
    requires At(b, o, LE(n, k)) && n < Pow256(k)
    ensures UIntAt(b, o, k) == n
  {
    UnLEOfLE(n, k);
  }

  lemma Widths()
    ensures Pow256(1) == 0x100 && Pow256(2) == 0x1_0000 && Pow256(4) == 0x1_0000_0000
    ensures Pow256(8) == 0x1_0000_0000_0000_0000
  {
    assert Pow256(4) == 256 * (256 * (256 * (256 * Pow256(0))));
    assert Pow256(8) == 256 * (256 * (256 * (256 * Pow256(4))));
  }

  function HashAt(b: seq<byte>, o: nat): Hash
    requires o + 32 <= |b|
  {
    Hash(b[o..o + 32])
  }

  function HeaderAt(b: seq<byte>, o: nat): Header
    requires o + 80 <= |b|
  {
    Header(b[o..o + 80])
  }

  // ---------------------------------------------------------------- sibling paths

  /** One path element: a flag byte, 1 for a right sibling, and the sibling. */
  function ElemAt(b: seq<byte>, o: nat): PathElem
    requires o + 33 <= |b|
  {
    PathElem(HashAt(b, o + 1), b[o] == 1)
  }

  function ElemsAt(b: seq<byte>, o: nat, n: nat): (p: seq<PathElem>)
    requires o + 33 * n <= |b|
    ensures |p| == n
  {
    seq(n, j requires 0 <= j < n => ElemAt(b, o + 33 * j))
  }

  function Elem(e: PathElem): (s: seq<byte>)
    ensures |s| == 33
  {
    [if e.right then 1 else 0] + e.sibling.bytes
  }

  function Elems(p: seq<PathElem>): (s: seq<byte>)
    ensures |s| == 33 * |p|
  {
    if p == [] then [] else Elem(p[0]) + Elems(p[1..])
  }

  /** The first byte of every element is a flag. */
  function ElemFlags(p: seq<PathElem>): (m: seq<bool>)
    ensures |m| == 33 * |p|
  {
    if p == [] then [] else [true] + Plain(32) + ElemFlags(p[1..])
  }

  lemma ElemSpelt(b: seq<byte>, o: nat, e: PathElem)
    requires o + 33 <= |b|
    ensures Spelt(b, o, Elem(e), [true] + Plain(32)) <==> ElemAt(b, o) == e
  {
    var flag: seq<byte> := [if e.right then 1 else 0];
    SpeltSplit(b, o, flag, [true], e.sibling.bytes, Plain(32));
    PlainSpelt(b, o + 1, e.sibling.bytes);
    assert b[o..o + 1] == [b[o]];
    assert Spelt(b, o, flag, [true]) <==> flag[0] == Normal(b[o], true);
  }

  /** Reading elements gives p exactly where p is spelt. */
  lemma {:induction false} ElemsSpelt(b: seq<byte>, o: nat, p: seq<PathElem>)
    requires o + 33 * |p| <= |b|
    ensures Spelt(b, o, Elems(p), ElemFlags(p)) <==> ElemsAt(b, o, |p|) == p
    decreases p
  {
    if p != [] {
      SpeltSplit(b, o, Elem(p[0]), [true] + Plain(32), Elems(p[1..]), ElemFlags(p[1..]));
      ElemSpelt(b, o, p[0]);
      ElemsSpelt(b, o + 33, p[1..]);
      ElemsAtStep(b, o, p[0], p[1..], p);
    }
  }

  lemma ElemsAtStep(b: seq<byte>, o: nat, e: PathElem, rest: seq<PathElem>, p: seq<PathElem>)
    requires o + 33 * |p| <= |b| && p == [e] + rest
    ensures ElemsAt(b, o, |p|) == p <==> ElemAt(b, o) == e && ElemsAt(b, o + 33, |rest|) == rest
  {
    var all, others := ElemsAt(b, o, |p|), ElemsAt(b, o + 33, |rest|);
    forall j | 0 <= j < |rest| ensures all[j + 1] == others[j] {
    }
    assert all == [ElemAt(b, o)] + others;
    assert all[1..] == others && p[1..] == rest;
  }

  function PathBytes(p: seq<PathElem>): (s: seq<byte>)
    ensures |s| == 2 + 33 * |p|
  {
    LE(|p|, 2) + Elems(p)
  }

  /** A path at offset `o` and the offset behind it. */
  function ReadPath(b: seq<byte>, o: nat, limit: nat): Option<(seq<PathElem>, nat)> {
    if o + 2 > |b| then None
    else
      var n := UIntAt(b, o, 2);
      if n > limit || o + 2 + 33 * n > |b| then None
      else Some((ElemsAt(b, o + 2, n), o + 2 + 33 * n))
  }

  function PathFlags(p: seq<PathElem>): (m: seq<bool>)
    ensures |m| == 2 + 33 * |p|
  {
    Plain(2) + ElemFlags(p)
  }

  /** A path comes back from any of its spellings exactly when it is within the ceiling. */
  lemma ReadSpeltPath(b: seq<byte>, o: nat, p: seq<PathElem>, limit: nat, end: nat)
    requires Spelt(b, o, PathBytes(p), PathFlags(p)) && |p| < 0x1_0000 && end == o + |PathBytes(p)|
    ensures ReadPath(b, o, limit) == if |p| <= limit then Some((p, end)) else None
  {
    Widths();
    SpeltSplit(b, o, LE(|p|, 2), Plain(2), Elems(p), ElemFlags(p));
    PlainSpelt(b, o, LE(|p|, 2));
    UIntAtLE(b, o, |p|, 2);
    ElemsSpelt(b, o + 2, p);
  }

  /** And what is read as a path is a spelling of it. */
  lemma PathReadSpelt(b: seq<byte>, o: nat, limit: nat, p: seq<PathElem>, end: nat)
    requires ReadPath(b, o, limit) == Some((p, end))
    ensures |p| <= limit && |p| < 0x1_0000 && end == o + |PathBytes(p)| && Spelt(b, o, PathBytes(p), PathFlags(p))
  {
    Widths();
    LEOfUnLE(b[o..o + 2]);
    PlainSpelt(b, o, LE(|p|, 2));
    ElemsSpelt(b, o + 2, p);
    SpeltSplit(b, o, LE(|p|, 2), Plain(2), Elems(p), ElemFlags(p));
  }

  // ---------------------------------------------------------------- repeated items

  /** Reads one item at an offset; gives the item and the offset behind it. */
  type Reader<T> = (seq<byte>, nat) -> Option<(T, nat)>

  function ReadMany<T>(read: Reader<T>, b: seq<byte>, o: nat, n: nat): (r: Option<(seq<T>, nat)>)
    ensures r.Some? ==> |r.value.0| == n
    decreases n
  {
    if n == 0 then Some(([], o))
    else
      match read(b, o)
      case None => None
      case Some((x, mid)) =>
        match ReadMany(read, b, mid, n - 1)
        case None => None
        case Some((xs, end)) => Some(([x] + xs, end))
  }

  lemma ReadManyStep<T>(read: Reader<T>, b: seq<byte>, o: nat, n: nat)
    requires n > 0 && read(b, o).Some?
    ensures var rest := ReadMany(read, b, read(b, o).value.1, n - 1);
            ReadMany(read, b, o, n) ==
              if rest.None? then None else Some(([read(b, o).value.0] + rest.value.0, rest.value.1))
  {
  }

  function Many<T, C>(write: T -> seq<C>, xs: seq<T>): seq<C> {
    if xs == [] then [] else write(xs[0]) + Many(write, xs[1..])
  }

  lemma ManyStep<T>(write: T -> seq<byte>, xs: seq<T>, i: nat, front: seq<byte>)
    requires i < |xs|
    ensures front + Many(write, xs[i..]) == front + write(xs[i]) + Many(write, xs[i + 1..])
  {
    assert xs[i..][0] == xs[i] && xs[i..][1..] == xs[i + 1..];
  }

  /** What remains to be read completes what has been read. */
  ghost predicate Onward<T>(rest: Option<(seq<T>, nat)>, all: Option<(seq<T>, nat)>, done: seq<T>) {
    match rest
    case None => all.None?
    case Some((xs, end)) => all == Some((done + xs, end))
  }

  lemma OnwardStep<T(!new)>(read: Reader<T>, b: seq<byte>, o: nat, n: nat, fewer: nat, all: Option<(seq<T>, nat)>,
                            done: seq<T>)
    requires n == fewer + 1 && Onward(ReadMany(read, b, o, n), all, done)
    ensures read(b, o).None? ==> all.None?
    ensures read(b, o).Some? ==> Onward(ReadMany(read, b, read(b, o).value.1, fewer), all, done + [read(b, o).value.0])
  {
    if read(b, o).Some? {
      ReadManyStep(read, b, o, n);
      var rest := ReadMany(read, b, read(b, o).value.1, fewer);
      if rest.Some? {
        assert done + ([read(b, o).value.0] + rest.value.0) == done + [read(b, o).value.0] + rest.value.0;
      }
    }
  }

  /** A k-byte count and that many items. */
  function Counted<T>(write: T -> seq<byte>, k: nat, xs: seq<T>): (s: seq<byte>)
    ensures |s| == k + |Many(write, xs)|
  {
    LE(|xs|, k) + Many(write, xs)
  }

  function ReadCounted<T>(read: Reader<T>, k: nat, b: seq<byte>, o: nat): Option<(seq<T>, nat)> {
    if o + k > |b| then None else ReadMany(read, b, o + k, UIntAt(b, o, k))
  }

  // ---------------------------------------------------------------- length-prefixed payloads

  function Framed(payload: seq<byte>): (s: seq<byte>)
    ensures |s| == 4 + |payload|
  {
    LE(|payload|, 4) + payload
  }

  /** A u32 length and that many bytes, handed to `inner`. */
  function ReadFramed<T>(inner: seq<byte> -> Option<T>, b: seq<byte>, o: nat): Option<(T, nat)> {
    if o + 4 > |b| then None
    else
      var end := o + 4 + UIntAt(b, o, 4);
      if end > |b| then None
      else
        match inner(b[o + 4..end])
        case None => None
        case Some(x) => Some((x, end))
  }

  function FramedReader<T>(inner: seq<byte> -> Option<T>): Reader<T> {
    (b: seq<byte>, o: nat) => ReadFramed(inner, b, o)
  }
}
