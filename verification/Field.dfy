/** crypto/ct.go, field part: arithmetic modulo p = 2^256 - 2^32 - 977 on four 64-bit limbs.

    The methods follow the carry chains of the source word by word; their contracts speak of
    the integer the limbs stand for.  That no carry is lost is what their proofs show. */
module Field {
  import opened Commitment
  import opened Bits

  const B2 := 0x1_0000_0000_0000_0000_0000_0000_0000_0000
  const B3 := 0x1_0000_0000_0000_0000_0000_0000_0000_0000_0000_0000_0000_0000
  const B4 := 0x1_0000_0000_0000_0000_0000_0000_0000_0000_0000_0000_0000_0000_0000_0000_0000_0000

  /** 2^256 mod p */
  const FE_C := 0x1_0000_03D1
  const P := B4 - FE_C

  /** Four words, least significant first. */
  datatype Fe = Fe(w0: u64, w1: u64, w2: u64, w3: u64) {
    function Value(): nat { w0 + WORD * w1 + B2 * w2 + B3 * w3 }

    predicate Reduced() { Value() < P }

    function Limb(i: nat): u64
      requires i < 4
    {
      if i == 0 then w0 else if i == 1 then w1 else if i == 2 then w2 else w3
    }
  }

  /** The limbs of p. */
  const PL := Fe(0xFFFF_FFFE_FFFF_FC2F, ONES, ONES, ONES)

  lemma ValueBound(a: Fe)
    ensures a.Value() < B4
  {
  }

  lemma LimbsOfP()
    ensures PL.Value() == P && Fe(0xFFFF_FFFE_FFFF_FC2D, ONES, ONES, ONES).Value() == P - 2
  {
  }

  // ---------------------------------------------------------------- chains

  /** r = a + b as 256 bits and a carry. */
  method AddChain(a: Fe, b: Fe) returns (r: Fe, c: nat)
    ensures c <= 1 && r.Value() + B4 * c == a.Value() + b.Value()
  {
    var (r0, c0) := Add64(a.w0, b.w0, 0);
    var (r1, c1) := Add64(a.w1, b.w1, c0);
    var (r2, c2) := Add64(a.w2, b.w2, c1);
    var (r3, c3) := Add64(a.w3, b.w3, c2);
    r, c := Fe(r0, r1, r2, r3), c3;
  }

  /** r = a - b as 256 bits and a borrow. */
  method SubChain(a: Fe, b: Fe) returns (r: Fe, borrow: nat)
    ensures borrow <= 1 && r.Value() - B4 * borrow == a.Value() - b.Value()
  {
    var (r0, b0) := Sub64(a.w0, b.w0, 0);
    var (r1, b1) := Sub64(a.w1, b.w1, b0);
    var (r2, b2) := Sub64(a.w2, b.w2, b1);
    var (r3, b3) := Sub64(a.w3, b.w3, b2);
    r, borrow := Fe(r0, r1, r2, r3), b3;
  }

  /** a if the mask is all ones, b if it is zero. */
  method MaskSelect(a: Fe, b: Fe, mask: u64) returns (r: Fe)
    requires mask == 0 || mask == ONES
    ensures r == if mask == ONES then a else b
  {
    MaskedSelects(a.w0, b.w0, mask);
    MaskedSelects(a.w1, b.w1, mask);
    MaskedSelects(a.w2, b.w2, mask);
    MaskedSelects(a.w3, b.w3, mask);
    r := Fe(Masked(a.w0, b.w0, mask), Masked(a.w1, b.w1, mask), Masked(a.w2, b.w2, mask), Masked(a.w3, b.w3, mask));
  }

  method FeCSelect(choose: nat, a: Fe, b: Fe) returns (r: Fe)
    requires choose <= 1
    ensures r == if choose == 1 then a else b
  {
    r := MaskSelect(a, b, (WORD - choose) % WORD);
  }

  predicate FeIsZero(a: Fe) { Or(Or(Or(a.w0, a.w1), a.w2), a.w3) == 0 }

  lemma {:induction false} OrZero(x: nat, y: nat)
    ensures Or(x, y) == 0 <==> x == 0 && y == 0
  {
    if x > 0 && y > 0 {
      OrZero(x / 2, y / 2);
    }
  }

  lemma FeIsZeroIff(a: Fe)
    ensures FeIsZero(a) <==> a.Value() == 0
  {
    OrZero(a.w0, a.w1);
    OrZero(Or(a.w0, a.w1), a.w2);
    OrZero(Or(Or(a.w0, a.w1), a.w2), a.w3);
  }

  // ---------------------------------------------------------------- add and subtract

  method FeCondSubP(a: Fe) returns (out: Fe)
    ensures out.Value() == if a.Value() >= P then a.Value() - P else a.Value()
    ensures out.Reduced() && out.Value() == a.Value() % P
  {
    LimbsOfP();
    var r, b := SubChain(a, PL);
    var mask := (b + ONES) % WORD;   // b - 1
    out := MaskSelect(r, a, mask);
    ValueBound(a);
    ValueBound(r);
    IsRemainder(out.Value(), a.Value(), if a.Value() >= P then 1 else 0, P);
  }

  /** Add the carry back in as c * 2^256 mod p. */
  method FoldCarry(a: Fe, c: nat) returns (r: Fe, carry: nat)
    requires c <= 1
    ensures carry <= 1 && r.Value() + B4 * carry == a.Value() + FE_C * c
  {
    r, carry := AddChain(a, Fe(c * FE_C, 0, 0, 0));
  }

  /** Exact modulo p for all 256-bit inputs, reduced or not. */
  method FeAdd(a: Fe, b: Fe) returns (out: Fe)
    ensures out.Reduced() && out.Value() == (a.Value() + b.Value()) % P
  {
    ValueBound(a);
    ValueBound(b);
    var r, c := AddChain(a, b);
    ghost var q: nat := c;
    ValueBound(r);
    r, c := FoldCarry(r, c);
    q := q + c;
    ValueBound(r);
    r, c := FoldCarry(r, c);
    ValueBound(r);
    assert c == 0 && r.Value() + q * P == a.Value() + b.Value();
    out := FeCondSubP(r);
    IsRemainder(out.Value(), a.Value() + b.Value(), if r.Value() >= P then q + 1 else q, P);
  }

  lemma SubFacts(a: nat, b: nat, d: nat, br: nat, r: nat, c: nat)
    requires a < B4 && b < B4 && d < B4 && r < B4 && br <= 1 && c <= 1
    requires d - B4 * br == a - b && r + B4 * c == d + (if br == 1 then P else 0)
    ensures r == (a - b + (if a < b then P else 0)) % B4
    ensures a < P && b < P ==> r == (a - b) % P
  {
    IsRemainder(r, a - b + (if a < b then P else 0), c - br, B4);
    if a < P && b < P {
      IsRemainder(r, a - b, if br == 1 then -1 else 0, P);
    }
  }

  /** Exact, and reduced, for reduced inputs; in general p is added once after a borrow. */
  method FeSub(a: Fe, b: Fe) returns (r: Fe)
    ensures a.Reduced() && b.Reduced() ==> r.Reduced() && r.Value() == (a.Value() - b.Value()) % P
    ensures r.Value() == (a.Value() - b.Value() + (if a.Value() < b.Value() then P else 0)) % B4
  {
    LimbsOfP();
    ValueBound(a);
    ValueBound(b);
    var d, br := SubChain(a, b);
    var mask := (WORD - br) % WORD;   // 0 - borrow
    var p := MaskSelect(PL, Fe(0, 0, 0, 0), mask);   // pl[i] & mask
    var c;
    r, c := AddChain(d, p);
    ValueBound(d);
    ValueBound(r);
    SubFacts(a.Value(), b.Value(), d.Value(), br, r.Value(), c);
  }

  // ---------------------------------------------------------------- multiply: the schoolbook product

  /** The weight of limb k. */
  function PowB(k: nat): (p: nat)
    ensures p >= 1
  {
    if k == 0 then 1 else WORD * PowB(k - 1)
  }

  /** What a row of words stands for. */
  function Sum(s: seq<int>): int {
    if s == [] then 0 else s[0] + WORD * Sum(s[1..])
  }

  lemma {:induction false} SumUpdate(s: seq<int>, k: nat, x: int)
    requires k < |s|
    ensures Sum(s[k := x]) == Sum(s) + (x - s[k]) * PowB(k)
  {
    if k == 0 {
      assert s[0 := x][1..] == s[1..];
    } else {
      assert s[k := x][1..] == s[1..][k - 1 := x];
      SumUpdate(s[1..], k - 1, x);
      var d, w := x - s[k], PowB(k - 1);
      assert d * (WORD * w) == WORD * (d * w);
    }
  }

  /** x * b * 2^(64 i), the first j partial products of it. */
  function Row(x: nat, b: Fe, i: nat, j: nat): nat
    requires j <= 4
  {
    if j == 0 then 0 else Row(x, b, i, j - 1) + x * b.Limb(j - 1) * PowB(i + j - 1)
  }

  function Rows(a: Fe, b: Fe, i: nat): nat
    requires i <= 4
  {
    if i == 0 then 0 else Rows(a, b, i - 1) + Row(a.Limb(i - 1), b, i - 1, 4)
  }

  /** One step of the inner loop loses nothing and its carry fits a word. */
  lemma StepExact(t: u64, x: u64, y: u64, carry: u64, s: u64, out: nat, w: nat)
    requires t + x * y + carry == s + WORD * out && 0 <= x * y <= (WORD - 1) * (WORD - 1)
    ensures out < WORD
    ensures (s - t) * w + out * (WORD * w) == x * y * w + carry * w
  {
    var p := x * y;
    assert (t + p + carry) * w == (s + WORD * out) * w;
    assert (t + p + carry) * w == t * w + p * w + carry * w;
    assert (s + WORD * out) * w == s * w + out * (WORD * w);
    assert (s - t) * w == s * w - t * w;
  }

  lemma StepSum(t: seq<int>, k: nat, x: u64, y: u64, carry: u64, s: u64, out: nat)
    requires k < |t| && 0 <= t[k] < WORD
    requires t[k] + x * y + carry == s + WORD * out && 0 <= x * y <= (WORD - 1) * (WORD - 1)
    ensures out < WORD
    ensures Sum(t[k := s]) + out * PowB(k + 1) == Sum(t) + carry * PowB(k) + x * y * PowB(k)
  {
    StepExact(t[k], x, y, carry, s, out, PowB(k));
    SumUpdate(t, k, s);
  }

  lemma RowStep(x: nat, b: Fe, i: nat, j: nat)
    requires j < 4
    ensures Row(x, b, i, j + 1) == Row(x, b, i, j) + x * b.Limb(j) * PowB(i + j)
  {
  }

  /** t[at] += x * y + carry, the part above 64 bits carried on. */
  method AddCell(t: array<u64>, x: u64, y: u64, at: nat, carry: u64) returns (next: u64)
    requires at < t.Length
    modifies t
    ensures Sum(t[..]) + next * PowB(at + 1) == old(Sum(t[..])) + carry * PowB(at) + x * y * PowB(at)
    ensures forall k :: 0 <= k < t.Length && k != at ==> t[k] == old(t[k])
  {
    ghost var before := t[..];
    var (hi, lo) := Mul64(x, y);
    var (s, c1) := Add64(t[at], lo, 0);
    var (s', c2) := Add64(s, carry, 0);
    StepSum(before, at, x, y, carry, s', hi + c1 + c2);
    t[at] := s';
    assert t[..] == before[at := s'];
    next := hi + c1 + c2;
  }

  /** The inner loop: t += x * b * 2^(64 i). */
  method AddRow(t: array<u64>, x: u64, b: Fe, i: nat)
    requires t.Length == 8 && i < 4 && forall k :: i + 4 <= k < 8 ==> t[k] == 0
    modifies t
    ensures Sum(t[..]) == old(Sum(t[..])) + Row(x, b, i, 4)
    ensures forall k :: i + 5 <= k < 8 ==> t[k] == 0
  {
    var carry: u64 := 0;
    for j := 0 to 4
      invariant Sum(t[..]) + carry * PowB(i + j) == old(Sum(t[..])) + Row(x, b, i, j)
      invariant forall k :: i + 4 <= k < 8 ==> t[k] == 0
    {
      carry := AddCell(t, x, b.Limb(j), i + j, carry);
      RowStep(x, b, i, j);
    }
    AddCarry(t, i + 4, carry);
  }

  /** t[at] += carry, where t[at] is still zero. */
  method AddCarry(t: array<u64>, at: nat, carry: u64)
    requires at < t.Length && t[at] == 0
    modifies t
    ensures Sum(t[..]) == old(Sum(t[..])) + carry * PowB(at)
    ensures forall k :: 0 <= k < t.Length && k != at ==> t[k] == old(t[k])
  {
    ghost var before := t[..];
    SumUpdate(before, at, carry);
    t[at] := (t[at] + carry) % WORD;
    assert t[..] == before[at := carry];
  }

  /** The 512-bit product in eight words. */
  method Schoolbook(a: Fe, b: Fe) returns (t: array<u64>)
    ensures fresh(t) && t.Length == 8 && Sum(t[..]) == Rows(a, b, 4)
  {
    t := new u64[8](_ => 0);
    SumZero(t[..]);
    for i := 0 to 4
      invariant Sum(t[..]) == Rows(a, b, i)
      invariant forall k :: i + 4 <= k < 8 ==> t[k] == 0
    {
      AddRow(t, a.Limb(i), b, i);
    }
  }

  lemma {:induction false} SumZero(s: seq<int>)
    requires forall k :: 0 <= k < |s| ==> s[k] == 0
    ensures Sum(s) == 0
  {
    if s != [] {
      SumZero(s[1..]);
    }
  }

  // ---------------------------------------------------------------- multiply: the product is a * b

  lemma PowBValues()
    ensures PowB(0) == 1 && PowB(1) == WORD && PowB(2) == B2 && PowB(3) == B3 && PowB(4) == B4
  {
    assert PowB(1) == WORD * PowB(0);
    assert PowB(2) == WORD * PowB(1);
    assert PowB(3) == WORD * PowB(2);
    assert PowB(4) == WORD * PowB(3);
  }

  /** A full row is x * b, shifted by i limbs. */
  lemma RowValue(x: nat, b: Fe, i: nat)
    ensures Row(x, b, i, 4) == x * b.Value() * PowB(i)
  {
    var w := PowB(i);
    assert PowB(i + 1) == WORD * w && PowB(i + 2) == B2 * w && PowB(i + 3) == B3 * w by {
      assert PowB(i + 1) == WORD * PowB(i);
      assert PowB(i + 2) == WORD * PowB(i + 1);
      assert PowB(i + 3) == WORD * PowB(i + 2);
    }
    RowUnrolled(x, b, i);
    RowAlgebra(x, b.w0, b.w1, b.w2, b.w3, w);
  }

  lemma RowUnrolled(x: nat, b: Fe, i: nat)
    ensures Row(x, b, i, 4)
            == x * b.w0 * PowB(i) + x * b.w1 * PowB(i + 1) + x * b.w2 * PowB(i + 2) + x * b.w3 * PowB(i + 3)
  {
    assert Row(x, b, i, 1) == x * b.w0 * PowB(i);
    assert Row(x, b, i, 2) == Row(x, b, i, 1) + x * b.w1 * PowB(i + 1);
    assert Row(x, b, i, 3) == Row(x, b, i, 2) + x * b.w2 * PowB(i + 2);
  }

  lemma RowAlgebra(x: nat, y0: nat, y1: nat, y2: nat, y3: nat, w: nat)
    ensures x * y0 * w + x * y1 * (WORD * w) + x * y2 * (B2 * w) + x * y3 * (B3 * w)
         == x * (y0 + WORD * y1 + B2 * y2 + B3 * y3) * w
  {
    Scaled(x, y1, WORD, w);
    Scaled(x, y2, B2, w);
    Scaled(x, y3, B3, w);
    var p0, p1, p2, p3 := x * y0, x * (WORD * y1), x * (B2 * y2), x * (B3 * y3);
    assert x * (y0 + WORD * y1 + B2 * y2 + B3 * y3) == p0 + p1 + p2 + p3;
    assert (p0 + p1 + p2 + p3) * w == p0 * w + p1 * w + p2 * w + p3 * w;
  }

  lemma Scaled(x: nat, y: nat, c: nat, w: nat)
    ensures x * y * (c * w) == x * (c * y) * w
  {
    assert x * (c * y) == c * (x * y);
    assert x * y * (c * w) == c * (x * y) * w;
  }

  lemma RowsProduct(a: Fe, b: Fe)
    ensures Rows(a, b, 4) == a.Value() * b.Value()
  {
    var v := b.Value();
    RowValue(a.w0, b, 0);
    RowValue(a.w1, b, 1);
    RowValue(a.w2, b, 2);
    RowValue(a.w3, b, 3);
    RowsUnrolled(a, b);
    PowBValues();
    FourTerms(v, a.w0, a.w1, a.w2, a.w3);
  }

  lemma FourTerms(v: nat, x0: nat, x1: nat, x2: nat, x3: nat)
    ensures x0 * v * 1 + x1 * v * WORD + x2 * v * B2 + x3 * v * B3 == (x0 + WORD * x1 + B2 * x2 + B3 * x3) * v
  {
    var p1, p2, p3 := WORD * x1, B2 * x2, B3 * x3;
    assert (x0 + p1 + p2 + p3) * v == x0 * v + p1 * v + p2 * v + p3 * v;
    assert p1 * v == WORD * (x1 * v) && p2 * v == B2 * (x2 * v) && p3 * v == B3 * (x3 * v);
  }

  lemma RowsUnrolled(a: Fe, b: Fe)
    ensures Rows(a, b, 4) == Row(a.w0, b, 0, 4) + Row(a.w1, b, 1, 4) + Row(a.w2, b, 2, 4) + Row(a.w3, b, 3, 4)
  {
    assert Rows(a, b, 1) == Row(a.w0, b, 0, 4);
    assert Rows(a, b, 2) == Rows(a, b, 1) + Row(a.w1, b, 1, 4);
    assert Rows(a, b, 3) == Rows(a, b, 2) + Row(a.w2, b, 2, 4);
  }

  // ---------------------------------------------------------------- multiply: the reduction

  /** a * b as four words and a fifth above them. */
  method Mul256By64(a: Fe, b: u64) returns (m: Fe, m4: u64)
    ensures m.Value() + B4 * m4 == a.Value() * b
  {
    var words := new u64[5](_ => 0);
    SumZero(words[..]);
    var carry: u64 := 0;
    for i := 0 to 4
      invariant Sum(words[..]) + carry * PowB(i) == Row(b, a, 0, i)
      invariant forall k :: i <= k < 5 ==> words[k] == 0
    {
      ghost var before := words[..];
      var (hi, lo) := Mul64(a.Limb(i), b);
      var (s, c) := Add64(lo, carry, 0);
      StepSum(before, i, b, a.Limb(i), carry, s, hi + c);
      RowStep(b, a, 0, i);
      words[i] := s;
      assert words[..] == before[i := s];
      carry := hi + c;
    }
    ghost var before := words[..];
    SumUpdate(before, 4, carry);
    words[4] := carry;
    assert words[..] == before[4 := carry];
    m, m4 := Fe(words[0], words[1], words[2], words[3]), words[4];
    PowBValues();
    RowValue(b, a, 0);
    SumOfFive(words[..]);
  }

  lemma SumOfFive(s: seq<int>)
    requires |s| == 5
    ensures Sum(s) == s[0] + WORD * s[1] + B2 * s[2] + B3 * s[3] + B4 * s[4]
  {
    SumTail(s);
    SumTail(s[1..]);
    SumTail(s[2..]);
    SumTail(s[3..]);
    SumTail(s[4..]);
  }

  lemma SumTail(s: seq<int>)
    requires s != []
    ensures Sum(s) == s[0] + WORD * Sum(s[1..])
    ensures forall k :: 1 <= k < |s| ==> s[1..][k - 1..] == s[k..]
  {
  }

  lemma {:induction false} SumSplit(s: seq<int>, k: nat)
    requires k <= |s|
    ensures Sum(s) == Sum(s[..k]) + PowB(k) * Sum(s[k..])
  {
    if k == 0 {
      assert s[0..] == s;
    } else {
      SumSplit(s[1..], k - 1);
      assert s[..k][1..] == s[1..][..k - 1] && s[k..] == s[1..][k - 1..];
      var w, high := PowB(k - 1), Sum(s[k..]);
      assert WORD * (w * high) == (WORD * w) * high;
    }
  }

  lemma SumOfFour(s: seq<int>)
    requires |s| == 4
    ensures Sum(s) == s[0] + WORD * s[1] + B2 * s[2] + B3 * s[3]
  {
    SumTail(s);
    SumTail(s[1..]);
    SumTail(s[2..]);
    SumTail(s[3..]);
  }

  /** Folding 512 bits twice by 2^256 mod p and once by a last carry ends below 2^256. */
  lemma ReduceFacts(lo: nat, hi: nat, m: nat, m4: nat, r: nat, c: nat, s: nat, d: nat, u: nat, e: nat)
    requires lo < B4 && hi < B4 && m < B4 && r < B4 && s < B4 && u < B4 && c <= 1 && d <= 1 && e <= 1
    requires m + B4 * m4 == hi * FE_C
    requires r + B4 * c == lo + m
    requires s + B4 * d == r + (m4 + c) * FE_C
    requires u + B4 * e == s + FE_C * d
    ensures e == 0 && lo + B4 * hi == u + (hi + m4 + c + d) * P
  {
    assert m4 < FE_C;
  }

  lemma ReduceResult(lo: nat, hi: nat, m: nat, m4: nat, r: nat, c: nat, s: nat, d: nat, u: nat, e: nat, out: nat)
    requires lo < B4 && hi < B4 && m < B4 && r < B4 && s < B4 && u < B4 && c <= 1 && d <= 1 && e <= 1
    requires m + B4 * m4 == hi * FE_C
    requires r + B4 * c == lo + m
    requires s + B4 * d == r + (m4 + c) * FE_C
    requires u + B4 * e == s + FE_C * d
    requires out == if u >= P then u - P else u
    ensures out == (lo + B4 * hi) % P
  {
    ReduceFacts(lo, hi, m, m4, r, c, s, d, u, e);
    var q := hi + m4 + c + d;
    assert u >= P ==> lo + B4 * hi == out + (q + 1) * P;
    IsRemainder(out, lo + B4 * hi, if u >= P then q + 1 else q, P);
  }

  /** Add the word above 2^256 back in, times 2^256 mod p. */
  method FoldTop(r: Fe, r4: u64) returns (s: Fe, d: nat)
    ensures d <= 1 && s.Value() + B4 * d == r.Value() + r4 * FE_C
  {
    var (h4, l4) := Mul64(r4, FE_C);
    s, d := AddChain(r, Fe(l4, h4, 0, 0));
  }

  /** The first fold: words 4 to 7, times 2^256 mod p, added to words 0 to 3. */
  method FoldHigh(lo: Fe, hi: Fe) returns (r: Fe, r4: u64, ghost m: nat, ghost m4: nat, ghost c: nat)
    ensures m < B4 && c <= 1 && m + B4 * m4 == hi.Value() * FE_C
    ensures r.Value() + B4 * c == lo.Value() + m && r4 == m4 + c
  {
    var low, top := Mul256By64(hi, FE_C);
    var carry;
    r, carry := AddChain(lo, low);
    ValueBound(hi);
    ValueBound(low);
    TopBelow(low.Value(), top, hi.Value(), carry);
    r4 := (top + carry) % WORD;
    m, m4, c := low.Value(), top, carry;
  }

  lemma TopBelow(m: nat, m4: nat, hi: nat, c: nat)
    requires m + B4 * m4 == hi * FE_C && hi < B4 && c <= 1
    ensures m4 < FE_C && (m4 + c) % WORD == m4 + c
  {
  }

  /** Words 4 to 7 are folded down: 512 bits to a residue. */
  method Reduce512(lo: Fe, hi: Fe) returns (out: Fe)
    ensures out.Reduced() && out.Value() == (lo.Value() + B4 * hi.Value()) % P
  {
    var r, r4;
    ghost var m, m4, c;
    r, r4, m, m4, c := FoldHigh(lo, hi);
    var s, d := FoldTop(r, r4);
    var u, e := FoldCarry(s, d);
    out := FeCondSubP(u);
    ValueBound(lo);
    ValueBound(hi);
    ValueBound(r);
    ValueBound(s);
    ValueBound(u);
    ReduceResult(lo.Value(), hi.Value(), m, m4, r.Value(), c, s.Value(), d, u.Value(), e, out.Value());
  }

  /** Exact modulo p for all 4-limb inputs, reduced or not. */
  method FeMul(a: Fe, b: Fe) returns (out: Fe)
    ensures out.Reduced() && out.Value() == (a.Value() * b.Value()) % P
  {
    var t := Schoolbook(a, b);
    var lo, hi := Fe(t[0], t[1], t[2], t[3]), Fe(t[4], t[5], t[6], t[7]);
    assert a.Value() * b.Value() == lo.Value() + B4 * hi.Value() by {
      RowsProduct(a, b);
      PowBValues();
      SumSplit(t[..], 4);
      SumOfFour(t[..][..4]);
      SumOfFour(t[..][4..]);
    }
    out := Reduce512(lo, hi);
  }
}
