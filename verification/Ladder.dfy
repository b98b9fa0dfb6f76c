/** crypto/ct.go, the parts above the field: Fermat inversion, the complete addition formulas
    and the double-and-add-always scalar ladder. */
module Ladder {
  import opened Commitment
  import opened Positions
  import opened Bits
  import opened Field
  import opened Groups

  // ---------------------------------------------------------------- exponents bit by bit

  lemma {:induction false} ShrBound(x: nat, k: nat, m: nat)
    requires x < Pow2(k + m)
    ensures Shr(x, k) < Pow2(m)
  {
    if k > 0 {
      ShrBound(x, k - 1, m + 1);
    }
  }

  lemma {:induction false} ShrAdd(x: nat, j: nat, k: nat)
    ensures Shr(x, j + k) == Shr(Shr(x, j), k)
  {
    if k > 0 {
      ShrAdd(x, j, k - 1);
    }
  }

  lemma {:induction false} ShrWord(x: u64, y: nat, b: nat)
    requires b <= 64
    ensures Shr(x + WORD * y, b) == Shr(x, b) + Shl(y, 64 - b)
  {
    if b == 0 {
      Shift64(y, 0);
    } else {
      ShrWord(x, y, b - 1);
      assert Shl(y, 64 - (b - 1)) == 2 * Shl(y, 64 - b);
    }
  }

  /** The limbs of `k` from `word` up. */
  function Above(k: Fe, word: nat): nat
    requires word <= 4
    decreases 4 - word
  {
    if word == 4 then 0 else k.Limb(word) + WORD * Above(k, word + 1)
  }

  lemma {:induction false} ShrLimbs(k: Fe, word: nat)
    requires word <= 4
    ensures Shr(k.Value(), 64 * word) == Above(k, word)
  {
    if word == 0 {
      assert Above(k, 3) == k.w3 && Above(k, 2) == k.w2 + WORD * k.w3;
    } else {
      ShrLimbs(k, word - 1);
      ShrAdd(k.Value(), 64 * (word - 1), 64);
      Shift64(0, 0);
      ShrBound(k.Limb(word - 1), 64, 0);
      ShrWord(k.Limb(word - 1), Above(k, word), 64);
    }
  }

  /** The bit that the loops over words and bits look at is the next bit of the number. */
  lemma NextBit(k: Fe, word: nat, bit: nat)
    requires word < 4 && bit < 64
    ensures Shr(k.Value(), 64 * word + bit)
            == 2 * Shr(k.Value(), 64 * word + (bit + 1)) + And(Shr(k.Limb(word), bit), 1)
  {
    var n, r := k.Value(), 64 * word + bit;
    assert Shr(n, r + 1) == Shr(n, r) / 2;
    assert Shr(n, r) % 2 == And(Shr(k.Limb(word), bit), 1) by {
      ShrAdd(n, 64 * word, bit);
      ShrLimbs(k, word);
      LowBit(k.Limb(word), Above(k, word + 1), bit);
      AndOne(Shr(k.Limb(word), bit));
    }
  }

  lemma LowBit(x: u64, y: nat, bit: nat)
    requires bit < 64
    ensures Shr(x + WORD * y, bit) % 2 == Shr(x, bit) % 2
  {
    ShrWord(x, y, bit);
    assert Shl(y, 64 - bit) == 2 * Shl(y, 63 - bit);
  }

  lemma AndOne(x: nat)
    ensures And(x, 1) == x % 2
  {
  }

  // ---------------------------------------------------------------- inversion by Fermat's exponent

  function Power(b: int, e: nat): int { if e == 0 then 1 else b * Power(b, e - 1) }

  lemma {:induction false} PowerSum(b: int, d: nat, e: nat)
    ensures Power(b, d + e) == Power(b, d) * Power(b, e)
  {
    if d > 0 {
      PowerSum(b, d - 1, e);
      var x, y := Power(b, d - 1), Power(b, e);
      assert b * (x * y) == (b * x) * y;
    }
  }

  // ---------------------------------------------------------------- congruence modulo p

  ghost predicate OffBy(v: int, e: int, q: int) { v == e + q * P }

  /** v and e differ by a multiple of p. */
  ghost predicate Cong(v: int, e: int) { exists q :: OffBy(v, e, q) }

  lemma CongRefl(v: int)
    ensures Cong(v, v)
  {
    assert OffBy(v, v, 0);
  }

  lemma CongMod(v: int)
    ensures Cong(v % P, v)
  {
    assert OffBy(v % P, v, -(v / P));
  }

  /** Only one residue is in range. */
  lemma CongReduced(v: nat, e: int)
    requires v < P && Cong(v, e)
    ensures v == e % P
  {
    var q :| OffBy(v, e, q);
    IsRemainder(v, e, -q, P);
  }

  lemma CongTrans(u: int, v: int, e: int)
    requires Cong(u, v) && Cong(v, e)
    ensures Cong(u, e)
  {
    var j :| OffBy(u, v, j);
    var k :| OffBy(v, e, k);
    assert OffBy(u, e, j + k);
  }

  lemma CongSum(v: int, x: int, w: int, y: int)
    requires Cong(v, x) && Cong(w, y)
    ensures Cong(v + w, x + y) && Cong(v - w, x - y)
  {
    var j :| OffBy(v, x, j);
    var k :| OffBy(w, y, k);
    assert OffBy(v + w, x + y, j + k) && OffBy(v - w, x - y, j - k);
  }

  lemma CongProduct(v: int, x: int, w: int, y: int)
    requires Cong(v, x) && Cong(w, y)
    ensures Cong(v * w, x * y)
  {
    var j :| OffBy(v, x, j);
    var k :| OffBy(w, y, k);
    Distribute(x, j, P, w);
    Distribute(y, k, P, x);
    assert OffBy(v * w, x * y, j * w + k * x);
  }

  // ---------------------------------------------------------------- square and multiply

  /** `a` stands for the residue class of the integer `e`. */
  ghost predicate Stands(a: Fe, e: int) { Cong(a.Value(), e) }

  method Mul(a: Fe, b: Fe, ghost e: int, ghost f: int) returns (r: Fe)
    requires Stands(a, e) && Stands(b, f)
    ensures r.Reduced() && Stands(r, e * f)
  {
    r := FeMul(a, b);
    CongMod(a.Value() * b.Value());
    CongProduct(a.Value(), e, b.Value(), f);
    CongTrans(r.Value(), a.Value() * b.Value(), e * f);
  }

  /** One bit of the exponent. */
  method SquareMultiply(res: Fe, a: Fe, bit: nat, ghost b: nat, ghost e: nat) returns (out: Fe)
    requires bit <= 1 && a.Value() == b && Stands(res, Power(b, e))
    ensures out.Reduced() && Stands(out, Power(b, 2 * e + bit))
  {
    PowerSum(b, e, e);
    out := Mul(res, res, Power(b, e), Power(b, e));
    if bit == 1 {
      CongRefl(b);
      out := Mul(out, a, Power(b, 2 * e), b);
    }
  }

  /** a^(p-2) mod p by 256 squarings. */
  method FeInv(a: Fe) returns (res: Fe)
    ensures res.Value() == Power(a.Value(), P - 2) % P
  {
    var exp := Fe(0xFFFF_FFFE_FFFF_FC2D, ONES, ONES, ONES);
    res := Fe(1, 0, 0, 0);
    CongRefl(1);
    ShrLimbs(exp, 4);
    for word := 4 downto 0
      invariant res.Reduced() && Stands(res, Power(a.Value(), Shr(exp.Value(), 64 * word)))
    {
      for bit := 64 downto 0
        invariant res.Reduced() && Stands(res, Power(a.Value(), Shr(exp.Value(), 64 * word + bit)))
      {
        NextBit(exp, word, bit);
        AndOne(Shr(exp.Limb(word), bit));
        res := SquareMultiply(res, a, And(Shr(exp.Limb(word), bit), 1), a.Value(),
                              Shr(exp.Value(), 64 * word + (bit + 1)));
      }
    }
    LimbsOfP();
    CongReduced(res.Value(), Power(a.Value(), P - 2));
  }

  // ---------------------------------------------------------------- complete addition

  /** A projective point (X:Y:Z). */
  datatype Jac = Jac(x: Fe, y: Fe, z: Fe)

  method Add(a: Fe, b: Fe, ghost e: int, ghost f: int) returns (r: Fe)
    requires Stands(a, e) && Stands(b, f)
    ensures r.Reduced() && Stands(r, e + f)
  {
    r := FeAdd(a, b);
    CongMod(a.Value() + b.Value());
    CongSum(a.Value(), e, b.Value(), f);
    CongTrans(r.Value(), a.Value() + b.Value(), e + f);
  }

  method Sub(a: Fe, b: Fe, ghost e: int, ghost f: int) returns (r: Fe)
    requires a.Reduced() && b.Reduced() && Stands(a, e) && Stands(b, f)
    ensures r.Reduced() && Stands(r, e - f)
  {
    r := FeSub(a, b);
    CongMod(a.Value() - b.Value());
    CongSum(a.Value(), e, b.Value(), f);
    CongTrans(r.Value(), a.Value() - b.Value(), e - f);
  }

  /** (a + b)(c + d) - (ac + bd) */
  lemma Cross(a: int, b: int, c: int, d: int)
    ensures (a + b) * (c + d) - (a * c + b * d) == a * d + b * c
  {
    assert (a + b) * (c + d) == a * c + a * d + b * c + b * d;
  }

  /** A cross term, (a + b)(c + d) less the products already at hand.  The representatives are
      named so that what they must satisfy is one equation. */
  method CrossTerm(a: Fe, b: Fe, c: Fe, d: Fe, ac: Fe, bd: Fe, ghost ea: int, ghost eb: int, ghost ec: int,
                   ghost ed: int, ghost eac: int, ghost ebd: int, ghost t: int)
    returns (r: Fe)
    requires Stands(a, ea) && Stands(b, eb) && Stands(c, ec) && Stands(d, ed)
    requires Stands(ac, eac) && Stands(bd, ebd)
    requires (ea + eb) * (ec + ed) - (eac + ebd) == t
    ensures r.Reduced() && Stands(r, t)
  {
    var left := Add(a, b, ea, eb);
    var right := Add(c, d, ec, ed);
    var both := Mul(left, right, ea + eb, ec + ed);
    var sum := Add(ac, bd, eac, ebd);
    r := Sub(both, sum, (ea + eb) * (ec + ed), eac + ebd);
  }

  /** 3b for y^2 = x^3 + 7 */
  const B3_COEFF := 21

  /** Projective integer coordinates. */
  datatype Coords = Coords(x: int, y: int, z: int)

  /** The complete addition law for a = 0 (Renes, Costello and Batina 2016), over the integers. */
  function SumX(p: Coords, q: Coords): int {
    (p.x * q.y + p.y * q.x) * (p.y * q.y - B3_COEFF * (p.z * q.z))
      - (p.y * q.z + p.z * q.y) * (B3_COEFF * (p.x * q.z + p.z * q.x))
  }

  function SumY(p: Coords, q: Coords): int {
    (p.y * q.y - B3_COEFF * (p.z * q.z)) * (p.y * q.y + B3_COEFF * (p.z * q.z))
      + (B3_COEFF * (p.x * q.z + p.z * q.x)) * (3 * (p.x * q.x))
  }

  function SumZ(p: Coords, q: Coords): int {
    (p.y * q.y + B3_COEFF * (p.z * q.z)) * (p.y * q.z + p.z * q.y) + (3 * (p.x * q.x)) * (p.x * q.y + p.y * q.x)
  }

  /** The limbs stand for the coordinates modulo p. */
  ghost predicate StandsFor(p: Jac, c: Coords) { Stands(p.x, c.x) && Stands(p.y, c.y) && Stands(p.z, c.z) }

  /** The four values that the second half of the formulas starts from. */
  datatype Halves = Halves(t0: Fe, t1: Fe, y3: Fe, z3: Fe)

  method CompleteAdd(p: Jac, q: Jac, ghost c: Coords, ghost d: Coords) returns (r: Jac)
    requires StandsFor(p, c) && StandsFor(q, d)
    ensures r.x.Reduced() && r.y.Reduced() && r.z.Reduced()
    ensures StandsFor(r, Coords(SumX(c, d), SumY(c, d), SumZ(c, d)))
  {
    ghost var x, y, z := c.x * d.x, c.y * d.y, c.z * d.z;
    ghost var u, v, w := c.x * d.y + c.y * d.x, c.y * d.z + c.z * d.y, c.x * d.z + c.z * d.x;
    var xx := Mul(p.x, q.x, c.x, d.x);
    var yy := Mul(p.y, q.y, c.y, d.y);
    var zz := Mul(p.z, q.z, c.z, d.z);
    Cross(c.x, c.y, d.x, d.y);
    var xy := CrossTerm(p.x, p.y, q.x, q.y, xx, yy, c.x, c.y, d.x, d.y, x, y, u);
    Cross(c.y, c.z, d.y, d.z);
    var yz := CrossTerm(p.y, p.z, q.y, q.z, yy, zz, c.y, c.z, d.y, d.z, y, z, v);
    Cross(c.x, c.z, d.x, d.z);
    var xz := CrossTerm(p.x, p.z, q.x, q.z, xx, zz, c.x, c.z, d.x, d.z, x, z, w);
    var h := Prepare(xx, yy, zz, xz, x, y, z, w);
    ghost var lo, hi := y - B3_COEFF * z, y + B3_COEFF * z;
    var x3 := ProductsApart(xy, h.t1, yz, h.y3, u, lo, v, B3_COEFF * w, SumX(c, d));
    var y3 := ProductsTogether(h.t1, h.z3, h.y3, h.t0, lo, hi, B3_COEFF * w, 3 * x, SumY(c, d));
    var z3 := ProductsTogether(h.z3, yz, h.t0, xy, hi, v, 3 * x, u, SumZ(c, d));
    r := Jac(x3, y3, z3);
  }

  /** 3 X1 X2, Y1 Y2 - 3b Z1 Z2, 3b times the cross term of X and Z, and Y1 Y2 + 3b Z1 Z2. */
  method Prepare(xx: Fe, yy: Fe, zz: Fe, xz: Fe, ghost x: int, ghost y: int, ghost z: int, ghost w: int)
    returns (h: Halves)
    requires Stands(xx, x) && Stands(yy, y) && Stands(zz, z) && Stands(xz, w) && yy.Reduced()
    ensures h.t1.Reduced() && Stands(h.t0, 3 * x) && Stands(h.t1, y - B3_COEFF * z)
    ensures Stands(h.y3, B3_COEFF * w) && Stands(h.z3, y + B3_COEFF * z)
  {
    var b3 := Fe(21, 0, 0, 0);
    CongRefl(21);
    var twice := Add(xx, xx, x, x);
    var t0 := Add(twice, xx, x + x, x);
    assert x + x + x == 3 * x;
    var t2 := Mul(b3, zz, B3_COEFF, z);
    var z3 := Add(yy, t2, y, B3_COEFF * z);
    var t1 := Sub(yy, t2, y, B3_COEFF * z);
    var y3 := Mul(b3, xz, B3_COEFF, w);
    h := Halves(t0, t1, y3, z3);
  }

  /** a b - c d */
  method ProductsApart(a: Fe, b: Fe, c: Fe, d: Fe, ghost ea: int, ghost eb: int, ghost ec: int, ghost ed: int,
                       ghost t: int)
    returns (r: Fe)
    requires Stands(a, ea) && Stands(b, eb) && Stands(c, ec) && Stands(d, ed) && t == ea * eb - ec * ed
    ensures r.Reduced() && Stands(r, t)
  {
    var cd := Mul(c, d, ec, ed);
    var ab := Mul(a, b, ea, eb);
    r := Sub(ab, cd, ea * eb, ec * ed);
  }

  /** a b + c d */
  method ProductsTogether(a: Fe, b: Fe, c: Fe, d: Fe, ghost ea: int, ghost eb: int, ghost ec: int, ghost ed: int,
                          ghost t: int)
    returns (r: Fe)
    requires Stands(a, ea) && Stands(b, eb) && Stands(c, ec) && Stands(d, ed) && t == ea * eb + ec * ed
    ensures r.Reduced() && Stands(r, t)
  {
    var ab := Mul(a, b, ea, eb);
    var cd := Mul(c, d, ec, ed);
    r := Add(ab, cd, ea * eb, ec * ed);
  }

  // ---------------------------------------------------------------- what the formulas mean

  function Sum3(p: Coords, q: Coords): Coords { Coords(SumX(p, q), SumY(p, q), SumZ(p, q)) }

  /** Adding (0:1:0) only rescales the coordinates. */
  lemma SumWithIdentity(p: Coords)
    ensures Sum3(p, Coords(0, 1, 0)) == Coords(p.x * p.y, p.y * p.y, p.z * p.y)
  {
    assert p.z * 0 == 0 && p.x * 0 == 0;
  }

  /** Adding the mirrored point gives a multiple of (0:1:0). */
  lemma SumWithInverse(p: Coords)
    ensures Sum3(p, Coords(p.x, -p.y, p.z)).x == 0 && Sum3(p, Coords(p.x, -p.y, p.z)).z == 0
  {
    var q := Coords(p.x, -p.y, p.z);
    assert p.x * q.y + p.y * q.x == 0 && p.y * q.z + p.z * q.y == 0;
    assert SumX(p, q) == 0 * (p.y * q.y - B3_COEFF * (p.z * q.z)) - 0 * (B3_COEFF * (p.x * q.z + p.z * q.x));
  }

  lemma SumCommutes(p: Coords, q: Coords)
    ensures Sum3(p, q) == Sum3(q, p)
  {
    assert p.x * q.x == q.x * p.x && p.y * q.y == q.y * p.y && p.z * q.z == q.z * p.z;
    assert p.x * q.y == q.y * p.x && p.y * q.x == q.x * p.y && p.y * q.z == q.z * p.y;
    assert p.z * q.y == q.y * p.z && p.x * q.z == q.z * p.x && p.z * q.x == q.x * p.z;
  }

  // ---------------------------------------------------------------- the ladder

  function CoordsOf(p: Jac): Coords { Coords(p.x.Value(), p.y.Value(), p.z.Value()) }

  const IDENTITY := Jac(Fe(0, 0, 0, 0), Fe(1, 0, 0, 0), Fe(0, 0, 0, 0))

  /** `means` reads limbs as elements of `g`, and the complete formulas add those elements.  For the
      curve's points under pointAdd that is ChordTangent.FormulasImplement. */
  ghost predicate Implements<G(!new)>(g: Group<G>, means: (Jac, G) -> bool) {
    && means(IDENTITY, g.zero)
    && forall p, q, r: Jac, a, b ::
         means(p, a) && means(q, b) && StandsFor(r, Sum3(CoordsOf(p), CoordsOf(q))) ==> means(r, g.add(a, b))
  }

  method JacAdd(p: Jac, q: Jac) returns (r: Jac)
    ensures StandsFor(r, Sum3(CoordsOf(p), CoordsOf(q)))
  {
    CongRefl(p.x.Value());
    CongRefl(p.y.Value());
    CongRefl(p.z.Value());
    CongRefl(q.x.Value());
    CongRefl(q.y.Value());
    CongRefl(q.z.Value());
    r := CompleteAdd(p, q, CoordsOf(p), CoordsOf(q));
  }

  method JacCSelect(choose: nat, a: Jac, b: Jac) returns (r: Jac)
    requires choose <= 1
    ensures r == if choose == 1 then a else b
  {
    var x := FeCSelect(choose, a.x, b.x);
    var y := FeCSelect(choose, a.y, b.y);
    var z := FeCSelect(choose, a.z, b.z);
    r := Jac(x, y, z);
  }

  /** One rung: double, always add, and keep the sum only when the bit is set. */
  method Rung<G(!new)>(r: Jac, p: Jac, bit: nat, ghost g: Group<G>, ghost means: (Jac, G) -> bool, ghost a: G,
                       ghost k: nat)
    returns (out: Jac)
    requires IsGroup(g) && Implements(g, means) && means(p, a) && means(r, Multiple(g, k, a)) && bit <= 1
    ensures means(out, Multiple(g, 2 * k + bit, a))
  {
    DoubleAndAdd(g, k, bit, a);
    var twice := JacAdd(r, r);
    var sum := JacAdd(twice, p);
    out := JacCSelect(bit, sum, twice);
  }

  /** The inner loop: the 64 bits of one word. */
  method LadderWord<G(!new)>(start: Jac, kBits: Fe, word: nat, p: Jac, ghost g: Group<G>, ghost means: (Jac, G) -> bool,
                             ghost a: G)
    returns (r: Jac)
    requires IsGroup(g) && Implements(g, means) && means(p, a) && word < 4
    requires means(start, Multiple(g, Shr(kBits.Value(), 64 * word + 64), a))
    ensures means(r, Multiple(g, Shr(kBits.Value(), 64 * word), a))
  {
    r := start;
    ghost var above := Shr(kBits.Value(), 64 * word + 64);
    for bit := 64 downto 0
      invariant above == Shr(kBits.Value(), 64 * word + bit) && means(r, Multiple(g, above, a))
    {
      NextBit(kBits, word, bit);
      AndOne(Shr(kBits.Limb(word), bit));
      r := Rung(r, p, And(Shr(kBits.Limb(word), bit), 1), g, means, a, above);
      above := 2 * above + And(Shr(kBits.Limb(word), bit), 1);
    }
  }

  /** k * P for every 256-bit k, whatever its bits. */
  method ScalarMultCT<G(!new)>(kBits: Fe, p: Jac, ghost g: Group<G>, ghost means: (Jac, G) -> bool, ghost a: G)
    returns (r: Jac)
    requires IsGroup(g) && Implements(g, means) && means(p, a)
    ensures means(r, Multiple(g, kBits.Value(), a))
  {
    r := IDENTITY;
    ShrLimbs(kBits, 4);
    for word := 4 downto 0
      invariant means(r, Multiple(g, Shr(kBits.Value(), 64 * word), a))
    {
      assert 64 * (word + 1) == 64 * word + 64;
      r := LadderWord(r, kBits, word, p, g, means, a);
    }
  }
}
