/** crypto/secp256k1.go:113-126 and 304-417: scalar multiplication, signing, verification and the
    second form of a signature, over an abstract group of odd order n in which every non-zero
    scalar has an inverse modulo n (for secp256k1, n is prime). */
module Ecdsa {
  import opened Commitment
  import opened Positions
  import opened Bits
  import opened Groups
  import Field

  /** A public key: affine coordinates, which need not be those of a point. */
  datatype PublicKey = PublicKey(x: int, y: int)

  /** y^2 = x^3 + 7, in field range. */
  predicate OnCurve(k: PublicKey) {
    0 <= k.x < Field.P && 0 <= k.y < Field.P && k.y * k.y % Field.P == (k.x * k.x * k.x + 7) % Field.P
  }

  /** `point` gives the element that coordinates on the curve stand for. */
  datatype Curve<!G> = Curve(group: Group<G>, base: G, n: nat, x: G -> nat, inverse: nat -> nat, point: PublicKey -> G)

  const TWO256 := 0x1_0000_0000_0000_0000_0000_0000_0000_0000_0000_0000_0000_0000_0000_0000_0000_0000

  ghost predicate Commutes<G(!new)>(g: Group<G>, a: G) { forall b :: g.add(a, b) == g.add(b, a) }

  /** The order of the point divides n. */
  ghost predicate HasOrder<G(!new)>(c: Curve<G>, q: G) { Multiple(c.group, c.n, q) == c.group.zero }

  /** The group commutes, the base point has order n and the order of every key on the curve divides
      it, a point and its negative have one x-coordinate, and `inverse` is ModInverse. */
  ghost predicate IsCurve<G(!new)>(c: Curve<G>) {
    && IsGroup(c.group) && (forall a :: Commutes(c.group, a)) && 2 < c.n < TWO256 && c.n % 2 == 1
    && (forall k: nat :: Multiple(c.group, k, c.base) == c.group.zero <==> k % c.n == 0)
    && (forall k: PublicKey :: OnCurve(k) ==> HasOrder(c, c.point(k)))
    && (forall a :: a != c.group.zero ==> c.x(c.group.neg(a)) == c.x(a))
    && (forall a: nat :: 0 < a < c.n ==> 0 < c.inverse(a) < c.n && Eq(a * c.inverse(a), 1, c.n))
  }

  function PointOf<G>(c: Curve<G>, k: nat): G { Multiple(c.group, k, c.base) }

  // ---------------------------------------------------------------- congruence modulo n

  ghost predicate Apart(a: int, b: int, q: int, n: nat) { a == b + q * n }

  /** a and b differ by a multiple of n. */
  ghost predicate Eq(a: int, b: int, n: nat) { exists q :: Apart(a, b, q, n) }

  lemma EqSym(a: int, b: int, n: nat)
    requires Eq(a, b, n)
    ensures Eq(b, a, n)
  {
    var q :| Apart(a, b, q, n);
    assert (-q) * n == -(q * n);
    assert Apart(b, a, -q, n);
  }

  lemma EqTrans(a: int, b: int, c: int, n: nat)
    requires Eq(a, b, n) && Eq(b, c, n)
    ensures Eq(a, c, n)
  {
    var q :| Apart(a, b, q, n);
    var r :| Apart(b, c, r, n);
    assert (q + r) * n == q * n + r * n;
    assert Apart(a, c, q + r, n);
  }

  lemma EqSum(a: int, b: int, c: int, d: int, n: nat)
    requires Eq(a, b, n) && Eq(c, d, n)
    ensures Eq(a + c, b + d, n)
  {
    var q :| Apart(a, b, q, n);
    var r :| Apart(c, d, r, n);
    assert (q + r) * n == q * n + r * n;
    assert Apart(a + c, b + d, q + r, n);
  }

  lemma EqTimes(a: int, b: int, c: int, n: nat)
    requires Eq(a, b, n)
    ensures Eq(a * c, b * c, n)
  {
    var q :| Apart(a, b, q, n);
    Distribute(b, q, n, c);
    assert Apart(a * c, b * c, q * c, n);
  }

  lemma EqMod(a: int, n: nat)
    requires n > 0
    ensures Eq(a % n, a, n)
  {
    var q := a / n;
    assert a == q * n + a % n;
    assert (-q) * n == -(q * n);
    assert Apart(a % n, a, -q, n);
  }

  /** Congruent to zero is divisible. */
  lemma EqZero(a: int, n: nat)
    requires n > 0 && Eq(a, 0, n)
    ensures a % n == 0
  {
    var q :| Apart(a, 0, q, n);
    IsRemainder(0, a, q, n);
  }

  // ---------------------------------------------------------------- scalar multiplication

  lemma {:induction false} ShrStep(k: nat, i: nat)
    ensures Shr(k, i) == 2 * Shr(k, i + 1) + Shr(k, i) % 2
  {
  }

  lemma {:induction false} ShrHalf(k: nat, i: nat)
    ensures Shr(k / 2, i) == Shr(k, i + 1)
  {
    if i > 0 {
      ShrHalf(k, i - 1);
    }
  }

  lemma {:induction false} ShrAll(k: nat)
    ensures Shr(k, BitLen(k)) == 0
  {
    if k > 0 {
      ShrAll(k / 2);
      ShrHalf(k, BitLen(k / 2));
    }
  }

  /** The conditional double-and-add ladder over the bits of k. */
  method ScalarMult<G(!new)>(g: Group<G>, k: nat, a: G) returns (r: G)
    requires IsGroup(g)
    ensures r == Multiple(g, k, a)
  {
    r := g.zero;
    ShrAll(k);
    for i := BitLen(k) downto 0
      invariant r == Multiple(g, Shr(k, i), a)
    {
      ShrStep(k, i);
      DoubleAndAdd(g, Shr(k, i + 1), Shr(k, i) % 2, a);
      r := g.add(r, r);
      if Shr(k, i) % 2 == 1 {
        r := g.add(r, a);
      }
    }
  }

  lemma {:induction false} MultipleProduct<G(!new)>(g: Group<G>, j: nat, k: nat, m: nat, a: G)
    requires IsGroup(g) && m == j * k
    ensures Multiple(g, j, Multiple(g, k, a)) == Multiple(g, m, a)
    decreases j
  {
    if j > 0 {
      var m' := OneLess(j, k, m);
      MultipleProduct(g, j - 1, k, m', a);
      MultipleSum(g, k, m', a);
    }
  }

  lemma OneLess(j: nat, k: nat, m: nat) returns (m': nat)
    requires j > 0 && m == j * k
    ensures m' == (j - 1) * k && m == k + m'
  {
    assert (j - 1) * k == j * k - k;
    assert (j - 1) * k >= 0;
    m' := m - k;
  }

  lemma NegUnique<G(!new)>(g: Group<G>, a: G, b: G)
    requires IsGroup(g) && g.add(a, b) == g.zero
    ensures b == g.neg(a)
  {
    assert Associates(g, g.neg(a), a, b);
  }

  lemma {:induction false} MultipleOfZero<G(!new)>(g: Group<G>, k: nat)
    requires IsGroup(g)
    ensures Multiple(g, k, g.zero) == g.zero
  {
    if k > 0 {
      MultipleOfZero(g, k - 1);
    }
  }

  lemma DividedMultiple<G(!new)>(g: Group<G>, m: nat, t: nat, n: nat, q: G)
    requires IsGroup(g) && m == t * n && Multiple(g, n, q) == g.zero
    ensures Multiple(g, m, q) == g.zero
  {
    MultipleProduct(g, t, n, m, q);
    MultipleOfZero(g, t);
  }

  lemma Quotient(m: nat, n: nat) returns (t: nat)
    requires n > 0 && m % n == 0
    ensures m == t * n
  {
    t := m / n;
  }

  lemma MultipleVanishes<G(!new)>(g: Group<G>, n: nat, m: nat, q: G)
    requires IsGroup(g) && n > 0 && Multiple(g, n, q) == g.zero && Eq(m, 0, n)
    ensures Multiple(g, m, q) == g.zero
  {
    EqZero(m, n);
    var t := Quotient(m, n);
    DividedMultiple(g, m, t, n, q);
  }

  /** Scalars that add up to a multiple of n give points that are each other's negative. */
  lemma OppositePoints<G(!new)>(g: Group<G>, n: nat, j: nat, k: nat, m: nat, q: G)
    requires IsGroup(g) && n > 0 && Multiple(g, n, q) == g.zero && m == j + k && Eq(m, 0, n)
    ensures Multiple(g, k, q) == g.neg(Multiple(g, j, q))
  {
    MultipleVanishes(g, n, m, q);
    MultipleSum(g, j, k, q);
    NegUnique(g, Multiple(g, j, q), Multiple(g, k, q));
  }

  /** Multiples of a point of that order have it too, ... */
  lemma MultipleHasOrder<G(!new)>(c: Curve<G>, q: G, d: nat)
    requires IsGroup(c.group) && HasOrder(c, q)
    ensures HasOrder(c, Multiple(c.group, d, q))
  {
    TwiceMultiple(c.group, c.n, d, c.n * d, q);
    MultipleOfZero(c.group, d);
  }

  /** j (k q) = k (j q) */
  lemma TwiceMultiple<G(!new)>(g: Group<G>, j: nat, k: nat, m: nat, q: G)
    requires IsGroup(g) && m == j * k
    ensures Multiple(g, j, Multiple(g, k, q)) == Multiple(g, k, Multiple(g, j, q))
  {
    MultipleProduct(g, j, k, m, q);
    MultipleProduct(g, k, j, m, q);
  }

  lemma BaseHasOrder<G(!new)>(c: Curve<G>)
    requires IsCurve(c)
    ensures HasOrder(c, c.base)
  {
    assert Multiple(c.group, c.n, c.base) == c.group.zero <==> c.n % c.n == 0;
  }

  /** ... the keys among them. */
  lemma KeyHasOrder<G(!new)>(c: Curve<G>, d: nat)
    requires IsCurve(c)
    ensures HasOrder(c, PointOf(c, d))
  {
    BaseHasOrder(c);
    MultipleHasOrder(c, c.base, d);
  }

  /** Adding a multiple of n to a scalar does not move the point. */
  lemma ShiftedMultiple<G(!new)>(c: Curve<G>, q: G, j: nat, k: nat, m: nat)
    requires IsGroup(c.group) && c.n > 0 && HasOrder(c, q) && j == k + m && m % c.n == 0
    ensures Multiple(c.group, j, q) == Multiple(c.group, k, q)
  {
    MultipleSum(c.group, k, m, q);
    var t := Quotient(m, c.n);
    DividedMultiple(c.group, m, t, c.n, q);
  }

  /** Congruent scalars give one point. */
  lemma SameMultiple<G(!new)>(c: Curve<G>, q: G, j: nat, k: nat)
    requires IsGroup(c.group) && c.n > 0 && HasOrder(c, q) && Eq(j, k, c.n)
    ensures Multiple(c.group, j, q) == Multiple(c.group, k, q)
  {
    var m := Difference(j, k, c.n);
    if j >= k {
      ShiftedMultiple(c, q, j, k, m);
    } else {
      ShiftedMultiple(c, q, k, j, m);
    }
  }

  lemma Difference(j: nat, k: nat, n: nat) returns (m: nat)
    requires n > 0 && Eq(j, k, n)
    ensures m == (if j >= k then j - k else k - j) && m % n == 0
  {
    var t :| Apart(j, k, t, n);
    DifferenceDivides(j, k, t, n);
    m := if j >= k then j - k else k - j;
  }

  lemma SamePoint<G(!new)>(c: Curve<G>, j: nat, k: nat)
    requires IsCurve(c) && Eq(j, k, c.n)
    ensures PointOf(c, j) == PointOf(c, k)
  {
    BaseHasOrder(c);
    SameMultiple(c, c.base, j, k);
  }

  lemma DifferenceDivides(j: nat, k: nat, q: int, n: nat)
    requires n > 0 && j == k + q * n
    ensures (j - k) % n == 0 && (k - j) % n == 0
  {
    assert (-q) * n == -(q * n);
    IsRemainder(0, j - k, q, n);
    IsRemainder(0, k - j, -q, n);
  }

  // ---------------------------------------------------------------- signing and verifying

  datatype Signature = Signature(r: int, s: int)

  predicate IsLowS<G>(c: Curve<G>, sig: Signature) { sig.s <= c.n / 2 }

  predicate InRange<G>(c: Curve<G>, sig: Signature) { 0 < sig.r < c.n && 0 < sig.s < c.n }

  /** The point whose x-coordinate a verifier compares with r. */
  function CheckPoint<G>(c: Curve<G>, q: G, z: nat, sig: Signature): G
    requires c.n > 0 && InRange(c, sig)
  {
    var w := c.inverse(sig.s);
    c.group.add(PointOf(c, z * w % c.n), Multiple(c.group, sig.r * w % c.n, q))
  }

  predicate Verifies<G(==)>(c: Curve<G>, q: G, z: nat, sig: Signature)
    requires c.n > 0
  {
    && InRange(c, sig)
    && CheckPoint(c, q, z, sig) != c.group.zero && c.x(CheckPoint(c, q, z, sig)) % c.n == sig.r
  }

  /** A missing key, and coordinates off the curve, verify nothing. */
  method Verify<G(!new, ==)>(c: Curve<G>, pub: Option<PublicKey>, z: nat, sig: Signature) returns (ok: bool)
    requires IsCurve(c)
    ensures ok <==> pub.Some? && OnCurve(pub.value) && Verifies(c, c.point(pub.value), z, sig)
  {
    if pub.None? || !OnCurve(pub.value) {
      return false;
    }
    if sig.r <= 0 || sig.r >= c.n || sig.s <= 0 || sig.s >= c.n {
      return false;
    }
    var w := c.inverse(sig.s);
    var u1 := z * w % c.n;
    var u2 := sig.r * w % c.n;
    var p1 := ScalarMult(c.group, u1, c.base);
    var p2 := ScalarMult(c.group, u2, c.point(pub.value));
    var sum := c.group.add(p1, p2);
    if sum == c.group.zero {
      return false;
    }
    return c.x(sum) % c.n == sig.r;
  }

  /** What one attempt with nonce k computes before low-S normalisation. */
  function RawSignature<G>(c: Curve<G>, d: nat, z: nat, k: nat): Signature
    requires c.n > 0
  {
    var r := c.x(PointOf(c, k)) % c.n;
    Signature(r, (r * d + z) * c.inverse(k) % c.n)
  }

  /** Neither component may be zero. */
  predicate Usable(sig: Signature) { sig.r != 0 && sig.s != 0 }

  function Malleated<G>(c: Curve<G>, sig: Signature): Signature { Signature(sig.r, c.n - sig.s) }

  function LowS<G>(c: Curve<G>, sig: Signature): Signature {
    if sig.s > c.n / 2 then Malleated(c, sig) else sig
  }

  const BASE_X := 0x79BE667EF9DCBBAC55A06295CE870B07029BFCDB2DCE28D959F2815B16F81798
  const BASE_Y := 0x483ADA7726A3C4655DA4FBFC0E1108A8FD17B448A68554199C47D08FFB10D4B8

  /** The base point is on the curve, and so is its mirror image; one step aside there is no point. */
  lemma BaseOnCurve()
    ensures OnCurve(PublicKey(BASE_X, BASE_Y)) && OnCurve(PublicKey(BASE_X, Field.P - BASE_Y))
    ensures !OnCurve(PublicKey(BASE_X, BASE_Y + 1)) && !OnCurve(PublicKey(BASE_X + Field.P, BASE_Y))
  {
  }

  const ATTEMPTS := 1000

  /** Signs with the first usable nonce; `nonces` stands for the RFC 6979 derivation, attempt by
      attempt, which yields scalars between 1 and n - 1. */
  method Sign<G(!new, ==)>(c: Curve<G>, d: nat, z: nat, nonces: nat -> nat) returns (r: Result<Signature>)
    requires IsCurve(c) && forall i :: 0 < nonces(i) < c.n
    ensures d == 0 || d >= c.n ==> r.Err?
    ensures r.Err? && 0 < d < c.n ==> forall i :: 0 <= i < ATTEMPTS ==> !Usable(RawSignature(c, d, z, nonces(i)))
    ensures r.Ok? ==> exists i :: 0 <= i < ATTEMPTS && FirstUsable(c, d, z, nonces, i)
                                  && r.value == LowS(c, RawSignature(c, d, z, nonces(i)))
    ensures r.Ok? ==> Verifies(c, PointOf(c, d), z, r.value) && 2 * r.value.s < c.n
  {
    if d == 0 || d >= c.n {
      return Err;
    }
    for i := 0 to ATTEMPTS
      invariant forall j :: 0 <= j < i ==> !Usable(RawSignature(c, d, z, nonces(j)))
    {
      var sig := Attempt(c, d, z, nonces(i));
      if sig.Some? {
        assert FirstUsable(c, d, z, nonces, i);
        return Ok(sig.value);
      }
    }
    return Err;
  }

  /** One turn of the loop of Sign. */
  method Attempt<G(!new, ==)>(c: Curve<G>, d: nat, z: nat, k: nat) returns (sig: Option<Signature>)
    requires IsCurve(c) && 0 < k < c.n
    ensures sig.None? <==> !Usable(RawSignature(c, d, z, k))
    ensures sig.Some? ==> sig.value == LowS(c, RawSignature(c, d, z, k))
    ensures sig.Some? ==> Verifies(c, PointOf(c, d), z, sig.value) && 2 * sig.value.s < c.n
  {
    var point := ScalarMult(c.group, k, c.base);
    var r := c.x(point) % c.n;
    if r == 0 {
      return None;
    }
    var kInv := c.inverse(k);
    var s := (r * d + z) * kInv % c.n;
    if s == 0 {
      return None;
    }
    SignedVerifies(c, d, z, k);
    if s > c.n / 2 {
      s := c.n - s;
    }
    return Some(Signature(r, s));
  }

  ghost predicate FirstUsable<G>(c: Curve<G>, d: nat, z: nat, nonces: nat -> nat, i: nat)
    requires c.n > 0
  {
    && Usable(RawSignature(c, d, z, nonces(i)))
    && forall j :: 0 <= j < i ==> !Usable(RawSignature(c, d, z, nonces(j)))
  }

  // ---------------------------------------------------------------- why signatures verify

  /** The scalar of the check point. */
  function CheckScalar(n: nat, d: nat, z: nat, r: nat, w: nat): nat
    requires n > 0
  {
    z * w % n + r * w % n * d
  }

  lemma CheckPointIs<G(!new)>(c: Curve<G>, d: nat, z: nat, sig: Signature)
    requires IsGroup(c.group) && c.n > 0 && InRange(c, sig)
    ensures CheckPoint(c, PointOf(c, d), z, sig) == PointOf(c, CheckScalar(c.n, d, z, sig.r, c.inverse(sig.s)))
  {
    var w := c.inverse(sig.s);
    var u1, u2 := z * w % c.n, sig.r * w % c.n;
    TwoMultiples(c, u1, u2, d, u2 * d);
  }

  lemma TwoMultiples<G(!new)>(c: Curve<G>, u1: nat, u2: nat, d: nat, m: nat)
    requires IsGroup(c.group) && m == u2 * d
    ensures c.group.add(PointOf(c, u1), Multiple(c.group, u2, PointOf(c, d))) == PointOf(c, u1 + m)
  {
    MultipleProduct(c.group, u2, d, m, c.base);
    MultipleSum(c.group, u1, m, c.base);
  }

  /** u1 + u2 * d is (r * d + z) * w modulo n. */
  lemma CheckScalarEq(n: nat, d: nat, z: nat, r: nat, w: nat)
    requires n > 0
    ensures Eq(CheckScalar(n, d, z, r, w), (r * d + z) * w, n)
  {
    EqMod(z * w, n);
    EqMod(r * w, n);
    EqTimes(r * w % n, r * w, d, n);
    EqSum(z * w % n, z * w, r * w % n * d, r * w * d, n);
    Expand(w, r, d, z);
  }

  lemma Expand(w: int, r: int, d: int, z: int)
    ensures (r * d + z) * w == z * w + r * w * d
  {
    var rd := r * d;
    assert (rd + z) * w == rd * w + z * w;
    assert rd * w == r * w * d;
  }

  /** With s = e / k and w = 1 / s, w * e is k modulo n. */
  lemma ScalarsCancel(n: nat, e: int, k: int, kInv: int, s: int, w: int)
    requires Eq(k * kInv, 1, n) && Eq(s, e * kInv, n) && Eq(s * w, 1, n)
    ensures Eq(e * w, k, n)
  {
    EqTimes(k * kInv, 1, e * w, n);
    EqTimes(s, e * kInv, k * w, n);
    EqTimes(s * w, 1, k, n);
    Rearrange(e, k, kInv, s, w);
    Cancel(n, e * w, e * kInv * (k * w), s * (k * w), k);
  }

  lemma Rearrange(e: int, k: int, kInv: int, s: int, w: int)
    ensures k * kInv * (e * w) == e * kInv * (k * w)
    ensures s * (k * w) == s * w * k
  {
    SwapMiddle(k, kInv, e, w);
    SwapMiddle(s, k, w, 1);
  }

  lemma SwapMiddle(a: int, b: int, c: int, d: int)
    ensures a * b * (c * d) == c * b * (a * d)
    ensures a * (b * c) == a * c * b
  {
    var ab, cd := a * b, c * d;
    assert ab * (c * d) == ab * c * d;
    assert ab * c == c * b * a;
    assert c * b * a * d == c * b * (a * d);
    assert b * c == c * b;
    assert a * (c * b) == a * c * b;
  }

  lemma Cancel(n: nat, a: int, b: int, c: int, k: int)
    requires Eq(b, 1 * a, n) && Eq(c, b, n) && Eq(c, 1 * k, n)
    ensures Eq(a, k, n)
  {
    EqTrans(c, b, a, n);
    EqSym(c, a, n);
    EqTrans(a, c, k, n);
  }

  /** The scalar behind the check point of a fresh signature is the nonce. */
  lemma RawScalar<G(!new)>(c: Curve<G>, d: nat, z: nat, k: nat)
    requires IsCurve(c) && 0 < k < c.n && Usable(RawSignature(c, d, z, k))
    ensures var sig := RawSignature(c, d, z, k);
            InRange(c, sig) && Eq(CheckScalar(c.n, d, z, sig.r, c.inverse(sig.s)), k, c.n)
  {
    var sig := RawSignature(c, d, z, k);
    var e := sig.r * d + z;
    var kInv, w := c.inverse(k), c.inverse(sig.s);
    EqMod(e * kInv, c.n);
    ScalarsCancel(c.n, e, k, kInv, sig.s, w);
    CheckScalarEq(c.n, d, z, sig.r, w);
    EqTrans(CheckScalar(c.n, d, z, sig.r, w), e * w, k, c.n);
  }

  lemma NonZeroPoint<G(!new)>(c: Curve<G>, k: nat)
    requires IsCurve(c) && 0 < k < c.n
    ensures PointOf(c, k) != c.group.zero
  {
    IsRemainder(k, k, 0, c.n);
    assert Multiple(c.group, k, c.base) == c.group.zero <==> k % c.n == 0;
  }

  lemma RawPoint<G(!new)>(c: Curve<G>, d: nat, z: nat, k: nat)
    requires IsCurve(c) && 0 < k < c.n && Usable(RawSignature(c, d, z, k))
    ensures var sig := RawSignature(c, d, z, k);
            InRange(c, sig) && CheckPoint(c, PointOf(c, d), z, sig) == PointOf(c, k)
  {
    var sig := RawSignature(c, d, z, k);
    RawScalar(c, d, z, k);
    CheckPointIs(c, d, z, sig);
    SamePoint(c, CheckScalar(c.n, d, z, sig.r, c.inverse(sig.s)), k);
  }

  /** A fresh signature verifies. */
  lemma RawVerifies<G(!new)>(c: Curve<G>, d: nat, z: nat, k: nat)
    requires IsCurve(c) && 0 < k < c.n && Usable(RawSignature(c, d, z, k))
    ensures Verifies(c, PointOf(c, d), z, RawSignature(c, d, z, k))
  {
    RawPoint(c, d, z, k);
    NonZeroPoint(c, k);
  }

  // ---------------------------------------------------------------- what a verifying signature is

  /** k (a + b) = k a + k b */
  lemma {:induction false} MultipleAdd<G(!new)>(g: Group<G>, k: nat, a: G, b: G)
    requires IsGroup(g) && forall x :: Commutes(g, x)
    ensures Multiple(g, k, g.add(a, b)) == g.add(Multiple(g, k, a), Multiple(g, k, b))
  {
    if k > 0 {
      MultipleAdd(g, k - 1, a, b);
      Interchange(g, a, b, Multiple(g, k - 1, a), Multiple(g, k - 1, b));
    }
  }

  lemma Interchange<G(!new)>(g: Group<G>, a: G, b: G, c: G, d: G)
    requires IsGroup(g) && Commutes(g, b)
    ensures g.add(g.add(a, b), g.add(c, d)) == g.add(g.add(a, c), g.add(b, d))
  {
    assert Associates(g, a, b, g.add(c, d)) && Associates(g, b, c, d);
    assert Associates(g, c, b, d) && Associates(g, a, c, g.add(b, d));
  }

  /** The signature equation s K = z G + r Q, for a point K with x-coordinate r. */
  ghost predicate Solves<G(!new)>(c: Curve<G>, q: G, z: nat, sig: Signature, point: G)
    requires c.n > 0 && InRange(c, sig)
  {
    && HasOrder(c, point) && point != c.group.zero && c.x(point) % c.n == sig.r
    && Multiple(c.group, sig.s, point) == c.group.add(PointOf(c, z), Multiple(c.group, sig.r, q))
  }

  /** s (z w mod n) is z modulo n. */
  lemma ScalarBack(n: nat, s: nat, w: nat, z: nat)
    requires n > 0 && Eq(s * w, 1, n)
    ensures Eq(s * (z * w % n), z, n)
  {
    EqMod(z * w, n);
    EqTimes(z * w % n, z * w, s, n);
    EqTimes(s * w, 1, z, n);
    Commuted(s, z, w, z * w % n);
    EqTrans(s * (z * w % n), s * w * z, 1 * z, n);
  }

  lemma Commuted(s: int, z: int, w: int, m: int)
    ensures m * s == s * m && z * w * s == s * w * z
  {
    SwapMiddle(z, w, s, 1);
    assert z * (w * s) == (w * s) * z && w * s == s * w;
  }

  /** w (s q) = q */
  lemma TimesInverse<G(!new)>(c: Curve<G>, q: G, s: nat, w: nat)
    requires IsGroup(c.group) && c.n > 0 && HasOrder(c, q) && Eq(s * w, 1, c.n)
    ensures Multiple(c.group, w, Multiple(c.group, s, q)) == q
  {
    ProductInverse(c, q, s, w, s * w, 1);
  }

  lemma ProductInverse<G(!new)>(c: Curve<G>, q: G, s: nat, w: nat, m: nat, one: nat)
    requires IsGroup(c.group) && c.n > 0 && HasOrder(c, q) && m == w * s && Eq(m, one, c.n) && one == 1
    ensures Multiple(c.group, w, Multiple(c.group, s, q)) == q
  {
    MultipleProduct(c.group, w, s, m, q);
    SameMultiple(c, q, m, one);
    assert one - 1 == 0;
  }

  lemma SameInverse<G(!new)>(c: Curve<G>, a: G, b: G, s: nat, w: nat)
    requires IsGroup(c.group) && c.n > 0 && HasOrder(c, a) && HasOrder(c, b) && Eq(s * w, 1, c.n)
    requires Multiple(c.group, s, a) == Multiple(c.group, s, b)
    ensures a == b
  {
    TimesInverse(c, a, s, w);
    TimesInverse(c, b, s, w);
  }

  /** s times the multiple by z w mod n is the multiple by z. */
  lemma BackTo<G(!new)>(c: Curve<G>, q: G, s: nat, w: nat, z: nat, u: nat, m: nat)
    requires IsCurve(c) && HasOrder(c, q) && Eq(s * w, 1, c.n) && u == z * w % c.n && m == s * u
    ensures Multiple(c.group, s, Multiple(c.group, u, q)) == Multiple(c.group, z, q)
  {
    MultipleProduct(c.group, s, u, m, q);
    ScalarBack(c.n, s, w, z);
    SameMultiple(c, q, m, z);
  }

  lemma SumHasOrder<G(!new)>(c: Curve<G>, a: G, b: G)
    requires IsCurve(c) && HasOrder(c, a) && HasOrder(c, b)
    ensures HasOrder(c, c.group.add(a, b))
  {
    MultipleAdd(c.group, c.n, a, b);
  }

  /** The check point solves the equation up to its x-coordinate. */
  lemma CheckPointSolves<G(!new)>(c: Curve<G>, q: G, z: nat, sig: Signature)
    requires IsCurve(c) && HasOrder(c, q) && InRange(c, sig)
    ensures var point := CheckPoint(c, q, z, sig);
            && HasOrder(c, point)
            && Multiple(c.group, sig.s, point) == c.group.add(PointOf(c, z), Multiple(c.group, sig.r, q))
  {
    var w := c.inverse(sig.s);
    SumSolves(c, q, z, sig.r, sig.s, w, z * w % c.n, sig.r * w % c.n);
  }

  lemma SumSolves<G(!new)>(c: Curve<G>, q: G, z: nat, r: nat, s: nat, w: nat, u: nat, v: nat)
    requires IsCurve(c) && HasOrder(c, q) && Eq(s * w, 1, c.n) && u == z * w % c.n && v == r * w % c.n
    ensures var point := c.group.add(PointOf(c, u), Multiple(c.group, v, q));
            HasOrder(c, point) && Multiple(c.group, s, point) == c.group.add(PointOf(c, z), Multiple(c.group, r, q))
  {
    BaseHasOrder(c);
    KeyHasOrder(c, u);
    MultipleHasOrder(c, q, v);
    SumHasOrder(c, PointOf(c, u), Multiple(c.group, v, q));
    MultipleAdd(c.group, s, PointOf(c, u), Multiple(c.group, v, q));
    BackTo(c, c.base, s, w, z, u, s * u);
    BackTo(c, q, s, w, r, v, s * v);
  }

  /** ... and every solution is the check point. */
  lemma SolutionIsCheckPoint<G(!new)>(c: Curve<G>, q: G, z: nat, sig: Signature, point: G)
    requires IsCurve(c) && HasOrder(c, q) && InRange(c, sig) && Solves(c, q, z, sig, point)
    ensures CheckPoint(c, q, z, sig) == point
  {
    CheckPointSolves(c, q, z, sig);
    SameInverse(c, CheckPoint(c, q, z, sig), point, sig.s, c.inverse(sig.s));
  }

  /** What Verify accepts, exactly, for every key whose order divides n: the signatures in range for
      which s K = z G + r Q has a solution other than zero with x-coordinate r. */
  lemma VerifiesIff<G(!new)>(c: Curve<G>, q: G, z: nat, sig: Signature)
    requires IsCurve(c) && HasOrder(c, q)
    ensures Verifies(c, q, z, sig) <==> InRange(c, sig) && exists point :: Solves(c, q, z, sig, point)
  {
    if Verifies(c, q, z, sig) {
      CheckPointSolves(c, q, z, sig);
      assert Solves(c, q, z, sig, CheckPoint(c, q, z, sig));
    }
    if InRange(c, sig) && exists point :: Solves(c, q, z, sig, point) {
      var point :| Solves(c, q, z, sig, point);
      SolutionIsCheckPoint(c, q, z, sig, point);
    }
  }

  /** k answers for the signature under the key with scalar d. */
  ghost predicate Answers<G>(c: Curve<G>, d: nat, z: nat, sig: Signature, k: nat)
    requires c.n > 0
  {
    0 < k < c.n && c.x(PointOf(c, k)) % c.n == sig.r && Eq(sig.s * k, sig.r * d + z, c.n)
  }

  /** In scalars, for the keys that are multiples of the base point: the signatures in range for which
      s k = r d + z modulo n has a solution k with the x-coordinate of k G equal to r. */
  lemma KeyVerifiesIff<G(!new)>(c: Curve<G>, d: nat, z: nat, sig: Signature)
    requires IsCurve(c)
    ensures Verifies(c, PointOf(c, d), z, sig) <==> InRange(c, sig) && exists k :: Answers(c, d, z, sig, k)
  {
    if Verifies(c, PointOf(c, d), z, sig) {
      var k := VerifyingNonce(c, d, z, sig);
    }
    if InRange(c, sig) && exists k :: Answers(c, d, z, sig, k) {
      var k :| Answers(c, d, z, sig, k);
      AnswerIsRaw(c, d, z, sig, k);
      RawVerifies(c, d, z, k);
    }
  }

  lemma VerifyingNonce<G(!new)>(c: Curve<G>, d: nat, z: nat, sig: Signature) returns (k: nat)
    requires IsCurve(c) && Verifies(c, PointOf(c, d), z, sig)
    ensures Answers(c, d, z, sig, k)
  {
    var w := c.inverse(sig.s);
    var e, m := sig.r * d + z, CheckScalar(c.n, d, z, sig.r, w);
    k := m % c.n;
    CheckPointIs(c, d, z, sig);
    EqMod(m, c.n);
    SamePoint(c, k, m);
    if k == 0 {
      assert false;
    }
    CheckScalarEq(c.n, d, z, sig.r, w);
    EqTrans(k, m, e * w, c.n);
    NonceEquation(c.n, e, k, sig.s, w);
  }

  /** k = e w and s w = 1 give s k = e. */
  lemma NonceEquation(n: nat, e: nat, k: nat, s: nat, w: nat)
    requires Eq(k, e * w, n) && Eq(s * w, 1, n)
    ensures Eq(s * k, e, n)
  {
    EqTimes(k, e * w, s, n);
    EqTimes(s * w, 1, e, n);
    Commuted(s, e, w, k);
    EqTrans(s * k, s * w * e, 1 * e, n);
  }

  /** The answer's raw signature is the signature. */
  lemma AnswerIsRaw<G(!new)>(c: Curve<G>, d: nat, z: nat, sig: Signature, k: nat)
    requires IsCurve(c) && InRange(c, sig) && Answers(c, d, z, sig, k)
    ensures RawSignature(c, d, z, k) == sig
  {
    var e, kInv := sig.r * d + z, c.inverse(k);
    EqTimes(sig.s * k, e, kInv, c.n);
    EqTimes(k * kInv, 1, sig.s, c.n);
    Commuted(k, sig.s, kInv, 0);
    SwapMiddle(sig.s, k, kInv, 1);
    EqSym(k * kInv * sig.s, 1 * sig.s, c.n);
    EqTrans(sig.s, sig.s * k * kInv, e * kInv, c.n);
    var t :| Apart(sig.s, e * kInv, t, c.n);
    IsRemainder(sig.s, e * kInv, -t, c.n);
  }

  /** So the signatures that verify under a signer's key are those that some nonce makes, and no
      others. */
  lemma VerifiesIffSigned<G(!new)>(c: Curve<G>, d: nat, z: nat, sig: Signature)
    requires IsCurve(c)
    ensures Verifies(c, PointOf(c, d), z, sig) <==>
            exists k {:trigger RawSignature(c, d, z, k)} ::
              0 < k < c.n && Usable(RawSignature(c, d, z, k)) && sig == RawSignature(c, d, z, k)
  {
    if Verifies(c, PointOf(c, d), z, sig) {
      var k := VerifyingNonce(c, d, z, sig);
      AnswerIsRaw(c, d, z, sig, k);
      assert Usable(RawSignature(c, d, z, k));
    }
    if k: nat :| 0 < k < c.n && Usable(RawSignature(c, d, z, k)) && sig == RawSignature(c, d, z, k) {
      RawVerifies(c, d, z, k);
    }
  }

  /** If s w = 1 and (n - s) v = 1 then v = -w, so the two check scalars add up to zero. */
  lemma OppositeInverses(n: nat, s: int, w: int, v: int)
    requires Eq(s * w, 1, n) && Eq((n - s) * v, 1, n)
    ensures Eq(w + v, 0, n)
  {
    // w = (n - s) v w = n v w - (s w) v = -v
    EqTimes((n - s) * v, 1, w, n);
    EqTimes(s * w, 1, v, n);
    SplitProduct(n, s, v, w);
    assert Apart((n - s) * v * w + s * w * v, 0, v * w, n);
    EqSum((n - s) * v * w, 1 * w, s * w * v, 1 * v, n);
    EqSym((n - s) * v * w + s * w * v, w + v, n);
    EqTrans(w + v, (n - s) * v * w + s * w * v, 0, n);
  }

  lemma SplitProduct(n: int, s: int, v: int, w: int)
    ensures (n - s) * v * w + s * w * v == (v * w) * n
  {
    var m := v * w;
    assert (n - s) * v * w == (n - s) * m;
    assert s * w * v == s * m;
    assert (n - s) * m == n * m - s * m;
    assert n * m == m * n;
  }

  lemma OppositeScalars(n: nat, e: int, w: int, v: int)
    requires n > 0 && Eq(w + v, 0, n)
    ensures Eq(e * w % n + e * v % n, 0, n)
  {
    EqMod(e * w, n);
    EqMod(e * v, n);
    EqTimes(w + v, 0, e, n);
    EqSum(e * w % n, e * w, e * v % n, e * v, n);
    assert (w + v) * e == e * w + e * v;
    EqTrans(e * w % n + e * v % n, (w + v) * e, 0 * e, n);
  }

  lemma NegSum<G(!new)>(g: Group<G>, a: G, b: G)
    requires IsGroup(g) && g.add(a, b) == g.add(b, a)
    ensures g.add(g.neg(a), g.neg(b)) == g.neg(g.add(a, b))
  {
    var m, n := g.neg(a), g.neg(b);
    CancelMiddle(g, a, m, n);
    assert Associates(g, b, a, g.add(m, n));
    NegUnique(g, g.add(a, b), g.add(m, n));
  }

  lemma CancelMiddle<G(!new)>(g: Group<G>, a: G, m: G, n: G)
    requires IsGroup(g) && g.add(a, m) == g.zero
    ensures g.add(a, g.add(m, n)) == n
  {
    assert Associates(g, a, m, n);
  }

  lemma NegatedSum<G(!new)>(c: Curve<G>, u: nat, u': nat, v: nat, v': nat, q: G)
    requires IsCurve(c) && HasOrder(c, q) && Eq(u + u', 0, c.n) && Eq(v + v', 0, c.n)
    ensures c.group.add(PointOf(c, u'), Multiple(c.group, v', q))
         == c.group.neg(c.group.add(PointOf(c, u), Multiple(c.group, v, q)))
  {
    var a, b := PointOf(c, u), Multiple(c.group, v, q);
    assert Multiple(c.group, c.n, c.base) == c.group.zero;
    OppositePoints(c.group, c.n, u, u', u + u', c.base);
    OppositePoints(c.group, c.n, v, v', v + v', q);
    assert Commutes(c.group, a);
    NegSum(c.group, a, b);
  }

  /** The check point of the second form is the negative of the first one's. */
  lemma MalleatedPoint<G(!new)>(c: Curve<G>, q: G, z: nat, sig: Signature)
    requires IsCurve(c) && HasOrder(c, q) && InRange(c, sig)
    ensures InRange(c, Malleated(c, sig))
    ensures CheckPoint(c, q, z, Malleated(c, sig)) == c.group.neg(CheckPoint(c, q, z, sig))
  {
    var other := Malleated(c, sig);
    var w, v := c.inverse(sig.s), c.inverse(other.s);
    OppositeInverses(c.n, sig.s, w, v);
    OppositeScalars(c.n, z, w, v);
    OppositeScalars(c.n, sig.r, w, v);
    NegatedSum(c, z * w % c.n, z * v % c.n, sig.r * w % c.n, sig.r * v % c.n, q);
  }

  lemma NegNonZero<G(!new)>(g: Group<G>, a: G)
    requires HasInverses(g)
    ensures g.neg(a) == g.zero <==> a == g.zero
  {
    assert g.add(a, g.neg(a)) == g.zero;
    assert g.add(g.zero, g.neg(g.zero)) == g.zero;
  }

  /** Malleability: the second form of a signature verifies exactly when the first does, for every
      key on the curve and every message; exactly one of the two is low-S; and the second form of
      the second form is the first. */
  lemma BothFormsVerify<G(!new)>(c: Curve<G>, q: G, z: nat, sig: Signature)
    requires IsCurve(c) && HasOrder(c, q) && InRange(c, sig)
    ensures Verifies(c, q, z, Malleated(c, sig)) <==> Verifies(c, q, z, sig)
    ensures IsLowS(c, Malleated(c, sig)) <==> !IsLowS(c, sig)
    ensures Malleated(c, Malleated(c, sig)) == sig
  {
    MalleatedPoint(c, q, z, sig);
    NegNonZero(c.group, CheckPoint(c, q, z, sig));
  }

  /** ... so for every public key that Verify takes for a key at all. */
  lemma KeyTakesBothForms<G(!new)>(c: Curve<G>, pub: PublicKey, z: nat, sig: Signature)
    requires IsCurve(c) && OnCurve(pub) && InRange(c, sig)
    ensures Verifies(c, c.point(pub), z, Malleated(c, sig)) <==> Verifies(c, c.point(pub), z, sig)
  {
    assert HasOrder(c, c.point(pub));
    BothFormsVerify(c, c.point(pub), z, sig);
  }

  /** Every signature that Sign returns verifies under the signer's key and is low-S; its second
      form verifies too and is not. */
  lemma SignedVerifies<G(!new)>(c: Curve<G>, d: nat, z: nat, k: nat)
    requires IsCurve(c) && 0 < k < c.n && Usable(RawSignature(c, d, z, k))
    ensures var sig := LowS(c, RawSignature(c, d, z, k));
            && Verifies(c, PointOf(c, d), z, sig) && IsLowS(c, sig)
            && Verifies(c, PointOf(c, d), z, Malleated(c, sig)) && !IsLowS(c, Malleated(c, sig))
            && 2 * sig.s < c.n < 2 * Malleated(c, sig).s
  {
    var raw := RawSignature(c, d, z, k);
    RawVerifies(c, d, z, k);
    KeyHasOrder(c, d);
    BothFormsVerify(c, PointOf(c, d), z, raw);
    BothFormsVerify(c, PointOf(c, d), z, LowS(c, raw));
  }

  // ---------------------------------------------------------------- 64 bytes

  /** Big-endian on k bytes. */
  function BE(n: nat, k: nat): (s: seq<byte>)
    ensures |s| == k
  {
    if k == 0 then [] else BE(n / 256, k - 1) + [(n % 256) as byte]
  }

  function UnBE(s: seq<byte>): nat {
    if s == [] then 0 else 256 * UnBE(s[..|s| - 1]) + s[|s| - 1] as nat
  }

  lemma {:induction false} UnBEOfBE(n: nat, k: nat)
    requires n < Pow2(8 * k)
    ensures UnBE(BE(n, k)) == n
  {
    if k > 0 {
      Shift8(0, 8 * (k - 1));
      UnBEOfBE(n / 256, k - 1);
      assert BE(n, k)[..k - 1] == BE(n / 256, k - 1);
    }
  }

  lemma Pow256Bits(k: nat)
    requires k == 32
    ensures Pow2(8 * k) == TWO256
  {
    FourWords(k - 32);
    assert k - 32 + 256 == 8 * k;
  }

  lemma FourWords(j: nat)
    requires j == 0
    ensures Pow2(j + 256) == TWO256
  {
    Shift64(0, j);
    Shift64(0, j + 64);
    Shift64(0, j + 128);
    Shift64(0, j + 192);
  }

  function Serialized(sig: Signature): seq<byte>
    requires 0 <= sig.r < TWO256 && 0 <= sig.s < TWO256
  {
    BE(sig.r, 32) + BE(sig.s, 32)
  }

  function ParseSignature(b: seq<byte>): Result<Signature> {
    if |b| != 64 then Err else Ok(Signature(UnBE(b[..32]), UnBE(b[32..])))
  }

  lemma ParseSerialized(sig: Signature)
    requires 0 <= sig.r < TWO256 && 0 <= sig.s < TWO256
    ensures ParseSignature(Serialized(sig)) == Ok(sig)
  {
    var b := Serialized(sig);
    Pow256Bits(32);
    UnBEOfBE(sig.r, 32);
    UnBEOfBE(sig.s, 32);
    assert b[..32] == BE(sig.r, 32) && b[32..] == BE(sig.s, 32);
  }

  lemma {:induction false} UnBEBound(s: seq<byte>)
    ensures UnBE(s) < Pow2(8 * |s|)
  {
    if s != [] {
      UnBEBound(s[..|s| - 1]);
      Shift8(0, 8 * (|s| - 1));
    }
  }

  lemma ParsedBounds(b: seq<byte>)
    requires |b| == 64
    ensures 0 <= UnBE(b[..32]) < TWO256 && 0 <= UnBE(b[32..]) < TWO256
  {
    Pow256Bits(32);
    UnBEBound(b[..32]);
    UnBEBound(b[32..]);
  }

  /** |x|, as Bytes() drops the sign. */
  function Magnitude(x: int): nat { if x < 0 then -x else x }

  method Malleate<G(!new)>(c: Curve<G>, sig64: seq<byte>) returns (r: Result<seq<byte>>)
    requires IsCurve(c)
    ensures r.Err? <==> |sig64| != 64
    ensures r.Ok? && InRange(c, ParseSignature(sig64).value) ==>
              |r.value| == 64 && ParseSignature(r.value) == Ok(Malleated(c, ParseSignature(sig64).value))
  {
    var parsed := ParseSignature(sig64);
    if parsed.Err? {
      return Err;
    }
    var sig := parsed.value;
    var ns := c.n - sig.s;
    ParsedBounds(sig64);
    var other := Signature(sig.r, Magnitude(ns));
    ParseSerialized(other);
    return Ok(Serialized(other));
  }

  /** On bytes: what Malleate makes of a serialised signature that verifies parses to another
      signature that verifies, of opposite low-S status. */
  lemma MalleatedBytes<G(!new)>(c: Curve<G>, q: G, z: nat, sig: Signature)
    requires IsCurve(c) && HasOrder(c, q) && Verifies(c, q, z, sig)
    ensures ParseSignature(Serialized(sig)) == Ok(sig)
    ensures var other := Malleated(c, sig);
            && Verifies(c, q, z, other) && ParseSignature(Serialized(other)) == Ok(other)
            && (IsLowS(c, other) <==> !IsLowS(c, sig)) && Serialized(other) != Serialized(sig)
  {
    BothFormsVerify(c, q, z, sig);
    ParseSerialized(sig);
    ParseSerialized(Malleated(c, sig));
  }

  // ---------------------------------------------------------------- the hypotheses can be met

  datatype Third = T0 | T1 | T2

  function AddThirds(a: Third, b: Third): Third {
    match a
    case T0 => b
    case T1 => (match b case T0 => T1 case T1 => T2 case T2 => T0)
    case T2 => (match b case T0 => T2 case T1 => T0 case T2 => T1)
  }

  function NegThird(a: Third): Third {
    match a
    case T0 => T0
    case T1 => T2
    case T2 => T1
  }

  function Thirds(): Group<Third> { Group(T0, AddThirds, NegThird) }

  function Smallest(): Curve<Third> {
    Curve(Thirds(), T1, 3, (a: Third) => if a == T0 then 0 else 1, (k: nat) => k,
          (k: PublicKey) => T1)
  }

  lemma {:induction false} ThirdsMultiple(k: nat, q: nat, r: nat)
    requires k == 3 * q + r && r < 3
    ensures Multiple(Thirds(), k, T1) == if r == 0 then T0 else if r == 1 then T1 else T2
    decreases k
  {
    if r > 0 {
      ThirdsMultiple(k - 1, q, r - 1);
    } else if q > 0 {
      ThirdsMultiple(k - 1, q - 1, 2);
    }
  }

  /** The group of order three with its generator meets every hypothesis. */
  lemma CurveExists()
    ensures IsCurve(Smallest())
  {
    var c := Smallest();
    forall k: nat ensures Multiple(c.group, k, c.base) == c.group.zero <==> k % c.n == 0 {
      ThirdsMultiple(k, k / 3, k % 3);
    }
    forall a: nat | 0 < a < c.n ensures 0 < c.inverse(a) < c.n && Eq(a * c.inverse(a), 1, c.n) {
      if a == 1 {
        assert Apart(1 * 1, 1, 0, 3);
      } else {
        assert Apart(2 * 2, 1, 1, 3);
      }
    }
  }
}
