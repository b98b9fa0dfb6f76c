/** crypto/ct.go:205-251 against crypto/secp256k1.go:58-125: the complete addition formulas compute
    the chord-and-tangent sum of the variable-time code, for every two points of the curve and
    whatever projective coordinates they are given in.

    As in AdditionLaw, "vanishes modulo p" is a parameter.  So the ladder of Ladder runs over the
    curve's points as the variable-time code adds them, and what is left to assume of p is that it
    is prime and 7 no cube modulo it, and of pointAdd that it is associative. */
module ChordTangent {
  import opened Ladder
  import opened Field
  import opened Groups
  import opened AdditionLaw

  // ---------------------------------------------------------------- equality modulo p

  ghost predicate Same(zero: Vanishing, a: int, b: int) { zero(a - b) }

  lemma SameTrans(zero: Vanishing, a: int, b: int, c: int)
    requires Ideal(zero) && Same(zero, a, b) && Same(zero, b, c)
    ensures Same(zero, a, c)
  {
    ZeroSum(zero, a - b, b - c);
    assert (a - b) + (b - c) == a - c;
  }

  lemma SameSum(zero: Vanishing, a: int, b: int, c: int, d: int)
    requires Ideal(zero) && Same(zero, a, b) && Same(zero, c, d)
    ensures Same(zero, a + c, b + d) && Same(zero, a - c, b - d)
  {
    ZeroSum(zero, a - b, c - d);
    assert (a - b) + (c - d) == a + c - (b + d) && (a - b) - (c - d) == a - c - (b - d);
  }

  lemma SameTimes(zero: Vanishing, a: int, b: int, c: int, d: int)
    requires Ideal(zero) && Same(zero, a, b) && Same(zero, c, d)
    ensures Same(zero, a * c, b * d)
  {
    ProductsMatch(zero, a, b, c, d);
  }

  lemma SameMultiple(zero: Vanishing, a: int, b: int, c: int)
    requires Ideal(zero) && Same(zero, a, b)
    ensures Same(zero, c * a, c * b)
  {
    ZeroTimes(zero, a - b, c);
    assert c * (a - b) == c * a - c * b;
  }

  /** Where a factor does not vanish it can be cancelled. */
  lemma Cancel(zero: Vanishing, k: int, a: int, b: int)
    requires FieldFacts(zero) && !zero(k) && zero(k * (a - b))
    ensures Same(zero, a, b)
  {
    assert zero(Times(k, a - b));
  }

  // ---------------------------------------------------------------- points of the curve

  /** The variable-time code's points: the coordinates, or the nil pair. */
  datatype Point = Infinity | Affine(x: int, y: int)

  function CurveGap(x: int, y: int): int { y * y - (x * x * x + 7) }

  ghost predicate Lies(zero: Vanishing, a: Point) { a.Affine? ==> zero(CurveGap(a.x, a.y)) }

  /** lam is num / den. */
  ghost predicate Quotient(zero: Vanishing, lam: int, num: int, den: int) { Same(zero, lam * den, num) }

  /** The third intersection of the line through a with slope lam, mirrored; x is the second one's. */
  ghost predicate Third(zero: Vanishing, lam: int, a: Point, x: int, r: Point)
    requires a.Affine?
  {
    r.Affine? && Same(zero, r.x, lam * lam - a.x - x) && Same(zero, r.y, lam * (a.x - r.x) - a.y)
  }

  /** crypto/secp256k1.go:58-79, what pointDouble returns for a. */
  ghost predicate PointDouble(zero: Vanishing, a: Point, r: Point)
  {
    if a.Infinity? || a.y == 0 then r == Infinity
    else exists lam :: Quotient(zero, lam, 3 * (a.x * a.x), 2 * a.y) && Third(zero, lam, a, a.x, r)
  }

  /** crypto/secp256k1.go:81-112, what pointAdd returns for a and b. */
  ghost predicate PointAdd(zero: Vanishing, a: Point, b: Point, r: Point) {
    if a.Infinity? then r == b
    else if b.Infinity? then r == a
    else if a.x == b.x then (if a.y == b.y then PointDouble(zero, a, r) else r == Infinity)
    else exists lam :: Quotient(zero, lam, b.y - a.y, b.x - a.x) && Third(zero, lam, a, b.x, r)
  }

  /** Coordinates that differ also differ modulo p, as they do when they are reduced. */
  ghost predicate Apart(zero: Vanishing, a: Point, b: Point) {
    a.Affine? && b.Affine? ==> (a.x == b.x || !zero(a.x - b.x)) && (a.y == b.y || !zero(a.y - b.y))
  }

  /** The coordinates of a point with Z = 1, and of the identity. */
  function Rep(a: Point): Coords { if a.Infinity? then Coords(0, 1, 0) else Coords(a.x, a.y, 1) }

  ghost predicate Times3(zero: Vanishing, c: Coords, k: int, d: Coords) {
    Same(zero, c.x, k * d.x) && Same(zero, c.y, k * d.y) && Same(zero, c.z, k * d.z)
  }

  ghost predicate Scales(zero: Vanishing, c: Coords, k: int, a: Point) { !zero(k) && Times3(zero, c, k, Rep(a)) }

  /** c = (X:Y:Z) is the point a: up to a factor, its coordinates. */
  ghost predicate Represents(zero: Vanishing, c: Coords, a: Point) { exists k :: Scales(zero, c, k, a) }

  lemma OneIsNotZero(zero: Vanishing)
    requires FieldFacts(zero)
    ensures !zero(1)
  {
    if zero(1) {
      ZeroTimes(zero, 1, 2);
      assert false;
    }
  }

  lemma RepOnCurve(zero: Vanishing, a: Point)
    requires FieldFacts(zero) && Lies(zero, a)
    ensures IsPoint(zero, Rep(a))
  {
    OneIsNotZero(zero);
    if a.Affine? {
      GapAtOne(a.x, a.y);
    } else {
      assert CurveLeft(Rep(a)) == 0 && CurveRight(Rep(a)) == 0;
    }
  }

  lemma GapAtOne(x: int, y: int)
    ensures CurveLeft(Coords(x, y, 1)) - CurveRight(Coords(x, y, 1)) == CurveGap(x, y)
  {
  }

  // ---------------------------------------------------------------- the sum of scaled coordinates

  lemma ProductScales(zero: Vanishing, e: int, f: int, s: int, t: int, a: int, b: int, k: int)
    requires Ideal(zero) && Same(zero, e, s * a) && Same(zero, f, t * b) && k == s * t
    ensures Same(zero, e * f, k * (a * b))
  {
    SameTimes(zero, e, s * a, f, t * b);
    assert (s * a) * (t * b) == (s * t) * (a * b);
  }

  lemma CrossScales(zero: Vanishing, e: int, f: int, e': int, f': int, s: int, t: int, a: int, b: int, a': int, b': int,
                    k: int)
    requires Ideal(zero) && k == s * t
    requires Same(zero, e, s * a) && Same(zero, f, s * b) && Same(zero, e', t * a') && Same(zero, f', t * b')
    ensures Same(zero, e * f' + f * e', k * (a * b' + b * a'))
  {
    ProductScales(zero, e, f', s, t, a, b', k);
    ProductScales(zero, f, e', s, t, b, a', k);
    SameSum(zero, e * f', k * (a * b'), f * e', k * (b * a'));
    assert k * (a * b') + k * (b * a') == k * (a * b' + b * a');
  }

  /** h * i + c * (h' * i'), all four scaled by k. */
  lemma FormScales(zero: Vanishing, h: int, i: int, h': int, i': int, a: int, b: int, a': int, b': int, k: int, c: int)
    requires Ideal(zero) && Same(zero, h, k * a) && Same(zero, i, k * b)
    requires Same(zero, h', k * a') && Same(zero, i', k * b')
    ensures Same(zero, h * i + c * (h' * i'), k * k * (a * b + c * (a' * b')))
  {
    ProductScales(zero, h, i, k, k, a, b, k * k);
    ProductScales(zero, h', i', k, k, a', b', k * k);
    SameMultiple(zero, h' * i', k * k * (a' * b'), c);
    SameSum(zero, h * i, k * k * (a * b), c * (h' * i'), c * (k * k * (a' * b')));
    Distributed(k * k, a * b, a' * b', c);
  }

  lemma Distributed(k: int, a: int, b: int, c: int)
    ensures k * a + c * (k * b) == k * (a + c * b)
  {
  }

  lemma LineScales(zero: Vanishing, h: int, i: int, k: int, a: int, b: int, c: int)
    requires Ideal(zero) && Same(zero, h, k * a) && Same(zero, i, k * b)
    ensures Same(zero, h + c * i, k * (a + c * b))
  {
    SameMultiple(zero, i, k * b, c);
    SameSum(zero, h, k * a, c * i, c * (k * b));
    Distributed(k, a, b, c);
  }

  /** Scaling the operands by s and t scales the formulas' result by (s t)^2. */
  lemma SumScales(zero: Vanishing, p: Coords, q: Coords, s: int, t: int, a: Coords, b: Coords, k: int)
    requires Ideal(zero) && Times3(zero, p, s, a) && Times3(zero, q, t, b) && k == s * t
    ensures Times3(zero, Sum3(p, q), k * k, Sum3(a, b))
  {
    var xx, yy, zz := p.x * q.x, p.y * q.y, p.z * q.z;
    var xy, yz, xz := p.x * q.y + p.y * q.x, p.y * q.z + p.z * q.y, p.x * q.z + p.z * q.x;
    var aa, bb, cc := a.x * b.x, a.y * b.y, a.z * b.z;
    var ab, bc, ac := a.x * b.y + a.y * b.x, a.y * b.z + a.z * b.y, a.x * b.z + a.z * b.x;
    ProductScales(zero, p.x, q.x, s, t, a.x, b.x, k);
    ProductScales(zero, p.y, q.y, s, t, a.y, b.y, k);
    ProductScales(zero, p.z, q.z, s, t, a.z, b.z, k);
    CrossScales(zero, p.x, p.y, q.x, q.y, s, t, a.x, a.y, b.x, b.y, k);
    CrossScales(zero, p.y, p.z, q.y, q.z, s, t, a.y, a.z, b.y, b.z, k);
    CrossScales(zero, p.x, p.z, q.x, q.z, s, t, a.x, a.z, b.x, b.z, k);
    HalvesScale(zero, xx, yy, zz, xy, yz, xz, aa, bb, cc, ab, bc, ac, k);
    SumForms(p, q, xx, yy, zz, xy, yz, xz);
    SumForms(a, b, aa, bb, cc, ab, bc, ac);
  }

  /** The three coordinates in the six products. */
  function FormX(xx: int, yy: int, zz: int, xy: int, yz: int, xz: int): int { xy * (yy + -21 * zz) + -21 * (yz * xz) }

  function FormY(xx: int, yy: int, zz: int, xy: int, yz: int, xz: int): int {
    (yy + -21 * zz) * (yy + 21 * zz) + 63 * (xz * xx)
  }

  function FormZ(xx: int, yy: int, zz: int, xy: int, yz: int, xz: int): int { (yy + 21 * zz) * yz + 3 * (xx * xy) }

  lemma SumForms(p: Coords, q: Coords, xx: int, yy: int, zz: int, xy: int, yz: int, xz: int)
    requires xx == p.x * q.x && yy == p.y * q.y && zz == p.z * q.z
    requires xy == p.x * q.y + p.y * q.x && yz == p.y * q.z + p.z * q.y && xz == p.x * q.z + p.z * q.x
    ensures Sum3(p, q)
            == Coords(FormX(xx, yy, zz, xy, yz, xz), FormY(xx, yy, zz, xy, yz, xz), FormZ(xx, yy, zz, xy, yz, xz))
  {
    assert yz * (21 * xz) == 21 * (yz * xz) && (21 * xz) * (3 * xx) == 63 * (xz * xx) && (3 * xx) * xy == 3 * (xx * xy);
  }

  lemma HalvesScale(zero: Vanishing, xx: int, yy: int, zz: int, xy: int, yz: int, xz: int,
                    aa: int, bb: int, cc: int, ab: int, bc: int, ac: int, k: int)
    requires Ideal(zero) && Same(zero, xx, k * aa) && Same(zero, yy, k * bb) && Same(zero, zz, k * cc)
    requires Same(zero, xy, k * ab) && Same(zero, yz, k * bc) && Same(zero, xz, k * ac)
    ensures Same(zero, FormX(xx, yy, zz, xy, yz, xz), k * k * FormX(aa, bb, cc, ab, bc, ac))
    ensures Same(zero, FormY(xx, yy, zz, xy, yz, xz), k * k * FormY(aa, bb, cc, ab, bc, ac))
    ensures Same(zero, FormZ(xx, yy, zz, xy, yz, xz), k * k * FormZ(aa, bb, cc, ab, bc, ac))
  {
    LineScales(zero, yy, zz, k, bb, cc, -21);
    LineScales(zero, yy, zz, k, bb, cc, 21);
    FormScales(zero, xy, yy + -21 * zz, yz, xz, ab, bb + -21 * cc, bc, ac, k, -21);
    FormScales(zero, yy + -21 * zz, yy + 21 * zz, xz, xx, bb + -21 * cc, bb + 21 * cc, ac, aa, k, 63);
    FormScales(zero, yy + 21 * zz, yz, xx, xy, bb + 21 * cc, bc, aa, ab, k, 3);
  }

  // ---------------------------------------------------------------- dividing by the slope's denominator

  /** From the polynomial relations of a sum (X:Y:Z) to its affine coordinates. */
  lemma Divide(zero: Vanishing, lam: int, num: int, den: int, a: Point, x: int, r: Point, s: Coords)
    requires FieldFacts(zero) && a.Affine? && !zero(den) && Quotient(zero, lam, num, den) && Third(zero, lam, a, x, r)
    requires Same(zero, den * den * s.x, s.z * (num * num - (a.x + x) * (den * den)))
    requires Same(zero, den * s.y, num * (a.x * s.z - s.x) - den * (a.y * s.z))
    ensures Same(zero, s.x, s.z * r.x) && Same(zero, s.y, s.z * r.y)
  {
    DivideX(zero, lam, num, den, a.x, x, r.x, s);
    DivideY(zero, lam, num, den, a, r, s);
  }

  lemma DivideX(zero: Vanishing, lam: int, num: int, den: int, x: int, u: int, third: int, s: Coords)
    requires FieldFacts(zero) && !zero(den) && Same(zero, lam * den, num) && Same(zero, third, lam * lam - x - u)
    requires Same(zero, den * den * s.x, s.z * (num * num - (x + u) * (den * den)))
    ensures Same(zero, s.x, s.z * third)
  {
    var dd, right := den * den, num * num - (x + u) * (den * den);
    ThirdTimes(zero, lam, num, den, x, u, third);
    SameMultiple(zero, dd * third, right, s.z);
    ZeroSum(zero, dd * s.x - s.z * right, s.z * (dd * third) - s.z * right);
    Commuted(zero, dd, s.x, s.z, third);
    assert zero(Times(den, den)) ==> zero(den);
    Cancel(zero, dd, s.x, s.z * third);
  }

  lemma ThirdTimes(zero: Vanishing, lam: int, num: int, den: int, x: int, u: int, third: int)
    requires Ideal(zero) && Same(zero, lam * den, num) && Same(zero, third, lam * lam - x - u)
    ensures Same(zero, den * den * third, num * num - (x + u) * (den * den))
  {
    SameTimes(zero, lam * den, num, lam * den, num);
    SameMultiple(zero, third, lam * lam - x - u, den * den);
    ZeroSum(zero, den * den * third - den * den * (lam * lam - x - u), (lam * den) * (lam * den) - num * num);
    SquaredLine(lam, num, den, x + u, third);
  }

  lemma SquaredLine(lam: int, num: int, den: int, s: int, third: int)
    ensures (den * den * third - den * den * (lam * lam - s)) + ((lam * den) * (lam * den) - num * num)
         == den * den * third - (num * num - s * (den * den))
  {
  }

  lemma Commuted(zero: Vanishing, d: int, x: int, z: int, third: int)
    requires zero(d * x - z * (d * third))
    ensures zero(d * (x - z * third))
  {
    assert d * x - z * (d * third) == d * (x - z * third);
  }

  lemma DivideY(zero: Vanishing, lam: int, num: int, den: int, a: Point, r: Point, s: Coords)
    requires FieldFacts(zero) && a.Affine? && r.Affine? && !zero(den) && Same(zero, lam * den, num)
    requires Same(zero, r.y, lam * (a.x - r.x) - a.y) && Same(zero, s.x, s.z * r.x)
    requires Same(zero, den * s.y, num * (a.x * s.z - s.x) - den * (a.y * s.z))
    ensures Same(zero, s.y, s.z * r.y)
  {
    var there := num * (a.x * s.z - s.z * r.x) - den * (a.y * s.z);
    OtherX(zero, num, a.x, s.x, s.z, r.x, den * (a.y * s.z), den * s.y, there);
    LineThere(zero, lam, num, den, a.x, a.y, r.x, r.y, s.z, there);
    SameThere(zero, den, s.y, s.z, r.y, there);
  }

  lemma OtherX(zero: Vanishing, num: int, x: int, sx: int, sz: int, third: int, w: int, e: int, there: int)
    requires Ideal(zero) && Same(zero, sx, sz * third) && Same(zero, e, num * (x * sz - sx) - w)
    requires there == num * (x * sz - sz * third) - w
    ensures Same(zero, e, there)
  {
    SameMultiple(zero, sx, sz * third, num);
    ZeroSum(zero, e - (num * (x * sz - sx) - w), num * sx - num * (sz * third));
    assert e - (num * (x * sz - sx) - w) - (num * sx - num * (sz * third)) == e - (num * (x * sz - sz * third) - w);
  }

  lemma LineThere(zero: Vanishing, lam: int, num: int, den: int, x: int, y: int, third: int, third': int, z: int,
                  there: int)
    requires Ideal(zero) && Same(zero, lam * den, num) && Same(zero, third', lam * (x - third) - y)
    requires there == num * (x * z - z * third) - den * (y * z)
    ensures Same(zero, den * z * third', there)
  {
    SameMultiple(zero, lam * den, num, z * (x - third));
    SameMultiple(zero, third', lam * (x - third) - y, den * z);
    ZeroSum(zero, den * z * third' - den * z * (lam * (x - third) - y),
            z * (x - third) * (lam * den) - z * (x - third) * num);
    assert z * (x - third) * (lam * den) - z * (x - third) * num
        == den * z * (lam * (x - third) - y) - (num * (x * z - z * third) - den * (y * z));
  }

  lemma SameThere(zero: Vanishing, den: int, sy: int, sz: int, y: int, there: int)
    requires FieldFacts(zero) && !zero(den) && Same(zero, den * sy, there) && Same(zero, den * sz * y, there)
    ensures Same(zero, sy, sz * y)
  {
    ZeroSum(zero, den * sy - there, den * sz * y - there);
    assert den * sy - den * sz * y == den * (sy - sz * y);
    Cancel(zero, den, sy, sz * y);
  }

  // ---------------------------------------------------------------- the chord

  /** The sum's X and Z are y times the one plus v times the other of these, with x and u swapped. */
  function PartX(x: int, u: int): int { x * (u * u * u) - 14 * x - 42 * u }

  function PartZ(x: int, u: int): int { u * u * u + 28 + 3 * (x * u * u) }

  function Even(x: int, u: int): int { 14 + x * u * (x + u) }

  lemma SumXAt(x: int, y: int, u: int, v: int)
    ensures SumX(Coords(x, y, 1), Coords(u, v, 1))
         == y * PartX(x, u) + v * PartX(u, x) + (y * x * CurveGap(u, v) + v * u * CurveGap(x, y))
  {
    FirstHalf(x, y, u, v);
    SecondHalf(x, y, u, v);
    PartXTimes(x, u, y, v);
    PartXTimes(u, x, v, y);
  }

  lemma FirstHalf(x: int, y: int, u: int, v: int)
    ensures (x * v + y * u) * (y * v - 21) == y * x * (v * v) + v * u * (y * y) - 21 * (x * v) - 21 * (y * u)
  {
  }

  lemma SecondHalf(x: int, y: int, u: int, v: int)
    ensures (y + v) * (21 * (x + u)) == 21 * (y * x) + 21 * (y * u) + 21 * (v * x) + 21 * (v * u)
  {
  }

  lemma PartXTimes(x: int, u: int, y: int, v: int)
    ensures y * PartX(x, u) + y * x * CurveGap(u, v) == y * x * (v * v) - 21 * (y * x) - 42 * (y * u)
  {
  }

  lemma SumZAt(x: int, y: int, u: int, v: int)
    ensures SumZ(Coords(x, y, 1), Coords(u, v, 1))
         == y * PartZ(x, u) + v * PartZ(u, x) + (y * CurveGap(u, v) + v * CurveGap(x, y))
  {
  }

  lemma SumYAt(x: int, y: int, u: int, v: int)
    ensures SumY(Coords(x, y, 1), Coords(u, v, 1)) == (y * y) * (v * v) - 441 + 63 * (x * u * (x + u))
  {
  }

  lemma PartsX(x: int, u: int)
    ensures PartZ(x, u) * Even(x, u) - 2 * (PartZ(u, x) * (u * u * u + 7)) == PartX(x, u) * ((u - x) * (u - x))
  {
  }

  lemma EvenIs(x: int, y: int, u: int, v: int)
    ensures (v - y) * (v - y) - (x + u) * ((u - x) * (u - x))
         == Even(x, u) - 2 * (y * v) + (CurveGap(x, y) + CurveGap(u, v))
  {
  }

  /** The product that the chord's X-coordinate needs, with y^2 and v^2 replaced. */
  lemma ChordProduct(y: int, v: int, a: int, b: int, t: int, k: int, l: int, d: int, e: int, f: int, yy: int, vv: int)
    requires y * y == yy + e && v * v == vv + f && a * t - 2 * (b * vv) == k * d && b * t - 2 * (a * yy) == l * d
    ensures d * (y * k + v * l) - (y * a + v * b) * (t - 2 * (y * v)) == 2 * (v * a) * e + 2 * (y * b) * f
  {
    Collected(y, v, a, b, t);
    Replaced(y, b, a * t, k, d, vv, v * v, f);
    Replaced(v, a, b * t, l, d, yy, y * y, e);
  }

  lemma Collected(y: int, v: int, a: int, b: int, t: int)
    ensures (y * a + v * b) * (t - 2 * (y * v)) == y * (a * t - 2 * (b * (v * v))) + v * (b * t - 2 * (a * (y * y)))
  {
  }

  lemma Replaced(y: int, b: int, t: int, k: int, d: int, vv: int, square: int, f: int)
    requires square == vv + f && t - 2 * (b * vv) == k * d
    ensures y * (t - 2 * (b * square)) == d * (y * k) - 2 * (y * b) * f
  {
    assert b * (vv + f) == b * vv + b * f;
    assert y * (k * d - 2 * (b * f)) == d * (y * k) - 2 * (y * b) * f;
  }

  lemma ZeroCombination(zero: Vanishing, e: int, f: int, h: int, i: int)
    requires Ideal(zero) && zero(e) && zero(f)
    ensures zero(h * e + i * f)
  {
    ZeroTimes(zero, e, h);
    ZeroTimes(zero, f, i);
    ZeroSum(zero, h * e, i * f);
  }

  lemma SameLess(zero: Vanishing, a: int, b: int, e: int)
    requires a == b + e && zero(e)
    ensures Same(zero, a, b)
  {
  }

  lemma ChordX(zero: Vanishing, x: int, y: int, u: int, v: int, s: Coords, dd: int)
    requires Ideal(zero) && zero(CurveGap(x, y)) && zero(CurveGap(u, v))
    requires s == Sum3(Coords(x, y, 1), Coords(u, v, 1)) && dd == (u - x) * (u - x)
    ensures Same(zero, dd * s.x, s.z * ((v - y) * (v - y) - (x + u) * dd))
  {
    var e, f := CurveGap(x, y), CurveGap(u, v);
    var sx, sz := y * PartX(x, u) + v * PartX(u, x), y * PartZ(x, u) + v * PartZ(u, x);
    var cut, even := (v - y) * (v - y) - (x + u) * dd, Even(x, u) - 2 * (y * v);
    NearParts(zero, x, y, u, v, s);
    SameMultiple(zero, s.x, sx, dd);
    EvenIs(x, y, u, v);
    ZeroSum(zero, e, f);
    SameLess(zero, cut, even, e + f);
    SameTimes(zero, s.z, sz, cut, even);
    PartsX(x, u);
    PartsX(u, x);
    assert (x - u) * (x - u) == dd;
    ChordProduct(y, v, PartZ(x, u), PartZ(u, x), Even(x, u), PartX(x, u), PartX(u, x), dd, e, f, x * x * x + 7,
                 u * u * u + 7);
    ZeroCombination(zero, e, f, 2 * (v * PartZ(x, u)), 2 * (y * PartZ(u, x)));
    SameLess(zero, dd * sx, sz * even, 2 * (v * PartZ(x, u)) * e + 2 * (y * PartZ(u, x)) * f);
    SameTrans(zero, dd * s.x, dd * sx, sz * even);
    ZeroSum(zero, dd * s.x - sz * even, s.z * cut - sz * even);
  }

  lemma NearParts(zero: Vanishing, x: int, y: int, u: int, v: int, s: Coords)
    requires Ideal(zero) && zero(CurveGap(x, y)) && zero(CurveGap(u, v))
    requires s == Sum3(Coords(x, y, 1), Coords(u, v, 1))
    ensures Same(zero, s.x, y * PartX(x, u) + v * PartX(u, x)) && Same(zero, s.z, y * PartZ(x, u) + v * PartZ(u, x))
  {
    var e, f := CurveGap(x, y), CurveGap(u, v);
    SumXAt(x, y, u, v);
    ZeroCombination(zero, f, e, y * x, v * u);
    SameLess(zero, s.x, y * PartX(x, u) + v * PartX(u, x), y * x * f + v * u * e);
    SumZAt(x, y, u, v);
    ZeroCombination(zero, f, e, y, v);
    SameLess(zero, s.z, y * PartZ(x, u) + v * PartZ(u, x), y * f + v * e);
  }

  function Slant(x: int, u: int): int { x * x * x * x + 2 * (x * x * x * u) + 70 * x + 14 * u }

  lemma Slants(x: int, u: int)
    ensures (u - x) * ((x * x * x + 7) * (u * u * u + 7) - 441 + 63 * (x * u * (x + u)))
         == (u * u * u + 7) * Slant(x, u) - (x * x * x + 7) * Slant(u, x)
  {
    var a, c, m := x * x * x, u * u * u, x * u * (x + u);
    assert Slant(x, u) == x * a + 2 * (u * a) + 70 * x + 14 * u;
    assert Slant(u, x) == u * c + 2 * (x * c) + 70 * u + 14 * x;
    assert (u - x) * m == x * c - u * a;
    SlantsFrom(x, u, a, c, m);
  }

  lemma SlantsFrom(x: int, u: int, a: int, c: int, m: int)
    requires (u - x) * m == x * c - u * a
    ensures (u - x) * ((a + 7) * (c + 7) - 441 + 63 * m)
         == (c + 7) * (x * a + 2 * (u * a) + 70 * x + 14 * u) - (a + 7) * (u * c + 2 * (x * c) + 70 * u + 14 * x)
  {
    CrossTimes(x, u, a, c, m, (a + 7) * (c + 7), a * c);
    SlantTimes(x, u, a, c, a * c);
    SlantTimes(u, x, c, a, a * c);
    SlantsMeet((u - x) * ((a + 7) * (c + 7) - 441 + 63 * m), (c + 7) * (x * a + 2 * (u * a) + 70 * x + 14 * u),
               (a + 7) * (u * c + 2 * (x * c) + 70 * u + 14 * x), (u - x) * m,
               x * (a * c), u * (a * c), x * c, u * c, x * a, u * a, x, u);
  }

  lemma SlantsMeet(n: int, s: int, s': int, m: int, xac: int, uac: int, xc: int, uc: int, xa: int, ua: int, x: int,
                   u: int)
    requires m == xc - ua
    requires n == uac - xac + 7 * ua - 7 * xa + 7 * uc - 7 * xc - 392 * u + 392 * x + 63 * m
    requires s == xac + 2 * uac + 70 * xc + 14 * uc + 7 * xa + 14 * ua + 490 * x + 98 * u
    requires s' == uac + 2 * xac + 70 * ua + 14 * xa + 7 * uc + 14 * xc + 490 * u + 98 * x
    ensures n == s - s'
  {
  }

  lemma SlantTimes(x: int, u: int, a: int, c: int, ac: int)
    requires ac == a * c
    ensures (c + 7) * (x * a + 2 * (u * a) + 70 * x + 14 * u)
         == x * ac + 2 * (u * ac) + 70 * (x * c) + 14 * (u * c) + 7 * (x * a) + 14 * (u * a) + 490 * x + 98 * u
  {
  }

  lemma CrossTimes(x: int, u: int, a: int, c: int, m: int, n: int, ac: int)
    requires n == (a + 7) * (c + 7) && ac == a * c
    ensures (u - x) * (n - 441 + 63 * m)
         == u * ac - x * ac + 7 * (u * a) - 7 * (x * a) + 7 * (u * c) - 7 * (x * c) - 392 * u + 392 * x
             + 63 * ((u - x) * m)
  {
    assert n == ac + 7 * a + 7 * c + 49;
    ThreeCross(x, u, ac, a, c);
    assert (u - x) * (n - 441 + 63 * m) == (u - x) * (ac + 7 * a + 7 * c) - 392 * u + 392 * x + 63 * ((u - x) * m);
  }

  lemma ThreeCross(x: int, u: int, ac: int, a: int, c: int)
    ensures (u - x) * (ac + 7 * a + 7 * c) == u * ac - x * ac + 7 * (u * a) - 7 * (x * a) + 7 * (u * c) - 7 * (x * c)
  {
  }

  lemma PartsSlant(x: int, u: int)
    ensures x * PartZ(u, x) - PartX(u, x) == Slant(x, u)
    ensures x * PartZ(x, u) - PartX(x, u) + (u - x) * PartZ(x, u) == Slant(u, x)
  {
  }

  lemma PartsSlope(x: int, u: int)
    ensures x * PartZ(x, u) - PartX(x, u) - Slant(x, u) == (u - x) * PartZ(u, x)
  {
  }

  /** The same for the Y-coordinate: g and h are x Z - X by parts. */
  lemma ChordLine(y: int, v: int, a: int, b: int, g: int, h: int, i: int, d: int)
    requires g - h == d * b && i == g + d * a
    ensures (v - y) * (y * g + v * h) - d * (y * (y * a + v * b)) == (v * v) * h - (y * y) * i
  {
    CrossOut(y, v, g, h, d * b);
    YTimesZ(y, v, a, b, d);
    SumTimes(y * y, i, g, d * a);
  }

  lemma CrossOut(y: int, v: int, g: int, h: int, k: int)
    requires g == h + k
    ensures (v - y) * (y * g + v * h) == y * v * k + (v * v) * h - (y * y) * g
  {
    assert (v - y) * (y * (h + k) + v * h) == y * v * k + (v * v) * h - (y * y) * (h + k);
  }

  lemma YTimesZ(y: int, v: int, a: int, b: int, d: int)
    ensures d * (y * (y * a + v * b)) == (y * y) * (d * a) + y * v * (d * b)
  {
  }

  lemma SumTimes(k: int, i: int, g: int, h: int)
    requires i == g + h
    ensures k * i == k * g + k * h
  {
  }

  /** Replacing y^2 and v^2 again. */
  lemma LineReplaced(h: int, i: int, d: int, m: int, e: int, f: int, yy: int, vv: int, yy': int, vv': int)
    requires yy' == yy + e && vv' == vv + f && d * (yy * vv + m) == vv * h - yy * i
    ensures d * (yy' * vv' + m) == vv' * h - yy' * i + (d * vv' + i) * e + (d * yy - h) * f
  {
    BothReplaced(yy, vv, e, f, yy', vv');
    Rest(d, yy * vv + m, yy, f, vv', e);
    LinesReplaced(h, i, e, f, yy, vv, yy', vv');
    Collect(d * vv', i, e);
    Collect(d * yy, -h, f);
  }

  lemma BothReplaced(yy: int, vv: int, e: int, f: int, yy': int, vv': int)
    requires yy' == yy + e && vv' == vv + f
    ensures yy' * vv' == yy * vv + (yy * f + vv' * e)
  {
    assert (yy + e) * (vv + f) == yy * vv + (yy * f + (vv + f) * e);
  }

  lemma LinesReplaced(h: int, i: int, e: int, f: int, yy: int, vv: int, yy': int, vv': int)
    requires yy' == yy + e && vv' == vv + f
    ensures vv' * h == vv * h + h * f && yy' * i == yy * i + i * e
  {
    assert (vv + f) * h == vv * h + h * f && (yy + e) * i == yy * i + i * e;
  }

  lemma Collect(a: int, b: int, e: int)
    ensures (a + b) * e == a * e + b * e
  {
  }

  lemma Rest(d: int, n: int, a: int, b: int, c: int, e: int)
    ensures d * (n + (a * b + c * e)) == d * n + d * a * b + d * c * e
  {
  }

  lemma ChordY(zero: Vanishing, x: int, y: int, u: int, v: int, s: Coords)
    requires Ideal(zero) && zero(CurveGap(x, y)) && zero(CurveGap(u, v))
    requires s == Sum3(Coords(x, y, 1), Coords(u, v, 1))
    ensures Same(zero, (u - x) * s.y, (v - y) * (x * s.z - s.x) - (u - x) * (y * s.z))
  {
    var e, f, d := CurveGap(x, y), CurveGap(u, v), u - x;
    var sx, sz := y * PartX(x, u) + v * PartX(u, x), y * PartZ(x, u) + v * PartZ(u, x);
    var g, h, i := x * PartZ(x, u) - PartX(x, u), Slant(x, u), Slant(u, x);
    NearParts(zero, x, y, u, v, s);
    PartsSlant(x, u);
    PartsSlope(x, u);
    ChordLine(y, v, PartZ(x, u), PartZ(u, x), g, h, i, d);
    Slants(x, u);
    SumYAt(x, y, u, v);
    LineReplaced(h, i, d, 63 * (x * u * (x + u)) - 441, e, f, x * x * x + 7, u * u * u + 7, y * y, v * v);
    var right := (v * v) * h - (y * y) * i;
    ZeroCombination(zero, e, f, d * (v * v) + i, d * (x * x * x + 7) - h);
    SameLess(zero, d * s.y, right, (d * (v * v) + i) * e + (d * (x * x * x + 7) - h) * f);
    PartsLine(x, y, v, PartX(x, u), PartX(u, x), PartZ(x, u), PartZ(u, x), g, h);
    OnLine(zero, x, y, v - y, d, s, sx, sz, d * s.y, right);
  }

  lemma PartsLine(x: int, y: int, v: int, k: int, l: int, a: int, b: int, g: int, h: int)
    requires g == x * a - k && h == x * b - l
    ensures x * (y * a + v * b) - (y * k + v * l) == y * g + v * h
  {
  }

  lemma OnLine(zero: Vanishing, x: int, y: int, num: int, den: int, s: Coords, sx: int, sz: int, left: int, right: int)
    requires Ideal(zero) && Same(zero, s.x, sx) && Same(zero, s.z, sz) && Same(zero, left, right)
    requires right == num * (x * sz - sx) - den * (y * sz)
    ensures Same(zero, left, num * (x * s.z - s.x) - den * (y * s.z))
  {
    SameMultiple(zero, s.z, sz, x);
    SameSum(zero, x * s.z, x * sz, s.x, sx);
    SameMultiple(zero, x * s.z - s.x, x * sz - sx, num);
    SameMultiple(zero, s.z, sz, y);
    SameMultiple(zero, y * s.z, y * sz, den);
    SameSum(zero, num * (x * s.z - s.x), num * (x * sz - sx), den * (y * s.z), den * (y * sz));
    ZeroSum(zero, left - right, num * (x * s.z - s.x) - den * (y * s.z) - right);
  }

  // ---------------------------------------------------------------- the tangent

  lemma DoubleAt(x: int, y: int, w: int, c: int)
    requires w == y * y && c == x * x * x
    ensures Sum3(Coords(x, y, 1), Coords(x, y, 1))
         == Coords(2 * (x * y) * (w - 63), w * w - 441 + 126 * c, 2 * y * (w + 21 + 3 * c))
  {
    DoubledX(x, y, w);
    assert (w - 21) * (w + 21) == w * w - 441 && (21 * (x + x)) * (3 * (x * x)) == 126 * c;
    DoubledZ(x, y, w, c);
  }

  lemma DoubledX(x: int, y: int, w: int)
    ensures (x * y + y * x) * (w - 21) - (y + y) * (21 * (x + x)) == 2 * (x * y) * (w - 63)
  {
  }

  lemma DoubledZ(x: int, y: int, w: int, c: int)
    requires c == x * x * x
    ensures (w + 21) * (y + y) + (3 * (x * x)) * (x * y + y * x) == 2 * y * (w + 21 + 3 * c)
  {
    assert (3 * (x * x)) * (x * y + y * x) == 6 * (y * (x * x * x));
    assert (w + 21) * (y + y) + 6 * (y * c) == 2 * y * (w + 21 + 3 * c);
  }

  lemma TangentX(zero: Vanishing, x: int, y: int, s: Coords)
    requires Ideal(zero) && zero(CurveGap(x, y)) && s == Sum3(Coords(x, y, 1), Coords(x, y, 1))
    ensures Same(zero, (2 * y) * (2 * y) * s.x,
                 s.z * ((3 * (x * x)) * (3 * (x * x)) - (x + x) * ((2 * y) * (2 * y))))
  {
    var w, c := y * y, x * x * x;
    DoubleAt(x, y, w, c);
    ZeroTimes(zero, CurveGap(x, y), 2 * (x * y) * (12 * w + 27 * c));
    TangentXAt(x * y, x, y, w, c);
    SameLess(zero, 4 * w * s.x, s.z * (9 * (x * c) - (x + x) * (4 * w)),
             2 * (x * y) * (12 * w + 27 * c) * (w - (c + 7)));
    FourthPowers(x, y, w, c);
  }

  lemma FourthPowers(x: int, y: int, w: int, c: int)
    requires w == y * y && c == x * x * x
    ensures (2 * y) * (2 * y) == 4 * w && (3 * (x * x)) * (3 * (x * x)) == 9 * (x * c)
  {
  }

  lemma TangentXAt(xy: int, x: int, y: int, w: int, c: int)
    requires xy == x * y
    ensures 4 * w * (2 * xy * (w - 63)) - 2 * y * (w + 21 + 3 * c) * (9 * (x * c) - (x + x) * (4 * w))
         == 2 * xy * (12 * w + 27 * c) * (w - (c + 7))
  {
    assert 9 * (x * c) - (x + x) * (4 * w) == x * (9 * c - 8 * w);
    TangentFactors(w, c);
    PullOut(x, y, w + 21 + 3 * c, 9 * c - 8 * w);
    Regroup(2 * xy, 4 * w, w - 63, (w + 21 + 3 * c) * (9 * c - 8 * w), 12 * w + 27 * c, w - (c + 7));
  }

  lemma TangentFactors(w: int, c: int)
    ensures 4 * w * (w - 63) - (w + 21 + 3 * c) * (9 * c - 8 * w) == (12 * w + 27 * c) * (w - (c + 7))
  {
  }

  lemma Regroup(k: int, a: int, b: int, c: int, e: int, f: int)
    requires a * b - c == e * f
    ensures a * (k * b) - k * c == k * e * f
  {
    assert k * (a * b - c) == a * (k * b) - k * c;
    assert k * (e * f) == k * e * f;
  }

  lemma PullOut(x: int, y: int, a: int, b: int)
    ensures 2 * y * a * (x * b) == 2 * (x * y) * (a * b)
  {
  }

  lemma TangentY(zero: Vanishing, x: int, y: int, s: Coords)
    requires Ideal(zero) && zero(CurveGap(x, y)) && s == Sum3(Coords(x, y, 1), Coords(x, y, 1))
    ensures Same(zero, 2 * y * s.y, 3 * (x * x) * (x * s.z - s.x) - 2 * y * (y * s.z))
  {
    var w, c := y * y, x * x * x;
    DoubleAt(x, y, w, c);
    ZeroTimes(zero, CurveGap(x, y), 2 * y * (3 * w + 9 * c + 63));
    TangentYAt(y, w, c);
    var slant, rise := 2 * y * (3 * c * (84 + 3 * c)), 2 * y * (2 * w * (w + 21 + 3 * c));
    SameLess(zero, 2 * y * s.y, slant - rise, 2 * y * (3 * w + 9 * c + 63) * (w - (c + 7)));
    TangentSlant(x, y, w, c);
    TangentRise(y, w, w + 21 + 3 * c);
  }

  lemma TangentRise(y: int, w: int, m: int)
    requires w == y * y
    ensures 2 * y * (y * (2 * y * m)) == 2 * y * (2 * w * m)
  {
    assert y * (2 * y * m) == 2 * (y * y) * m;
  }

  lemma TangentSlant(x: int, y: int, w: int, c: int)
    requires c == x * x * x
    ensures 3 * (x * x) * (x * (2 * y * (w + 21 + 3 * c)) - 2 * (x * y) * (w - 63)) == 2 * y * (3 * c * (84 + 3 * c))
  {
    assert x * (2 * y * (w + 21 + 3 * c)) - 2 * (x * y) * (w - 63) == 2 * (x * y) * (84 + 3 * c);
    assert 3 * (x * x) * (2 * (x * y) * (84 + 3 * c)) == 2 * y * (3 * (x * x * x) * (84 + 3 * c));
  }

  lemma TangentYAt(y: int, w: int, c: int)
    ensures 2 * y * (w * w - 441 + 126 * c) - (2 * y * (3 * c * (84 + 3 * c)) - 2 * y * (2 * w * (w + 21 + 3 * c)))
         == 2 * y * (3 * w + 9 * c + 63) * (w - (c + 7))
  {
    TangentRest(w, c);
    TwoFactors(2 * y, w * w - 441 + 126 * c, 3 * c * (84 + 3 * c), 2 * w * (w + 21 + 3 * c), 3 * w + 9 * c + 63,
               w - (c + 7));
  }

  lemma TangentRest(w: int, c: int)
    ensures w * w - 441 + 126 * c - 3 * c * (84 + 3 * c) + 2 * w * (w + 21 + 3 * c)
            == (3 * w + 9 * c + 63) * (w - (c + 7))
  {
  }

  lemma TwoFactors(d: int, a: int, b: int, c: int, e: int, f: int)
    requires a - b + c == e * f
    ensures d * a - (d * b - d * c) == d * e * f
  {
    assert d * (a - b + c) == d * a - d * b + d * c;
    assert d * (e * f) == d * e * f;
  }

  // ---------------------------------------------------------------- the sum is on the curve again

  /** x^3 + 7 less the square of the line through (x, y) with slope lam, at t. */
  function LineGap(x: int, y: int, lam: int, t: int): int { t * t * t + 7 - (y + lam * (t - x)) * (y + lam * (t - x)) }

  /** ... divided by t - x, for a point on the curve. */
  function LineRest(x: int, y: int, lam: int, t: int): int {
    t * t + t * x + x * x - 2 * (y * lam) - lam * lam * (t - x)
  }

  lemma GapFactors(x: int, y: int, lam: int, t: int)
    ensures LineGap(x, y, lam, t) == (t - x) * LineRest(x, y, lam, t) - CurveGap(x, y)
  {
    var d := t - x;
    CubesDiffer(t, x);
    SquareOfLine(y, lam, d);
    ThreeTimes(d, t * t + t * x + x * x, 2 * (y * lam), lam * lam * d);
  }

  lemma CubesDiffer(t: int, x: int)
    ensures t * t * t - x * x * x == (t - x) * (t * t + t * x + x * x)
  {
  }

  lemma SquareOfLine(y: int, lam: int, d: int)
    ensures (y + lam * d) * (y + lam * d) == y * y + d * (2 * (y * lam)) + d * (lam * lam * d)
  {
  }

  lemma ThreeTimes(d: int, a: int, b: int, c: int)
    ensures d * (a - b - c) == d * a - d * b - d * c
  {
  }

  lemma RestsDiffer(x: int, y: int, lam: int, t: int, u: int)
    ensures LineRest(x, y, lam, t) - LineRest(x, y, lam, u) == (t - u) * (t - (lam * lam - x - u))
  {
    assert (t - u) * (t - (lam * lam - x - u)) == t * t - u * u + (t - u) * x - lam * lam * (t - u);
  }

  /** Where the rest vanishes at u, the mirrored third intersection is on the curve. */
  lemma ThirdLies(zero: Vanishing, lam: int, a: Point, u: int, r: Point)
    requires Ideal(zero) && a.Affine? && Lies(zero, a) && Third(zero, lam, a, u, r) && zero(LineRest(a.x, a.y, lam, u))
    ensures Lies(zero, r)
  {
    var t, line := r.x, lam * (a.x - r.x) - a.y;
    ZeroTimes(zero, t - (lam * lam - a.x - u), t - u);
    RestsDiffer(a.x, a.y, lam, t, u);
    ZeroBoth(zero, LineRest(a.x, a.y, lam, t), LineRest(a.x, a.y, lam, u));
    ZeroTimes(zero, LineRest(a.x, a.y, lam, t), t - a.x);
    GapFactors(a.x, a.y, lam, t);
    ZeroSum(zero, (t - a.x) * LineRest(a.x, a.y, lam, t), CurveGap(a.x, a.y));
    OnTheLine(zero, a, lam, t, r.y, line);
  }

  lemma OnTheLine(zero: Vanishing, a: Point, lam: int, t: int, y: int, line: int)
    requires Ideal(zero) && a.Affine? && zero(LineGap(a.x, a.y, lam, t)) && Same(zero, y, line)
    requires line == lam * (a.x - t) - a.y
    ensures zero(CurveGap(t, y))
  {
    SameTimes(zero, y, line, y, line);
    Mirrored(line, a.y + lam * (t - a.x));
    ZeroSum(zero, y * y - line * line, LineGap(a.x, a.y, lam, t));
  }

  lemma Mirrored(a: int, b: int)
    requires a == -b
    ensures a * a == b * b
  {
  }

  lemma ChordLies(zero: Vanishing, lam: int, a: Point, b: Point, r: Point)
    requires FieldFacts(zero) && a.Affine? && b.Affine? && Lies(zero, a) && Lies(zero, b) && !zero(b.x - a.x)
    requires Quotient(zero, lam, b.y - a.y, b.x - a.x) && Third(zero, lam, a, b.x, r)
    ensures Lies(zero, r)
  {
    var line := a.y + lam * (b.x - a.x);
    assert line - b.y == lam * (b.x - a.x) - (b.y - a.y);
    SameTimes(zero, line, b.y, line, b.y);
    ZeroSum(zero, line * line - b.y * b.y, CurveGap(b.x, b.y));
    GapFactors(a.x, a.y, lam, b.x);
    ZeroSum(zero, CurveGap(a.x, a.y), line * line - b.y * b.y + CurveGap(b.x, b.y));
    var rest := LineRest(a.x, a.y, lam, b.x);
    assert (b.x - a.x) * rest == CurveGap(a.x, a.y) - (line * line - b.y * b.y + CurveGap(b.x, b.y));
    assert zero(Times(b.x - a.x, rest));
    ThirdLies(zero, lam, a, b.x, r);
  }

  lemma RestAtOnce(x: int, y: int, lam: int)
    ensures LineRest(x, y, lam, x) == (lam * (2 * y) - 3 * (x * x)) * -1
  {
  }

  lemma TangentLies(zero: Vanishing, lam: int, a: Point, r: Point)
    requires Ideal(zero) && a.Affine? && Lies(zero, a)
    requires Quotient(zero, lam, 3 * (a.x * a.x), 2 * a.y) && Third(zero, lam, a, a.x, r)
    ensures Lies(zero, r)
  {
    ZeroTimes(zero, lam * (2 * a.y) - 3 * (a.x * a.x), -1);
    RestAtOnce(a.x, a.y, lam);
    ThirdLies(zero, lam, a, a.x, r);
  }

  // ---------------------------------------------------------------- the formulas are pointAdd

  lemma ZeroFactor(zero: Vanishing, a: int, b: int)
    requires FieldFacts(zero) && zero(a * b)
    ensures zero(a) || zero(b)
  {
    assert zero(Times(a, b));
  }

  /** The sum's Z-coordinate does not vanish when its other two are multiples of it. */
  lemma FiniteSum(zero: Vanishing, a: Point, b: Point, r: Point, s: Coords)
    requires FieldFacts(zero) && Lies(zero, a) && Lies(zero, b) && r.Affine? && s == Sum3(Rep(a), Rep(b))
    requires Same(zero, s.x, s.z * r.x) && Same(zero, s.y, s.z * r.y)
    ensures Scales(zero, s, s.z, r)
  {
    YRemains(zero, a, b, s.y);
    if zero(s.z) {
      ZeroTimes(zero, s.z, r.y);
      ZeroBoth(zero, s.y, s.z * r.y);
    }
    SameLess(zero, s.z, s.z * 1, 0);
  }

  lemma YRemains(zero: Vanishing, a: Point, b: Point, y: int)
    requires FieldFacts(zero) && Lies(zero, a) && Lies(zero, b) && y == SumY(Rep(a), Rep(b))
    ensures !zero(y)
  {
    RepOnCurve(zero, a);
    RepOnCurve(zero, b);
    SumNeverVanishes(zero, Rep(a), Rep(b));
  }

  lemma ChordSum(zero: Vanishing, lam: int, a: Point, b: Point, r: Point, s: Coords)
    requires FieldFacts(zero) && a.Affine? && b.Affine? && Lies(zero, a) && Lies(zero, b) && !zero(a.x - b.x)
    requires Quotient(zero, lam, b.y - a.y, b.x - a.x) && Third(zero, lam, a, b.x, r) && s == Sum3(Rep(a), Rep(b))
    ensures Scales(zero, s, s.z, r) && Lies(zero, r)
  {
    if zero(b.x - a.x) {
      ZeroSum(zero, 0, b.x - a.x);
    }
    ChordX(zero, a.x, a.y, b.x, b.y, s, (b.x - a.x) * (b.x - a.x));
    ChordY(zero, a.x, a.y, b.x, b.y, s);
    Divide(zero, lam, b.y - a.y, b.x - a.x, a, b.x, r, s);
    FiniteSum(zero, a, b, r, s);
    ChordLies(zero, lam, a, b, r);
  }

  lemma NotOrderTwo(zero: Vanishing, a: Point)
    requires FieldFacts(zero) && a.Affine? && Lies(zero, a)
    ensures !zero(a.y) && !zero(2 * a.y)
  {
    RepOnCurve(zero, a);
    if zero(a.y) {
      NoOrderTwo(zero, Rep(a));
    }
    if zero(2 * a.y) {
      ZeroFactor(zero, 2, a.y);
    }
  }

  lemma TangentSum(zero: Vanishing, lam: int, a: Point, r: Point, s: Coords)
    requires FieldFacts(zero) && a.Affine? && Lies(zero, a)
    requires Quotient(zero, lam, 3 * (a.x * a.x), 2 * a.y) && Third(zero, lam, a, a.x, r) && s == Sum3(Rep(a), Rep(a))
    ensures Scales(zero, s, s.z, r) && Lies(zero, r)
  {
    NotOrderTwo(zero, a);
    TangentX(zero, a.x, a.y, s);
    TangentY(zero, a.x, a.y, s);
    Divide(zero, lam, 3 * (a.x * a.x), 2 * a.y, a, a.x, r, s);
    FiniteSum(zero, a, a, r, s);
    TangentLies(zero, lam, a, r);
  }

  /** Points with one X-coordinate and two Y-coordinates are each other's mirror. */
  lemma MirrorSum(zero: Vanishing, a: Point, b: Point, s: Coords)
    requires FieldFacts(zero) && a.Affine? && b.Affine? && Lies(zero, a) && Lies(zero, b)
    requires a.x == b.x && !zero(a.y - b.y) && s == Sum3(Rep(a), Rep(b))
    ensures Scales(zero, s, s.y, Infinity)
  {
    ZeroSum(zero, CurveGap(a.x, a.y), CurveGap(b.x, b.y));
    assert CurveGap(a.x, a.y) - CurveGap(b.x, b.y) == (a.y - b.y) * (a.y + b.y);
    ZeroFactor(zero, a.y - b.y, a.y + b.y);
    MirrorX(a.x, a.y, b.y);
    MirrorZ(a.x, a.y, b.y);
    ZeroTimes(zero, a.y + b.y, a.x * (a.y * b.y - 63));
    ZeroTimes(zero, a.y + b.y, a.y * b.y + 21 + 3 * (a.x * a.x * a.x));
    YRemains(zero, a, b, s.y);
    SameLess(zero, s.x, s.y * 0, s.x);
    SameLess(zero, s.y, s.y * 1, 0);
    SameLess(zero, s.z, s.y * 0, s.z);
  }

  lemma MirrorX(x: int, y: int, v: int)
    ensures SumX(Coords(x, y, 1), Coords(x, v, 1)) == (y + v) * (x * (y * v - 63))
  {
    assert x * v + y * x == (y + v) * x;
    assert (y + v) * x * (y * v - 21) - (y + v) * (42 * x) == (y + v) * (x * (y * v - 63));
  }

  lemma MirrorZ(x: int, y: int, v: int)
    ensures SumZ(Coords(x, y, 1), Coords(x, v, 1)) == (y + v) * (y * v + 21 + 3 * (x * x * x))
  {
    assert x * v + y * x == (y + v) * x;
    assert (y * v + 21) * (y + v) + (3 * (x * x)) * ((y + v) * x) == (y + v) * (y * v + 21 + 3 * (x * x * x));
  }

  lemma IdentitySum(zero: Vanishing, a: Point, s: Coords)
    requires FieldFacts(zero) && Lies(zero, a) && (s == Sum3(Rep(a), Rep(Infinity)) || s == Sum3(Rep(Infinity), Rep(a)))
    ensures Scales(zero, s, Rep(a).y, a)
  {
    var p := Rep(a);
    SumWithIdentity(p);
    SumCommutes(p, Rep(Infinity));
    SameLess(zero, s.x, p.y * p.x, 0);
    SameLess(zero, s.y, p.y * p.y, 0);
    SameLess(zero, s.z, p.y * p.z, 0);
    if a.Affine? {
      NotOrderTwo(zero, a);
    } else {
      OneIsNotZero(zero);
    }
  }

  /** Each branch of pointAdd against the formulas, on coordinates with Z = 1. */
  lemma SumAtOne(zero: Vanishing, a: Point, b: Point, r: Point)
    requires FieldFacts(zero) && Lies(zero, a) && Lies(zero, b) && Apart(zero, a, b) && PointAdd(zero, a, b, r)
    ensures Lies(zero, r) && Represents(zero, Sum3(Rep(a), Rep(b)), r)
  {
    var s := Sum3(Rep(a), Rep(b));
    if a.Infinity? {
      IdentitySum(zero, b, s);
    } else if b.Infinity? {
      IdentitySum(zero, a, s);
    } else if a.x != b.x {
      var lam :| Quotient(zero, lam, b.y - a.y, b.x - a.x) && Third(zero, lam, a, b.x, r);
      ChordSum(zero, lam, a, b, r, s);
    } else if a.y != b.y {
      MirrorSum(zero, a, b, s);
    } else {
      NotOrderTwo(zero, a);
      var lam :| Quotient(zero, lam, 3 * (a.x * a.x), 2 * a.y) && Third(zero, lam, a, a.x, r);
      TangentSum(zero, lam, a, r, s);
    }
  }

  lemma ScalesTwice(zero: Vanishing, c: Coords, k: int, d: Coords, l: int, a: Point)
    requires FieldFacts(zero) && !zero(k) && Times3(zero, c, k, d) && Scales(zero, d, l, a)
    ensures Scales(zero, c, k * l, a)
  {
    ScaledTwice(zero, c.x, k, d.x, l, Rep(a).x);
    ScaledTwice(zero, c.y, k, d.y, l, Rep(a).y);
    ScaledTwice(zero, c.z, k, d.z, l, Rep(a).z);
    if zero(k * l) {
      ZeroFactor(zero, k, l);
    }
  }

  lemma ScaledTwice(zero: Vanishing, c: int, k: int, d: int, l: int, a: int)
    requires Ideal(zero) && Same(zero, c, k * d) && Same(zero, d, l * a)
    ensures Same(zero, c, k * l * a)
  {
    SameMultiple(zero, d, l * a, k);
    SameTrans(zero, c, k * d, k * (l * a));
    assert k * (l * a) == k * l * a;
  }

  /** The complete addition formulas compute pointAdd: for any two points of the curve, in whatever
      coordinates they are given, the result stands for the chord-and-tangent sum, a point of the
      curve again. */
  lemma FormulasArePointAdd(zero: Vanishing, c: Coords, d: Coords, a: Point, b: Point, r: Point)
    requires FieldFacts(zero) && Lies(zero, a) && Lies(zero, b) && Apart(zero, a, b)
    requires Represents(zero, c, a) && Represents(zero, d, b) && PointAdd(zero, a, b, r)
    ensures Represents(zero, Sum3(c, d), r) && Lies(zero, r)
  {
    SumAtOne(zero, a, b, r);
    var s :| Scales(zero, c, s, a);
    var t :| Scales(zero, d, t, b);
    var k :| Scales(zero, Sum3(Rep(a), Rep(b)), k, r);
    SumScales(zero, c, d, s, t, Rep(a), Rep(b), s * t);
    if zero(s * t) {
      ZeroFactor(zero, s, t);
    }
    if zero((s * t) * (s * t)) {
      ZeroFactor(zero, s * t, s * t);
    }
    ScalesTwice(zero, Sum3(c, d), (s * t) * (s * t), Sum3(Rep(a), Rep(b)), k, r);
  }

  /** No coordinates stand for two points. */
  lemma RepresentsOne(zero: Vanishing, c: Coords, a: Point, b: Point)
    requires FieldFacts(zero) && Apart(zero, a, b) && Represents(zero, c, a) && Represents(zero, c, b)
    ensures a == b
  {
    var s :| Scales(zero, c, s, a);
    var t :| Scales(zero, c, t, b);
    AtZ(zero, c, s, a);
    AtZ(zero, c, t, b);
    if a.Affine? && b.Affine? {
      Agree(zero, c.z, c.x, a.x, b.x);
      Agree(zero, c.z, c.y, a.y, b.y);
    }
  }

  lemma AtZ(zero: Vanishing, c: Coords, s: int, a: Point)
    requires FieldFacts(zero) && Scales(zero, c, s, a)
    ensures a.Infinity? <==> zero(c.z)
    ensures a.Affine? ==> Same(zero, c.x, c.z * a.x) && Same(zero, c.y, c.z * a.y)
  {
    if a.Affine? {
      assert Same(zero, c.z, s) by { assert s * 1 == s; }
      ZeroBoth(zero, c.z, s);
      Agrees(zero, c.x, s, c.z, a.x);
      Agrees(zero, c.y, s, c.z, a.y);
    } else {
      assert s * 0 == 0;
    }
  }

  lemma Agrees(zero: Vanishing, x: int, s: int, z: int, a: int)
    requires Ideal(zero) && Same(zero, x, s * a) && Same(zero, z, s)
    ensures Same(zero, x, z * a)
  {
    SameMultiple(zero, z, s, a);
    assert a * z == z * a && a * s == s * a;
    ZeroSum(zero, x - s * a, z * a - s * a);
  }

  lemma Agree(zero: Vanishing, z: int, c: int, a: int, b: int)
    requires FieldFacts(zero) && !zero(z) && Same(zero, c, z * a) && Same(zero, c, z * b)
    ensures zero(a - b)
  {
    ZeroSum(zero, c - z * b, c - z * a);
    assert z * (a - b) == z * a - z * b;
    Cancel(zero, z, a, b);
  }

  // ---------------------------------------------------------------- the ladder over pointAdd's group

  /** Values that limbs stand for agree. */
  ghost predicate Respects(zero: Vanishing) { forall v, e :: Cong(v, e) ==> Same(zero, v, e) }

  /** Points of the curve in the variable-time code's form, closed under its addition. */
  ghost predicate AddsPoints(zero: Vanishing, g: Group<Point>, points: iset<Point>) {
    && g.zero == Infinity && Infinity in points
    && (forall a :: a in points ==> Lies(zero, a))
    && forall a, b :: a in points && b in points ==>
         Apart(zero, a, b) && g.add(a, b) in points && PointAdd(zero, a, b, g.add(a, b))
  }

  ghost predicate LimbsOf(zero: Vanishing, points: iset<Point>, p: Jac, a: Point) {
    a in points && Represents(zero, CoordsOf(p), a)
  }

  ghost function Reading(zero: Vanishing, points: iset<Point>): (Jac, Point) -> bool {
    (p: Jac, a: Point) => LimbsOf(zero, points, p, a)
  }

  /** Reduced coordinates that differ also differ modulo p. */
  lemma ReducedApart(a: Point, b: Point)
    requires a.Affine? ==> 0 <= a.x < P && 0 <= a.y < P
    requires b.Affine? ==> 0 <= b.x < P && 0 <= b.y < P
    ensures Apart((e: int) => Cong(e, 0), a, b)
  {
    if a.Affine? && b.Affine? {
      OneMultiple(a.x, b.x);
      OneMultiple(a.y, b.y);
    }
  }

  lemma OneMultiple(x: int, y: int)
    requires 0 <= x < P && 0 <= y < P
    ensures Cong(x - y, 0) ==> x == y
  {
    if Cong(x - y, 0) {
      var k :| OffBy(x - y, 0, k);
    }
  }

  lemma StandsScales(zero: Vanishing, r: Jac, c: Coords, a: Point)
    requires FieldFacts(zero) && Respects(zero) && StandsFor(r, c) && Represents(zero, c, a)
    ensures Represents(zero, CoordsOf(r), a)
  {
    var k :| Scales(zero, c, k, a);
    SameTrans(zero, r.x.Value(), c.x, k * Rep(a).x);
    SameTrans(zero, r.y.Value(), c.y, k * Rep(a).y);
    SameTrans(zero, r.z.Value(), c.z, k * Rep(a).z);
    assert Scales(zero, CoordsOf(r), k, a);
  }

  /** What the ladder asks of the formulas holds where the group's addition is pointAdd. */
  lemma FormulasImplement(zero: Vanishing, g: Group<Point>, points: iset<Point>)
    requires FieldFacts(zero) && Respects(zero) && AddsPoints(zero, g, points)
    ensures Implements(g, Reading(zero, points))
  {
    IdentityLimbs(zero, points);
    forall p: Jac, q: Jac, r: Jac, a: Point, b: Point
      | Reading(zero, points)(p, a) && Reading(zero, points)(q, b) && StandsFor(r, Sum3(CoordsOf(p), CoordsOf(q)))
      ensures Reading(zero, points)(r, g.add(a, b))
    {
      FormulasArePointAdd(zero, CoordsOf(p), CoordsOf(q), a, b, g.add(a, b));
      StandsScales(zero, r, Sum3(CoordsOf(p), CoordsOf(q)), g.add(a, b));
    }
  }

  lemma IdentityLimbs(zero: Vanishing, points: iset<Point>)
    requires FieldFacts(zero) && Infinity in points
    ensures LimbsOf(zero, points, IDENTITY, Infinity)
  {
    OneIsNotZero(zero);
    assert CoordsOf(IDENTITY) == Coords(0, 1, 0);
    assert Scales(zero, CoordsOf(IDENTITY), 1, Infinity);
  }

  // ---------------------------------------------------------------- back to affine coordinates

  /** Fermat's theorem for p, assumed here: what feInv computes is the inverse. */
  ghost predicate Fermat(zero: Vanishing) { forall z: nat :: zero(z) || Inverted(zero, z) }

  ghost predicate Inverted(zero: Vanishing, z: nat) { Same(zero, z * Power(z, P - 2), 1) }

  function AbscissaOf(a: Point): int { if a.Infinity? then 0 else a.x }

  /** The affine X-coordinate modulo p, and zero for the identity. */
  method AffineX(p: Jac, ghost zero: Vanishing, ghost a: Point) returns (x: Fe)
    requires FieldFacts(zero) && Respects(zero) && Fermat(zero) && Represents(zero, CoordsOf(p), a)
    ensures x.Reduced() && Same(zero, x.Value(), AbscissaOf(a))
  {
    var zi := FeInv(p.z);
    ghost var z := p.z.Value();
    ghost var w := Power(z, P - 2);
    CongMod(w);
    CongRefl(p.x.Value());
    x := Mul(p.x, zi, p.x.Value(), w);
    assert Inverted(zero, z) || zero(z);
    Dehomogenise(zero, CoordsOf(p), a, x.Value(), w);
  }

  lemma Dehomogenise(zero: Vanishing, c: Coords, a: Point, x: int, w: int)
    requires FieldFacts(zero) && Represents(zero, c, a) && Same(zero, x, c.x * w) &&
             (Same(zero, c.z * w, 1) || zero(c.z))
    ensures Same(zero, x, AbscissaOf(a))
  {
    var s :| Scales(zero, c, s, a);
    AtZ(zero, c, s, a);
    match a
    case Infinity =>
      assert s * 0 == 0;
      ZeroTimes(zero, c.x, w);
      ZeroBoth(zero, x, c.x * w);
    case Affine(ax, _) =>
      OverZ(zero, c.x, c.z, ax, w);
      SameTrans(zero, x, c.x * w, ax);
  }

  lemma OverZ(zero: Vanishing, x: int, z: int, a: int, w: int)
    requires Ideal(zero) && Same(zero, x, z * a) && Same(zero, z * w, 1)
    ensures Same(zero, x * w, a)
  {
    SameMultiple(zero, x, z * a, w);
    SameMultiple(zero, z * w, 1, a);
    ZeroSum(zero, w * x - w * (z * a), a * (z * w) - a * 1);
    assert w * (z * a) == a * (z * w) && w * x == x * w;
  }

  /** What signing takes from a nonce k: the X-coordinate of k times the base point under pointAdd. */
  method NonceX(k: Fe, p: Jac, ghost zero: Vanishing, ghost g: Group<Point>, ghost points: iset<Point>, ghost a: Point)
    returns (x: Fe)
    requires FieldFacts(zero) && Respects(zero) && Fermat(zero) && IsGroup(g) && AddsPoints(zero, g, points)
    requires LimbsOf(zero, points, p, a)
    ensures x.Reduced() && Same(zero, x.Value(), AbscissaOf(Multiple(g, k.Value(), a)))
  {
    FormulasImplement(zero, g, points);
    assert Reading(zero, points)(p, a);
    var r := ScalarMultCT(k, p, g, Reading(zero, points), a);
    assert Reading(zero, points)(r, Multiple(g, k.Value(), a));
    x := AffineX(r, zero, Multiple(g, k.Value(), a));
  }
}
