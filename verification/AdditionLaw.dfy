/** crypto/ct.go:205-251: why the complete addition formulas have no exceptional input.

    An addition formula breaks down where it gives the triple (0:0:0).  The Y-coordinate computed by
    these formulas is, up to the factor Z1 Z2, a norm from the field with a cube root of 7; as 7 has
    no cube root modulo p, it vanishes for no two points of the curve.

    "Vanishes modulo p" is a parameter here, any set of integers closed under sums and multiples. */
module AdditionLaw {
  import opened Ladder
  import opened Field

  type Vanishing = int -> bool

  function Plus(a: int, b: int): int { a + b }

  function Times(u: int, v: int): int { u * v }

  function Cubic(u: int, v: int): int { u * u * u - 7 * (v * v * v) }

  ghost predicate Ideal(zero: Vanishing) {
    && zero(0)
    && (forall a: int, b: int {:trigger zero(Plus(a, b))} :: zero(a) && zero(b) ==> zero(Plus(a, b)))
    && (forall a: int, c: int {:trigger zero(Times(a, c))} :: zero(a) ==> zero(Times(a, c)))
  }

  /** Two facts about p, assumed here: it is an odd prime, and 7 is no cube modulo p. */
  ghost predicate PrimeWithoutCubeRoot(zero: Vanishing) {
    && !zero(2)
    && (forall u: int, v: int {:trigger zero(Times(u, v))} :: zero(Times(u, v)) ==> zero(u) || zero(v))
    && (forall u: int, v: int {:trigger zero(Cubic(u, v))} :: zero(Cubic(u, v)) ==> zero(u) && zero(v))
  }

  ghost predicate FieldFacts(zero: Vanishing) { Ideal(zero) && PrimeWithoutCubeRoot(zero) }

  lemma ZeroSum(zero: Vanishing, a: int, b: int)
    requires Ideal(zero) && zero(a) && zero(b)
    ensures zero(a + b) && zero(a - b)
  {
    ZeroTimes(zero, b, -1);
    assert zero(Plus(a, b)) && zero(Plus(a, b * -1));
  }

  lemma ZeroTimes(zero: Vanishing, a: int, c: int)
    requires Ideal(zero) && zero(a)
    ensures zero(a * c) && zero(c * a)
  {
    assert zero(Times(a, c)) && a * c == c * a;
  }

  /** If a - b vanishes, a vanishes exactly when b does. */
  lemma ZeroBoth(zero: Vanishing, a: int, b: int)
    requires Ideal(zero) && zero(a - b)
    ensures zero(a) <==> zero(b)
  {
    if zero(a) {
      ZeroSum(zero, a, a - b);
      assert a - (a - b) == b;
    } else if zero(b) {
      ZeroSum(zero, a - b, b);
    }
  }

  // ---------------------------------------------------------------- the norm form

  /** The norm of a + b t + c t^2 for t^3 = 7. */
  function Norm(a: int, b: int, c: int): int { a * a * a + 7 * (b * b * b) + 49 * (c * c * c) - 21 * (a * b * c) }

  /** The conjugate's coordinates. */
  function ConjA(a: int, b: int, c: int): int { a * a - 7 * (b * c) }

  function ConjB(a: int, b: int, c: int): int { 7 * (c * c) - a * b }

  function ConjC(a: int, b: int, c: int): int { b * b - a * c }

  /** (x w)(y z) = w (x y z), whatever the order of the first two factors. */
  lemma Pull(x: int, y: int, z: int, w: int)
    ensures (x * w) * (y * z) == w * (x * y * z) && (w * x) * (y * z) == w * (x * y * z)
    ensures (y * z) * (x * w) == w * (x * y * z)
  {
  }

  lemma Swap(x: int, y: int, z: int, w: int)
    ensures (x * y) * (z * w) == (x * z) * (y * w)
  {
  }

  lemma Square(x: int, y: int)
    ensures (x - y) * (x - y) == x * x - 2 * (x * y) + y * y
    ensures (7 * x - y) * (7 * x - y) == 49 * (x * x) - 14 * (x * y) + y * y
    ensures (x - 7 * y) * (x - 7 * y) == x * x - 14 * (x * y) + 49 * (y * y)
  {
  }

  lemma Differences(x: int, y: int, z: int, w: int)
    ensures (x - 7 * y) * (z - w) == x * z - x * w - 7 * (y * z) + 7 * (y * w)
    ensures (x - 7 * y) * (7 * z - w) == 7 * (x * z) - x * w - 49 * (y * z) + 7 * (y * w)
    ensures (7 * x - y) * (z - w) == 7 * (x * z) - 7 * (x * w) - y * z + y * w
  {
  }

  lemma Spread(x: int, p: int, q: int, r: int, s: int)
    ensures x * (p + 7 * q + 49 * r - 21 * s) == x * p + 7 * (x * q) + 49 * (x * r) - 21 * (x * s)
  {
  }

  /** Taking the conjugate's conjugate gives the norm times the number itself, one coordinate at a
      time; first in the six products of two coordinates. */
  lemma TwiceC(aa: int, ab: int, ac: int, bb: int, bc: int, cc: int)
    requires ab * ab == aa * bb && bc * ac == ab * cc
    ensures (7 * cc - ab) * (7 * cc - ab) - (aa - 7 * bc) * (bb - ac)
         == aa * ac + 7 * (bc * bb) + 49 * (cc * cc) - 21 * (ab * cc)
  {
    Square(cc, ab);
    Differences(aa, bc, bb, ac);
  }

  lemma TwiceB(aa: int, ab: int, ac: int, bb: int, bc: int, cc: int)
    requires ac * ac == aa * cc && bc * ab == bb * ac
    ensures 7 * ((bb - ac) * (bb - ac)) - (aa - 7 * bc) * (7 * cc - ab)
         == aa * ab + 7 * (bb * bb) + 49 * (bc * cc) - 21 * (bb * ac)
  {
    Square(bb, ac);
    Differences(aa, bc, cc, ab);
  }

  lemma TwiceA(aa: int, ab: int, ac: int, bb: int, bc: int, cc: int)
    requires bc * bc == cc * bb && ab * ac == aa * bc
    ensures (aa - 7 * bc) * (aa - 7 * bc) - 7 * ((7 * cc - ab) * (bb - ac))
         == aa * aa + 7 * (ab * bb) + 49 * (cc * ac) - 21 * (aa * bc)
  {
    Square(aa, bc);
    Differences(cc, ab, bb, ac);
  }

  lemma ConjugateTwiceC(a: int, b: int, c: int)
    ensures ConjB(a, b, c) * ConjB(a, b, c) - ConjA(a, b, c) * ConjC(a, b, c) == c * Norm(a, b, c)
  {
    Swap(a, b, a, b);
    Swap(b, c, a, c);
    TwiceC(a * a, a * b, a * c, b * b, b * c, c * c);
    Pull(a, a, a, c);
    Pull(b, b, b, c);
    Pull(c, c, c, c);
    Pull(c, a, b, c);
    Spread(c, a * a * a, b * b * b, c * c * c, a * b * c);
  }

  lemma ConjugateTwiceB(a: int, b: int, c: int)
    ensures 7 * (ConjC(a, b, c) * ConjC(a, b, c)) - ConjA(a, b, c) * ConjB(a, b, c) == b * Norm(a, b, c)
  {
    Swap(a, c, a, c);
    Swap(b, c, b, a);
    TwiceB(a * a, a * b, a * c, b * b, b * c, c * c);
    Pull(a, a, a, b);
    Pull(b, b, b, b);
    Pull(c, c, c, b);
    Pull(b, a, c, b);
    Spread(b, a * a * a, b * b * b, c * c * c, a * b * c);
  }

  lemma ConjugateTwiceA(a: int, b: int, c: int)
    ensures ConjA(a, b, c) * ConjA(a, b, c) - 7 * (ConjB(a, b, c) * ConjC(a, b, c)) == a * Norm(a, b, c)
  {
    Swap(b, c, b, c);
    Swap(a, b, a, c);
    TwiceA(a * a, a * b, a * c, b * b, b * c, c * c);
    Pull(a, a, a, a);
    Pull(b, b, b, a);
    Pull(c, c, c, a);
    Pull(a, b, c, a);
    Spread(a, a * a * a, b * b * b, c * c * c, a * b * c);
  }

  lemma CubicOf(x: int, y: int, z: int, r: int, s: int)
    requires y * y - x * z == r && 7 * (z * z) - x * y == s
    ensures Cubic(y, z) == y * r - z * s
  {
    assert y * (y * y - x * z) - z * (7 * (z * z) - x * y) == y * y * y - 7 * (z * z * z);
  }

  lemma CubicVanishes(zero: Vanishing, y: int, z: int, m: int, n: int)
    requires FieldFacts(zero) && zero(m) && zero(n) && Cubic(y, z) == m - n
    ensures zero(y) && zero(z)
  {
    ZeroSum(zero, m, n);
    assert zero(Cubic(y, z));
  }

  /** Where two of the three relations between coordinates vanish, the last two coordinates do. */
  lemma LastTwoVanish(zero: Vanishing, x: int, y: int, z: int, r: int, s: int)
    requires FieldFacts(zero) && y * y - x * z == r && 7 * (z * z) - x * y == s && zero(r) && zero(s)
    ensures zero(y) && zero(z)
  {
    CubicOf(x, y, z, r, s);
    ZeroTimes(zero, r, y);
    ZeroTimes(zero, s, z);
    CubicVanishes(zero, y, z, y * r, z * s);
  }

  /** ... and with the third relation the first one does too. */
  lemma FirstVanishes(zero: Vanishing, x: int, y: int, z: int, r: int)
    requires FieldFacts(zero) && x * x - 7 * (y * z) == r && zero(r) && zero(y)
    ensures zero(x)
  {
    ZeroTimes(zero, y, 7 * z);
    assert y * (7 * z) == 7 * (y * z);
    ZeroSum(zero, r, y * (7 * z));
    assert zero(Times(x, x));
  }

  /** The norm vanishes at the origin only. */
  lemma NormAnisotropic(zero: Vanishing, a: int, b: int, c: int)
    requires FieldFacts(zero) && zero(Norm(a, b, c))
    ensures zero(a) && zero(b) && zero(c)
  {
    var x, y, z, n := ConjA(a, b, c), ConjB(a, b, c), ConjC(a, b, c), Norm(a, b, c);
    ConjugateTwiceA(a, b, c);
    ConjugateTwiceB(a, b, c);
    ConjugateTwiceC(a, b, c);
    ZeroTimes(zero, n, a);
    ZeroTimes(zero, n, b);
    ZeroTimes(zero, n, c);
    LastTwoVanish(zero, x, y, z, c * n, b * n);
    FirstVanishes(zero, x, y, z, a * n);
    LastTwoVanish(zero, a, b, c, z, y);
    FirstVanishes(zero, a, b, c, x);
  }

  // ---------------------------------------------------------------- points on the curve

  function CurveLeft(p: Coords): int { p.y * p.y * p.z }

  function CurveRight(p: Coords): int { p.x * p.x * p.x + 7 * (p.z * p.z * p.z) }

  /** y^2 z = x^3 + 7 z^3 */
  ghost predicate OnCurve(zero: Vanishing, p: Coords) { zero(CurveLeft(p) - CurveRight(p)) }

  ghost predicate Null(zero: Vanishing, p: Coords) { zero(p.x) && zero(p.y) && zero(p.z) }

  ghost predicate IsPoint(zero: Vanishing, p: Coords) { OnCurve(zero, p) && !Null(zero, p) }

  /** Z1 Z2 times the Y-coordinate of the sum, as the curve equations rewrite it. */
  function Scaled(p: Coords, q: Coords): int {
    var xx, zz, m := p.x * q.x, p.z * q.z, p.x * q.z + p.z * q.x;
    CurveRight(p) * CurveRight(q) - 441 * (zz * zz * zz) + 63 * (xx * m * zz)
  }

  lemma CurveProduct(x: int, z: int, x': int, z': int, xx: int, zz: int, f: int, g: int)
    requires xx == x * x' && zz == z * z' && f == x * z' && g == z * x'
    ensures (x * x * x + 7 * (z * z * z)) * (x' * x' * x' + 7 * (z' * z' * z'))
         == xx * xx * xx + 7 * (f * f * f) + 7 * (g * g * g) + 49 * (zz * zz * zz)
    ensures f * g == xx * zz
  {
    Cubes(x, x', xx);
    Cubes(x, z', f);
    Cubes(z, x', g);
    Cubes(z, z', zz);
    Products(x * x * x, z * z * z, x' * x' * x', z' * z' * z');
    CrossTerms(x, z, x', z');
  }

  lemma CrossTerms(x: int, z: int, x': int, z': int)
    ensures (x * z') * (z * x') == (x * x') * (z * z')
  {
  }

  lemma Cubes(u: int, v: int, uv: int)
    requires uv == u * v
    ensures (u * u * u) * (v * v * v) == uv * uv * uv
  {
  }

  lemma Products(a: int, b: int, c: int, d: int)
    ensures (a + 7 * b) * (c + 7 * d) == a * c + 7 * (a * d) + 7 * (b * c) + 49 * (b * d)
  {
  }

  lemma ScaledIsNorm(p: Coords, q: Coords, xx: int, zz: int, m: int)
    requires xx == p.x * q.x && zz == p.z * q.z && m == p.x * q.z + p.z * q.x
    ensures Scaled(p, q) == Norm(xx, m, -2 * zz)
  {
    var f, g := p.x * q.z, p.z * q.x;
    CurveProduct(p.x, p.z, q.x, q.z, xx, zz, f, g);
    SumOfCubes(xx, zz, f, g, m);
  }

  lemma SumOfCubes(xx: int, zz: int, f: int, g: int, m: int)
    requires f * g == xx * zz && m == f + g
    ensures xx * xx * xx + 7 * (f * f * f) + 7 * (g * g * g) + 49 * (zz * zz * zz) - 441 * (zz * zz * zz)
              + 63 * (xx * m * zz)
         == Norm(xx, m, -2 * zz)
  {
    CubeOfSum(f, g, m);
    assert f * g * m == xx * zz * m;
    NormAt(xx, m, zz);
  }

  lemma CubeOfSum(f: int, g: int, m: int)
    requires m == f + g
    ensures m * m * m == f * f * f + g * g * g + 3 * (f * g * m)
  {
  }

  lemma NormAt(a: int, b: int, zz: int)
    ensures Norm(a, b, -2 * zz) == a * a * a + 7 * (b * b * b) - 392 * (zz * zz * zz) + 42 * (a * zz * b)
  {
  }

  lemma Reorder(y: int, z: int, y': int, z': int, yy: int, zz: int)
    requires yy == y * y' && zz == z * z'
    ensures (y * y * z) * (y' * y' * z') == zz * (yy * yy)
  {
  }

  lemma ProductsMatch(zero: Vanishing, l: int, r: int, l': int, r': int)
    requires Ideal(zero) && zero(l - r) && zero(l' - r')
    ensures zero(l * l' - r * r')
  {
    ZeroTimes(zero, l - r, l');
    ZeroTimes(zero, l' - r', r);
    ZeroSum(zero, (l - r) * l', r * (l' - r'));
    assert (l - r) * l' + r * (l' - r') == l * l' - r * r';
  }

  lemma YScaled(zero: Vanishing, p: Coords, q: Coords)
    requires Ideal(zero) && OnCurve(zero, p) && OnCurve(zero, q)
    ensures zero(p.z * q.z * SumY(p, q) - Scaled(p, q))
  {
    var xx, yy, zz, m := p.x * q.x, p.y * q.y, p.z * q.z, p.x * q.z + p.z * q.x;
    ProductsMatch(zero, CurveLeft(p), CurveRight(p), CurveLeft(q), CurveRight(q));
    Reorder(p.y, p.z, q.y, q.z, yy, zz);
    YExpands(xx, yy, zz, m);
  }

  lemma YExpands(xx: int, yy: int, zz: int, m: int)
    ensures zz * ((yy - 21 * zz) * (yy + 21 * zz) + (21 * m) * (3 * xx))
         == zz * (yy * yy) + (63 * (xx * m * zz) - 441 * (zz * zz * zz))
  {
    assert (yy - 21 * zz) * (yy + 21 * zz) == yy * yy - 441 * (zz * zz);
    assert (21 * m) * (3 * xx) == 63 * (xx * m);
  }

  // ---------------------------------------------------------------- no exceptional input

  /** A point with Z zero is the identity. */
  lemma AtInfinity(zero: Vanishing, p: Coords)
    requires FieldFacts(zero) && OnCurve(zero, p) && zero(p.z)
    ensures zero(p.x)
  {
    ZeroTimes(zero, p.z, p.y * p.y);
    ZeroBoth(zero, CurveLeft(p), CurveRight(p));
    ZeroTimes(zero, p.z, 7 * (p.z * p.z));
    assert p.z * (7 * (p.z * p.z)) == 7 * (p.z * p.z * p.z);
    ZeroSum(zero, CurveRight(p), 7 * (p.z * p.z * p.z));
    assert Cubic(p.x, 0) == p.x * p.x * p.x;
  }

  /** The curve has no point with Y zero, that is, none of order two. */
  lemma NoOrderTwo(zero: Vanishing, p: Coords)
    requires FieldFacts(zero) && OnCurve(zero, p) && zero(p.y)
    ensures Null(zero, p)
  {
    ZeroTimes(zero, p.y, p.y * p.z);
    assert p.y * (p.y * p.z) == CurveLeft(p);
    ZeroBoth(zero, CurveLeft(p), CurveRight(p));
    assert Cubic(p.x, -p.z) == CurveRight(p);
    ZeroTimes(zero, -p.z, -1);
    assert -p.z * -1 == p.z;
  }

  /** The formula with the identity as its first operand. */
  lemma VanishesBesideIdentity(zero: Vanishing, p: Coords, q: Coords)
    requires FieldFacts(zero) && OnCurve(zero, p) && OnCurve(zero, q) && zero(p.z) && zero(SumY(p, q))
    ensures Null(zero, p) || Null(zero, q)
  {
    var xx, yy, zz, m := p.x * q.x, p.y * q.y, p.z * q.z, p.x * q.z + p.z * q.x;
    AtInfinity(zero, p);
    ZeroTimes(zero, p.x, q.x);
    ZeroTimes(zero, p.z, q.z);
    ZeroTimes(zero, xx, 63 * m);
    ZeroTimes(zero, zz, 441 * zz);
    ZeroSum(zero, SumY(p, q), xx * (63 * m));
    ZeroSum(zero, SumY(p, q) - xx * (63 * m), zz * (441 * zz));
    YParts(xx, yy, zz, m);
    assert zero(Times(yy, yy));
    assert zero(Times(p.y, q.y));
    if zero(q.y) {
      NoOrderTwo(zero, q);
    }
  }

  lemma YParts(xx: int, yy: int, zz: int, m: int)
    ensures (yy - 21 * zz) * (yy + 21 * zz) + (21 * m) * (3 * xx) - xx * (63 * m) + zz * (441 * zz) == yy * yy
  {
    assert (yy - 21 * zz) * (yy + 21 * zz) == yy * yy - 441 * (zz * zz);
    assert (21 * m) * (3 * xx) == 63 * (xx * m) == xx * (63 * m) && zz * (441 * zz) == 441 * (zz * zz);
  }

  /** A vanishing Y-coordinate makes Z1 Z2 vanish: it is a norm. */
  lemma VanishesAtInfinity(zero: Vanishing, p: Coords, q: Coords)
    requires FieldFacts(zero) && OnCurve(zero, p) && OnCurve(zero, q) && zero(SumY(p, q))
    ensures zero(p.z) || zero(q.z)
  {
    var xx, zz, m := p.x * q.x, p.z * q.z, p.x * q.z + p.z * q.x;
    ZeroTimes(zero, SumY(p, q), zz);
    YScaled(zero, p, q);
    ZeroBoth(zero, zz * SumY(p, q), Scaled(p, q));
    ScaledIsNorm(p, q, xx, zz, m);
    NormAnisotropic(zero, xx, m, -2 * zz);
    ZeroTimes(zero, -2 * zz, -1);
    assert -2 * zz * -1 == Times(2, zz);
    assert zero(Times(p.z, q.z));
  }

  /** Completeness: for no two points of the curve does the computed Y-coordinate vanish, so the
      formulas never give the triple (0:0:0), not for equal points, nor opposite ones, nor the
      identity. */
  lemma SumNeverVanishes(zero: Vanishing, p: Coords, q: Coords)
    requires FieldFacts(zero) && IsPoint(zero, p) && IsPoint(zero, q)
    ensures !zero(SumY(p, q))
  {
    if zero(SumY(p, q)) {
      VanishesAtInfinity(zero, p, q);
      SumCommutes(p, q);
      if zero(p.z) {
        VanishesBesideIdentity(zero, p, q);
      } else {
        VanishesBesideIdentity(zero, q, p);
      }
    }
  }

  /** ... so what completeAdd returns for two points is never the zero triple: its Y-limbs do not
      stand for zero. */
  lemma NoExceptionalInput(zero: Vanishing, r: Jac, p: Coords, q: Coords, y: int)
    requires FieldFacts(zero) && zero(P) && IsPoint(zero, p) && IsPoint(zero, q)
    requires y == SumY(p, q) && Stands(r.y, y)
    ensures r.y.Value() != 0
  {
    SumNeverVanishes(zero, p, q);
    var k :| OffBy(r.y.Value(), y, k);
    ZeroTimes(zero, P, -k);
    assert r.y.Value() == 0 ==> y == P * -k;
  }

  // ---------------------------------------------------------------- the hypotheses can be met

  function Thirteen(): Vanishing { (e: int) => e % 13 == 0 }

  /** Remainders of products are products of remainders. */
  lemma ModProduct(u: int, v: int, r: int, s: int)
    requires r == u % 13 && s == v % 13
    ensures (u * v) % 13 == (r * s) % 13
  {
    var j, k := u / 13, v / 13;
    ProductParts(j, k, r, s);
    LessMultiple(u * v, 13 * (j * k) + j * s + k * r, r * s);
  }

  lemma ProductParts(j: int, k: int, r: int, s: int)
    ensures (13 * j + r) * (13 * k + s) == 13 * (13 * (j * k) + j * s + k * r) + r * s
  {
  }

  lemma LessMultiple(a: int, n: int, b: int)
    requires a == 13 * n + b
    ensures a % 13 == b % 13
  {
  }

  lemma ModCube(u: int, r: int)
    requires r == u % 13
    ensures (u * u * u) % 13 == CubeOf13(r)
  {
    ModProduct(u, u, r, r);
    ModProduct(u * u, u, (r * r) % 13, r);
    SmallCube(r);
  }

  lemma SmallCube(r: int)
    requires 0 <= r < 13
    ensures ((r * r) % 13 * r) % 13 == CubeOf13(r)
  {
    if r == 0 || r == 1 || r == 2 || r == 3 || r == 4 || r == 5 {
    } else if r == 6 || r == 7 || r == 8 || r == 9 || r == 10 || r == 11 || r == 12 {
    }
  }

  function CubeOf13(r: int): int {
    if r == 0 then 0
    else if r == 1 || r == 3 || r == 9 then 1
    else if r == 2 || r == 5 || r == 6 then 8
    else if r == 7 || r == 8 || r == 11 then 5
    else 12
  }

  lemma Times13(u: int, v: int)
    ensures Times(u, v) % 13 == 0 <==> u % 13 == 0 || v % 13 == 0
  {
    ModProduct(u, v, u % 13, v % 13);
    NoDivisors13(u % 13, v % 13);
  }

  lemma Cubic13(u: int, v: int)
    requires Cubic(u, v) % 13 == 0
    ensures u % 13 == 0 && v % 13 == 0
  {
    ModCube(u, u % 13);
    ModCube(v, v % 13);
    CubesApart(u * u * u, v * v * v, u % 13, v % 13);
  }

  lemma CubesApart(m: int, n: int, r: int, s: int)
    requires 0 <= r < 13 && 0 <= s < 13 && m % 13 == CubeOf13(r) && n % 13 == CubeOf13(s) && (m - 7 * n) % 13 == 0
    ensures r == 0 && s == 0
  {
  }

  /** Modulo 13 there are no zero divisors, and 7 is no cube. */
  lemma HypothesesHold()
    ensures FieldFacts(Thirteen())
  {
    var zero := Thirteen();
    forall u: int, v: int ensures zero(Times(u, v)) <==> zero(u) || zero(v) {
      Times13(u, v);
    }
    forall u: int, v: int | zero(Cubic(u, v)) ensures zero(u) && zero(v) {
      Cubic13(u, v);
    }
  }

  lemma NoDivisors13(r: int, s: int)
    requires 0 <= r < 13 && 0 <= s < 13
    ensures (r * s) % 13 == 0 <==> r == 0 || s == 0
  {
    if r == 1 || r == 2 || r == 3 || r == 4 || r == 5 || r == 6 {
    } else if r == 7 || r == 8 || r == 9 || r == 10 || r == 11 || r == 12 {
    }
  }
}
