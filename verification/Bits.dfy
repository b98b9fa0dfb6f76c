/** Bit operations and 64-bit words on unbounded integers: the operators of Go's uint64 and the
    carry primitives of math/bits. */
module Bits {
  import opened Commitment
  import opened Positions

  const WORD := 0x1_0000_0000_0000_0000
  const ONES := 0xFFFF_FFFF_FFFF_FFFF

  type u64 = x: nat | x < WORD

  // ---------------------------------------------------------------- and, or, shifts

  function Or(x: nat, y: nat): nat {
    if x == 0 then y
    else if y == 0 then x
    else (if x % 2 == 1 || y % 2 == 1 then 1 else 0) + 2 * Or(x / 2, y / 2)
  }

  function And(x: nat, y: nat): nat {
    if x == 0 || y == 0 then 0
    else (if x % 2 == 1 && y % 2 == 1 then 1 else 0) + 2 * And(x / 2, y / 2)
  }

  /** x &^ y on 64 bits. */
  function AndNot(x: nat, y: u64): nat { And(x, ONES - y) }

  function Shl(x: nat, k: nat): nat { if k == 0 then x else 2 * Shl(x, k - 1) }

  function Shr(x: nat, k: nat): nat { if k == 0 then x else Shr(x, k - 1) / 2 }

  lemma {:induction false} OrBelow(x: nat, k: nat, y: nat)
    requires y < Pow2(k)
    ensures Or(Shl(x, k), y) == Shl(x, k) + y
  {
    if k > 0 {
      var half := Shl(x, k - 1);
      OrBelow(x, k - 1, y / 2);
      assert (2 * half) / 2 == half && (2 * half) % 2 == 0;
    }
  }

  lemma Shift4(x: nat, k: nat)
    ensures Shl(x, k + 4) == 0x10 * Shl(x, k) && Pow2(k + 4) == 0x10 * Pow2(k)
  {
    assert Shl(x, k + 1) == 2 * Shl(x, k) && Pow2(k + 1) == 2 * Pow2(k);
    assert Shl(x, k + 2) == 2 * Shl(x, k + 1) && Pow2(k + 2) == 2 * Pow2(k + 1);
    assert Shl(x, k + 3) == 2 * Shl(x, k + 2) && Pow2(k + 3) == 2 * Pow2(k + 2);
  }

  lemma Shift8(x: nat, k: nat)
    ensures Shl(x, k + 8) == 0x100 * Shl(x, k) && Pow2(k + 8) == 0x100 * Pow2(k)
  {
    Shift4(x, k);
    Shift4(x, k + 4);
  }

  lemma Shift32(x: nat, k: nat)
    ensures Shl(x, k + 32) == 0x1_0000_0000 * Shl(x, k) && Pow2(k + 32) == 0x1_0000_0000 * Pow2(k)
  {
    Shift8(x, k);
    Shift8(x, k + 8);
    Shift8(x, k + 16);
    Shift8(x, k + 24);
  }

  lemma Shift64(x: nat, k: nat)
    ensures Shl(x, k + 64) == WORD * Shl(x, k) && Pow2(k + 64) == WORD * Pow2(k)
  {
    Shift32(x, k);
    Shift32(x, k + 32);
  }

  lemma {:induction false} AndOnes(x: nat, k: nat)
    requires x < Pow2(k)
    ensures And(x, Pow2(k) - 1) == x
  {
    if x > 0 {
      AndOnes(x / 2, k - 1);
      assert (Pow2(k) - 1) / 2 == Pow2(k - 1) - 1 && (Pow2(k) - 1) % 2 == 1;
    }
  }

  /** (x & mask) | (y &^ mask), the branch-free select. */
  function Masked(x: u64, y: u64, mask: u64): nat { Or(And(x, mask), AndNot(y, mask)) }

  /** An all-ones mask picks x, an all-zero mask picks y. */
  lemma MaskedSelects(x: u64, y: u64, mask: u64)
    requires mask == 0 || mask == ONES
    ensures Masked(x, y, mask) == if mask == ONES then x else y
  {
    Shift64(0, 0);
    AndOnes(x, 64);
    AndOnes(y, 64);
  }

  // ---------------------------------------------------------------- words with carries

  /** bits.Add64 */
  function Add64(x: u64, y: u64, carry: nat): (r: (u64, nat))
    requires carry <= 1
    ensures r.1 <= 1 && r.0 + WORD * r.1 == x + y + carry
  {
    var sum := x + y + carry;
    if sum >= WORD then (sum - WORD, 1) else (sum, 0)
  }

  /** bits.Sub64 */
  function Sub64(x: u64, y: u64, borrow: nat): (r: (u64, nat))
    requires borrow <= 1
    ensures r.1 <= 1 && r.0 - WORD * r.1 == x - y - borrow
  {
    var diff := x - y - borrow;
    if diff < 0 then (diff + WORD, 1) else (diff, 0)
  }

  lemma ProductFits(x: u64, y: u64)
    ensures 0 <= x * y <= (WORD - 1) * (WORD - 1)
  {
    MulMono(x, y, WORD - 1, WORD - 1);
  }

  lemma MulMono(a: nat, b: nat, c: nat, d: nat)
    requires a <= c && b <= d
    ensures 0 <= a * b <= c * d
  {
    assert a * b <= c * b && c * b <= c * d;
  }

  lemma NonZeroMultiple(d: int, m: nat)
    requires d != 0
    ensures d * m >= m || -(d * m) >= m
  {
    if d >= 1 {
      assert d * m >= m;
    } else {
      assert (-d) * m >= m && (-d) * m == -(d * m);
    }
  }

  lemma Distribute(b: int, q: int, n: int, c: int)
    ensures (b + q * n) * c == b * c + (q * c) * n
  {
    var t := q * n;
    assert (b + t) * c == b * c + t * c;
    assert t * c == (q * c) * n;
  }

  /** A value in range that is off by a multiple of m is the remainder. */
  lemma IsRemainder(r: nat, z: int, q: int, m: nat)
    requires r < m && z == r + q * m
    ensures z % m == r
  {
    var d := z / m - q;
    assert d * m == r - z % m by {
      assert z == (z / m) * m + z % m;
      assert (z / m - q) * m == (z / m) * m - q * m;
    }
    if d != 0 {
      NonZeroMultiple(d, m);
    }
  }

  /** bits.Mul64: high and low word of the product. */
  function Mul64(x: u64, y: u64): (r: (u64, u64))
    ensures r.0 * WORD + r.1 == x * y <= (WORD - 1) * (WORD - 1)
  {
    ProductFits(x, y);
    var p := x * y;
    (p / WORD, p % WORD)
  }
}
