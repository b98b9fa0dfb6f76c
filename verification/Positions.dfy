/** commitment/commitment.go:177-184: the depth law, powers of two, and the position a path speaks of. */
module Positions {
  import opened Commitment

  /** bits.Len64 */
  function BitLen(n: nat): nat { if n == 0 then 0 else 1 + BitLen(n / 2) }

  function CeilLog2(n: nat): nat { if n <= 1 then 0 else BitLen(n - 1) }

  /** A level of n > 1 nodes is one deeper than the level above it. */
  lemma DepthHalves(n: nat)
    requires n > 1
    ensures CeilLog2(n) == 1 + CeilLog2((n + 1) / 2)
  {
    assert (n - 1) / 2 == (n + 1) / 2 - 1;
  }

  function Pow2(k: nat): (p: nat)
    ensures p >= 1
  {
    if k == 0 then 1 else 2 * Pow2(k - 1)
  }

  lemma {:induction false} BitLenBounds(n: nat)
    ensures n < Pow2(BitLen(n))
    ensures n > 0 ==> BitLen(n) > 0 && Pow2(BitLen(n) - 1) <= n
  {
    if n > 0 {
      BitLenBounds(n / 2);
    }
  }

  /** CeilLog2 is the least k with n <= 2^k. */
  lemma CeilLog2Least(n: nat, k: nat)
    requires n >= 1
    ensures CeilLog2(n) <= k <==> n <= Pow2(k)
  {
    if n > 1 {
      BitLenBounds(n - 1);
      if CeilLog2(n) <= k {
        Pow2Monotone(CeilLog2(n), k);
      } else {
        Pow2Monotone(k, CeilLog2(n) - 1);
      }
    }
  }

  lemma {:induction false} Pow2Monotone(a: nat, b: nat)
    requires a <= b
    ensures Pow2(a) <= Pow2(b)
    decreases b
  {
    if a < b {
      Pow2Monotone(a, b - 1);
    }
  }

  /** The position a path speaks of: a left sibling at level j sets bit j. */
  function PathIndex(path: seq<PathElem>): nat {
    if path == [] then 0 else (if path[0].right then 0 else 1) + 2 * PathIndex(path[1..])
  }

  lemma {:induction false} PathIndexBound(path: seq<PathElem>)
    ensures PathIndex(path) < Pow2(|path|)
  {
    if path != [] {
      PathIndexBound(path[1..]);
    }
  }

  /** Paths of one length that speak of one position make the same turns. */
  lemma {:induction false} PathIndexTurns(p: seq<PathElem>, q: seq<PathElem>)
    requires |p| == |q| && PathIndex(p) == PathIndex(q)
    ensures SameTurns(p, q)
  {
    if p != [] {
      PathIndexTurns(p[1..], q[1..]);
      forall i | 0 <= i < |p| ensures p[i].right == q[i].right {
        if i > 0 {
          assert p[i] == p[1..][i - 1] && q[i] == q[1..][i - 1];
        }
      }
    }
  }
}
