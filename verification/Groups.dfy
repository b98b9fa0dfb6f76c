/** The abstract group that stands for the points of secp256k1, and multiples of an element. */
module Groups {

  datatype Group<!G> = Group(zero: G, add: (G, G) -> G, neg: G -> G)

  ghost predicate HasInverses<G(!new)>(g: Group<G>) {
    && (forall a :: g.add(g.zero, a) == a && g.add(a, g.zero) == a)
    && (forall a :: g.add(a, g.neg(a)) == g.zero && g.add(g.neg(a), a) == g.zero)
  }

  ghost predicate Associates<G>(g: Group<G>, a: G, b: G, c: G) { g.add(g.add(a, b), c) == g.add(a, g.add(b, c)) }

  ghost predicate IsGroup<G(!new)>(g: Group<G>) {
    (forall a, b, c :: Associates(g, a, b, c)) && HasInverses(g)
  }

  /** k * a */
  function Multiple<G>(g: Group<G>, k: nat, a: G): G {
    if k == 0 then g.zero else g.add(a, Multiple(g, k - 1, a))
  }

  lemma {:induction false} MultipleSum<G(!new)>(g: Group<G>, j: nat, k: nat, a: G)
    requires IsGroup(g)
    ensures Multiple(g, j + k, a) == g.add(Multiple(g, j, a), Multiple(g, k, a))
  {
    if j > 0 {
      MultipleSum(g, j - 1, k, a);
      assert Associates(g, a, Multiple(g, j - 1, a), Multiple(g, k, a));
    }
  }

  /** One step of double-and-add. */
  lemma DoubleAndAdd<G(!new)>(g: Group<G>, k: nat, bit: nat, a: G)
    requires IsGroup(g) && bit <= 1
    ensures var twice := g.add(Multiple(g, k, a), Multiple(g, k, a));
            Multiple(g, 2 * k + bit, a) == if bit == 1 then g.add(twice, a) else twice
  {
    MultipleSum(g, k, k, a);
    if bit == 1 {
      MultipleSum(g, 2 * k, 1, a);
      assert Multiple(g, 1, a) == g.add(a, Multiple(g, 0, a));
    }
  }
}
