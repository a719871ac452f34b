/** The group of curve points as an abstract module over the integers.
    The record holds what `bls.add`, `bls.neg` and `bls.multiply` do; `Lawful` lists the module laws. */
module Group {
  import opened Modular

  datatype Group<!G> = Group(
    zero: G,
    add: (G, G) -> G,
    neg: G -> G,
    mul: (G, int) -> G,
    order: nat)

  // The laws are stated under this marker, so that each use names the elements it is about.
  ghost predicate Of<A>(x: A) { true }

  ghost predicate Lawful<G(!new)>(g: Group<G>) {
    && g.order > 1
    && (forall a, b {:trigger Of((a, b))} :: Of((a, b)) ==> g.add(a, b) == g.add(b, a))
    && (forall a, b, c {:trigger Of((a, b, c))} :: Of((a, b, c)) ==> g.add(g.add(a, b), c) == g.add(a, g.add(b, c)))
    && (forall a {:trigger Of(a)} :: Of(a) ==> g.add(a, g.zero) == a && g.add(a, g.neg(a)) == g.zero)
    && (forall a {:trigger Of(a)} :: Of(a) ==> g.mul(a, 1) == a && g.mul(a, g.order) == g.zero)
    && (forall a, b, k {:trigger Of((a, b, k))} :: Of((a, b, k)) ==>
      g.mul(g.add(a, b), k) == g.add(g.mul(a, k), g.mul(b, k)))
    && (forall a, j: int, k: int {:trigger Of((a, j, k))} :: Of((a, j, k)) ==>
          && g.mul(a, j + k) == g.add(g.mul(a, j), g.mul(a, k))
          && g.mul(g.mul(a, j), k) == g.mul(a, j * k))
  }

  lemma LawfulOrder<G(!new)>(g: Group<G>)
    requires Lawful(g)
    ensures g.order > 1
  {
  }

  lemma AddComm<G(!new)>(g: Group<G>, a: G, b: G)
    requires Lawful(g)
    ensures g.add(a, b) == g.add(b, a)
  {
    assert Of((a, b));
  }

  lemma AddAssoc<G(!new)>(g: Group<G>, a: G, b: G, c: G)
    requires Lawful(g)
    ensures g.add(g.add(a, b), c) == g.add(a, g.add(b, c))
  {
    assert Of((a, b, c));
  }

  lemma AddZero<G(!new)>(g: Group<G>, a: G)
    requires Lawful(g)
    ensures g.add(a, g.zero) == a && g.add(g.zero, a) == a
  {
    assert Of(a);
    AddComm(g, a, g.zero);
  }

  lemma MulAdd<G(!new)>(g: Group<G>, a: G, b: G, k: int)
    requires Lawful(g)
    ensures g.mul(g.add(a, b), k) == g.add(g.mul(a, k), g.mul(b, k))
  {
    assert Of((a, b, k));
  }

  lemma MulSum<G(!new)>(g: Group<G>, a: G, j: int, k: int)
    requires Lawful(g)
    ensures g.mul(a, j + k) == g.add(g.mul(a, j), g.mul(a, k))
  {
    assert Of((a, j, k));
  }

  lemma MulMul<G(!new)>(g: Group<G>, a: G, j: int, k: int)
    requires Lawful(g)
    ensures g.mul(g.mul(a, j), k) == g.mul(a, j * k)
  {
    assert Of((a, j, k));
  }

  lemma MulOne<G(!new)>(g: Group<G>, a: G)
    requires Lawful(g)
    ensures g.mul(a, 1) == a
  {
    assert Of(a);
  }

  /** Exchange of the two middle terms of a sum of four. */
  lemma AddSwap<G(!new)>(g: Group<G>, a: G, b: G, c: G, d: G)
    requires Lawful(g)
    ensures g.add(g.add(a, b), g.add(c, d)) == g.add(g.add(a, c), g.add(b, d))
  {
    calc {
      g.add(g.add(a, b), g.add(c, d));
      { AddAssoc(g, a, b, g.add(c, d)); AddAssoc(g, b, c, d); AddComm(g, b, c); }
      g.add(a, g.add(g.add(c, b), d));
      { AddAssoc(g, c, b, d); AddAssoc(g, a, c, g.add(b, d)); }
      g.add(g.add(a, c), g.add(b, d));
    }
  }

  lemma Cancel<G(!new)>(g: Group<G>, a: G, b: G)
    requires Lawful(g) && g.add(a, b) == a
    ensures b == g.zero
  {
    assert Of(a);
    calc {
      b;
      { AddZero(g, b); AddComm(g, g.neg(a), a); }
      g.add(g.add(g.neg(a), a), b);
      { AddAssoc(g, g.neg(a), a, b); }
      g.add(g.neg(a), a);
      { AddComm(g, g.neg(a), a); }
      g.zero;
    }
  }

  lemma MulZero<G(!new)>(g: Group<G>, a: G, k: int)
    requires Lawful(g)
    ensures g.mul(a, 0) == g.zero && g.mul(g.zero, k) == g.zero
  {
    MulSum(g, a, 0, 0);
    Cancel(g, g.mul(a, 0), g.mul(a, 0));
    AddZero(g, g.zero);
    MulAdd(g, g.zero, g.zero, k);
    Cancel(g, g.mul(g.zero, k), g.mul(g.zero, k));
  }

  lemma NegIsMul<G(!new)>(g: Group<G>, a: G)
    requires Lawful(g)
    ensures g.neg(a) == g.mul(a, -1)
  {
    assert Of(a);
    calc {
      g.neg(a);
      { AddZero(g, g.neg(a)); MulSum(g, a, -1, 1); MulZero(g, a, 0); MulOne(g, a); }
      g.add(g.add(g.mul(a, -1), a), g.neg(a));
      { AddAssoc(g, g.mul(a, -1), a, g.neg(a)); AddZero(g, g.mul(a, -1)); }
      g.mul(a, -1);
    }
  }

  lemma MulNeg<G(!new)>(g: Group<G>, a: G, k: int)
    requires Lawful(g)
    ensures g.mul(a, -k) == g.neg(g.mul(a, k))
  {
    MulMul(g, a, k, -1);
    NegIsMul(g, g.mul(a, k));
  }

  /** Scalars act through their residue modulo the group order. */
  lemma MulCong<G(!new)>(g: Group<G>, a: G, j: int, k: int)
    requires Lawful(g) && Cong(j, k, g.order)
    ensures g.mul(a, j) == g.mul(a, k)
  {
    assert Of(a);
    var t :| j - k == Times(t, g.order);
    MulSum(g, a, k, g.order * t);
    MulMul(g, a, g.order, t);
    MulZero(g, a, t);
    AddZero(g, g.mul(a, k));
    assert k + g.order * t == j;
  }
}
