/** An abstract field of scalars and an abstract group of points over it. The laws
    are quantified behind the `Use` tags, so that a proof states which instances it
    needs by calling the law lemmas. */
module Algebra {

  datatype Field<!S> = Field(
    zero: S,
    one: S,
    add: (S, S) -> S,
    mul: (S, S) -> S,
    neg: S -> S,
    inverse: S -> S)
  {
    function Sub(a: S, b: S): S { add(a, neg(b)) }
  }

  predicate Use1<S>(a: S) { true }
  predicate Use2<S, T>(a: S, b: T) { true }
  predicate Use3<S, T, U>(a: S, b: T, c: U) { true }

  ghost predicate IsField<S(!new)>(f: Field<S>) {
    && f.one != f.zero
    && (forall a {:trigger Use1(a)} :: Use1(a) ==>
          && f.add(a, f.zero) == a && f.add(a, f.neg(a)) == f.zero
          && f.mul(a, f.one) == a && (a != f.zero ==> f.mul(a, f.inverse(a)) == f.one))
    && (forall a, b {:trigger Use2(a, b)} :: Use2(a, b) ==>
          f.add(a, b) == f.add(b, a) && f.mul(a, b) == f.mul(b, a))
    && (forall a, b, c {:trigger Use3(a, b, c)} :: Use3(a, b, c) ==>
          && f.add(f.add(a, b), c) == f.add(a, f.add(b, c))
          && f.mul(f.mul(a, b), c) == f.mul(a, f.mul(b, c))
          && f.mul(f.add(a, b), c) == f.add(f.mul(a, c), f.mul(b, c)))
  }

  /** Points: addition, and multiplication by a scalar. */
  datatype Group<!A, !S> = Group(zero: A, add: (A, A) -> A, mul: (A, S) -> A)

  ghost predicate IsGroup<A(!new), S(!new)>(f: Field<S>, g: Group<A, S>) {
    && IsField(f)
    && (forall p {:trigger Use1(p)} :: Use1(p) ==>
          g.add(p, g.zero) == p && g.mul(p, f.one) == p && g.mul(p, f.zero) == g.zero)
    && (forall s {:trigger g.mul(g.zero, s)} :: g.mul(g.zero, s) == g.zero)
    && (forall p, q {:trigger Use2(p, q)} :: Use2(p, q) ==> g.add(p, q) == g.add(q, p))
    && (forall p, q, r {:trigger Use3(p, q, r)} :: Use3(p, q, r) ==>
          g.add(g.add(p, q), r) == g.add(p, g.add(q, r)))
    && (forall p, q, s {:trigger Use3(p, q, s)} :: Use3(p, q, s) ==>
          g.mul(g.add(p, q), s) == g.add(g.mul(p, s), g.mul(q, s)))
    && (forall p, s, t {:trigger Use3(p, s, t)} :: Use3(p, s, t) ==>
          && g.mul(p, f.add(s, t)) == g.add(g.mul(p, s), g.mul(p, t))
          && g.mul(p, f.mul(s, t)) == g.mul(g.mul(p, s), t))
  }

  // ---------------------------------------------------------------------------
  // The laws, one instance at a time
  // ---------------------------------------------------------------------------

  lemma {:induction false} AddComm<S(!new)>(f: Field<S>, a: S, b: S)
    requires IsField(f)
    ensures f.add(a, b) == f.add(b, a)
  {
    assert Use2(a, b);
  }

  lemma {:induction false} AddAssoc<S(!new)>(f: Field<S>, a: S, b: S, c: S)
    requires IsField(f)
    ensures f.add(f.add(a, b), c) == f.add(a, f.add(b, c))
  {
    assert Use3(a, b, c);
  }

  lemma {:induction false} AddZero<S(!new)>(f: Field<S>, a: S)
    requires IsField(f)
    ensures f.add(a, f.zero) == a && f.add(f.zero, a) == a
  {
    assert Use1(a) && Use2(a, f.zero);
  }

  lemma {:induction false} AddNeg<S(!new)>(f: Field<S>, a: S)
    requires IsField(f)
    ensures f.add(a, f.neg(a)) == f.zero && f.add(f.neg(a), a) == f.zero
  {
    assert Use1(a) && Use2(a, f.neg(a));
  }

  lemma {:induction false} MulComm<S(!new)>(f: Field<S>, a: S, b: S)
    requires IsField(f)
    ensures f.mul(a, b) == f.mul(b, a)
  {
    assert Use2(a, b);
  }

  lemma {:induction false} MulAssoc<S(!new)>(f: Field<S>, a: S, b: S, c: S)
    requires IsField(f)
    ensures f.mul(f.mul(a, b), c) == f.mul(a, f.mul(b, c))
  {
    assert Use3(a, b, c);
  }

  lemma {:induction false} MulOne<S(!new)>(f: Field<S>, a: S)
    requires IsField(f)
    ensures f.mul(a, f.one) == a && f.mul(f.one, a) == a
  {
    assert Use1(a) && Use2(a, f.one);
  }

  lemma {:induction false} Distribute<S(!new)>(f: Field<S>, a: S, b: S, c: S)
    requires IsField(f)
    ensures f.mul(f.add(a, b), c) == f.add(f.mul(a, c), f.mul(b, c))
    ensures f.mul(c, f.add(a, b)) == f.add(f.mul(c, a), f.mul(c, b))
  {
    assert Use3(a, b, c) && Use2(f.add(a, b), c) && Use2(a, c) && Use2(b, c);
  }

  lemma {:induction false} MulInverse<S(!new)>(f: Field<S>, a: S)
    requires IsField(f) && a != f.zero
    ensures f.mul(a, f.inverse(a)) == f.one && f.mul(f.inverse(a), a) == f.one
  {
    assert Use1(a) && Use2(a, f.inverse(a));
  }

  // ---------------------------------------------------------------------------
  // Consequences
  // ---------------------------------------------------------------------------

  lemma {:induction false} AddCancel<S(!new)>(f: Field<S>, a: S, b: S, c: S)
    requires IsField(f) && f.add(a, c) == f.add(b, c)
    ensures a == b
  {
    AddAssoc(f, a, c, f.neg(c));
    AddAssoc(f, b, c, f.neg(c));
    AddNeg(f, c);
    AddZero(f, a);
    AddZero(f, b);
  }

  lemma {:induction false} MulZero<S(!new)>(f: Field<S>, a: S)
    requires IsField(f)
    ensures f.mul(a, f.zero) == f.zero && f.mul(f.zero, a) == f.zero
  {
    var z := f.mul(f.zero, a);
    Distribute(f, f.zero, f.zero, a);
    AddZero(f, f.zero);
    AddZero(f, z);
    AddCancel(f, z, f.zero, z);
    MulComm(f, a, f.zero);
  }

  lemma {:induction false} NegUnique<S(!new)>(f: Field<S>, a: S, b: S)
    requires IsField(f) && f.add(a, b) == f.zero
    ensures b == f.neg(a)
  {
    AddNeg(f, a);
    AddComm(f, a, b);
    AddComm(f, a, f.neg(a));
    AddCancel(f, b, f.neg(a), a);
  }

  lemma {:induction false} NegMul<S(!new)>(f: Field<S>, a: S, b: S)
    requires IsField(f)
    ensures f.mul(f.neg(a), b) == f.neg(f.mul(a, b))
    ensures f.mul(a, f.neg(b)) == f.neg(f.mul(a, b))
  {
    AddNeg(f, a);
    Distribute(f, a, f.neg(a), b);
    MulZero(f, b);
    NegUnique(f, f.mul(a, b), f.mul(f.neg(a), b));
    AddNeg(f, b);
    Distribute(f, b, f.neg(b), a);
    MulZero(f, a);
    NegUnique(f, f.mul(a, b), f.mul(a, f.neg(b)));
  }

  lemma {:induction false} NegNeg<S(!new)>(f: Field<S>, a: S)
    requires IsField(f)
    ensures f.neg(f.neg(a)) == a
  {
    AddNeg(f, a);
    NegUnique(f, f.neg(a), a);
  }

  lemma {:induction false} SubFacts<S(!new)>(f: Field<S>, a: S, b: S)
    requires IsField(f)
    ensures f.Sub(a, b) == f.zero <==> a == b
    ensures f.add(f.Sub(a, b), b) == a
    ensures f.Sub(b, a) == f.neg(f.Sub(a, b))
  {
    AddAssoc(f, a, f.neg(b), b);
    AddNeg(f, b);
    AddZero(f, a);
    AddZero(f, b);
    var d, e := f.Sub(a, b), f.Sub(b, a);
    AddAssoc(f, d, b, f.neg(a));
    AddNeg(f, a);
    NegUnique(f, d, e);
  }

  lemma {:induction false} NoZeroDivisors<S(!new)>(f: Field<S>, a: S, b: S)
    requires IsField(f) && f.mul(a, b) == f.zero
    ensures a == f.zero || b == f.zero
  {
    if a != f.zero {
      MulInverse(f, a);
      MulAssoc(f, f.inverse(a), a, b);
      MulZero(f, f.inverse(a));
      MulOne(f, b);
    }
  }

  lemma {:induction false} InverseUnique<S(!new)>(f: Field<S>, a: S, b: S)
    requires IsField(f) && f.mul(a, b) == f.one
    ensures a != f.zero && b == f.inverse(a)
  {
    MulZero(f, b);
    MulInverse(f, a);
    MulAssoc(f, f.inverse(a), a, b);
    MulOne(f, b);
    MulOne(f, f.inverse(a));
  }

  /** (a b)(c d) = (a c)(b d) */
  lemma {:induction false} MulSwap<S(!new)>(f: Field<S>, a: S, b: S, c: S, d: S)
    requires IsField(f)
    ensures f.mul(f.mul(a, b), f.mul(c, d)) == f.mul(f.mul(a, c), f.mul(b, d))
  {
    MulAssoc(f, a, b, f.mul(c, d));
    MulAssoc(f, b, c, d);
    MulComm(f, b, c);
    MulAssoc(f, c, b, d);
    MulAssoc(f, a, c, f.mul(b, d));
  }

  /** (a + b) + (c + d) = (a + c) + (b + d) */
  lemma {:induction false} AddSwap<S(!new)>(f: Field<S>, a: S, b: S, c: S, d: S)
    requires IsField(f)
    ensures f.add(f.add(a, b), f.add(c, d)) == f.add(f.add(a, c), f.add(b, d))
  {
    AddAssoc(f, a, b, f.add(c, d));
    AddAssoc(f, b, c, d);
    AddComm(f, b, c);
    AddAssoc(f, c, b, d);
    AddAssoc(f, a, c, f.add(b, d));
  }

  lemma {:induction false} InverseMul<S(!new)>(f: Field<S>, a: S, b: S)
    requires IsField(f) && a != f.zero && b != f.zero
    ensures f.mul(a, b) != f.zero
    ensures f.inverse(f.mul(a, b)) == f.mul(f.inverse(a), f.inverse(b))
  {
    MulSwap(f, a, b, f.inverse(a), f.inverse(b));
    MulInverse(f, a);
    MulInverse(f, b);
    MulOne(f, f.one);
    InverseUnique(f, f.mul(a, b), f.mul(f.inverse(a), f.inverse(b)));
  }

  // ---------------------------------------------------------------------------
  // The laws of points
  // ---------------------------------------------------------------------------

  lemma {:induction false} PointZero<A(!new), S(!new)>(f: Field<S>, g: Group<A, S>, p: A)
    requires IsGroup(f, g)
    ensures g.add(p, g.zero) == p && g.add(g.zero, p) == p && g.mul(p, f.one) == p && g.mul(p, f.zero) == g.zero
  {
    assert Use1(p) && Use2(p, g.zero);
  }

  lemma {:induction false} PointAssoc<A(!new), S(!new)>(f: Field<S>, g: Group<A, S>, p: A, q: A, r: A)
    requires IsGroup(f, g)
    ensures g.add(g.add(p, q), r) == g.add(p, g.add(q, r))
  {
    assert Use3(p, q, r);
  }

  lemma {:induction false} PointComm<A(!new), S(!new)>(f: Field<S>, g: Group<A, S>, p: A, q: A)
    requires IsGroup(f, g)
    ensures g.add(p, q) == g.add(q, p)
  {
    assert Use2(p, q);
  }

  lemma {:induction false} PointDistribute<A(!new), S(!new)>(f: Field<S>, g: Group<A, S>, p: A, q: A, s: S)
    requires IsGroup(f, g)
    ensures g.mul(g.add(p, q), s) == g.add(g.mul(p, s), g.mul(q, s))
  {
    assert Use3(p, q, s);
  }

  lemma {:induction false} ScalarDistribute<A(!new), S(!new)>(f: Field<S>, g: Group<A, S>, p: A, s: S, t: S)
    requires IsGroup(f, g)
    ensures g.mul(p, f.add(s, t)) == g.add(g.mul(p, s), g.mul(p, t))
    ensures g.mul(p, f.mul(s, t)) == g.mul(g.mul(p, s), t)
  {
    assert Use3(p, s, t);
  }

  lemma {:induction false} PointSwap<A(!new), S(!new)>(f: Field<S>, g: Group<A, S>, a: A, b: A, c: A, d: A)
    requires IsGroup(f, g)
    ensures g.add(g.add(a, b), g.add(c, d)) == g.add(g.add(a, c), g.add(b, d))
  {
    PointAssoc(f, g, a, b, g.add(c, d));
    PointAssoc(f, g, b, c, d);
    PointComm(f, g, b, c);
    PointAssoc(f, g, c, b, d);
    PointAssoc(f, g, a, c, g.add(b, d));
  }

  function Minus<A, S>(f: Field<S>, g: Group<A, S>, p: A): A { g.mul(p, f.neg(f.one)) }

  lemma {:induction false} PointNeg<A(!new), S(!new)>(f: Field<S>, g: Group<A, S>, p: A)
    requires IsGroup(f, g)
    ensures g.add(p, Minus(f, g, p)) == g.zero
  {
    PointZero(f, g, p);
    ScalarDistribute(f, g, p, f.one, f.neg(f.one));
    AddNeg(f, f.one);
  }

  lemma {:induction false} PointCancel<A(!new), S(!new)>(f: Field<S>, g: Group<A, S>, p: A, q: A, r: A)
    requires IsGroup(f, g)
    ensures g.add(p, r) == g.add(q, r) <==> p == q
    ensures g.add(g.add(p, r), Minus(f, g, r)) == p
  {
    PointAssoc(f, g, p, r, Minus(f, g, r));
    PointAssoc(f, g, q, r, Minus(f, g, r));
    PointNeg(f, g, r);
    PointZero(f, g, p);
    PointZero(f, g, q);
  }

  /** Scaling by a nonzero scalar is injective. */
  lemma {:induction false} ScaleInjective<A(!new), S(!new)>(f: Field<S>, g: Group<A, S>, p: A, q: A, w: S)
    requires IsGroup(f, g)
    ensures g.mul(p, w) == g.mul(q, w) <==> p == q || w == f.zero
  {
    PointZero(f, g, p);
    PointZero(f, g, q);
    if g.mul(p, w) == g.mul(q, w) && w != f.zero {
      MulInverse(f, w);
      ScalarDistribute(f, g, p, w, f.inverse(w));
      ScalarDistribute(f, g, q, w, f.inverse(w));
    }
  }

  /** Multiples of a nonzero point are distinct. */
  lemma {:induction false} MultiplesDistinct<A(!new), S(!new)>(f: Field<S>, g: Group<A, S>, p: A, s: S, t: S)
    requires IsGroup(f, g)
    ensures g.mul(p, s) == g.mul(p, t) <==> s == t || p == g.zero
  {
    if g.mul(p, s) == g.mul(p, t) {
      var d := f.Sub(s, t);
      SubFacts(f, s, t);
      ScalarDistribute(f, g, p, d, t);
      PointZero(f, g, g.mul(p, t));
      PointCancel(f, g, g.mul(p, d), g.zero, g.mul(p, t));
      ScaleInjective(f, g, p, g.zero, d);
    }
  }

  /** Scalars are points over themselves. */
  function Scalars<S>(f: Field<S>): Group<S, S> { Group(f.zero, f.add, f.mul) }

  lemma {:induction false} ScalarsAreGroup<S(!new)>(f: Field<S>)
    requires IsField(f)
    ensures IsGroup(f, Scalars(f))
  {
    var g := Scalars(f);
    forall p
      ensures g.add(p, g.zero) == p && g.mul(p, f.one) == p && g.mul(p, f.zero) == g.zero
              && g.mul(g.zero, p) == g.zero {
      AddZero(f, p); MulOne(f, p); MulZero(f, p);
    }
    forall p, q ensures g.add(p, q) == g.add(q, p) { AddComm(f, p, q); }
    forall p, q, r
      ensures g.add(g.add(p, q), r) == g.add(p, g.add(q, r))
      ensures g.mul(g.add(p, q), r) == g.add(g.mul(p, r), g.mul(q, r))
      ensures g.mul(p, f.add(q, r)) == g.add(g.mul(p, q), g.mul(p, r))
      ensures g.mul(p, f.mul(q, r)) == g.mul(g.mul(p, q), r)
    {
      AddAssoc(f, p, q, r); Distribute(f, p, q, r); Distribute(f, q, r, p); MulAssoc(f, p, q, r);
    }
  }
}
