/** Polynomials as coefficient lists, evaluated at a scalar: with scalar coefficients
    (a secret polynomial) or with points (its public commitment). */
module Polynomial {
  import opened Algebra

  function Power<S>(f: Field<S>, x: S, n: nat): S {
    if n == 0 then f.one else f.mul(Power(f, x, n - 1), x)
  }

  /** The sum of c_i x^i. */
  function PowerSum<A, S>(f: Field<S>, g: Group<A, S>, cs: seq<A>, x: S): A {
    if cs == [] then g.zero else
    var n := |cs| - 1;
    g.add(PowerSum(f, g, cs[..n], x), g.mul(cs[n], Power(f, x, n)))
  }

  /** The same polynomial in Horner form. */
  function Eval<A, S>(g: Group<A, S>, cs: seq<A>, x: S): A {
    if cs == [] then g.zero else g.add(cs[0], g.mul(Eval(g, cs[1..], x), x))
  }

  /** The shared evaluation loop: a running sum and a running power of `x`. */
  method EvalPolyAt<A(!new), S(!new)>(f: Field<S>, g: Group<A, S>, coeffs: seq<A>, x: S) returns (result: A)
    requires IsGroup(f, g) && coeffs != []
    ensures result == PowerSum(f, g, coeffs, x) == Eval(g, coeffs, x)
  {
    result := coeffs[0];
    var xPower := x;
    var i := 1;
    assert coeffs[..1] == [coeffs[0]] && coeffs[..1][..0] == [];
    PointZero(f, g, coeffs[0]);
    MulOne(f, x);
    while i < |coeffs|
      invariant 1 <= i <= |coeffs|
      invariant result == PowerSum(f, g, coeffs[..i], x)
      invariant xPower == Power(f, x, i)
    {
      assert coeffs[..i + 1][..i] == coeffs[..i];
      result := g.add(result, g.mul(coeffs[i], xPower));
      xPower := f.mul(xPower, x);
      i := i + 1;
    }
    assert coeffs[..i] == coeffs;
    PowerSumIsEval(f, g, coeffs, x);
  }

  lemma {:induction false} EvalAppend<A(!new), S(!new)>(f: Field<S>, g: Group<A, S>, cs: seq<A>, c: A, x: S)
    requires IsGroup(f, g)
    ensures Eval(g, cs + [c], x) == g.add(Eval(g, cs, x), g.mul(c, Power(f, x, |cs|)))
  {
    if cs == [] {
      assert (cs + [c])[1..] == [];
      PointZero(f, g, c);
      assert g.mul(g.zero, x) == g.zero;
      PointZero(f, g, g.mul(c, f.one));
    } else {
      var t, n := cs[1..], |cs| - 1;
      assert (cs + [c])[1..] == t + [c];
      EvalAppend(f, g, t, c, x);
      var e, m := Eval(g, t, x), g.mul(c, Power(f, x, n));
      PointDistribute(f, g, e, m, x);
      ScalarDistribute(f, g, c, Power(f, x, n), x);
      PointAssoc(f, g, cs[0], g.mul(e, x), g.mul(m, x));
    }
  }

  lemma {:induction false} PowerSumIsEval<A(!new), S(!new)>(f: Field<S>, g: Group<A, S>, cs: seq<A>, x: S)
    requires IsGroup(f, g)
    ensures PowerSum(f, g, cs, x) == Eval(g, cs, x)
  {
    if cs != [] {
      var n := |cs| - 1;
      PowerSumIsEval(f, g, cs[..n], x);
      EvalAppend(f, g, cs[..n], cs[n], x);
      assert cs[..n] + [cs[n]] == cs;
    }
  }

  // ---------------------------------------------------------------------------
  // Linear combinations of polynomials
  // ---------------------------------------------------------------------------

  /** Coefficient-wise sum of equally long polynomials. */
  function Plus<A, S>(g: Group<A, S>, a: seq<A>, b: seq<A>): (c: seq<A>)
    requires |a| == |b|
    ensures |c| == |a|
  {
    seq(|a|, i requires 0 <= i < |a| => g.add(a[i], b[i]))
  }

  /** Every coefficient multiplied by a scalar. */
  function Times<A, S>(g: Group<A, S>, a: seq<A>, s: S): (c: seq<A>)
    ensures |c| == |a|
  {
    seq(|a|, i requires 0 <= i < |a| => g.mul(a[i], s))
  }

  /** The commitment to a secret polynomial: every coefficient times the base point. */
  function Commit<A, S>(g: Group<A, S>, base: A, cs: seq<S>): (c: seq<A>)
    ensures |c| == |cs|
  {
    seq(|cs|, i requires 0 <= i < |cs| => g.mul(base, cs[i]))
  }

  lemma {:induction false} EvalPlus<A(!new), S(!new)>(f: Field<S>, g: Group<A, S>, a: seq<A>, b: seq<A>, x: S)
    requires IsGroup(f, g) && |a| == |b|
    ensures Eval(g, Plus(g, a, b), x) == g.add(Eval(g, a, x), Eval(g, b, x))
  {
    if a == [] {
      PointZero(f, g, g.zero);
    } else {
      assert Plus(g, a, b)[1..] == Plus(g, a[1..], b[1..]);
      EvalPlus(f, g, a[1..], b[1..], x);
      var u, v := Eval(g, a[1..], x), Eval(g, b[1..], x);
      PointDistribute(f, g, u, v, x);
      PointSwap(f, g, a[0], b[0], g.mul(u, x), g.mul(v, x));
    }
  }

  lemma {:induction false} EvalTimes<A(!new), S(!new)>(f: Field<S>, g: Group<A, S>, a: seq<A>, s: S, x: S)
    requires IsGroup(f, g)
    ensures Eval(g, Times(g, a, s), x) == g.mul(Eval(g, a, x), s)
  {
    if a == [] {
      assert g.mul(g.zero, s) == g.zero;
    } else {
      assert Times(g, a, s)[1..] == Times(g, a[1..], s);
      EvalTimes(f, g, a[1..], s, x);
      var u := Eval(g, a[1..], x);
      PointDistribute(f, g, a[0], g.mul(u, x), s);
      ScalarDistribute(f, g, u, s, x);
      ScalarDistribute(f, g, u, x, s);
      MulComm(f, s, x);
    }
  }

  /** Evaluating the commitments is committing to the evaluation. */
  lemma {:induction false} EvalCommit<A(!new), S(!new)>(f: Field<S>, g: Group<A, S>, base: A, cs: seq<S>, x: S)
    requires IsGroup(f, g)
    ensures Eval(g, Commit(g, base, cs), x) == g.mul(base, Eval(Scalars(f), cs, x))
  {
    if cs == [] {
      PointZero(f, g, base);
    } else {
      assert Commit(g, base, cs)[1..] == Commit(g, base, cs[1..]);
      EvalCommit(f, g, base, cs[1..], x);
      var u := Eval(Scalars(f), cs[1..], x);
      ScalarDistribute(f, g, base, u, x);
      ScalarDistribute(f, g, base, cs[0], f.mul(u, x));
    }
  }

  lemma {:induction false} CommitPlus<A(!new), S(!new)>(f: Field<S>, g: Group<A, S>, base: A, a: seq<S>, b: seq<S>)
    requires IsGroup(f, g) && |a| == |b|
    ensures Commit(g, base, Plus(Scalars(f), a, b)) == Plus(g, Commit(g, base, a), Commit(g, base, b))
  {
    forall i | 0 <= i < |a|
      ensures Commit(g, base, Plus(Scalars(f), a, b))[i] == Plus(g, Commit(g, base, a), Commit(g, base, b))[i]
    {
      ScalarDistribute(f, g, base, a[i], b[i]);
    }
  }

  /** At zero a polynomial is its constant term. */
  lemma {:induction false} EvalAtZero<A(!new), S(!new)>(f: Field<S>, g: Group<A, S>, cs: seq<A>)
    requires IsGroup(f, g) && cs != []
    ensures Eval(g, cs, f.zero) == cs[0]
  {
    PointZero(f, g, Eval(g, cs[1..], f.zero));
    PointZero(f, g, cs[0]);
  }
}
