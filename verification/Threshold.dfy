/** Node identifiers as scalars, and the three Lagrange loops of the code, all equal
    to the one coefficient of `Lagrange`. */
module Threshold {
  import opened Algebra
  import opened Lagrange
  import opened Options

  /** The curve: scalars, points, the generator, and `Fr::from`. */
  datatype Curve<!A, !S> = Curve(f: Field<S>, g: Group<A, S>, base: A, embed: nat -> S)

  /** Identifiers up to `n` are distinct nonzero scalars, and the generator has prime
      order: only the zero scalar sends it to the identity. */
  ghost predicate IsCurve<A(!new), S(!new)>(c: Curve<A, S>, n: nat) {
    && IsGroup(c.f, c.g)
    && (forall i {:trigger c.embed(i)} :: 1 <= i <= n ==> c.embed(i) != c.f.zero)
    && (forall i, j {:trigger c.embed(i), c.embed(j)} ::
        1 <= i <= n && 1 <= j <= n && i != j ==> c.embed(i) != c.embed(j))
    && (forall s {:trigger c.g.mul(c.base, s)} :: c.g.mul(c.base, s) == c.g.zero ==> s == c.f.zero)
  }

  function Nodes<A, S>(c: Curve<A, S>, ids: seq<nat>): (xs: seq<S>)
    ensures |xs| == |ids|
  {
    seq(|ids|, i requires 0 <= i < |ids| => c.embed(ids[i]))
  }

  /** Distinct identifiers in range. */
  predicate ValidIds(ids: seq<nat>, n: nat) {
    && (forall i :: 0 <= i < |ids| ==> 1 <= ids[i] <= n)
    && (forall i, j :: 0 <= i < j < |ids| ==> ids[i] != ids[j])
  }

  lemma {:induction false} NodesDistinct<A(!new), S(!new)>(c: Curve<A, S>, ids: seq<nat>, n: nat)
    requires IsCurve(c, n) && ValidIds(ids, n)
    ensures Distinct([c.f.zero] + Nodes(c, ids)) && Distinct(Nodes(c, ids))
  {
    var xs := Nodes(c, ids);
    forall i, j | 0 <= i < j < |xs| ensures xs[i] != xs[j] {
      assert xs[i] == c.embed(ids[i]) && xs[j] == c.embed(ids[j]);
    }
    forall i | 0 <= i < |xs| ensures xs[i] != c.f.zero {
      assert xs[i] == c.embed(ids[i]);
    }
  }

  lemma {:induction false} BaseInjective<A(!new), S(!new)>(c: Curve<A, S>, n: nat, s: S, t: S)
    requires IsCurve(c, n) && c.g.mul(c.base, s) == c.g.mul(c.base, t)
    ensures s == t
  {
    var d := c.f.Sub(s, t);
    SubFacts(c.f, s, t);
    ScalarDistribute(c.f, c.g, c.base, s, c.f.neg(t));
    ScalarDistribute(c.f, c.g, c.base, t, c.f.neg(t));
    AddNeg(c.f, t);
    PointZero(c.f, c.g, c.base);
    assert c.g.mul(c.base, d) == c.g.zero;
  }

  /** The identifiers other than `id`, in order. */
  function Others(ids: seq<nat>, id: nat): seq<nat> {
    if ids == [] then [] else (if ids[0] == id then [] else [ids[0]]) + Others(ids[1..], id)
  }

  lemma {:induction false} OthersAbsent(ids: seq<nat>, id: nat)
    requires id !in ids
    ensures Others(ids, id) == ids
  {
    if ids != [] { OthersAbsent(ids[1..], id); assert ids == [ids[0]] + ids[1..]; }
  }

  lemma {:induction false} OthersDrops(ids: seq<nat>, k: nat)
    requires k < |ids| && forall i, j :: 0 <= i < j < |ids| ==> ids[i] != ids[j]
    ensures Others(ids, ids[k]) == Drop(ids, k)
  {
    if k == 0 {
      OthersAbsent(ids[1..], ids[0]);
    } else {
      OthersDrops(ids[1..], k - 1);
      assert Drop(ids, k) == [ids[0]] + Drop(ids[1..], k - 1);
    }
  }

  lemma {:induction false} OthersAppend(ids: seq<nat>, j: nat, id: nat)
    ensures Others(ids + [j], id) == if j == id then Others(ids, id) else Others(ids, id) + [j]
  {
    if ids == [] {
      assert (ids + [j])[1..] == [];
    } else {
      assert (ids + [j])[1..] == ids[1..] + [j];
      OthersAppend(ids[1..], j, id);
    }
  }

  lemma {:induction false} ProductAppend<S(!new)>(f: Field<S>, s: seq<S>, x: S)
    requires IsField(f)
    ensures Product(f, s + [x]) == f.mul(Product(f, s), x)
  {
    if s == [] {
      assert (s + [x])[1..] == [];
      assert Product(f, [x][1..]) == f.one;
      MulOne(f, x);
    } else {
      assert (s + [x])[1..] == s[1..] + [x];
      ProductAppend(f, s[1..], x);
      MulAssoc(f, s[0], Product(f, s[1..]), x);
    }
  }

  /** One more identifier, one more factor. */
  lemma {:induction false} FactorAppend<A(!new), S(!new)>(c: Curve<A, S>, ids: seq<nat>, j: nat, x: S)
    requires IsField(c.f)
    ensures Product(c.f, Differences(c.f, x, Nodes(c, ids + [j])))
            == c.f.mul(Product(c.f, Differences(c.f, x, Nodes(c, ids))), c.f.Sub(x, c.embed(j)))
  {
    assert Nodes(c, ids + [j]) == Nodes(c, ids) + [c.embed(j)];
    assert Differences(c.f, x, Nodes(c, ids) + [c.embed(j)])
           == Differences(c.f, x, Nodes(c, ids)) + [c.f.Sub(x, c.embed(j))];
    ProductAppend(c.f, Differences(c.f, x, Nodes(c, ids)), c.f.Sub(x, c.embed(j)));
  }

  /** `lagrange_at_zero`: -j over (i - j), rejecting duplicates and a zero denominator.
      The code sorts the identifiers first; `LambdaIgnoresOrder` makes that immaterial. */
  method LagrangeAtZero<A(!new), S(==, !new)>(c: Curve<A, S>, id: nat, participatingIds: seq<nat>, ghost n: nat)
    returns (r: Option<S>)
    requires IsCurve(c, n)
    ensures r == if HasDuplicates(participatingIds) || Denominator(c, participatingIds, id) == c.f.zero then None
                 else Some(LambdaFor(c, participatingIds, id))
    ensures ValidIds(participatingIds, n) && id in participatingIds ==> r.Some?
  {
    if HasDuplicates(participatingIds) { return None; }
    var f := c.f;
    var num, den := f.one, f.one;
    var iFr := c.embed(id);
    var k := 0;
    while k < |participatingIds|
      invariant 0 <= k <= |participatingIds|
      invariant num == Product(f, Differences(f, f.zero, Nodes(c, Others(participatingIds[..k], id))))
      invariant den == Product(f, Differences(f, iFr, Nodes(c, Others(participatingIds[..k], id))))
    {
      var j := participatingIds[k];
      ghost var before := Others(participatingIds[..k], id);
      assert participatingIds[..k + 1] == participatingIds[..k] + [j];
      OthersAppend(participatingIds[..k], j, id);
      k := k + 1;
      if j == id { continue; }
      var jFr := c.embed(j);
      FactorAppend(c, before, j, f.zero);
      FactorAppend(c, before, j, iFr);
      assert f.Sub(f.zero, jFr) == f.neg(jFr) by { AddZero(f, f.neg(jFr)); }
      num := f.mul(num, f.neg(jFr));
      den := f.mul(den, f.Sub(iFr, jFr));
    }
    assert participatingIds[..k] == participatingIds;
    if ValidIds(participatingIds, n) && id in participatingIds {
      DenominatorNonzero(c, participatingIds, id, n);
    }
    if den == f.zero { return None; }
    return Some(f.mul(num, f.inverse(den)));
  }

  predicate HasDuplicates(ids: seq<nat>) {
    exists i, j :: 0 <= i < j < |ids| && ids[i] == ids[j]
  }

  function Denominator<A, S>(c: Curve<A, S>, ids: seq<nat>, id: nat): S {
    Product(c.f, Differences(c.f, c.embed(id), Nodes(c, Others(ids, id))))
  }

  /** The coefficient of `id` among `ids`, as the quotient the code computes. */
  function LambdaFor<A, S>(c: Curve<A, S>, ids: seq<nat>, id: nat): S {
    var others := Nodes(c, Others(ids, id));
    c.f.mul(Product(c.f, Differences(c.f, c.f.zero, others)), c.f.inverse(Denominator(c, ids, id)))
  }

  lemma {:induction false} OthersNodes<A(!new), S(!new)>(c: Curve<A, S>, ids: seq<nat>, k: nat, n: nat)
    requires ValidIds(ids, n) && k < |ids|
    ensures Nodes(c, Others(ids, ids[k])) == Drop(Nodes(c, ids), k)
  {
    OthersDrops(ids, k);
    var a, b := Nodes(c, Drop(ids, k)), Drop(Nodes(c, ids), k);
    forall j | 0 <= j < |a| ensures a[j] == b[j] {
    }
  }

  /** What the loop computes is the Lagrange coefficient. */
  lemma {:induction false} LambdaForIsLambda<A(!new), S(!new)>(c: Curve<A, S>, ids: seq<nat>, k: nat, n: nat)
    requires ValidIds(ids, n) && k < |ids|
    ensures LambdaFor(c, ids, ids[k]) == Lambda(c.f, Nodes(c, ids), k)
  {
    OthersNodes(c, ids, k, n);
  }

  lemma {:induction false} DenominatorNonzero<A(!new), S(!new)>(c: Curve<A, S>, ids: seq<nat>, id: nat, n: nat)
    requires IsCurve(c, n) && ValidIds(ids, n) && id in ids
    ensures Denominator(c, ids, id) != c.f.zero
  {
    var k :| 0 <= k < |ids| && ids[k] == id;
    OthersNodes(c, ids, k, n);
    NodesDistinct(c, ids, n);
    DifferencesNonzero(c.f, Nodes(c, ids), k);
  }

  lemma {:induction false} OthersPermutation(ids: seq<nat>, id: nat)
    ensures multiset(Others(ids, id)) == multiset(ids)[id := 0]
  {
    if ids != [] {
      OthersPermutation(ids[1..], id);
      assert ids == [ids[0]] + ids[1..];
    }
  }

  /** The first element of a list, found and dropped in a reordering of it. */
  lemma {:induction false} FindHead(a: seq<nat>, b: seq<nat>) returns (k: nat)
    requires a != [] && multiset(a) == multiset(b)
    ensures k < |b| && b[k] == a[0] && multiset(Drop(b, k)) == multiset(a[1..])
  {
    assert a == [a[0]] + a[1..];
    assert a[0] in multiset(b);
    k :| 0 <= k < |b| && b[k] == a[0];
    assert b == b[..k] + [b[k]] + b[k + 1..];
    assert multiset(Drop(b, k)) == multiset(b) - multiset{b[k]};
  }

  lemma {:induction false} MapPermutation<S(!new)>(f: Field<S>, h: nat -> S, a: seq<nat>, b: seq<nat>)
    requires IsField(f) && multiset(a) == multiset(b)
    ensures Product(f, Mapped(h, a)) == Product(f, Mapped(h, b))
  {
    if a == [] {
      assert |b| == |multiset(b)| == |multiset(a)| == 0;
    } else {
      var k := FindHead(a, b);
      MapPermutation(f, h, a[1..], Drop(b, k));
      ProductDrop(f, Mapped(h, b), k);
      assert Drop(Mapped(h, b), k) == Mapped(h, Drop(b, k));
      assert Mapped(h, a)[1..] == Mapped(h, a[1..]);
    }
  }

  function Mapped<S>(h: nat -> S, ids: seq<nat>): (r: seq<S>)
    ensures |r| == |ids|
  {
    seq(|ids|, i requires 0 <= i < |ids| => h(ids[i]))
  }

  /** A coefficient depends on the set of participants, not on their order. */
  lemma {:induction false} LambdaIgnoresOrder<A(!new), S(!new)>(c: Curve<A, S>, ids: seq<nat>, ids': seq<nat>, id: nat)
    requires IsField(c.f) && multiset(ids) == multiset(ids')
    ensures LambdaFor(c, ids, id) == LambdaFor(c, ids', id)
  {
    OthersPermutation(ids, id);
    OthersPermutation(ids', id);
    var num := (j: nat) => c.f.Sub(c.f.zero, c.embed(j));
    var den := (j: nat) => c.f.Sub(c.embed(id), c.embed(j));
    MapPermutation(c.f, num, Others(ids, id), Others(ids', id));
    MapPermutation(c.f, den, Others(ids, id), Others(ids', id));
    assert forall s: seq<nat> :: Differences(c.f, c.f.zero, Nodes(c, s)) == Mapped(num, s);
    assert forall s: seq<nat> :: Differences(c.f, c.embed(id), Nodes(c, s)) == Mapped(den, s);
  }

  // ---------------------------------------------------------------------------
  // The coefficient with both signs flipped
  // ---------------------------------------------------------------------------

  /** The differences y - x, the other way round. */
  function Flipped<S>(f: Field<S>, x: S, ys: seq<S>): (d: seq<S>)
    ensures |d| == |ys|
  {
    seq(|ys|, i requires 0 <= i < |ys| => f.Sub(ys[i], x))
  }

  /** Flipping all factors multiplies both products by the same sign. */
  lemma {:induction false} FlipSign<S(!new)>(f: Field<S>, ys: seq<S>, x: S) returns (sign: S)
    requires IsField(f)
    ensures sign != f.zero
    ensures Product(f, ys) == f.mul(sign, Product(f, Differences(f, f.zero, ys)))
    ensures Product(f, Flipped(f, x, ys)) == f.mul(sign, Product(f, Differences(f, x, ys)))
  {
    if ys == [] {
      sign := f.one;
      MulOne(f, f.one);
    } else {
      var s := FlipSign(f, ys[1..], x);
      sign := f.neg(s);
      assert Differences(f, f.zero, ys)[1..] == Differences(f, f.zero, ys[1..]);
      assert Differences(f, x, ys)[1..] == Differences(f, x, ys[1..]);
      assert Flipped(f, x, ys)[1..] == Flipped(f, x, ys[1..]);
      NegNeg(f, s);
      AddNeg(f, f.zero);
      AddZero(f, f.neg(f.zero));
      assert sign != f.zero;
      AddZero(f, f.neg(ys[0]));
      FlipOne(f, ys[0], f.neg(ys[0]), s, Product(f, Differences(f, f.zero, ys[1..])));
      SubFacts(f, x, ys[0]);
      NegNeg(f, ys[0]);
      NegNeg(f, f.Sub(x, ys[0]));
      FlipOne(f, f.Sub(ys[0], x), f.Sub(x, ys[0]), s, Product(f, Differences(f, x, ys[1..])));
    }
  }

  /** a (s p) = (-s) (b p) when b = -a. */
  lemma {:induction false} FlipOne<S(!new)>(f: Field<S>, a: S, b: S, s: S, p: S)
    requires IsField(f) && b == f.neg(a)
    ensures f.mul(a, f.mul(s, p)) == f.mul(f.neg(s), f.mul(b, p))
  {
    MulAssoc(f, a, s, p);
    MulComm(f, a, s);
    MulAssoc(f, s, a, p);
    NegMul(f, a, p);
    NegMul(f, s, f.mul(a, p));
    NegMul(f, s, f.neg(f.mul(a, p)));
    NegMul(f, f.neg(s), f.mul(a, p));
    NegNeg(f, f.mul(s, f.mul(a, p)));
  }

  /** x_j over (x_j - x_i): the form used when signing and re-encrypting. */
  function FlippedLambda<S>(f: Field<S>, xs: seq<S>, i: nat): S
    requires i < |xs|
  {
    f.mul(Product(f, Drop(xs, i)), f.inverse(Product(f, Flipped(f, xs[i], Drop(xs, i)))))
  }

  lemma {:induction false} FlippedIsLambda<S(!new)>(f: Field<S>, xs: seq<S>, i: nat)
    requires IsField(f) && Distinct(xs) && i < |xs|
    ensures Product(f, Flipped(f, xs[i], Drop(xs, i))) != f.zero
    ensures FlippedLambda(f, xs, i) == Lambda(f, xs, i)
  {
    var ys := Drop(xs, i);
    var sign := FlipSign(f, ys, xs[i]);
    var num, den := Product(f, Differences(f, f.zero, ys)), Product(f, Differences(f, xs[i], ys));
    DifferencesNonzero(f, xs, i);
    InverseMul(f, sign, den);
    MulSwap(f, sign, num, f.inverse(sign), f.inverse(den));
    MulInverse(f, sign);
    MulOne(f, f.mul(num, f.inverse(den)));
  }
}
