/** Lagrange interpolation at zero over an abstract field, by divided differences. */
module Lagrange {
  import opened Algebra
  import opened Polynomial

  function Sum<S>(f: Field<S>, s: seq<S>): S {
    if s == [] then f.zero else f.add(s[0], Sum(f, s[1..]))
  }

  function Product<S>(f: Field<S>, s: seq<S>): S {
    if s == [] then f.one else f.mul(s[0], Product(f, s[1..]))
  }

  function Drop<T>(s: seq<T>, k: nat): (r: seq<T>)
    requires k < |s|
    ensures |r| == |s| - 1
    ensures forall i :: 0 <= i < |r| ==> r[i] == if i < k then s[i] else s[i + 1]
  {
    s[..k] + s[k + 1..]
  }

  predicate Distinct<S(==)>(s: seq<S>) {
    forall i, j :: 0 <= i < j < |s| ==> s[i] != s[j]
  }

  /** The differences x - y for all y. */
  function Differences<S>(f: Field<S>, x: S, ys: seq<S>): (d: seq<S>)
    ensures |d| == |ys|
  {
    seq(|ys|, i requires 0 <= i < |ys| => f.Sub(x, ys[i]))
  }

  // ---------------------------------------------------------------------------
  // Sums and products of lists
  // ---------------------------------------------------------------------------

  lemma {:induction false} ProductDrop<S(!new)>(f: Field<S>, s: seq<S>, k: nat)
    requires IsField(f) && k < |s|
    ensures Product(f, s) == f.mul(s[k], Product(f, Drop(s, k)))
  {
    if k == 0 {
      assert Drop(s, 0) == s[1..];
    } else {
      ProductDrop(f, s[1..], k - 1);
      var d := Drop(s[1..], k - 1);
      assert Drop(s, k)[0] == s[0] && Drop(s, k)[1..] == d;
      var p := Product(f, d);
      MulAssoc(f, s[0], s[k], p);
      MulComm(f, s[0], s[k]);
      MulAssoc(f, s[k], s[0], p);
    }
  }

  lemma {:induction false} SumDrop<S(!new)>(f: Field<S>, s: seq<S>, k: nat)
    requires IsField(f) && k < |s|
    ensures Sum(f, s) == f.add(s[k], Sum(f, Drop(s, k)))
  {
    if k == 0 {
      assert Drop(s, 0) == s[1..];
    } else {
      SumDrop(f, s[1..], k - 1);
      var d := Drop(s[1..], k - 1);
      assert Drop(s, k)[0] == s[0] && Drop(s, k)[1..] == d;
      var p := Sum(f, d);
      AddAssoc(f, s[0], s[k], p);
      AddComm(f, s[0], s[k]);
      AddAssoc(f, s[k], s[0], p);
    }
  }

  lemma {:induction false} ProductNonzero<S(!new)>(f: Field<S>, s: seq<S>)
    requires IsField(f) && forall i :: 0 <= i < |s| ==> s[i] != f.zero
    ensures Product(f, s) != f.zero
  {
    if s != [] {
      ProductNonzero(f, s[1..]);
      if f.mul(s[0], Product(f, s[1..])) == f.zero {
        NoZeroDivisors(f, s[0], Product(f, s[1..]));
      }
    }
  }

  lemma {:induction false} SumPlus<S(!new)>(f: Field<S>, a: seq<S>, b: seq<S>)
    requires IsField(f) && |a| == |b|
    ensures Sum(f, Plus(Scalars(f), a, b)) == f.add(Sum(f, a), Sum(f, b))
  {
    if a == [] {
      AddZero(f, f.zero);
    } else {
      assert Plus(Scalars(f), a, b)[1..] == Plus(Scalars(f), a[1..], b[1..]);
      SumPlus(f, a[1..], b[1..]);
      AddSwap(f, a[0], b[0], Sum(f, a[1..]), Sum(f, b[1..]));
    }
  }

  lemma {:induction false} SumTimes<S(!new)>(f: Field<S>, a: seq<S>, s: S)
    requires IsField(f)
    ensures Sum(f, Times(Scalars(f), a, s)) == f.mul(Sum(f, a), s)
  {
    if a == [] {
      MulZero(f, s);
    } else {
      assert Times(Scalars(f), a, s)[1..] == Times(Scalars(f), a[1..], s);
      SumTimes(f, a[1..], s);
      Distribute(f, a[0], Sum(f, a[1..]), s);
    }
  }

  // ---------------------------------------------------------------------------
  // Divided differences
  // ---------------------------------------------------------------------------

  /** One over the product of the differences of node `i` to all other nodes. */
  function Weight<S>(f: Field<S>, xs: seq<S>, i: nat): S
    requires i < |xs|
  {
    f.inverse(Product(f, Differences(f, xs[i], Drop(xs, i))))
  }

  function Weighted<S>(f: Field<S>, xs: seq<S>, vs: seq<S>): (w: seq<S>)
    requires |xs| == |vs|
    ensures |w| == |xs|
  {
    seq(|xs|, i requires 0 <= i < |xs| => f.mul(vs[i], Weight(f, xs, i)))
  }

  function DividedDifference<S>(f: Field<S>, xs: seq<S>, vs: seq<S>): S
    requires |xs| == |vs|
  {
    Sum(f, Weighted(f, xs, vs))
  }

  /** The values multiplied by x_i - x_k. */
  function Shifted<S>(f: Field<S>, xs: seq<S>, vs: seq<S>, k: nat): (r: seq<S>)
    requires |xs| == |vs| && k < |xs|
    ensures |r| == |xs|
  {
    seq(|xs|, i requires 0 <= i < |xs| => f.mul(vs[i], f.Sub(xs[i], xs[k])))
  }

  lemma {:induction false} DifferencesNonzero<S(!new)>(f: Field<S>, xs: seq<S>, i: nat)
    requires IsField(f) && Distinct(xs) && i < |xs|
    ensures Product(f, Differences(f, xs[i], Drop(xs, i))) != f.zero
  {
    var ys := Drop(xs, i);
    forall j | 0 <= j < |ys| ensures Differences(f, xs[i], ys)[j] != f.zero {
      SubFacts(f, xs[i], ys[j]);
    }
    ProductNonzero(f, Differences(f, xs[i], ys));
  }

  /** Where element `i` goes when element `k` is dropped. */
  function After(i: nat, k: nat): nat
    requires i != k
  {
    if i < k then i else i - 1
  }

  lemma {:induction false} DropTwice<T>(xs: seq<T>, i: nat, k: nat)
    requires i < |xs| && k < |xs| && i != k
    ensures After(k, i) < |Drop(xs, i)| && After(i, k) < |Drop(xs, k)|
    ensures Drop(xs, i)[After(k, i)] == xs[k] && Drop(xs, k)[After(i, k)] == xs[i]
    ensures Drop(Drop(xs, i), After(k, i)) == Drop(Drop(xs, k), After(i, k))
  {
    var a, b := Drop(Drop(xs, i), After(k, i)), Drop(Drop(xs, k), After(i, k));
    forall j | 0 <= j < |a| ensures a[j] == b[j] {
      if i < k { DroppedBoth(xs, i, k, j); } else { DroppedBoth(xs, k, i, j); }
    }
  }

  lemma {:induction false} DroppedBoth<T>(xs: seq<T>, lo: nat, hi: nat, j: nat)
    requires lo < hi < |xs| && j < |xs| - 2
    ensures var x := xs[if j < lo then j else if j < hi - 1 then j + 1 else j + 2];
            Drop(Drop(xs, lo), hi - 1)[j] == x && Drop(Drop(xs, hi), lo)[j] == x
  {
    var a, b := Drop(xs, lo), Drop(xs, hi);
    assert Drop(a, hi - 1)[j] == if j < hi - 1 then a[j] else a[j + 1];
    assert Drop(b, lo)[j] == if j < lo then b[j] else b[j + 1];
  }

  /** Multiplying node `i`'s weight by x_i - x_k is forgetting node `k`. */
  lemma {:induction false} WeightShift<S(!new)>(f: Field<S>, xs: seq<S>, i: nat, k: nat)
    requires IsField(f) && Distinct(xs) && i < |xs| && k < |xs| && i != k
    ensures After(i, k) < |Drop(xs, k)|
    ensures f.mul(f.Sub(xs[i], xs[k]), Weight(f, xs, i)) == Weight(f, Drop(xs, k), After(i, k))
  {
    DropTwice(xs, i, k);
    var others, p := Drop(xs, i), After(k, i);
    var ds := Differences(f, xs[i], others);
    var a, b := ds[p], Product(f, Drop(ds, p));
    ProductDrop(f, ds, p);
    assert Drop(ds, p) == Differences(f, xs[i], Drop(others, p));
    assert a == f.Sub(xs[i], xs[k]);
    SubFacts(f, xs[i], xs[k]);
    DifferencesNonzero(f, xs, i);
    assert b != f.zero by { MulZero(f, a); }
    InverseMul(f, a, b);
    MulAssoc(f, a, f.inverse(a), f.inverse(b));
    MulInverse(f, a);
    MulOne(f, f.inverse(b));
  }

  lemma {:induction false} DropDistinct<S>(xs: seq<S>, k: nat)
    requires Distinct(xs) && k < |xs|
    ensures Distinct(Drop(xs, k))
  {
  }

  /** Shifting by node `k` reduces to the nodes without it. */
  lemma {:induction false} ShiftReducesAt<S(!new)>(f: Field<S>, xs: seq<S>, vs: seq<S>, k: nat, j: nat)
    requires IsField(f) && Distinct(xs) && |vs| == |xs| && k < |xs| && j < |xs| - 1
    ensures Drop(Weighted(f, xs, Shifted(f, xs, vs, k)), k)[j] == Weighted(f, Drop(xs, k), Drop(vs, k))[j]
  {
    var i := if j < k then j else j + 1;
    WeightShift(f, xs, i, k);
    MulAssoc(f, vs[i], f.Sub(xs[i], xs[k]), Weight(f, xs, i));
  }

  lemma {:induction false} ShiftReduces<S(!new)>(f: Field<S>, xs: seq<S>, vs: seq<S>, k: nat)
    requires IsField(f) && Distinct(xs) && |vs| == |xs| && k < |xs|
    ensures DividedDifference(f, xs, Shifted(f, xs, vs, k)) == DividedDifference(f, Drop(xs, k), Drop(vs, k))
  {
    var ts := Weighted(f, xs, Shifted(f, xs, vs, k));
    var us := Weighted(f, Drop(xs, k), Drop(vs, k));
    assert ts[k] == f.zero by {
      SubFacts(f, xs[k], xs[k]);
      MulZero(f, vs[k]);
      MulZero(f, Weight(f, xs, k));
    }
    SumDrop(f, ts, k);
    AddZero(f, Sum(f, Drop(ts, k)));
    forall j | 0 <= j < |us| ensures Drop(ts, k)[j] == us[j] { ShiftReducesAt(f, xs, vs, k, j); }
    assert Drop(ts, k) == us;
  }

  lemma {:induction false} WeightedPlus<S(!new)>(f: Field<S>, xs: seq<S>, a: seq<S>, b: seq<S>)
    requires IsField(f) && |a| == |b| == |xs|
    ensures DividedDifference(f, xs, Plus(Scalars(f), a, b))
            == f.add(DividedDifference(f, xs, a), DividedDifference(f, xs, b))
  {
    var ts := Weighted(f, xs, Plus(Scalars(f), a, b));
    var us := Plus(Scalars(f), Weighted(f, xs, a), Weighted(f, xs, b));
    forall i | 0 <= i < |xs| ensures ts[i] == us[i] {
      Distribute(f, a[i], b[i], Weight(f, xs, i));
    }
    assert ts == us;
    SumPlus(f, Weighted(f, xs, a), Weighted(f, xs, b));
  }

  lemma {:induction false} WeightedTimes<S(!new)>(f: Field<S>, xs: seq<S>, a: seq<S>, s: S)
    requires IsField(f) && |a| == |xs|
    ensures DividedDifference(f, xs, Times(Scalars(f), a, s)) == f.mul(DividedDifference(f, xs, a), s)
  {
    var ts := Weighted(f, xs, Times(Scalars(f), a, s));
    var us := Times(Scalars(f), Weighted(f, xs, a), s);
    forall i | 0 <= i < |xs| ensures ts[i] == us[i] {
      var w := Weight(f, xs, i);
      MulAssoc(f, a[i], s, w);
      MulComm(f, s, w);
      MulAssoc(f, a[i], w, s);
    }
    assert ts == us;
    SumTimes(f, Weighted(f, xs, a), s);
  }

  function Constant<S>(c: S, n: nat): (r: seq<S>)
    ensures |r| == n
  {
    seq(n, i => c)
  }

  /** A constant has no divided difference over two or more nodes. */
  lemma {:induction false} ConstantVanishes<S(!new)>(f: Field<S>, xs: seq<S>, c: S)
    requires IsField(f) && Distinct(xs) && |xs| >= 2
    ensures DividedDifference(f, xs, Constant(c, |xs|)) == f.zero
    decreases |xs|
  {
    var n := |xs| - 1;
    var v := Constant(c, n + 1);
    var byLast, byFirst := Shifted(f, xs, v, n), Shifted(f, xs, v, 0);
    ShiftReduces(f, xs, v, n);
    ShiftReduces(f, xs, v, 0);
    DropDistinct(xs, n);
    DropDistinct(xs, 0);
    assert Drop(v, n) == Constant(c, n) && Drop(v, 0) == Constant(c, n);
    var gap := f.Sub(xs[0], xs[n]);
    // c (x - x_n) == c (x - x_0) + c (x_0 - x_n)
    assert byLast == Plus(Scalars(f), byFirst, Times(Scalars(f), v, gap)) by {
      forall i | 0 <= i < |xs| ensures byLast[i] == f.add(byFirst[i], f.mul(c, gap)) {
        Telescope(f, xs[i], xs[0], xs[n]);
        Distribute(f, f.Sub(xs[i], xs[0]), gap, c);
      }
    }
    WeightedPlus(f, xs, byFirst, Times(Scalars(f), v, gap));
    WeightedTimes(f, xs, v, gap);
    var d := DividedDifference(f, xs, v);
    var e := DividedDifference(f, Drop(xs, n), Constant(c, n));
    var e' := DividedDifference(f, Drop(xs, 0), Constant(c, n));
    assert e == e' by {
      if n == 1 { Single(f, Drop(xs, 1), c); Single(f, Drop(xs, 0), c); }
      else { ConstantVanishes(f, Drop(xs, n), c); ConstantVanishes(f, Drop(xs, 0), c); }
    }
    AddComm(f, e', f.mul(d, gap));
    AddZero(f, e);
    AddCancel(f, f.mul(d, gap), f.zero, e);
    SubFacts(f, xs[0], xs[n]);
    NoZeroDivisors(f, d, gap);
  }

  lemma {:induction false} Telescope<S(!new)>(f: Field<S>, a: S, b: S, c: S)
    requires IsField(f)
    ensures f.Sub(a, c) == f.add(f.Sub(a, b), f.Sub(b, c))
  {
    AddAssoc(f, f.Sub(a, b), b, f.neg(c));
    SubFacts(f, a, b);
  }

  lemma {:induction false} Single<S(!new)>(f: Field<S>, xs: seq<S>, c: S)
    requires IsField(f) && |xs| == 1
    ensures DividedDifference(f, xs, Constant(c, 1)) == c
  {
    assert Differences(f, xs[0], Drop(xs, 0)) == [];
    assert Product(f, Differences(f, xs[0], Drop(xs, 0))) == f.one;
    MulOne(f, f.one);
    InverseUnique(f, f.one, f.one);
    assert Weight(f, xs, 0) == f.one;
    MulOne(f, c);
    var w := Weighted(f, xs, Constant(c, 1));
    assert w[0] == c && w[1..] == [];
    assert Sum(f, w[1..]) == f.zero;
    AddZero(f, c);
  }

  function Values<S>(f: Field<S>, cs: seq<S>, xs: seq<S>): (v: seq<S>)
    ensures |v| == |xs|
  {
    seq(|xs|, i requires 0 <= i < |xs| => Eval(Scalars(f), cs, xs[i]))
  }

  /** A polynomial has no divided difference over more nodes than it has coefficients. */
  lemma {:induction false} PolynomialVanishes<S(!new)>(f: Field<S>, xs: seq<S>, cs: seq<S>)
    requires IsField(f) && Distinct(xs) && |cs| < |xs|
    ensures DividedDifference(f, xs, Values(f, cs, xs)) == f.zero
    decreases |cs|
  {
    var n := |xs| - 1;
    if cs == [] {
      ZeroVanishes(f, xs);
      assert Values(f, cs, xs) == Constant(f.zero, |xs|);
    } else {
      var h := cs[1..];
      var vh := Values(f, h, xs);
      var s := Scalars(f);
      var parts := Plus(s, Shifted(f, xs, vh, n), Times(s, vh, xs[n]));
      // c + x h(x) == c + ((x - x_n) h(x) + x_n h(x))
      assert Values(f, cs, xs) == Plus(s, Constant(cs[0], |xs|), parts) by {
        forall i | 0 <= i < |xs| ensures Values(f, cs, xs)[i] == f.add(cs[0], parts[i]) {
          SubFacts(f, xs[i], xs[n]);
          Distribute(f, f.Sub(xs[i], xs[n]), xs[n], vh[i]);
        }
      }
      WeightedPlus(f, xs, Constant(cs[0], |xs|), parts);
      WeightedPlus(f, xs, Shifted(f, xs, vh, n), Times(s, vh, xs[n]));
      ConstantVanishes(f, xs, cs[0]);
      ShiftReduces(f, xs, vh, n);
      DropDistinct(xs, n);
      assert Drop(vh, n) == Values(f, h, Drop(xs, n));
      PolynomialVanishes(f, Drop(xs, n), h);
      WeightedTimes(f, xs, vh, xs[n]);
      PolynomialVanishes(f, xs, h);
      MulZero(f, xs[n]);
      AddZero(f, f.zero);
    }
  }

  lemma {:induction false} ZeroVanishes<S(!new)>(f: Field<S>, xs: seq<S>)
    requires IsField(f)
    ensures DividedDifference(f, xs, Constant(f.zero, |xs|)) == f.zero
  {
    var z := Constant(f.zero, |xs|);
    forall i | 0 <= i < |xs| ensures Times(Scalars(f), z, f.zero)[i] == z[i] { MulZero(f, f.zero); }
    assert Times(Scalars(f), z, f.zero) == z;
    WeightedTimes(f, xs, z, f.zero);
    MulZero(f, DividedDifference(f, xs, z));
  }

  // ---------------------------------------------------------------------------
  // Interpolation at zero
  // ---------------------------------------------------------------------------

  /** The coefficient of node `i`: the product of (0 - x_j) / (x_i - x_j). */
  function Lambda<S>(f: Field<S>, xs: seq<S>, i: nat): S
    requires i < |xs|
  {
    f.mul(Product(f, Differences(f, f.zero, Drop(xs, i))), Weight(f, xs, i))
  }

  function Lambdas<S>(f: Field<S>, xs: seq<S>): (l: seq<S>)
    ensures |l| == |xs|
  {
    seq(|xs|, i requires 0 <= i < |xs| => Lambda(f, xs, i))
  }

  function Combination<S>(f: Field<S>, xs: seq<S>, vs: seq<S>): (r: seq<S>)
    requires |xs| == |vs|
    ensures |r| == |xs|
  {
    seq(|xs|, i requires 0 <= i < |xs| => f.mul(vs[i], Lambda(f, xs, i)))
  }

  /** With zero added as a node, the weights are minus the coefficients, up to the
      product of all 0 - x_j. */
  lemma {:induction false} ZeroNode<S(!new)>(f: Field<S>, xs: seq<S>, i: nat)
    requires IsField(f) && Distinct([f.zero] + xs) && i < |xs|
    ensures f.mul(Weight(f, [f.zero] + xs, i + 1), Product(f, Differences(f, f.zero, xs))) == f.neg(Lambda(f, xs, i))
  {
    var ys := [f.zero] + xs;
    var z := Differences(f, f.zero, xs);
    var x := xs[i];
    assert Distinct(xs) by { assert forall j :: 0 <= j < |xs| ==> ys[j + 1] == xs[j]; }
    // the product of all differences is (0 - x) times the numerator
    ProductDrop(f, z, i);
    assert Drop(z, i) == Differences(f, f.zero, Drop(xs, i));
    var num := Product(f, Drop(z, i));
    // the weight of x among all nodes is its weight among xs over (x - 0)
    WeightShift(f, ys, i + 1, 0);
    assert Drop(ys, 0) == xs && ys[i + 1] == x;
    var w, w' := Weight(f, ys, i + 1), Weight(f, xs, i);
    var d := f.Sub(x, f.zero);
    assert f.mul(d, w) == w';
    SubFacts(f, x, f.zero);
    assert f.Sub(f.zero, x) == f.neg(d);
    MulAssoc(f, w, f.neg(d), num);
    MulComm(f, w, f.neg(d));
    NegMul(f, d, w);
    NegMul(f, w', num);
    MulComm(f, w', num);
  }

  lemma {:induction false} ZeroNodeItself<S(!new)>(f: Field<S>, xs: seq<S>)
    requires IsField(f) && Distinct([f.zero] + xs)
    ensures f.mul(Weight(f, [f.zero] + xs, 0), Product(f, Differences(f, f.zero, xs))) == f.one
  {
    var ys := [f.zero] + xs;
    assert Drop(ys, 0) == xs;
    DifferencesNonzero(f, ys, 0);
    MulInverse(f, Product(f, Differences(f, f.zero, xs)));
  }

  /** Interpolation: from its values at enough distinct nonzero nodes, a polynomial's
      constant term is the combination with the Lagrange coefficients. */
  lemma {:induction false} InterpolatesAtZero<S(!new)>(f: Field<S>, xs: seq<S>, cs: seq<S>)
    requires IsField(f) && Distinct([f.zero] + xs) && |cs| <= |xs|
    ensures Sum(f, Combination(f, xs, Values(f, cs, xs))) == Eval(Scalars(f), cs, f.zero)
  {
    var ys := [f.zero] + xs;
    var vs := Values(f, cs, xs);
    var p := Product(f, Differences(f, f.zero, xs));
    var at0 := Eval(Scalars(f), cs, f.zero);
    PolynomialVanishes(f, ys, cs);
    var ws := Weighted(f, ys, Values(f, cs, ys));
    var scaled := Times(Scalars(f), ws, p);
    SumTimes(f, ws, p);
    MulZero(f, p);
    assert Sum(f, scaled) == f.zero;
    assert scaled[0] == at0 by {
      MulAssoc(f, at0, Weight(f, ys, 0), p);
      ZeroNodeItself(f, xs);
      MulOne(f, at0);
    }
    var comb := Combination(f, xs, vs);
    assert scaled[1..] == Times(Scalars(f), comb, f.neg(f.one)) by {
      forall i | 0 <= i < |xs| ensures scaled[1..][i] == f.mul(comb[i], f.neg(f.one)) {
        var l := Lambda(f, xs, i);
        assert ys[i + 1] == xs[i];
        MulAssoc(f, vs[i], Weight(f, ys, i + 1), p);
        ZeroNode(f, xs, i);
        NegMul(f, vs[i], l);
        NegMul(f, comb[i], f.one);
        MulOne(f, comb[i]);
      }
    }
    SumTimes(f, comb, f.neg(f.one));
    NegMul(f, Sum(f, comb), f.one);
    MulOne(f, Sum(f, comb));
    AddComm(f, at0, f.neg(Sum(f, comb)));
    NegUnique(f, f.neg(Sum(f, comb)), at0);
    NegNeg(f, Sum(f, comb));
  }

  lemma {:induction false} InverseNonzero<S(!new)>(f: Field<S>, a: S)
    requires IsField(f) && a != f.zero
    ensures f.inverse(a) != f.zero
  {
    MulInverse(f, a);
    MulZero(f, a);
    assert f.one != f.zero;
  }

  lemma {:induction false} LambdaNonzero<S(!new)>(f: Field<S>, xs: seq<S>, i: nat)
    requires IsField(f) && Distinct([f.zero] + xs) && i < |xs|
    ensures Lambda(f, xs, i) != f.zero
  {
    var ys := Drop(xs, i);
    assert Distinct(xs) by {
      var zs := [f.zero] + xs;
      forall j, k | 0 <= j < k < |xs| ensures xs[j] != xs[k] { assert zs[j + 1] != zs[k + 1]; }
    }
    forall j | 0 <= j < |ys| ensures Differences(f, f.zero, ys)[j] != f.zero {
      var k := if j < i then j else j + 1;
      assert ([f.zero] + xs)[0] != ([f.zero] + xs)[k + 1];
      SubFacts(f, f.zero, ys[j]);
    }
    ProductNonzero(f, Differences(f, f.zero, ys));
    DifferencesNonzero(f, xs, i);
    var den := Product(f, Differences(f, xs[i], ys));
    InverseNonzero(f, den);
    if Lambda(f, xs, i) == f.zero {
      NoZeroDivisors(f, Product(f, Differences(f, f.zero, ys)), f.inverse(den));
    }
  }
}
