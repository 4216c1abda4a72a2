/** When a whole ring holds its secret: exactly when all members' public shares lie on one
    polynomial with the ring's key. Rests on interpolation through arbitrary points. */
module Agreement {
  import opened Algebra
  import opened Polynomial
  import opened Lagrange
  import opened Threshold
  import opened Dkg
  import opened Lifecycle

  // ---------------------------------------------------------------------------
  // A polynomial through given points
  // ---------------------------------------------------------------------------

  /** The polynomial with the given zeros and leading coefficient one. */
  function Vanishing<S>(f: Field<S>, xs: seq<S>): (r: seq<S>)
    ensures |r| == |xs| + 1
  {
    if xs == [] then [f.one] else
    var q, s := Vanishing(f, xs[1..]), Scalars(f);
    Plus(s, [f.zero] + q, Times(s, q + [f.zero], f.neg(xs[0])))
  }

  lemma {:induction false} EvalShifted<S(!new)>(f: Field<S>, q: seq<S>, x: S)
    requires IsField(f)
    ensures Eval(Scalars(f), [f.zero] + q, x) == f.mul(Eval(Scalars(f), q, x), x)
    ensures Eval(Scalars(f), q + [f.zero], x) == Eval(Scalars(f), q, x)
  {
    var s, e := Scalars(f), Eval(Scalars(f), q, x);
    ScalarsAreGroup(f);
    assert ([f.zero] + q)[1..] == q;
    AddComm(f, f.zero, f.mul(e, x));
    AddZero(f, f.mul(e, x));
    EvalAppend(f, s, q, f.zero, x);
    MulComm(f, f.zero, Power(f, x, |q|));
    MulZero(f, Power(f, x, |q|));
    AddZero(f, e);
  }

  lemma {:induction false} VanishingEval<S(!new)>(f: Field<S>, xs: seq<S>, x: S)
    requires IsField(f)
    ensures Eval(Scalars(f), Vanishing(f, xs), x) == Product(f, Differences(f, x, xs))
  {
    var s := Scalars(f);
    ScalarsAreGroup(f);
    if xs == [] {
      assert Eval(s, [f.one][1..], x) == f.zero;
      MulComm(f, f.zero, x);
      MulZero(f, x);
      AddZero(f, f.one);
    } else {
      var q := Vanishing(f, xs[1..]);
      var e := Eval(s, q, x);
      VanishingEval(f, xs[1..], x);
      assert Differences(f, x, xs)[1..] == Differences(f, x, xs[1..]);
      EvalShifted(f, q, x);
      EvalPlus(f, s, [f.zero] + q, Times(s, q + [f.zero], f.neg(xs[0])), x);
      EvalTimes(f, s, q + [f.zero], f.neg(xs[0]), x);
      MulComm(f, e, x);
      MulComm(f, e, f.neg(xs[0]));
      Distribute(f, x, f.neg(xs[0]), e);
    }
  }

  /** Newton's interpolation, for points as values. */
  function Through<A, S>(f: Field<S>, g: Group<A, S>, xs: seq<S>, ys: seq<A>): (r: seq<A>)
    requires |xs| == |ys|
    ensures |r| == |xs|
  {
    if xs == [] then [] else
    var p := Through(f, g, xs[1..], ys[1..]);
    Plus(g, p + [g.zero], Commit(g, Leading(f, g, p, xs, ys[0]), Vanishing(f, xs[1..])))
  }

  /** What is missing at the first node, over the product of the differences to the others. */
  function Leading<A, S>(f: Field<S>, g: Group<A, S>, p: seq<A>, xs: seq<S>, y: A): A
    requires xs != []
  {
    g.mul(g.add(y, Minus(f, g, Eval(g, p, xs[0]))), f.inverse(Product(f, Differences(f, xs[0], xs[1..]))))
  }

  lemma {:induction false} ThroughEval<A(!new), S(!new)>(f: Field<S>, g: Group<A, S>, xs: seq<S>, ys: seq<A>, x: S)
    requires IsGroup(f, g) && |xs| == |ys| && xs != []
    ensures var p := Through(f, g, xs[1..], ys[1..]);
            Eval(g, Through(f, g, xs, ys), x)
            == g.add(Eval(g, p, x), g.mul(Leading(f, g, p, xs, ys[0]), Product(f, Differences(f, x, xs[1..]))))
  {
    var p := Through(f, g, xs[1..], ys[1..]);
    var lead, v := Leading(f, g, p, xs, ys[0]), Vanishing(f, xs[1..]);
    EvalPlus(f, g, p + [g.zero], Commit(g, lead, v), x);
    EvalCommit(f, g, lead, v, x);
    VanishingEval(f, xs[1..], x);
    EvalAppend(f, g, p, g.zero, x);
    assert g.mul(g.zero, Power(f, x, |p|)) == g.zero;
    PointZero(f, g, Eval(g, p, x));
  }

  lemma {:induction false} ZeroFactor<S(!new)>(f: Field<S>, s: seq<S>, k: nat)
    requires IsField(f) && k < |s| && s[k] == f.zero
    ensures Product(f, s) == f.zero
  {
    ProductDrop(f, s, k);
    MulComm(f, f.zero, Product(f, Drop(s, k)));
    MulZero(f, Product(f, Drop(s, k)));
  }

  /** p + (y - p) / d * d = y */
  lemma {:induction false} Completed<A(!new), S(!new)>(f: Field<S>, g: Group<A, S>, p: A, y: A, d: S)
    requires IsGroup(f, g) && d != f.zero
    ensures g.add(p, g.mul(g.mul(g.add(y, Minus(f, g, p)), f.inverse(d)), d)) == y
  {
    var m := g.add(y, Minus(f, g, p));
    ScalarDistribute(f, g, m, f.inverse(d), d);
    MulComm(f, f.inverse(d), d);
    MulInverse(f, d);
    PointZero(f, g, m);
    PointComm(f, g, p, m);
    PointAssoc(f, g, y, Minus(f, g, p), p);
    PointComm(f, g, Minus(f, g, p), p);
    PointNeg(f, g, p);
    PointZero(f, g, y);
  }

  lemma {:induction false} ThroughMeets<A(!new), S(!new)>(f: Field<S>, g: Group<A, S>, xs: seq<S>, ys: seq<A>, i: nat)
    requires IsGroup(f, g) && |xs| == |ys| && Distinct(xs) && i < |xs|
    ensures Eval(g, Through(f, g, xs, ys), xs[i]) == ys[i]
  {
    var p := Through(f, g, xs[1..], ys[1..]);
    ThroughEval(f, g, xs, ys, xs[i]);
    if i == 0 {
      DifferencesNonzero(f, xs, 0);
      assert Drop(xs, 0) == xs[1..];
      Completed(f, g, Eval(g, p, xs[0]), ys[0], Product(f, Differences(f, xs[0], xs[1..])));
    } else {
      ThroughMeets(f, g, xs[1..], ys[1..], i - 1);
      SubFacts(f, xs[i], xs[i]);
      ZeroFactor(f, Differences(f, xs[i], xs[1..]), i - 1);
      PointZero(f, g, Leading(f, g, p, xs, ys[0]));
      PointZero(f, g, ys[i]);
    }
  }

  /** The same polynomial with `t` coefficients. */
  function Padded<A, S>(g: Group<A, S>, p: seq<A>, t: nat): (r: seq<A>)
    requires |p| <= t
    ensures |r| == t
    decreases t
  {
    if |p| == t then p else Padded(g, p, t - 1) + [g.zero]
  }

  lemma {:induction false} PaddedEval<A(!new), S(!new)>(f: Field<S>, g: Group<A, S>, p: seq<A>, t: nat, x: S)
    requires IsGroup(f, g) && |p| <= t
    ensures Eval(g, Padded(g, p, t), x) == Eval(g, p, x)
    decreases t
  {
    if |p| < t {
      PaddedEval(f, g, p, t - 1, x);
      EvalAppend(f, g, Padded(g, p, t - 1), g.zero, x);
      assert g.mul(g.zero, Power(f, x, t - 1)) == g.zero;
      PointZero(f, g, Eval(g, p, x));
    }
  }

  // ---------------------------------------------------------------------------
  // One point of a group is determined by the others
  // ---------------------------------------------------------------------------

  /** Two lists of points that differ at most in one place have equal weighted sums exactly
      when they agree there, if the weight is not zero. */
  lemma {:induction false} OneDecides<A(!new), S(!new)>(
      f: Field<S>, g: Group<A, S>, ws: seq<S>, ps: seq<A>, qs: seq<A>, k: nat)
    requires IsGroup(f, g) && |ws| == |ps| == |qs| && k < |ws| && ws[k] != f.zero
    requires forall i :: 0 <= i < |ws| && i != k ==> ps[i] == qs[i]
    ensures SumPoints(g, WeightedPoints(g, ws, ps)) == SumPoints(g, WeightedPoints(g, ws, qs)) <==> ps[k] == qs[k]
  {
    var a, b := WeightedPoints(g, ws, ps), WeightedPoints(g, ws, qs);
    assert Drop(a, k) == Drop(b, k);
    SumPointsDrop(f, g, a, k);
    SumPointsDrop(f, g, b, k);
    PointCancel(f, g, a[k], b[k], SumPoints(g, Drop(a, k)));
    ScaleInjective(f, g, ps[k], qs[k], ws[k]);
  }

  // ---------------------------------------------------------------------------
  // The whole ring
  // ---------------------------------------------------------------------------

  /** Every group of exactly threshold members combines to the key. */
  ghost predicate EveryGroupHoldsKey<A, S>(c: Curve<A, S>, ring: Ring<A, S>, n: nat) {
    forall ids: seq<nat> :: MembersOf(ring, ids, n) && |ids| == ring.threshold ==>
      Combined(c, ring, ids, n) == ring.key
  }

  ghost predicate AllOn<A, S>(c: Curve<A, S>, ring: Ring<A, S>, p: seq<A>) {
    && |p| == ring.threshold && Eval(c.g, p, c.f.zero) == ring.key
    && forall i :: i in ring.members ==> LiesOn(c, ring, i, p)
  }

  ghost predicate LiesOn<A, S>(c: Curve<A, S>, ring: Ring<A, S>, i: nat, p: seq<A>)
    requires i in ring.members
  {
    Eval(c.g, ring.members[i].poly, c.embed(i)) == Eval(c.g, p, c.embed(i))
  }

  lemma {:induction false} Listed(s: set<nat>, n: nat) returns (ids: seq<nat>)
    requires forall i :: i in s ==> 1 <= i <= n
    ensures ValidIds(ids, n) && (forall i :: i in s <==> i in ids)
  {
    if s == {} {
      ids := [];
    } else {
      var x :| x in s;
      var rest := Listed(s - {x}, n);
      ids := [x] + rest;
      assert forall i :: i in s <==> i == x || i in s - {x};
    }
  }

  /** The polynomial through the key at zero and the public shares of the given members. */
  ghost function Candidate<A, S>(c: Curve<A, S>, ring: Ring<A, S>, ids: seq<nat>, n: nat): (p: seq<A>)
    requires MembersOf(ring, ids, n) && |ids| < ring.threshold
    ensures |p| == ring.threshold
  {
    var xs, ys := [c.f.zero] + Nodes(c, ids), [ring.key] + PublicShares(c, ring, ids, n);
    Padded(c.g, Through(c.f, c.g, xs, ys), ring.threshold)
  }

  lemma {:induction false} CandidateMeets<A(!new), S(!new)>(c: Curve<A, S>, ring: Ring<A, S>, ids: seq<nat>, n: nat)
    requires IsCurve(c, n) && MembersOf(ring, ids, n) && |ids| < ring.threshold
    ensures Eval(c.g, Candidate(c, ring, ids, n), c.f.zero) == ring.key
    ensures forall i :: 0 <= i < |ids| ==> LiesOn(c, ring, ids[i], Candidate(c, ring, ids, n))
  {
    var xs, ys := [c.f.zero] + Nodes(c, ids), [ring.key] + PublicShares(c, ring, ids, n);
    var p := Through(c.f, c.g, xs, ys);
    NodesDistinct(c, ids, n);
    ThroughMeets(c.f, c.g, xs, ys, 0);
    PaddedEval(c.f, c.g, p, ring.threshold, c.f.zero);
    forall i | 0 <= i < |ids| ensures LiesOn(c, ring, ids[i], Candidate(c, ring, ids, n)) {
      ThroughMeets(c.f, c.g, xs, ys, i + 1);
      PaddedEval(c.f, c.g, p, ring.threshold, c.embed(ids[i]));
    }
  }

  /** One more member of a group of threshold - 1 lies on the candidate, if the group with
      it combines to the key. */
  lemma {:induction false} OneMoreLies<A(!new), S(!new)>(
      c: Curve<A, S>, ring: Ring<A, S>, ids: seq<nat>, i: nat, n: nat)
    requires IsCurve(c, n) && MembersOf(ring, ids + [i], n) && MembersOf(ring, ids, n) && |ids| + 1 == ring.threshold
    requires Combined(c, ring, ids + [i], n) == ring.key
    ensures (ids + [i])[|ids|] == i && LiesOn(c, ring, i, Candidate(c, ring, ids, n))
  {
    var all, p := ids + [i], Candidate(c, ring, ids, n);
    var xs := Nodes(c, all);
    CandidateMeets(c, ring, ids, n);
    NodesDistinct(c, all, n);
    PointsAtZero(c.f, c.g, xs, p);
    LambdaNonzero(c.f, xs, |ids|);
    var ps, qs := PublicShares(c, ring, all, n), PointValues(c.g, p, xs);
    forall k | 0 <= k < |ids| ensures ps[k] == qs[k] { assert all[k] == ids[k] && LiesOn(c, ring, ids[k], p); }
    OneDecides(c.f, c.g, Lambdas(c.f, xs), ps, qs, |ids|);
  }

  /** A list of fewer than threshold members, and threshold - 1 if any are left out. */
  lemma {:induction false} Almost<A(!new), S(!new)>(c: Curve<A, S>, ring: Ring<A, S>, n: nat) returns (ids: seq<nat>)
    requires Held(c, ring, n)
    ensures MembersOf(ring, ids, n) && |ids| < ring.threshold
    ensures |ids| + 1 == ring.threshold || forall i :: i in ring.members ==> i in ids
  {
    ids := Listed(ring.members.Keys, n);
    if |ids| >= ring.threshold {
      var k := ring.threshold - 1;
      forall i | 0 <= i < k ensures ids[..k][i] in ring.members { assert ids[..k][i] == ids[i] && ids[i] in ids; }
      ids := ids[..k];
    }
  }

  lemma {:induction false} OtherLies<A(!new), S(!new)>(
      c: Curve<A, S>, ring: Ring<A, S>, ids: seq<nat>, i: nat, n: nat)
    requires IsCurve(c, n) && Held(c, ring, n) && EveryGroupHoldsKey(c, ring, n)
    requires MembersOf(ring, ids, n) && |ids| + 1 == ring.threshold && i in ring.members && i !in ids
    ensures LiesOn(c, ring, i, Candidate(c, ring, ids, n))
  {
    assert MembersOf(ring, ids + [i], n);
    OneMoreLies(c, ring, ids, i, n);
  }

  lemma {:induction false} GroupsFixPolynomial<A(!new), S(!new)>(c: Curve<A, S>, ring: Ring<A, S>, n: nat)
    returns (p: seq<A>)
    requires IsCurve(c, n) && Held(c, ring, n) && EveryGroupHoldsKey(c, ring, n)
    ensures AllOn(c, ring, p)
  {
    var ids := Almost(c, ring, n);
    p := Candidate(c, ring, ids, n);
    CandidateMeets(c, ring, ids, n);
    forall i | i in ring.members ensures LiesOn(c, ring, i, p) {
      if i in ids {
        var k :| 0 <= k < |ids| && ids[k] == i;
        assert LiesOn(c, ring, ids[k], p);
      } else {
        OtherLies(c, ring, ids, i, n);
      }
    }
  }

  /** Every group of threshold members of a held ring combines to the key exactly when one
      polynomial of the ring's length has that key and carries all members' public shares. */
  lemma {:induction false} WholeRingIff<A(!new), S(!new)>(c: Curve<A, S>, ring: Ring<A, S>, n: nat)
    requires IsCurve(c, n) && Held(c, ring, n)
    ensures EveryGroupHoldsKey(c, ring, n) <==> exists p: seq<A> :: AllOn(c, ring, p)
  {
    if EveryGroupHoldsKey(c, ring, n) {
      var p := GroupsFixPolynomial(c, ring, n);
    }
    if exists p: seq<A> :: AllOn(c, ring, p) {
      var p: seq<A> :| AllOn(c, ring, p);
      forall ids: seq<nat> | MembersOf(ring, ids, n) && |ids| == ring.threshold
        ensures Combined(c, ring, ids, n) == ring.key
      {
        assert forall i :: 0 <= i < |ids| ==> LiesOn(c, ring, ids[i], p);
        QuorumHoldsKey(c, ring, ids, p, n);
      }
    }
  }

  // ---------------------------------------------------------------------------
  // What a refresh is for
  // ---------------------------------------------------------------------------

  /** A quorum of refreshed members and one that kept its old share combines to the key
      exactly when the sum of the deltas shown to the first member vanishes at that member's
      identifier. The old share must have been one of the first member's old polynomial. */
  lemma {:induction false} StaleShareIff<A(!new), S(!new)>(
      c: Curve<A, S>, ring: Ring<A, S>, cer: Ceremony<A, S>, ids: seq<nat>, k: nat, n: nat)
    requires IsCurve(c, n) && Stores(c, ring, cer, n) && cer.Refresh?
    requires Quorum(Next(c, ring, cer, n), ids, n) && k < |ids| && ids[k] !in cer.stored
    requires forall i :: 0 <= i < |ids| && i != k ==> ids[i] in cer.stored
    requires LiesOn(c, ring, ids[k], ring.members[1].poly)
    ensures Combined(c, Next(c, ring, cer, n), ids, n) == ring.key
            <==> SumPoints(c.g, EvalAll(c.g, cer.views[1].commits, c.embed(ids[k]))) == c.g.zero
  {
    var staged, next, x := Staged(c, ring, cer, n), Next(c, ring, cer, n), c.embed(ids[k]);
    var q, xs := staged.members[1].poly, Nodes(c, ids);
    StagedHeld(c, ring, cer, n);
    assert Holds(c, staged, 1, staged.members[1]);
    var ps, qs := PublicShares(c, next, ids, n), PointValues(c.g, q, xs);
    forall i | 0 <= i < |ids| && i != k ensures ps[i] == qs[i] {
      assert next.members[ids[i]] == staged.members[ids[i]];
    }
    NodesDistinct(c, ids, n);
    PointsAtZero(c.f, c.g, xs, q);
    LambdaNonzero(c.f, xs, k);
    OneDecides(c.f, c.g, Lambdas(c.f, xs), ps, qs, k);
    assert next.members[ids[k]] == ring.members[ids[k]];
    DeltaAt(c, ring, cer, x, n);
  }

  /** Old and staged polynomial of the first member take the same value exactly where the
      deltas' sum vanishes. */
  lemma {:induction false} DeltaAt<A(!new), S(!new)>(
      c: Curve<A, S>, ring: Ring<A, S>, cer: Ceremony<A, S>, x: S, n: nat)
    requires IsCurve(c, n) && Stores(c, ring, cer, n) && cer.Refresh?
    ensures Eval(c.g, ring.members[1].poly, x) == Eval(c.g, Staged(c, ring, cer, n).members[1].poly, x)
            <==> SumPoints(c.g, EvalAll(c.g, cer.views[1].commits, x)) == c.g.zero
  {
    var p, delta := Eval(c.g, ring.members[1].poly, x), SumPoints(c.g, EvalAll(c.g, cer.views[1].commits, x));
    assert RefreshAccepted(c, ring, 1, cer.views[1]);
    assert Holds(c, ring, 1, ring.members[1]);
    RefreshedAt(c, ring, ring.members[1], cer.views[1], x);
    PointComm(c.f, c.g, p, delta);
    PointComm(c.f, c.g, p, c.g.zero);
    PointZero(c.f, c.g, p);
    PointCancel(c.f, c.g, delta, c.g.zero, p);
  }
}
