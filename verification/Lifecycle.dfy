/** A ring over its whole life: key generation, then any number of refreshes and
    reshares to other committees and thresholds. Dealers are arbitrary and may show every
    member other commitments. What a member checks of its own view, and what the first
    member checks before the result is stored, is all that is taken for granted. */
module Lifecycle {
  import opened Algebra
  import opened Polynomial
  import opened Lagrange
  import opened Threshold
  import opened Dkg

  // ---------------------------------------------------------------------------
  // Interpolation of points
  // ---------------------------------------------------------------------------

  function PointValues<A, S>(g: Group<A, S>, ps: seq<A>, xs: seq<S>): (r: seq<A>)
    ensures |r| == |xs|
  {
    seq(|xs|, i requires 0 <= i < |xs| => Eval(g, ps, xs[i]))
  }

  function WeightedPoints<A, S>(g: Group<A, S>, ws: seq<S>, ps: seq<A>): (r: seq<A>)
    requires |ws| == |ps|
    ensures |r| == |ps|
  {
    seq(|ps|, i requires 0 <= i < |ps| => g.mul(ps[i], ws[i]))
  }

  lemma {:induction false} SumPointsPlus<A(!new), S(!new)>(f: Field<S>, g: Group<A, S>, a: seq<A>, b: seq<A>)
    requires IsGroup(f, g) && |a| == |b|
    ensures SumPoints(g, Plus(g, a, b)) == g.add(SumPoints(g, a), SumPoints(g, b))
  {
    if a == [] {
      PointZero(f, g, g.zero);
    } else {
      assert Plus(g, a, b)[1..] == Plus(g, a[1..], b[1..]);
      SumPointsPlus(f, g, a[1..], b[1..]);
      PointSwap(f, g, a[0], b[0], SumPoints(g, a[1..]), SumPoints(g, b[1..]));
    }
  }

  lemma {:induction false} SumPointsTimes<A(!new), S(!new)>(f: Field<S>, g: Group<A, S>, a: seq<A>, s: S)
    requires IsGroup(f, g)
    ensures SumPoints(g, Times(g, a, s)) == g.mul(SumPoints(g, a), s)
  {
    if a == [] {
      assert g.mul(g.zero, s) == g.zero;
    } else {
      assert Times(g, a, s)[1..] == Times(g, a[1..], s);
      SumPointsTimes(f, g, a[1..], s);
      PointDistribute(f, g, a[0], SumPoints(g, a[1..]), s);
    }
  }

  lemma {:induction false} SumPointsDrop<A(!new), S(!new)>(f: Field<S>, g: Group<A, S>, a: seq<A>, k: nat)
    requires IsGroup(f, g) && k < |a|
    ensures SumPoints(g, a) == g.add(a[k], SumPoints(g, Drop(a, k)))
  {
    if k == 0 {
      assert Drop(a, 0) == a[1..];
    } else {
      SumPointsDrop(f, g, a[1..], k - 1);
      var d := Drop(a[1..], k - 1);
      assert Drop(a, k)[0] == a[0] && Drop(a, k)[1..] == d;
      PointAssoc(f, g, a[0], a[k], SumPoints(g, d));
      PointComm(f, g, a[0], a[k]);
      PointAssoc(f, g, a[k], a[0], SumPoints(g, d));
    }
  }

  lemma {:induction false} SumZeroPoints<A(!new), S(!new)>(f: Field<S>, g: Group<A, S>, a: seq<A>)
    requires IsGroup(f, g) && forall i :: 0 <= i < |a| ==> a[i] == g.zero
    ensures SumPoints(g, a) == g.zero
  {
    if a != [] {
      SumZeroPoints(f, g, a[1..]);
      PointZero(f, g, g.zero);
    }
  }

  /** The weighted sum of the powers x_i^k is 0^k. */
  lemma {:induction false} PowersAtZero<S(!new)>(f: Field<S>, xs: seq<S>, k: nat)
    requires IsField(f) && Distinct([f.zero] + xs) && k < |xs|
    ensures Sum(f, Combination(f, xs, seq(|xs|, i requires 0 <= i < |xs| => Power(f, xs[i], k)))) == Power(f, f.zero, k)
  {
    var s := Scalars(f);
    ScalarsAreGroup(f);
    var mono := ZeroPoly(s, k) + [f.one];
    forall x ensures Eval(s, mono, x) == Power(f, x, k) {
      EvalAppend(f, s, ZeroPoly(s, k), f.one, x);
      EvalZeroPoly(f, s, k, x);
      MulOne(f, Power(f, x, k));
      AddZero(f, Power(f, x, k));
    }
    assert Values(f, mono, xs) == seq(|xs|, i requires 0 <= i < |xs| => Power(f, xs[i], k));
    InterpolatesAtZero(f, xs, mono);
  }

  /** Interpolation holds for any points as coefficients, committed to by somebody or not. */
  lemma {:induction false} PointsAtZero<A(!new), S(!new)>(f: Field<S>, g: Group<A, S>, xs: seq<S>, ps: seq<A>)
    requires IsGroup(f, g) && Distinct([f.zero] + xs) && |ps| <= |xs|
    ensures SumPoints(g, WeightedPoints(g, Lambdas(f, xs), PointValues(g, ps, xs))) == Eval(g, ps, f.zero)
    decreases |ps|
  {
    var ls := Lambdas(f, xs);
    var ws := WeightedPoints(g, ls, PointValues(g, ps, xs));
    if ps == [] {
      forall i | 0 <= i < |xs| ensures ws[i] == g.zero { assert g.mul(g.zero, ls[i]) == g.zero; }
      SumZeroPoints(f, g, ws);
    } else {
      var k := |ps| - 1;
      var qs, c := ps[..k], ps[k];
      assert ps == qs + [c];
      PointsAtZero(f, g, xs, qs);
      var us := WeightedPoints(g, ls, PointValues(g, qs, xs));
      var powers := seq(|xs|, i requires 0 <= i < |xs| => Power(f, xs[i], k));
      var vs := Combination(f, xs, powers);
      forall i | 0 <= i < |xs| ensures ws[i] == g.add(us[i], g.mul(c, vs[i])) {
        EvalAppend(f, g, qs, c, xs[i]);
        PointDistribute(f, g, Eval(g, qs, xs[i]), g.mul(c, powers[i]), ls[i]);
        ScalarDistribute(f, g, c, powers[i], ls[i]);
      }
      assert ws == Plus(g, us, Commit(g, c, vs));
      SumPointsPlus(f, g, us, Commit(g, c, vs));
      SumCommits(f, g, c, vs);
      PowersAtZero(f, xs, k);
      EvalAppend(f, g, qs, c, f.zero);
    }
  }

  // ---------------------------------------------------------------------------
  // The ring
  // ---------------------------------------------------------------------------

  /** The members that store a ring under one key. */
  datatype Ring<+A, +S> = Ring(key: A, threshold: nat, members: map<nat, Member<A, S>>)

  /** Every member holds a share of its own polynomial, and that has the ring's key. */
  ghost predicate Held<A, S>(c: Curve<A, S>, ring: Ring<A, S>, n: nat) {
    && ring.threshold >= 1
    && (forall i :: i in ring.members ==> 1 <= i <= n && Holds(c, ring, i, ring.members[i]))
  }

  predicate Holds<A(==), S>(c: Curve<A, S>, ring: Ring<A, S>, i: nat, m: Member<A, S>) {
    && |m.poly| == ring.threshold && Eval(c.g, m.poly, c.f.zero) == ring.key
    && Matches(c, m.poly, c.embed(i), m.share)
  }

  ghost predicate MembersOf<A, S>(ring: Ring<A, S>, ids: seq<nat>, n: nat) {
    ValidIds(ids, n) && forall i :: 0 <= i < |ids| ==> ids[i] in ring.members
  }

  ghost predicate Quorum<A, S>(ring: Ring<A, S>, ids: seq<nat>, n: nat) {
    MembersOf(ring, ids, n) && |ids| >= ring.threshold
  }

  /** Key generation: the ring is the members whose sums of commitments have its key. */
  ghost predicate Generated<A, S>(c: Curve<A, S>, ring: Ring<A, S>, views: map<nat, View<A, S>>, n: nat) {
    && ring.threshold >= 1 && ring.members.Keys == views.Keys
    && forall i :: i in views ==>
         && 1 <= i <= n && Checked(c, i, ring.threshold, views[i])
         && ring.members[i] == Summed(c, ring.threshold, views[i])
         && Eval(c.g, ring.members[i].poly, c.f.zero) == ring.key
  }

  lemma {:induction false} GeneratedHeld<A(!new), S(!new)>(
      c: Curve<A, S>, ring: Ring<A, S>, views: map<nat, View<A, S>>, n: nat)
    requires IsCurve(c, n) && Generated(c, ring, views, n)
    ensures Held(c, ring, n)
  {
    forall i | i in ring.members ensures Holds(c, ring, i, ring.members[i]) {
      SummedMatches(c, i, ring.threshold, views[i]);
    }
  }

  // ---------------------------------------------------------------------------
  // Ceremonies
  // ---------------------------------------------------------------------------

  /** What each member that finished was shown, who signed for the result, and who stored
      it. Only members that finished can sign or store. */
  datatype Ceremony<+A, +S> =
    | Refresh(views: map<nat, View<A, S>>, signers: seq<nat>, stored: set<nat>)
    | Reshare(threshold: nat, views: map<nat, View<A, S>>, signers: seq<nat>, stored: set<nat>)

  /** In a refresh every constant term must be the identity. */
  ghost predicate RefreshAccepted<A, S>(c: Curve<A, S>, ring: Ring<A, S>, i: nat, v: View<A, S>) {
    && Checked(c, i, ring.threshold, v)
    && forall d :: 0 <= d < |v.commits| ==> v.commits[d] != [] && v.commits[d][0] == c.g.zero
  }

  /** A reshare must arrive at the ring's key. */
  ghost predicate ReshareAccepted<A, S>(c: Curve<A, S>, key: A, i: nat, t: nat, v: View<A, S>, n: nat) {
    && ValidIds(v.dealers, n) && v.dealers != []
    && Checked(c, i, t, v)
    && Eval(c.g, NewMember(c, t, v).poly, c.f.zero) == key
  }

  /** Every member that finished accepted its own view. */
  ghost predicate Accepted<A, S>(c: Curve<A, S>, ring: Ring<A, S>, cer: Ceremony<A, S>, n: nat) {
    match cer
    case Refresh(views, _, _) =>
      forall i :: i in views ==> i in ring.members && RefreshAccepted(c, ring, i, views[i])
    case Reshare(t, views, _, _) =>
      t >= 1 && forall i :: i in views ==> 1 <= i <= n && ReshareAccepted(c, ring.key, i, t, views[i], n)
  }

  /** A refresh adds the deltas to share and polynomial. */
  ghost function Refreshed<A, S>(c: Curve<A, S>, ring: Ring<A, S>, m: Member<A, S>, v: View<A, S>): Member<A, S>
    requires |m.poly| == ring.threshold && AllLength(v.commits, ring.threshold)
  {
    var delta := Summed(c, ring.threshold, v);
    Member(Plus(c.g, m.poly, delta.poly), c.f.add(m.share, delta.share))
  }

  /** What the members that finished hold before anything is stored. */
  ghost function Staged<A, S>(c: Curve<A, S>, ring: Ring<A, S>, cer: Ceremony<A, S>, n: nat): Ring<A, S>
    requires Held(c, ring, n) && Accepted(c, ring, cer, n)
  {
    match cer
    case Refresh(views, _, _) =>
      ring.(members := map i | i in views :: Refreshed(c, ring, ring.members[i], views[i]))
    case Reshare(t, views, _, _) =>
      Ring(ring.key, t, map i | i in views :: NewMember(c, t, views[i]))
  }

  /** The first member collects a quorum's signature over the result, holding every
      signer's share against the polynomial it staged itself. A reshare is then stored by
      whoever sees it confirmed, a refresh only by members that staged that polynomial. */
  ghost predicate Confirmed<A, S>(c: Curve<A, S>, ring: Ring<A, S>, cer: Ceremony<A, S>, n: nat)
    requires Held(c, ring, n) && Accepted(c, ring, cer, n)
  {
    var staged := Staged(c, ring, cer, n);
    && 1 in cer.views && Quorum(staged, cer.signers, n)
    && (forall i :: 0 <= i < |cer.signers| ==> SignsUnder(c, staged, cer.signers[i], staged.members[1].poly))
    && cer.stored <= cer.views.Keys
    && (cer.Refresh? ==> forall i :: i in cer.stored ==> staged.members[i].poly == staged.members[1].poly)
  }

  /** A member's share passes as one of polynomial `p`. */
  ghost predicate SignsUnder<A, S>(c: Curve<A, S>, ring: Ring<A, S>, i: nat, p: seq<A>) {
    i in ring.members && Matches(c, p, c.embed(i), ring.members[i].share)
  }

  ghost predicate Stores<A, S>(c: Curve<A, S>, ring: Ring<A, S>, cer: Ceremony<A, S>, n: nat) {
    Held(c, ring, n) && Accepted(c, ring, cer, n) && Confirmed(c, ring, cer, n)
  }

  /** Members that do not store a refresh keep what they had; those that do not store a
      reshare are not members of the new ring. */
  ghost function Next<A, S>(c: Curve<A, S>, ring: Ring<A, S>, cer: Ceremony<A, S>, n: nat): Ring<A, S>
    requires Stores(c, ring, cer, n)
  {
    var staged := Staged(c, ring, cer, n);
    match cer
    case Refresh(_, _, stored) =>
      ring.(members := map i | i in ring.members :: if i in stored then staged.members[i] else ring.members[i])
    case Reshare(_, _, _, stored) =>
      staged.(members := map i | i in stored :: staged.members[i])
  }

  // ---------------------------------------------------------------------------
  // One ceremony
  // ---------------------------------------------------------------------------

  lemma {:induction false} PlusMatches<A(!new), S(!new)>(c: Curve<A, S>, p: seq<A>, q: seq<A>, x: S, v: S, w: S)
    requires IsGroup(c.f, c.g) && |p| == |q| && Matches(c, p, x, v) && Matches(c, q, x, w)
    ensures Matches(c, Plus(c.g, p, q), x, c.f.add(v, w))
  {
    EvalPlus(c.f, c.g, p, q, x);
    ScalarDistribute(c.f, c.g, c.base, v, w);
  }

  lemma {:induction false} SumConstants<A(!new), S(!new)>(f: Field<S>, g: Group<A, S>, polys: seq<seq<A>>, m: nat)
    requires IsGroup(f, g) && m >= 1 && AllLength(polys, m) && forall d :: 0 <= d < |polys| ==> polys[d][0] == g.zero
    ensures SumPolys(g, polys, m)[0] == g.zero
  {
    if polys != [] {
      SumConstants(f, g, polys[1..], m);
      PointZero(f, g, g.zero);
    }
  }

  /** A refreshed polynomial takes at every point the old value plus the values of all
      commitments shown, and the share grows by every value received. */
  lemma {:induction false} RefreshedAt<A(!new), S(!new)>(
      c: Curve<A, S>, ring: Ring<A, S>, m: Member<A, S>, v: View<A, S>, x: S)
    requires IsGroup(c.f, c.g) && |m.poly| == ring.threshold && AllLength(v.commits, ring.threshold)
    ensures Eval(c.g, Refreshed(c, ring, m, v).poly, x)
            == c.g.add(Eval(c.g, m.poly, x), SumPoints(c.g, EvalAll(c.g, v.commits, x)))
    ensures Refreshed(c, ring, m, v).share == Sum(c.f, [m.share] + v.received)
  {
    EvalPlus(c.f, c.g, m.poly, SumPolys(c.g, v.commits, ring.threshold), x);
    EvalSum(c.f, c.g, v.commits, ring.threshold, x);
    assert ([m.share] + v.received)[1..] == v.received;
  }

  /** A refresh keeps a member's public key: the guard on the staged key never fires. */
  lemma {:induction false} RefreshKeepsKey<A(!new), S(!new)>(
      c: Curve<A, S>, ring: Ring<A, S>, i: nat, m: Member<A, S>, v: View<A, S>)
    requires IsGroup(c.f, c.g) && ring.threshold >= 1 && |m.poly| == ring.threshold && RefreshAccepted(c, ring, i, v)
    ensures Eval(c.g, Refreshed(c, ring, m, v).poly, c.f.zero) == Eval(c.g, m.poly, c.f.zero)
  {
    var t := ring.threshold;
    SumConstants(c.f, c.g, v.commits, t);
    EvalAtZero(c.f, c.g, m.poly);
    EvalAtZero(c.f, c.g, Plus(c.g, m.poly, SumPolys(c.g, v.commits, t)));
    PointZero(c.f, c.g, m.poly[0]);
  }

  /** When enough dealers each deal the share they hold, whatever else they choose, the
      new polynomial has the ring's key: the guard on the reshared key passes. */
  lemma {:induction false} ReshareReachesKey<A(!new), S(!new)>(
      c: Curve<A, S>, publicPoly: seq<A>, commits: seq<seq<A>>, dealers: seq<nat>, t: nat, n: nat)
    requires IsCurve(c, n) && ValidIds(dealers, n) && |dealers| == |commits| && |publicPoly| <= |dealers|
    requires t >= 1 && AllLength(commits, t)
    requires forall d :: 0 <= d < |dealers| ==> commits[d][0] == Eval(c.g, publicPoly, c.embed(dealers[d]))
    ensures Eval(c.g, Reshared(c, commits, dealers, t), c.f.zero) == Eval(c.g, publicPoly, c.f.zero)
  {
    var xs := Nodes(c, dealers);
    var ls := Lambdas(c.f, xs);
    var polys := WeightedPolys(c.g, ls, commits);
    EvalSum(c.f, c.g, polys, t, c.f.zero);
    var ws := WeightedPoints(c.g, ls, PointValues(c.g, publicPoly, xs));
    forall d | 0 <= d < |dealers| ensures EvalAll(c.g, polys, c.f.zero)[d] == ws[d] {
      EvalTimes(c.f, c.g, commits[d], ls[d], c.f.zero);
      EvalAtZero(c.f, c.g, commits[d]);
    }
    assert EvalAll(c.g, polys, c.f.zero) == ws;
    NodesDistinct(c, dealers, n);
    PointsAtZero(c.f, c.g, xs, publicPoly);
  }

  lemma {:induction false} RefreshedHolds<A(!new), S(!new)>(
      c: Curve<A, S>, ring: Ring<A, S>, i: nat, v: View<A, S>, n: nat)
    requires IsCurve(c, n) && Held(c, ring, n) && i in ring.members && RefreshAccepted(c, ring, i, v)
    ensures Holds(c, ring, i, Refreshed(c, ring, ring.members[i], v))
  {
    var m, delta := ring.members[i], Summed(c, ring.threshold, v);
    RefreshKeepsKey(c, ring, i, m, v);
    SummedMatches(c, i, ring.threshold, v);
    PlusMatches(c, m.poly, delta.poly, c.embed(i), m.share, delta.share);
  }

  /** Whatever the dealers did, whoever finishes holds a share of the polynomial it
      computed, under the ring's key. */
  lemma {:induction false} StagedHeld<A(!new), S(!new)>(c: Curve<A, S>, ring: Ring<A, S>, cer: Ceremony<A, S>, n: nat)
    requires IsCurve(c, n) && Held(c, ring, n) && Accepted(c, ring, cer, n)
    ensures Held(c, Staged(c, ring, cer, n), n) && Staged(c, ring, cer, n).key == ring.key
  {
    var staged := Staged(c, ring, cer, n);
    forall i | i in staged.members ensures Holds(c, staged, i, staged.members[i]) {
      match cer
      case Refresh(views, _, _) =>
        RefreshedHolds(c, ring, i, views[i], n);
      case Reshare(t, views, _, _) =>
        NewMemberMatches(c, i, t, views[i]);
    }
  }

  /** What is stored is held under the same key, and whoever does not store keeps what it held. */
  lemma {:induction false} NextHeld<A(!new), S(!new)>(c: Curve<A, S>, ring: Ring<A, S>, cer: Ceremony<A, S>, n: nat)
    requires IsCurve(c, n) && Stores(c, ring, cer, n)
    ensures Held(c, Next(c, ring, cer, n), n) && Next(c, ring, cer, n).key == ring.key
  {
    StagedHeld(c, ring, cer, n);
    var staged, next := Staged(c, ring, cer, n), Next(c, ring, cer, n);
    forall i | i in next.members ensures Holds(c, next, i, next.members[i]) {
      if i in cer.stored {
        assert Holds(c, staged, i, staged.members[i]);
      } else {
        assert Holds(c, ring, i, ring.members[i]);
      }
    }
  }

  // ---------------------------------------------------------------------------
  // Every generation
  // ---------------------------------------------------------------------------

  /** `rings` are successive generations, the first one held, under stored ceremonies. */
  ghost predicate History<A(!new), S(!new)>(c: Curve<A, S>, rings: seq<Ring<A, S>>, cers: seq<Ceremony<A, S>>, n: nat) {
    && |rings| == |cers| + 1 && Held(c, rings[0], n)
    && forall k :: 0 <= k < |cers| ==> Succeeds(c, rings[k], cers[k], rings[k + 1], n)
  }

  ghost predicate Succeeds<A, S>(c: Curve<A, S>, ring: Ring<A, S>, cer: Ceremony<A, S>, next: Ring<A, S>, n: nat) {
    Held(c, ring, n) ==> Stores(c, ring, cer, n) && next == Next(c, ring, cer, n)
  }

  /** Over any history, with any dealers, every generation is held under the first key. */
  lemma {:induction false} EveryGeneration<A(!new), S(!new)>(
      c: Curve<A, S>, rings: seq<Ring<A, S>>, cers: seq<Ceremony<A, S>>, n: nat, k: nat)
    requires IsCurve(c, n) && History(c, rings, cers, n) && k < |rings|
    ensures Held(c, rings[k], n) && rings[k].key == rings[0].key
    ensures k < |cers| ==> Stores(c, rings[k], cers[k], n) && rings[k + 1] == Next(c, rings[k], cers[k], n)
  {
    if k != 0 {
      EveryGeneration(c, rings, cers, n, k - 1);
      NextHeld(c, rings[k - 1], cers[k - 1], n);
    }
    if k < |cers| { assert Succeeds(c, rings[k], cers[k], rings[k + 1], n); }
  }

  // ---------------------------------------------------------------------------
  // What a group of members holds together
  // ---------------------------------------------------------------------------

  ghost function Shares<A, S>(ring: Ring<A, S>, ids: seq<nat>, n: nat): (r: seq<S>)
    requires MembersOf(ring, ids, n)
    ensures |r| == |ids|
  {
    seq(|ids|, i requires 0 <= i < |ids| => ring.members[ids[i]].share)
  }

  /** Every member's own polynomial at its own index: what each can publish of its share. */
  ghost function PublicShares<A, S>(c: Curve<A, S>, ring: Ring<A, S>, ids: seq<nat>, n: nat): (r: seq<A>)
    requires MembersOf(ring, ids, n)
    ensures |r| == |ids|
  {
    seq(|ids|, i requires 0 <= i < |ids| => Eval(c.g, ring.members[ids[i]].poly, c.embed(ids[i])))
  }

  /** The secret a group reconstructs from its shares. */
  ghost function Reconstructed<A, S>(c: Curve<A, S>, ring: Ring<A, S>, ids: seq<nat>, n: nat): S
    requires MembersOf(ring, ids, n)
  {
    Sum(c.f, WeightedShares(c.f, Lambdas(c.f, Nodes(c, ids)), Shares(ring, ids, n)))
  }

  /** The same combination of what is public. */
  ghost function Combined<A, S>(c: Curve<A, S>, ring: Ring<A, S>, ids: seq<nat>, n: nat): A
    requires MembersOf(ring, ids, n)
  {
    SumPoints(c.g, WeightedPoints(c.g, Lambdas(c.f, Nodes(c, ids)), PublicShares(c, ring, ids, n)))
  }

  /** The weighted shares, times any point, sum to the point times the weighted sum. */
  lemma {:induction false} WeightedCommits<A(!new), S(!new)>(
      f: Field<S>, g: Group<A, S>, point: A, ws: seq<S>, vs: seq<S>)
    requires IsGroup(f, g) && |ws| == |vs|
    ensures SumPoints(g, WeightedPoints(g, ws, Commit(g, point, vs))) == g.mul(point, Sum(f, WeightedShares(f, ws, vs)))
  {
    var products := WeightedShares(f, ws, vs);
    forall i | 0 <= i < |vs| ensures WeightedPoints(g, ws, Commit(g, point, vs))[i] == Commit(g, point, products)[i] {
      ScalarDistribute(f, g, point, vs[i], ws[i]);
      MulComm(f, vs[i], ws[i]);
    }
    assert WeightedPoints(g, ws, Commit(g, point, vs)) == Commit(g, point, products);
    SumCommits(f, g, point, products);
  }

  /** The reconstructed secret is the logarithm of the public combination. */
  lemma {:induction false} ReconstructedPoint<A(!new), S(!new)>(c: Curve<A, S>, ring: Ring<A, S>, ids: seq<nat>, n: nat)
    requires IsCurve(c, n) && Held(c, ring, n) && MembersOf(ring, ids, n)
    ensures c.g.mul(c.base, Reconstructed(c, ring, ids, n)) == Combined(c, ring, ids, n)
  {
    var vs, ps := Shares(ring, ids, n), PublicShares(c, ring, ids, n);
    forall i | 0 <= i < |ids| ensures Commit(c.g, c.base, vs)[i] == ps[i] {
      assert Holds(c, ring, ids[i], ring.members[ids[i]]);
    }
    assert Commit(c.g, c.base, vs) == ps;
    WeightedCommits(c.f, c.g, c.base, Lambdas(c.f, Nodes(c, ids)), vs);
  }

  /** Two groups, of any two generations, reconstruct the same secret exactly when their
      public combinations are equal. */
  lemma {:induction false} SameSecretIff<A(!new), S(!new)>(
      c: Curve<A, S>, rings: seq<Ring<A, S>>, cers: seq<Ceremony<A, S>>, n: nat, j: nat, ids: seq<nat>, k: nat,
      ids': seq<nat>)
    requires IsCurve(c, n) && History(c, rings, cers, n)
    requires j < |rings| && MembersOf(rings[j], ids, n) && k < |rings| && MembersOf(rings[k], ids', n)
    ensures Reconstructed(c, rings[j], ids, n) == Reconstructed(c, rings[k], ids', n)
            <==> Combined(c, rings[j], ids, n) == Combined(c, rings[k], ids', n)
  {
    EveryGeneration(c, rings, cers, n, j);
    EveryGeneration(c, rings, cers, n, k);
    ReconstructedPoint(c, rings[j], ids, n);
    ReconstructedPoint(c, rings[k], ids', n);
    var s, s' := Reconstructed(c, rings[j], ids, n), Reconstructed(c, rings[k], ids', n);
    if c.g.mul(c.base, s) == c.g.mul(c.base, s') { BaseInjective(c, n, s, s'); }
  }

  /** What a group's members published lies on polynomial `p`. */
  ghost predicate Agree<A, S>(c: Curve<A, S>, ring: Ring<A, S>, ids: seq<nat>, p: seq<A>, n: nat)
    requires MembersOf(ring, ids, n)
  {
    forall i :: 0 <= i < |ids| ==> PublicShares(c, ring, ids, n)[i] == Eval(c.g, p, c.embed(ids[i]))
  }

  /** The members hold shares of one polynomial exactly when what they published lies on it;
      in particular when they all computed it. */
  lemma {:induction false} AgreeIff<A(!new), S(!new)>(
      c: Curve<A, S>, ring: Ring<A, S>, ids: seq<nat>, p: seq<A>, n: nat)
    requires IsCurve(c, n) && Held(c, ring, n) && MembersOf(ring, ids, n)
    ensures Agree(c, ring, ids, p, n)
            <==> forall i :: 0 <= i < |ids| ==> Matches(c, p, c.embed(ids[i]), Shares(ring, ids, n)[i])
    ensures (forall i :: 0 <= i < |ids| ==> ring.members[ids[i]].poly == p) ==> Agree(c, ring, ids, p, n)
  {
    forall i | 0 <= i < |ids|
      ensures PublicShares(c, ring, ids, n)[i] == c.g.mul(c.base, Shares(ring, ids, n)[i])
    {
      assert Holds(c, ring, ids[i], ring.members[ids[i]]);
    }
  }

  /** A quorum whose public shares lie on one polynomial with the ring's key, no longer than
      the group, holds the ring's secret. */
  lemma {:induction false} QuorumHoldsKey<A(!new), S(!new)>(
      c: Curve<A, S>, ring: Ring<A, S>, ids: seq<nat>, p: seq<A>, n: nat)
    requires IsCurve(c, n) && Held(c, ring, n) && MembersOf(ring, ids, n) && |p| <= |ids|
    requires Agree(c, ring, ids, p, n) && Eval(c.g, p, c.f.zero) == ring.key
    ensures Combined(c, ring, ids, n) == ring.key == c.g.mul(c.base, Reconstructed(c, ring, ids, n))
  {
    var xs := Nodes(c, ids);
    assert PublicShares(c, ring, ids, n) == PointValues(c.g, p, xs);
    NodesDistinct(c, ids, n);
    PointsAtZero(c.f, c.g, xs, p);
    ReconstructedPoint(c, ring, ids, n);
  }

  // ---------------------------------------------------------------------------
  // The groups the checks vouch for
  // ---------------------------------------------------------------------------

  /** Whatever the dealers showed, the signers of a confirmed ceremony hold the secret of
      the ring's key in what they staged. */
  lemma {:induction false} SignersHoldKey<A(!new), S(!new)>(
      c: Curve<A, S>, ring: Ring<A, S>, cer: Ceremony<A, S>, n: nat)
    requires IsCurve(c, n) && Stores(c, ring, cer, n)
    ensures var staged := Staged(c, ring, cer, n);
            Combined(c, staged, cer.signers, n) == ring.key == c.g.mul(c.base, Reconstructed(c, staged, cer.signers, n))
  {
    var staged := Staged(c, ring, cer, n);
    StagedHeld(c, ring, cer, n);
    assert Holds(c, staged, 1, staged.members[1]);
    AgreeIff(c, staged, cer.signers, staged.members[1].poly, n);
    QuorumHoldsKey(c, staged, cer.signers, staged.members[1].poly, n);
  }

  /** Member `i` stored the ceremony's result under a check against the first member's
      polynomial: it signed, or it compared the polynomials. */
  predicate Backs<A, S>(cer: Ceremony<A, S>, i: nat) { i in cer.stored && (cer.Refresh? || i in cer.signers) }

  predicate AllBack<A, S>(cer: Ceremony<A, S>, ids: seq<nat>) { forall i :: 0 <= i < |ids| ==> Backs(cer, ids[i]) }

  /** None of the group stored the refresh. */
  predicate AllKept<A, S>(cer: Ceremony<A, S>, ids: seq<nat>) {
    cer.Refresh? && forall i :: 0 <= i < |ids| ==> ids[i] !in cer.stored
  }

  lemma {:induction false} BackersAgree<A(!new), S(!new)>(
      c: Curve<A, S>, ring: Ring<A, S>, cer: Ceremony<A, S>, ids: seq<nat>, n: nat)
    requires IsCurve(c, n) && Stores(c, ring, cer, n)
    requires MembersOf(Next(c, ring, cer, n), ids, n) && AllBack(cer, ids)
    ensures Agree(c, Next(c, ring, cer, n), ids, Staged(c, ring, cer, n).members[1].poly, n)
  {
    var staged, next := Staged(c, ring, cer, n), Next(c, ring, cer, n);
    var p := staged.members[1].poly;
    StagedHeld(c, ring, cer, n);
    forall i | 0 <= i < |ids| ensures PublicShares(c, next, ids, n)[i] == Eval(c.g, p, c.embed(ids[i])) {
      assert Backs(cer, ids[i]);
      assert next.members[ids[i]] == staged.members[ids[i]];
      if cer.Reshare? {
        assert Holds(c, staged, ids[i], staged.members[ids[i]]);
        var k :| 0 <= k < |cer.signers| && cer.signers[k] == ids[i];
        assert SignsUnder(c, staged, cer.signers[k], p);
      }
    }
  }

  /** The group's public shares lie on one member's polynomial. */
  ghost predicate AgreeOnOne<A, S>(c: Curve<A, S>, ring: Ring<A, S>, ids: seq<nat>, n: nat)
    requires MembersOf(ring, ids, n)
  {
    exists j :: j in ring.members && Agree(c, ring, ids, ring.members[j].poly, n)
  }

  /** A group of generation `k` is vouched for when all of it backed the ceremony that made
      the generation, or none of it stored that refresh and it was vouched for before. For
      the first generation, when its public shares lie on one member's polynomial. */
  ghost predicate Vouched<A, S>(
      c: Curve<A, S>, rings: seq<Ring<A, S>>, cers: seq<Ceremony<A, S>>, n: nat, k: nat, ids: seq<nat>)
    requires |rings| == |cers| + 1 && k < |rings| && MembersOf(rings[k], ids, n)
    decreases k
  {
    if k == 0 then AgreeOnOne(c, rings[0], ids, n) else
    || AllBack(cers[k - 1], ids)
    || (AllKept(cers[k - 1], ids) && MembersOf(rings[k - 1], ids, n) && Vouched(c, rings, cers, n, k - 1, ids))
  }

  /** The group's public combination is the key, and what it reconstructs the key's secret. */
  ghost predicate HoldsKey<A, S>(c: Curve<A, S>, ring: Ring<A, S>, ids: seq<nat>, n: nat, key: A)
    requires MembersOf(ring, ids, n)
  {
    Combined(c, ring, ids, n) == key == c.g.mul(c.base, Reconstructed(c, ring, ids, n))
  }

  lemma {:induction false} FirstHoldsKey<A(!new), S(!new)>(
      c: Curve<A, S>, ring: Ring<A, S>, ids: seq<nat>, n: nat)
    requires IsCurve(c, n) && Held(c, ring, n) && Quorum(ring, ids, n) && AgreeOnOne(c, ring, ids, n)
    ensures HoldsKey(c, ring, ids, n, ring.key)
  {
    var j :| j in ring.members && Agree(c, ring, ids, ring.members[j].poly, n);
    assert Holds(c, ring, j, ring.members[j]);
    QuorumHoldsKey(c, ring, ids, ring.members[j].poly, n);
  }

  lemma {:induction false} BackersHoldKey<A(!new), S(!new)>(
      c: Curve<A, S>, ring: Ring<A, S>, cer: Ceremony<A, S>, ids: seq<nat>, n: nat)
    requires IsCurve(c, n) && Stores(c, ring, cer, n)
    requires Quorum(Next(c, ring, cer, n), ids, n) && AllBack(cer, ids)
    ensures HoldsKey(c, Next(c, ring, cer, n), ids, n, ring.key)
  {
    var staged := Staged(c, ring, cer, n);
    StagedHeld(c, ring, cer, n);
    assert Holds(c, staged, 1, staged.members[1]);
    NextHeld(c, ring, cer, n);
    BackersAgree(c, ring, cer, ids, n);
    QuorumHoldsKey(c, Next(c, ring, cer, n), ids, staged.members[1].poly, n);
  }

  lemma {:induction false} KeptHoldsKey<A(!new), S(!new)>(
      c: Curve<A, S>, ring: Ring<A, S>, cer: Ceremony<A, S>, ids: seq<nat>, n: nat, key: A)
    requires Stores(c, ring, cer, n) && AllKept(cer, ids)
    requires MembersOf(ring, ids, n) && HoldsKey(c, ring, ids, n, key)
    ensures MembersOf(Next(c, ring, cer, n), ids, n) && HoldsKey(c, Next(c, ring, cer, n), ids, n, key)
  {
    var next := Next(c, ring, cer, n);
    assert forall i :: 0 <= i < |ids| ==> next.members[ids[i]] == ring.members[ids[i]];
    assert PublicShares(c, next, ids, n) == PublicShares(c, ring, ids, n);
    assert Shares(next, ids, n) == Shares(ring, ids, n);
  }

  lemma {:induction false} KeptThreshold<A(!new), S(!new)>(
      c: Curve<A, S>, ring: Ring<A, S>, cer: Ceremony<A, S>, n: nat)
    requires Stores(c, ring, cer, n) && cer.Refresh?
    ensures Next(c, ring, cer, n).threshold == ring.threshold
  {
  }

  /** Every quorum vouched for, of any generation, holds the secret of the first key. */
  lemma {:induction false} VouchedHoldsKey<A(!new), S(!new)>(
      c: Curve<A, S>, rings: seq<Ring<A, S>>, cers: seq<Ceremony<A, S>>, n: nat, k: nat, ids: seq<nat>)
    requires IsCurve(c, n) && History(c, rings, cers, n)
    requires k < |rings| && Quorum(rings[k], ids, n) && Vouched(c, rings, cers, n, k, ids)
    ensures HoldsKey(c, rings[k], ids, n, rings[0].key)
    decreases k
  {
    if k == 0 {
      FirstHoldsKey(c, rings[0], ids, n);
    } else {
      EveryGeneration(c, rings, cers, n, k - 1);
      if AllBack(cers[k - 1], ids) {
        BackersHoldKey(c, rings[k - 1], cers[k - 1], ids, n);
      } else {
        KeptThreshold(c, rings[k - 1], cers[k - 1], n);
        VouchedHoldsKey(c, rings, cers, n, k - 1, ids);
        KeptHoldsKey(c, rings[k - 1], cers[k - 1], ids, n, rings[0].key);
      }
    }
  }

  /** Over any history, whatever the dealers showed, all quorums vouched for reconstruct one
      secret. */
  lemma {:induction false} SecretSurvives<A(!new), S(!new)>(
      c: Curve<A, S>, rings: seq<Ring<A, S>>, cers: seq<Ceremony<A, S>>, n: nat,
      j: nat, ids: seq<nat>, k: nat, ids': seq<nat>)
    requires IsCurve(c, n) && History(c, rings, cers, n)
    requires j < |rings| && Quorum(rings[j], ids, n) && Vouched(c, rings, cers, n, j, ids)
    requires k < |rings| && Quorum(rings[k], ids', n) && Vouched(c, rings, cers, n, k, ids')
    ensures Reconstructed(c, rings[j], ids, n) == Reconstructed(c, rings[k], ids', n)
  {
    VouchedHoldsKey(c, rings, cers, n, j, ids);
    VouchedHoldsKey(c, rings, cers, n, k, ids');
    BaseInjective(c, n, Reconstructed(c, rings[j], ids, n), Reconstructed(c, rings[k], ids', n));
  }

  /** So do the signers of every ceremony that was stored. */
  lemma {:induction false} SignersKeepSecret<A(!new), S(!new)>(
      c: Curve<A, S>, rings: seq<Ring<A, S>>, cers: seq<Ceremony<A, S>>, n: nat, j: nat, ids: seq<nat>, k: nat)
    requires IsCurve(c, n) && History(c, rings, cers, n) && k < |cers|
    requires j < |rings| && Quorum(rings[j], ids, n) && Vouched(c, rings, cers, n, j, ids)
    ensures Stores(c, rings[k], cers[k], n)
    ensures Reconstructed(c, Staged(c, rings[k], cers[k], n), cers[k].signers, n) == Reconstructed(c, rings[j], ids, n)
  {
    EveryGeneration(c, rings, cers, n, k);
    VouchedHoldsKey(c, rings, cers, n, j, ids);
    SignersHoldKey(c, rings[k], cers[k], n);
    BaseInjective(c, n, Reconstructed(c, rings[j], ids, n),
                  Reconstructed(c, Staged(c, rings[k], cers[k], n), cers[k].signers, n));
  }
}
