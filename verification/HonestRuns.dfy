/** Ceremonies whose dealers follow the code. They pass every check and are stored, all
    members end with one polynomial, and what it hides is the dealers' doing alone: the sum
    of their secrets after key generation, the same secret ever after. */
module HonestRuns {
  import opened Algebra
  import opened Polynomial
  import opened Lagrange
  import opened Threshold
  import opened Dkg
  import opened Lifecycle

  function Commits<A, S>(c: Curve<A, S>, polys: seq<seq<S>>): (r: seq<seq<A>>)
    ensures |r| == |polys|
  {
    seq(|polys|, d requires 0 <= d < |polys| => Commit(c.g, c.base, polys[d]))
  }

  /** What member `i` is shown of dealers that deal the polynomials `polys`. */
  function Dealt<A, S>(c: Curve<A, S>, dealers: seq<nat>, polys: seq<seq<S>>, i: nat): View<A, S> {
    View(dealers, Commits(c, polys), EvalAll(Scalars(c.f), polys, c.embed(i)))
  }

  ghost function AllDealt<A, S>(
      c: Curve<A, S>, dealers: seq<nat>, polys: seq<seq<S>>, members: set<nat>): map<nat, View<A, S>>
  {
    map i | i in members :: Dealt(c, dealers, polys, i)
  }

  /** The dealers' secrets: the constant terms. */
  function Secrets<S>(polys: seq<seq<S>>, t: nat): (r: seq<S>)
    requires AllLength(polys, t) && t >= 1
    ensures |r| == |polys|
  {
    seq(|polys|, d requires 0 <= d < |polys| => polys[d][0])
  }

  predicate Within(members: set<nat>, n: nat) { forall i :: i in members ==> 1 <= i <= n }

  /** All members computed the same polynomial. */
  ghost predicate OnePoly<A, S>(ring: Ring<A, S>, p: seq<A>) {
    forall i :: i in ring.members ==> ring.members[i].poly == p
  }

  lemma {:induction false} DealtChecked<A(!new), S(!new)>(
      c: Curve<A, S>, dealers: seq<nat>, polys: seq<seq<S>>, i: nat, t: nat)
    requires IsGroup(c.f, c.g) && |dealers| == |polys| && AllLength(polys, t)
    ensures Checked(c, i, t, Dealt(c, dealers, polys, i))
  {
    forall d | 0 <= d < |polys|
      ensures Matches(c, Commits(c, polys)[d], c.embed(i), EvalAll(Scalars(c.f), polys, c.embed(i))[d])
    {
      EvalCommit(c.f, c.g, c.base, polys[d], c.embed(i));
    }
  }

  /** The constant term of the summed commitments is the commitment to the summed secrets. */
  lemma {:induction false} SummedConstant<A(!new), S(!new)>(c: Curve<A, S>, polys: seq<seq<S>>, t: nat)
    requires IsGroup(c.f, c.g) && AllLength(polys, t) && t >= 1
    ensures Eval(c.g, SumPolys(c.g, Commits(c, polys), t), c.f.zero) == c.g.mul(c.base, Sum(c.f, Secrets(polys, t)))
  {
    EvalSum(c.f, c.g, Commits(c, polys), t, c.f.zero);
    forall d | 0 <= d < |polys|
      ensures EvalAll(c.g, Commits(c, polys), c.f.zero)[d] == Commit(c.g, c.base, Secrets(polys, t))[d]
    {
      EvalAtZero(c.f, c.g, Commits(c, polys)[d]);
    }
    assert EvalAll(c.g, Commits(c, polys), c.f.zero) == Commit(c.g, c.base, Secrets(polys, t));
    SumCommits(c.f, c.g, c.base, Secrets(polys, t));
  }

  /** Every quorum of a ring with one polynomial reconstructs the key's logarithm. */
  lemma {:induction false} QuorumReconstructs<A(!new), S(!new)>(
      c: Curve<A, S>, ring: Ring<A, S>, p: seq<A>, ids: seq<nat>, secret: S, n: nat)
    requires IsCurve(c, n) && Held(c, ring, n) && OnePoly(ring, p) && Quorum(ring, ids, n)
    requires ring.key == c.g.mul(c.base, secret)
    ensures Reconstructed(c, ring, ids, n) == secret
  {
    assert Holds(c, ring, ids[0], ring.members[ids[0]]);
    AgreeIff(c, ring, ids, p, n);
    QuorumHoldsKey(c, ring, ids, p, n);
    BaseInjective(c, n, Reconstructed(c, ring, ids, n), secret);
  }

  // ---------------------------------------------------------------------------
  // Key generation
  // ---------------------------------------------------------------------------

  ghost function NewRing<A, S>(
      c: Curve<A, S>, t: nat, dealers: seq<nat>, polys: seq<seq<S>>, members: set<nat>): Ring<A, S>
    requires AllLength(polys, t) && t >= 1
  {
    Ring(c.g.mul(c.base, Sum(c.f, Secrets(polys, t))), t,
         map i | i in members :: Summed(c, t, Dealt(c, dealers, polys, i)))
  }

  /** Honest dealers generate a ring under one polynomial, and every quorum of it
      reconstructs the sum of their secrets. */
  lemma {:induction false} HonestGeneration<A(!new), S(!new)>(
      c: Curve<A, S>, t: nat, dealers: seq<nat>, polys: seq<seq<S>>, members: set<nat>, n: nat)
    requires IsCurve(c, n) && t >= 1 && |dealers| == |polys| && AllLength(polys, t) && Within(members, n)
    ensures var ring := NewRing(c, t, dealers, polys, members);
            && Generated(c, ring, AllDealt(c, dealers, polys, members), n)
            && OnePoly(ring, SumPolys(c.g, Commits(c, polys), t))
            && (forall ids :: Quorum(ring, ids, n) ==>
                  Reconstructed(c, ring, ids, n) == Sum(c.f, Secrets(polys, t)))
  {
    var ring, views := NewRing(c, t, dealers, polys, members), AllDealt(c, dealers, polys, members);
    forall i | i in members ensures Checked(c, i, t, views[i]) { DealtChecked(c, dealers, polys, i, t); }
    SummedConstant(c, polys, t);
    assert Generated(c, ring, views, n);
    GeneratedHeld(c, ring, views, n);
    forall ids | Quorum(ring, ids, n) ensures Reconstructed(c, ring, ids, n) == Sum(c.f, Secrets(polys, t)) {
      QuorumReconstructs(c, ring, SumPolys(c.g, Commits(c, polys), t), ids, Sum(c.f, Secrets(polys, t)), n);
    }
  }

  // ---------------------------------------------------------------------------
  // Refresh
  // ---------------------------------------------------------------------------

  /** Zero constant terms. */
  predicate NoSecrets<S(==)>(f: Field<S>, polys: seq<seq<S>>) {
    forall d :: 0 <= d < |polys| ==> polys[d] != [] && polys[d][0] == f.zero
  }

  /** All members refresh, a quorum signs, all store. */
  ghost function HonestRefresh<A, S>(
      c: Curve<A, S>, ring: Ring<A, S>, dealers: seq<nat>, polys: seq<seq<S>>, signers: seq<nat>): Ceremony<A, S>
  {
    Ceremony.Refresh(AllDealt(c, dealers, polys, ring.members.Keys), signers, ring.members.Keys)
  }

  lemma {:induction false} RefreshIsAccepted<A(!new), S(!new)>(
      c: Curve<A, S>, ring: Ring<A, S>, dealers: seq<nat>, polys: seq<seq<S>>, i: nat)
    requires IsGroup(c.f, c.g) && |dealers| == |polys| && AllLength(polys, ring.threshold) && NoSecrets(c.f, polys)
    ensures RefreshAccepted(c, ring, i, Dealt(c, dealers, polys, i))
  {
    DealtChecked(c, dealers, polys, i, ring.threshold);
    PointZero(c.f, c.g, c.base);
  }

  /** An honest refresh of a ring with one polynomial is stored, leaves one polynomial, adds
      the dealt values to every share, and changes no quorum's secret. */
  lemma {:induction false} HonestRefreshStored<A(!new), S(!new)>(
      c: Curve<A, S>, ring: Ring<A, S>, p: seq<A>, dealers: seq<nat>, polys: seq<seq<S>>, signers: seq<nat>, secret: S,
      n: nat)
    requires IsCurve(c, n) && Held(c, ring, n) && OnePoly(ring, p) && ring.key == c.g.mul(c.base, secret)
    requires |dealers| == |polys| && AllLength(polys, ring.threshold) && NoSecrets(c.f, polys)
    requires 1 in ring.members && Quorum(ring, signers, n)
    ensures var cer := HonestRefresh(c, ring, dealers, polys, signers);
            Stores(c, ring, cer, n) &&
            var next := Next(c, ring, cer, n);
            && next.key == ring.key && next.threshold == ring.threshold && next.members.Keys == ring.members.Keys
            && (forall i :: i in ring.members ==>
                  next.members[i].share
                  == Sum(c.f, [ring.members[i].share] + EvalAll(Scalars(c.f), polys, c.embed(i))))
            && OnePoly(next, next.members[1].poly)
            && (forall ids :: Quorum(next, ids, n) ==> Reconstructed(c, next, ids, n) == secret)
  {
    var cer := HonestRefresh(c, ring, dealers, polys, signers);
    forall i | i in cer.views ensures RefreshAccepted(c, ring, i, cer.views[i]) {
      RefreshIsAccepted(c, ring, dealers, polys, i);
    }
    RefreshIsStored(c, ring, p, cer, n);
    var next := Next(c, ring, cer, n);
    NextHeld(c, ring, cer, n);
    forall i | i in ring.members
      ensures next.members[i].share == Sum(c.f, [ring.members[i].share] + EvalAll(Scalars(c.f), polys, c.embed(i)))
    {
      assert Holds(c, ring, i, ring.members[i]);
      RefreshedAt(c, ring, ring.members[i], cer.views[i], c.f.zero);
    }
    forall ids | Quorum(next, ids, n) ensures Reconstructed(c, next, ids, n) == secret {
      QuorumReconstructs(c, next, next.members[1].poly, ids, secret, n);
    }
  }

  /** A refresh in which everybody was shown the same is confirmed. */
  lemma {:induction false} RefreshIsStored<A(!new), S(!new)>(
      c: Curve<A, S>, ring: Ring<A, S>, p: seq<A>, cer: Ceremony<A, S>, n: nat)
    requires IsCurve(c, n) && Held(c, ring, n) && OnePoly(ring, p) && cer.Refresh? && Accepted(c, ring, cer, n)
    requires 1 in ring.members && cer.views.Keys == cer.stored == ring.members.Keys && Quorum(ring, cer.signers, n)
    requires forall i :: i in cer.views ==> cer.views[i].commits == cer.views[1].commits
    ensures Stores(c, ring, cer, n) && OnePoly(Next(c, ring, cer, n), Next(c, ring, cer, n).members[1].poly)
  {
    var staged := Staged(c, ring, cer, n);
    StagedHeld(c, ring, cer, n);
    forall i | i in staged.members
      ensures staged.members[i].poly == staged.members[1].poly && SignsUnder(c, staged, i, staged.members[1].poly)
    {
      assert Holds(c, staged, i, staged.members[i]);
    }
    assert Quorum(staged, cer.signers, n);
  }

  // ---------------------------------------------------------------------------
  // Reshare
  // ---------------------------------------------------------------------------

  /** Every dealer deals the share it holds. */
  ghost predicate DealsItsShare<A, S>(ring: Ring<A, S>, dealers: seq<nat>, polys: seq<seq<S>>) {
    && |dealers| == |polys|
    && forall d :: 0 <= d < |dealers| ==>
         dealers[d] in ring.members && polys[d] != [] && polys[d][0] == ring.members[dealers[d]].share
  }

  ghost function HonestReshare<A, S>(
      c: Curve<A, S>, t: nat, dealers: seq<nat>, polys: seq<seq<S>>, members: set<nat>, signers: seq<nat>)
    : Ceremony<A, S>
  {
    Ceremony.Reshare(t, AllDealt(c, dealers, polys, members), signers, members)
  }

  lemma {:induction false} ReshareIsAccepted<A(!new), S(!new)>(
      c: Curve<A, S>, ring: Ring<A, S>, p: seq<A>, t: nat, dealers: seq<nat>, polys: seq<seq<S>>, i: nat, n: nat)
    requires IsCurve(c, n) && Held(c, ring, n) && OnePoly(ring, p) && Quorum(ring, dealers, n)
    requires t >= 1 && AllLength(polys, t) && DealsItsShare(ring, dealers, polys)
    ensures ReshareAccepted(c, ring.key, i, t, Dealt(c, dealers, polys, i), n)
  {
    DealtChecked(c, dealers, polys, i, t);
    forall d | 0 <= d < |dealers| ensures Commits(c, polys)[d][0] == Eval(c.g, p, c.embed(dealers[d])) {
      assert Holds(c, ring, dealers[d], ring.members[dealers[d]]);
    }
    assert Holds(c, ring, dealers[0], ring.members[dealers[0]]);
    ReshareReachesKey(c, p, Commits(c, polys), dealers, t, n);
  }

  /** An honest reshare to any committee and threshold is stored, leaves its members with
      one polynomial, and every quorum of theirs reconstructs the old secret. */
  lemma {:induction false} HonestReshareStored<A(!new), S(!new)>(
      c: Curve<A, S>, ring: Ring<A, S>, p: seq<A>, t: nat, dealers: seq<nat>, polys: seq<seq<S>>, members: set<nat>,
      signers: seq<nat>, secret: S, n: nat)
    requires IsCurve(c, n) && Held(c, ring, n) && OnePoly(ring, p) && ring.key == c.g.mul(c.base, secret)
    requires Quorum(ring, dealers, n) && t >= 1 && AllLength(polys, t) && DealsItsShare(ring, dealers, polys)
    requires 1 in members && Within(members, n)
    requires ValidIds(signers, n) && |signers| >= t && forall i :: 0 <= i < |signers| ==> signers[i] in members
    ensures var cer := HonestReshare(c, t, dealers, polys, members, signers);
            Stores(c, ring, cer, n) &&
            var next := Next(c, ring, cer, n);
            && next.key == ring.key && next.threshold == t && next.members.Keys == members
            && OnePoly(next, next.members[1].poly)
            && (forall ids :: Quorum(next, ids, n) ==> Reconstructed(c, next, ids, n) == secret)
  {
    var cer := HonestReshare(c, t, dealers, polys, members, signers);
    forall i | i in members ensures ReshareAccepted(c, ring.key, i, t, cer.views[i], n) {
      ReshareIsAccepted(c, ring, p, t, dealers, polys, i, n);
    }
    ReshareIsStored(c, ring, cer, n);
    var next := Next(c, ring, cer, n);
    NextHeld(c, ring, cer, n);
    forall ids | Quorum(next, ids, n) ensures Reconstructed(c, next, ids, n) == secret {
      QuorumReconstructs(c, next, next.members[1].poly, ids, secret, n);
    }
  }

  /** A reshare in which everybody was shown the same is confirmed. */
  lemma {:induction false} ReshareIsStored<A(!new), S(!new)>(
      c: Curve<A, S>, ring: Ring<A, S>, cer: Ceremony<A, S>, n: nat)
    requires IsCurve(c, n) && Held(c, ring, n) && cer.Reshare? && Accepted(c, ring, cer, n)
    requires 1 in cer.views && cer.views.Keys == cer.stored && ValidIds(cer.signers, n)
    requires |cer.signers| >= cer.threshold && forall i :: 0 <= i < |cer.signers| ==> cer.signers[i] in cer.views
    requires forall i :: i in cer.views ==>
               cer.views[i].commits == cer.views[1].commits && cer.views[i].dealers == cer.views[1].dealers
    ensures Stores(c, ring, cer, n) && OnePoly(Next(c, ring, cer, n), Next(c, ring, cer, n).members[1].poly)
  {
    var staged := Staged(c, ring, cer, n);
    StagedHeld(c, ring, cer, n);
    forall i | i in staged.members
      ensures staged.members[i].poly == staged.members[1].poly && SignsUnder(c, staged, i, staged.members[1].poly)
    {
      assert Holds(c, staged, i, staged.members[i]);
    }
    assert Quorum(staged, cer.signers, n);
  }
}
