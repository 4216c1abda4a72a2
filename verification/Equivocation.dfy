/** A dealer that shows one receiver other commitments than the rest, in any curve with three
    or more participants: every check passes, the result is stored, the signers keep the
    secret, and a quorum that takes in the third receiver does not have it. */
module Equivocation {
  import opened Algebra
  import opened Polynomial
  import opened Lagrange
  import opened Threshold
  import opened Dkg
  import opened Lifecycle
  import opened Agreement

  /** One member, threshold one, secret one. */
  function OldRing<A, S>(c: Curve<A, S>): Ring<A, S> { Ring(c.base, 1, map[1 := Member([c.base], c.f.one)]) }

  /** Its member deals 1 to receivers 1 and 2 and 1 + x to receiver 3. */
  function Flat<A, S>(c: Curve<A, S>): seq<A> { [c.base, c.g.zero] }

  function Steep<A, S>(c: Curve<A, S>): seq<A> { [c.base, c.base] }

  function Shown<A, S>(p: seq<A>, v: S): View<A, S> { View([1], [p], [v]) }

  function SteepShare<A, S>(c: Curve<A, S>): S { c.f.add(c.f.one, c.embed(3)) }

  /** Threshold two; 1 and 2 sign, all three store. */
  function Torn<A, S>(c: Curve<A, S>): Ceremony<A, S> {
    var same := Shown(Flat(c), c.f.one);
    Ceremony.Reshare(2, map[1 := same, 2 := same, 3 := Shown(Steep(c), SteepShare(c))], [1, 2], {1, 2, 3})
  }

  function TornRing<A, S>(c: Curve<A, S>): Ring<A, S> {
    var same := Member(Flat(c), c.f.one);
    Ring(c.base, 2, map[1 := same, 2 := same, 3 := Member(Steep(c), SteepShare(c))])
  }

  // ---------------------------------------------------------------------------
  // The polynomials and their shares
  // ---------------------------------------------------------------------------

  lemma {:induction false} EvalConstant<A(!new), S(!new)>(f: Field<S>, g: Group<A, S>, a: A, x: S)
    requires IsGroup(f, g)
    ensures Eval(g, [a], x) == a
  {
    assert Eval(g, [a][1..], x) == g.zero;
    assert g.mul(g.zero, x) == g.zero;
    PointZero(f, g, a);
  }

  lemma {:induction false} EvalLinear<A(!new), S(!new)>(f: Field<S>, g: Group<A, S>, a: A, b: A, x: S)
    requires IsGroup(f, g)
    ensures Eval(g, [a, b], x) == g.add(a, g.mul(b, x))
  {
    assert [a, b][1..] == [b];
    EvalConstant(f, g, b, x);
  }

  lemma {:induction false} FlatValue<A(!new), S(!new)>(c: Curve<A, S>, x: S)
    requires IsGroup(c.f, c.g)
    ensures Eval(c.g, Flat(c), x) == c.base == c.g.mul(c.base, c.f.one)
  {
    EvalLinear(c.f, c.g, c.base, c.g.zero, x);
    assert c.g.mul(c.g.zero, x) == c.g.zero;
    PointZero(c.f, c.g, c.base);
  }

  lemma {:induction false} SteepValue<A(!new), S(!new)>(c: Curve<A, S>)
    requires IsGroup(c.f, c.g)
    ensures Eval(c.g, Steep(c), c.f.zero) == c.base
    ensures Eval(c.g, Steep(c), c.embed(3)) == c.g.mul(c.base, SteepShare(c))
    ensures c.g.mul(c.base, SteepShare(c)) == c.g.add(c.base, c.g.mul(c.base, c.embed(3)))
  {
    EvalLinear(c.f, c.g, c.base, c.base, c.f.zero);
    EvalLinear(c.f, c.g, c.base, c.base, c.embed(3));
    ScalarDistribute(c.f, c.g, c.base, c.f.one, c.embed(3));
    PointZero(c.f, c.g, c.base);
  }

  /** The coefficient of a single dealer is one. */
  lemma {:induction false} OneDealer<A(!new), S(!new)>(c: Curve<A, S>, n: nat)
    requires IsCurve(c, n) && n >= 1
    ensures Lambdas(c.f, Nodes(c, [1])) == [c.f.one]
  {
    var f, xs := c.f, Nodes(c, [1]);
    NodesDistinct(c, [1], n);
    assert Drop(xs, 0) == [];
    assert Differences(f, f.zero, []) == [] && Differences(f, xs[0], []) == [];
    MulInverse(f, f.one);
    MulComm(f, f.one, f.inverse(f.one));
    MulOne(f, f.inverse(f.one));
  }

  lemma {:induction false} Alone<A(!new), S(!new)>(c: Curve<A, S>, p: seq<A>, v: S, n: nat)
    requires IsCurve(c, n) && n >= 1 && |p| == 2
    ensures NewMember(c, 2, Shown(p, v)) == Member(p, v)
  {
    OneDealer(c, n);
    assert Times(c.g, p, c.f.one) == p by {
      forall i | 0 <= i < 2 ensures Times(c.g, p, c.f.one)[i] == p[i] { PointZero(c.f, c.g, p[i]); }
    }
    assert WeightedPolys(c.g, [c.f.one], [p]) == [p];
    assert [p][1..] == [];
    PlusZero(c.f, c.g, p);
    assert SumPolys(c.g, [p], 2) == p;
    assert WeightedShares(c.f, [c.f.one], [v]) == [v] by {
      MulComm(c.f, c.f.one, v);
      MulOne(c.f, v);
    }
    assert [v][1..] == [];
    AddZero(c.f, v);
    assert Sum(c.f, [v]) == v;
  }

  lemma {:induction false} ShownAccepted<A(!new), S(!new)>(c: Curve<A, S>, i: nat, p: seq<A>, v: S, n: nat)
    requires IsCurve(c, n) && n >= 1 && |p| == 2
    requires Eval(c.g, p, c.f.zero) == c.base && Matches(c, p, c.embed(i), v)
    ensures ReshareAccepted(c, c.base, i, 2, Shown(p, v), n)
  {
    Alone(c, p, v, n);
  }

  // ---------------------------------------------------------------------------
  // The history
  // ---------------------------------------------------------------------------

  lemma {:induction false} OldHeld<A(!new), S(!new)>(c: Curve<A, S>, n: nat)
    requires IsCurve(c, n) && n >= 1
    ensures Held(c, OldRing(c), n)
  {
    EvalConstant(c.f, c.g, c.base, c.f.zero);
    EvalConstant(c.f, c.g, c.base, c.embed(1));
    PointZero(c.f, c.g, c.base);
  }

  lemma {:induction false} TornAccepted<A(!new), S(!new)>(c: Curve<A, S>, n: nat)
    requires IsCurve(c, n) && n >= 3
    ensures Held(c, OldRing(c), n) && Accepted(c, OldRing(c), Torn(c), n)
  {
    OldHeld(c, n);
    FlatValue(c, c.f.zero);
    FlatValue(c, c.embed(1));
    FlatValue(c, c.embed(2));
    SteepValue(c);
    ShownAccepted(c, 1, Flat(c), c.f.one, n);
    ShownAccepted(c, 2, Flat(c), c.f.one, n);
    ShownAccepted(c, 3, Steep(c), SteepShare(c), n);
  }

  lemma {:induction false} StagedEntry<A(!new), S(!new)>(
      c: Curve<A, S>, ring: Ring<A, S>, cer: Ceremony<A, S>, i: nat, n: nat)
    requires Held(c, ring, n) && Accepted(c, ring, cer, n) && cer.Reshare? && i in cer.views
    ensures Staged(c, ring, cer, n) == Ring(ring.key, cer.threshold, Staged(c, ring, cer, n).members)
    ensures Staged(c, ring, cer, n).members.Keys == cer.views.Keys
    ensures ReshareAccepted(c, ring.key, i, cer.threshold, cer.views[i], n)
    ensures Staged(c, ring, cer, n).members[i] == NewMember(c, cer.threshold, cer.views[i])
  {
  }

  lemma {:induction false} ThreeEntries<T>(table: map<nat, T>, a: T, b: T, d: T)
    requires table.Keys == {1, 2, 3} && table[1] == a && table[2] == b && table[3] == d
    ensures table == map[1 := a, 2 := b, 3 := d]
  {
  }

  /** A confirmed reshare that everybody stores makes the staged ring the next one. */
  lemma {:induction false} AllStore<A(!new), S(!new)>(
      c: Curve<A, S>, ring: Ring<A, S>, cer: Ceremony<A, S>, staged: Ring<A, S>, n: nat)
    requires Held(c, ring, n) && Accepted(c, ring, cer, n) && cer.Reshare? && cer.stored == cer.views.Keys
    requires staged == Staged(c, ring, cer, n) && 1 in cer.views && Quorum(staged, cer.signers, n)
    requires forall i :: 0 <= i < |cer.signers| ==> SignsUnder(c, staged, cer.signers[i], staged.members[1].poly)
    ensures Stores(c, ring, cer, n) && Next(c, ring, cer, n) == staged
  {
    StagedEntry(c, ring, cer, 1, n);
    assert Next(c, ring, cer, n).members == staged.members;
  }

  lemma {:induction false} TornStaged<A(!new), S(!new)>(c: Curve<A, S>, n: nat)
    requires IsCurve(c, n) && n >= 3
    ensures Held(c, OldRing(c), n) && Accepted(c, OldRing(c), Torn(c), n)
    ensures Staged(c, OldRing(c), Torn(c), n) == TornRing(c)
  {
    TornAccepted(c, n);
    Alone(c, Flat(c), c.f.one, n);
    Alone(c, Steep(c), SteepShare(c), n);
    var same, other := Member(Flat(c), c.f.one), Member(Steep(c), SteepShare(c));
    StagedEntry(c, OldRing(c), Torn(c), 1, n);
    StagedEntry(c, OldRing(c), Torn(c), 2, n);
    StagedEntry(c, OldRing(c), Torn(c), 3, n);
    assert Torn(c).views.Keys == {1, 2, 3};
    ThreeEntries(Staged(c, OldRing(c), Torn(c), n).members, same, same, other);
  }

  lemma {:induction false} TornSigned<A(!new), S(!new)>(c: Curve<A, S>, n: nat)
    requires IsCurve(c, n) && n >= 3
    ensures Quorum(TornRing(c), [1, 2], n)
    ensures SignsUnder(c, TornRing(c), 1, Flat(c)) && SignsUnder(c, TornRing(c), 2, Flat(c))
  {
    FlatValue(c, c.embed(1));
    FlatValue(c, c.embed(2));
  }

  lemma {:induction false} TornStored<A(!new), S(!new)>(c: Curve<A, S>, n: nat)
    requires IsCurve(c, n) && n >= 3
    ensures Stores(c, OldRing(c), Torn(c), n) && Next(c, OldRing(c), Torn(c), n) == TornRing(c)
  {
    TornStaged(c, n);
    TornSigned(c, n);
    assert TornRing(c).members[1].poly == Flat(c) && Torn(c).signers == [1, 2];
    assert Torn(c).views.Keys == {1, 2, 3};
    AllStore(c, OldRing(c), Torn(c), TornRing(c), n);
  }

  lemma {:induction false} TornHistory<A(!new), S(!new)>(c: Curve<A, S>, n: nat)
    requires IsCurve(c, n) && n >= 3
    ensures History(c, [OldRing(c), TornRing(c)], [Torn(c)], n)
  {
    TornStored(c, n);
    assert Succeeds(c, OldRing(c), Torn(c), TornRing(c), n);
  }

  lemma {:induction false} OldSecret<A(!new), S(!new)>(c: Curve<A, S>, n: nat)
    requires IsCurve(c, n) && n >= 1
    ensures Quorum(OldRing(c), [1], n) && AgreeOnOne(c, OldRing(c), [1], n)
    ensures c.g.mul(c.base, Reconstructed(c, OldRing(c), [1], n)) == c.base
  {
    OldHeld(c, n);
    assert Agree(c, OldRing(c), [1], OldRing(c).members[1].poly, n);
    FirstHoldsKey(c, OldRing(c), [1], n);
  }

  lemma {:induction false} SignersKeep<A(!new), S(!new)>(c: Curve<A, S>, n: nat)
    requires IsCurve(c, n) && n >= 3
    ensures Quorum(TornRing(c), [1, 2], n)
    ensures c.g.mul(c.base, Reconstructed(c, TornRing(c), [1, 2], n)) == c.base
  {
    TornStored(c, n);
    TornSigned(c, n);
    assert AllBack(Torn(c), [1, 2]);
    BackersHoldKey(c, OldRing(c), Torn(c), [1, 2], n);
  }

  /** With the third receiver, the public combination is another point than the key. */
  lemma {:induction false} ThirdMisses<A(!new), S(!new)>(c: Curve<A, S>, n: nat)
    requires IsCurve(c, n) && n >= 3
    ensures MembersOf(TornRing(c), [1, 3], n) && Combined(c, TornRing(c), [1, 3], n) != c.base
  {
    var ids, f, g := [1, 3], c.f, c.g;
    var xs := Nodes(c, ids);
    var ps, qs := PublicShares(c, TornRing(c), ids, n), PointValues(g, Flat(c), xs);
    NodesDistinct(c, ids, n);
    LambdaNonzero(f, xs, 1);
    PointsAtZero(f, g, xs, Flat(c));
    FlatValue(c, f.zero);
    FlatValue(c, c.embed(1));
    FlatValue(c, c.embed(3));
    SteepValue(c);
    assert ps[0] == qs[0] == c.base;
    if Combined(c, TornRing(c), ids, n) == c.base {
      OneDecides(f, g, Lambdas(f, xs), ps, qs, 1);
      SteepDiffers(c, n);
    }
  }

  lemma {:induction false} SteepDiffers<A(!new), S(!new)>(c: Curve<A, S>, n: nat)
    requires IsCurve(c, n) && n >= 3
    ensures c.g.add(c.base, c.g.mul(c.base, c.embed(3))) != c.base
  {
    var p := c.g.mul(c.base, c.embed(3));
    PointComm(c.f, c.g, c.base, p);
    PointComm(c.f, c.g, c.base, c.g.zero);
    PointZero(c.f, c.g, c.base);
    PointCancel(c.f, c.g, p, c.g.zero, c.base);
    assert c.embed(3) != c.f.zero;
  }

  lemma {:induction false} ThirdLoses<A(!new), S(!new)>(c: Curve<A, S>, n: nat)
    requires IsCurve(c, n) && n >= 3
    ensures Quorum(TornRing(c), [1, 3], n)
    ensures c.g.mul(c.base, Reconstructed(c, TornRing(c), [1, 3], n)) != c.base
  {
    TornStored(c, n);
    NextHeld(c, OldRing(c), Torn(c), n);
    ThirdMisses(c, n);
    ReconstructedPoint(c, TornRing(c), [1, 3], n);
  }

  /** In every curve with three participants there is a history whose ceremony passed every
      check and was stored by all: its signers reconstruct the old secret, another quorum of
      the new ring does not. */
  lemma {:induction false} SignersKeepOthersLose<A(!new), S(!new)>(c: Curve<A, S>, n: nat)
    requires IsCurve(c, n) && n >= 3
    ensures History(c, [OldRing(c), TornRing(c)], [Torn(c)], n)
    ensures Quorum(OldRing(c), [1], n) && Quorum(TornRing(c), [1, 2], n) && Quorum(TornRing(c), [1, 3], n)
    ensures Reconstructed(c, TornRing(c), [1, 2], n) == Reconstructed(c, OldRing(c), [1], n)
    ensures Reconstructed(c, TornRing(c), [1, 3], n) != Reconstructed(c, OldRing(c), [1], n)
  {
    TornHistory(c, n);
    OldSecret(c, n);
    SignersKeep(c, n);
    BaseInjective(c, n, Reconstructed(c, TornRing(c), [1, 2], n), Reconstructed(c, OldRing(c), [1], n));
    ThirdLoses(c, n);
  }
}
