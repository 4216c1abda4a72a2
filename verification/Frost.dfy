/** Two-round threshold Schnorr signing. The hashes are parameters; what is proved holds
    for every choice of them. */
module Frost {
  import opened Algebra
  import opened Bytes
  import opened Polynomial
  import opened Lagrange
  import opened Threshold
  import opened Dkg
  import opened Lifecycle
  import opened Options

  datatype NonceCommitment<+A> = NonceCommitment(hiding: A, binding: A)

  type Package<A> = seq<(nat, NonceCommitment<A>)>

  datatype Hashes<!A, !S> = Hashes(
    bindingFactor: (nat, A, seq<byte>, Package<A>) -> S,
    challenge: (A, A, seq<byte>) -> S)

  datatype Signature<+A, +S> = Signature(r: A, z: S)

  /** One signing session: what every signer and the coordinator are given. */
  datatype Session<!A, !S> = Session(
    c: Curve<A, S>,
    h: Hashes<A, S>,
    msg: seq<byte>,
    publicPoly: seq<A>,
    commitments: Package<A>,
    derivation: Option<S>)

  // ---------------------------------------------------------------------------
  // Commitment lists
  // ---------------------------------------------------------------------------

  function Ids<A>(l: Package<A>): (ids: seq<nat>)
    ensures |ids| == |l|
  {
    seq(|l|, i requires 0 <= i < |l| => l[i].0)
  }

  function Lookup<A>(l: Package<A>, id: nat): Option<NonceCommitment<A>> {
    if l == [] then None else if l[0].0 == id then Some(l[0].1) else Lookup(l[1..], id)
  }

  lemma {:induction false} TailDistinct(ids: seq<nat>)
    requires ids != [] && !HasDuplicates(ids)
    ensures !HasDuplicates(ids[1..])
  {
    assert forall i, j :: 0 <= i < j < |ids[1..]| ==> ids[1..][i] == ids[i + 1] && ids[1..][j] == ids[j + 1];
    assert forall i, j :: 0 <= i < j < |ids| ==> ids[i] != ids[j];
  }

  lemma {:induction false} LookupEntry<A>(l: Package<A>, k: nat)
    requires k < |l| && !HasDuplicates(Ids(l))
    ensures Lookup(l, l[k].0) == Some(l[k].1)
  {
    var ids := Ids(l);
    if k != 0 {
      assert ids[0] != ids[k];
      assert Ids(l[1..]) == ids[1..];
      TailDistinct(ids);
      LookupEntry(l[1..], k - 1);
    }
  }

  lemma {:induction false} LookupSome<A>(l: Package<A>, id: nat)
    ensures Lookup(l, id).Some? <==> id in Ids(l)
  {
    if l != [] {
      LookupSome(l[1..], id);
      assert Ids(l) == [l[0].0] + Ids(l[1..]);
    }
  }

  function InsertById<A>(l: Package<A>, e: (nat, NonceCommitment<A>)): (r: Package<A>)
    ensures |r| == |l| + 1 && forall x :: x in r ==> x == e || x in l
  {
    if l == [] then [e] else if e.0 <= l[0].0 then [e] + l else [l[0]] + InsertById(l[1..], e)
  }

  /** The canonical order: by identifier. */
  function Canonical<A>(l: Package<A>): (r: Package<A>)
    ensures |r| == |l| && forall x :: x in r ==> x in l
  {
    if l == [] then [] else InsertById(Canonical(l[1..]), l[0])
  }

  lemma {:induction false} InsertIds<A>(l: Package<A>, e: (nat, NonceCommitment<A>))
    ensures multiset(Ids(InsertById(l, e))) == multiset(Ids(l)) + multiset{e.0}
  {
    if l == [] || e.0 <= l[0].0 {
      assert Ids(InsertById(l, e)) == [e.0] + Ids(l);
    } else {
      InsertIds(l[1..], e);
      assert Ids(InsertById(l, e)) == [l[0].0] + Ids(InsertById(l[1..], e));
      assert Ids(l) == [l[0].0] + Ids(l[1..]);
    }
  }

  lemma {:induction false} CanonicalIds<A>(l: Package<A>)
    ensures multiset(Ids(Canonical(l))) == multiset(Ids(l))
  {
    if l != [] {
      CanonicalIds(l[1..]);
      InsertIds(Canonical(l[1..]), l[0]);
      assert Ids(l) == [l[0].0] + Ids(l[1..]);
    }
  }

  lemma {:induction false} InsertKeeps<A>(l: Package<A>, e: (nat, NonceCommitment<A>))
    ensures multiset(InsertById(l, e)) == multiset(l) + multiset{e}
  {
    if l != [] && l[0].0 < e.0 {
      InsertKeeps(l[1..], e);
      assert l == [l[0]] + l[1..];
    }
  }

  lemma {:induction false} CanonicalKeeps<A>(l: Package<A>)
    ensures multiset(Canonical(l)) == multiset(l)
  {
    if l != [] {
      CanonicalKeeps(l[1..]);
      InsertKeeps(Canonical(l[1..]), l[0]);
      assert l == [l[0]] + l[1..];
    }
  }

  /** No entry after the first has a smaller identifier, and so on. */
  predicate ById<A>(l: Package<A>) { forall i, j :: 0 <= i < j < |l| ==> l[i].0 <= l[j].0 }

  lemma {:induction false} PrependById<A>(e: (nat, NonceCommitment<A>), l: Package<A>)
    requires ById(l) && (l != [] ==> e.0 <= l[0].0)
    ensures ById([e] + l)
  {
    var r := [e] + l;
    forall i, j | 0 <= i < j < |r| ensures r[i].0 <= r[j].0 { assert r[j] == l[j - 1] && l[0].0 <= l[j - 1].0; }
  }

  lemma {:induction false} InsertSorted<A>(l: Package<A>, e: (nat, NonceCommitment<A>))
    requires ById(l)
    ensures ById(InsertById(l, e))
    ensures InsertById(l, e)[0].0 == if l == [] || e.0 <= l[0].0 then e.0 else l[0].0
  {
    if l == [] || e.0 <= l[0].0 {
      PrependById(e, l);
    } else {
      InsertSorted(l[1..], e);
      PrependById(l[0], InsertById(l[1..], e));
    }
  }

  /** The canonical list ascends by identifier. */
  lemma {:induction false} CanonicalSorted<A>(l: Package<A>)
    ensures ById(Canonical(l))
  {
    if l != [] {
      CanonicalSorted(l[1..]);
      InsertSorted(Canonical(l[1..]), l[0]);
    }
  }

  lemma {:induction false} SameEntry<A>(l: Package<A>, i: nat, j: nat)
    requires i < |l| && j < |l| && !HasDuplicates(Ids(l)) && l[i].0 == l[j].0
    ensures l[i] == l[j]
  {
    var ids := Ids(l);
    assert ids[i] == ids[j];
  }

  lemma {:induction false} TailKeeps<T>(a: seq<T>, b: seq<T>)
    requires a != [] && b != [] && a[0] == b[0] && multiset(a) == multiset(b)
    ensures multiset(a[1..]) == multiset(b[1..])
  {
    assert a == [a[0]] + a[1..] && b == [b[0]] + b[1..];
    assert multiset(a[1..]) == multiset(a) - multiset{a[0]} && multiset(b[1..]) == multiset(b) - multiset{b[0]};
  }

  lemma {:induction false} SameHead<A>(a: Package<A>, b: Package<A>)
    requires ById(a) && ById(b) && multiset(a) == multiset(b) && !HasDuplicates(Ids(a)) && a != [] && b != []
    ensures a[0] == b[0]
  {
    assert b[0] in multiset(a) && a[0] in multiset(b);
    var i :| 0 <= i < |a| && a[i] == b[0];
    var j :| 0 <= j < |b| && b[j] == a[0];
    assert a[0].0 <= a[i].0 && b[0].0 <= b[j].0;
    SameEntry(a, 0, i);
  }

  /** Two ascending lists of the same entries, one per identifier, are the same list. */
  lemma {:induction false} SortedUnique<A>(a: Package<A>, b: Package<A>)
    requires ById(a) && ById(b) && multiset(a) == multiset(b) && !HasDuplicates(Ids(a))
    ensures a == b
  {
    assert |a| == |multiset(a)| == |multiset(b)| == |b|;
    if a != [] {
      SameHead(a, b);
      TailKeeps(a, b);
      assert Ids(a[1..]) == Ids(a)[1..];
      TailDistinct(Ids(a));
      SortedUnique(a[1..], b[1..]);
      assert a == [a[0]] + a[1..] && b == [b[0]] + b[1..];
    }
  }

  /** The canonical list does not depend on the order of the list given. */
  lemma {:induction false} CanonicalSame<A>(l: Package<A>, l': Package<A>)
    requires multiset(l) == multiset(l') && !HasDuplicates(Ids(l))
    ensures Canonical(l) == Canonical(l')
  {
    CanonicalKeeps(l);
    CanonicalKeeps(l');
    CanonicalSorted(l);
    CanonicalSorted(l');
    CanonicalIds(l);
    if HasDuplicates(Ids(Canonical(l))) { DuplicatesAgree(Ids(Canonical(l)), Ids(l)); }
    SortedUnique(Canonical(l), Canonical(l'));
  }

  /** The identifiers of one package, in whatever order, are the same. */
  lemma {:induction false} SameIds<A>(l: Package<A>, l': Package<A>)
    requires multiset(l) == multiset(l') && !HasDuplicates(Ids(l))
    ensures multiset(Ids(l)) == multiset(Ids(l'))
  {
    CanonicalIds(l);
    CanonicalIds(l');
    CanonicalSame(l, l');
  }

  lemma {:induction false} SameLookup<A>(l: Package<A>, l': Package<A>, id: nat)
    requires multiset(l) == multiset(l') && !HasDuplicates(Ids(l)) && !HasDuplicates(Ids(l'))
    ensures Lookup(l, id) == Lookup(l', id)
  {
    LookupSome(l, id);
    LookupSome(l', id);
    SameIds(l, l');
    assert id in Ids(l) <==> id in multiset(Ids(l));
    assert id in Ids(l') <==> id in multiset(Ids(l'));
    if id in Ids(l) {
      var k :| 0 <= k < |l| && Ids(l)[k] == id;
      assert l[k] in multiset(l');
      var m :| 0 <= m < |l'| && l'[m] == l[k];
      LookupEntry(l, k);
      LookupEntry(l', m);
    }
  }

  // ---------------------------------------------------------------------------
  // The coefficient x_j / (x_j - x_i)
  // ---------------------------------------------------------------------------

  function Coefficient<A, S(==)>(c: Curve<A, S>, ids: seq<nat>, id: nat): Option<S> {
    var others := Nodes(c, Others(ids, id));
    var den := Product(c.f, Flipped(c.f, c.embed(id), others));
    if den == c.f.zero then None else Some(c.f.mul(Product(c.f, others), c.f.inverse(den)))
  }

  method LagrangeCoefficient<A(!new), S(==, !new)>(c: Curve<A, S>, id: nat, participantIds: seq<nat>)
    returns (r: Option<S>)
    requires IsField(c.f)
    ensures r == Coefficient(c, participantIds, id)
  {
    var f := c.f;
    var xi := c.embed(id);
    var num, den := f.one, f.one;
    var k := 0;
    while k < |participantIds|
      invariant 0 <= k <= |participantIds|
      invariant num == Product(f, Nodes(c, Others(participantIds[..k], id)))
      invariant den == Product(f, Flipped(f, xi, Nodes(c, Others(participantIds[..k], id))))
    {
      var j := participantIds[k];
      ghost var before := Others(participantIds[..k], id);
      assert participantIds[..k + 1] == participantIds[..k] + [j];
      OthersAppend(participantIds[..k], j, id);
      k := k + 1;
      if j == id { continue; }
      var xj := c.embed(j);
      assert Nodes(c, before + [j]) == Nodes(c, before) + [xj];
      assert Flipped(f, xi, Nodes(c, before) + [xj]) == Flipped(f, xi, Nodes(c, before)) + [f.Sub(xj, xi)];
      ProductAppend(f, Nodes(c, before), xj);
      ProductAppend(f, Flipped(f, xi, Nodes(c, before)), f.Sub(xj, xi));
      num := f.mul(num, xj);
      den := f.mul(den, f.Sub(xj, xi));
    }
    assert participantIds[..k] == participantIds;
    if den == f.zero { return None; }
    return Some(f.mul(num, f.inverse(den)));
  }

  /** It is the coefficient of the interpolation theorem. */
  lemma {:induction false} CoefficientIsLambda<A(!new), S(!new)>(c: Curve<A, S>, ids: seq<nat>, k: nat, n: nat)
    requires IsCurve(c, n) && ValidIds(ids, n) && k < |ids|
    ensures Coefficient(c, ids, ids[k]) == Some(Lambda(c.f, Nodes(c, ids), k))
  {
    OthersNodes(c, ids, k, n);
    NodesDistinct(c, ids, n);
    FlippedIsLambda(c.f, Nodes(c, ids), k);
  }

  lemma {:induction false} CoefficientIgnoresOrder<A(!new), S(!new)>(
      c: Curve<A, S>, ids: seq<nat>, ids': seq<nat>, id: nat)
    requires IsField(c.f) && multiset(ids) == multiset(ids')
    ensures Coefficient(c, ids, id) == Coefficient(c, ids', id)
  {
    OthersPermutation(ids, id);
    OthersPermutation(ids', id);
    var den := (j: nat) => c.f.Sub(c.embed(j), c.embed(id));
    MapPermutation(c.f, c.embed, Others(ids, id), Others(ids', id));
    MapPermutation(c.f, den, Others(ids, id), Others(ids', id));
    assert forall s: seq<nat> :: Nodes(c, s) == Mapped(c.embed, s);
    assert forall s: seq<nat> :: Flipped(c.f, c.embed(id), Nodes(c, s)) == Mapped(den, s);
  }

  // ---------------------------------------------------------------------------
  // What a session determines
  // ---------------------------------------------------------------------------

  function Scaled<A, S>(c: Curve<A, S>, p: A, d: Option<S>): A {
    match d case Some(s) => c.g.mul(p, s) case None => p
  }

  /** The key the signature is for: the ring key, times the derivation scalar if any. */
  function EffectiveKey<A, S>(s: Session<A, S>): A {
    Scaled(s.c, Eval(s.c.g, s.publicPoly, s.c.f.zero), s.derivation)
  }

  /** D + rho E, for one entry of the canonical list. */
  function NoncePoint<A, S>(
      c: Curve<A, S>, h: Hashes<A, S>, l: Package<A>, key: A, msg: seq<byte>, id: nat, nc: NonceCommitment<A>): A
  {
    c.g.add(nc.hiding, c.g.mul(nc.binding, h.bindingFactor(id, key, msg, Canonical(l))))
  }

  function NoncePoints<A, S>(c: Curve<A, S>, h: Hashes<A, S>, l: Package<A>, key: A, msg: seq<byte>): (r: seq<A>)
    ensures |r| == |Canonical(l)|
  {
    var can := Canonical(l);
    seq(|can|, i requires 0 <= i < |can| => NoncePoint(c, h, l, key, msg, can[i].0, can[i].1))
  }

  function GroupPoint<A, S>(c: Curve<A, S>, h: Hashes<A, S>, l: Package<A>, key: A, msg: seq<byte>): A {
    SumPoints(c.g, NoncePoints(c, h, l, key, msg))
  }

  /** Duplicate participants are refused, and the identity as a key. */
  predicate Refused<A(==), S>(c: Curve<A, S>, l: Package<A>, key: A) {
    HasDuplicates(Ids(l)) || (key == c.g.zero && l != [])
  }

  lemma {:induction false} SumPointsAppend<A(!new), S(!new)>(f: Field<S>, g: Group<A, S>, a: seq<A>, p: A)
    requires IsGroup(f, g)
    ensures SumPoints(g, a + [p]) == g.add(SumPoints(g, a), p)
  {
    if a == [] {
      assert (a + [p])[1..] == [];
      assert SumPoints(g, [p][1..]) == g.zero;
      PointZero(f, g, p);
    } else {
      assert (a + [p])[1..] == a[1..] + [p];
      SumPointsAppend(f, g, a[1..], p);
      PointAssoc(f, g, a[0], SumPoints(g, a[1..]), p);
    }
  }

  lemma {:induction false} DuplicateCount(a: seq<nat>) returns (x: nat)
    requires HasDuplicates(a)
    ensures multiset(a)[x] >= 2
  {
    var i, j :| 0 <= i < j < |a| && a[i] == a[j];
    assert a == a[..i] + [a[i]] + a[i + 1..j] + [a[j]] + a[j + 1..];
    x := a[i];
  }

  lemma {:induction false} CountDuplicate(b: seq<nat>, x: nat)
    requires multiset(b)[x] >= 2
    ensures HasDuplicates(b)
  {
    assert b != [];
    assert b == [b[0]] + b[1..];
    if b[0] == x {
      assert x in multiset(b[1..]);
      var m :| 0 <= m < |b| - 1 && b[1..][m] == x;
      assert b[0] == b[m + 1];
    } else {
      CountDuplicate(b[1..], x);
      var i, j :| 0 <= i < j < |b| - 1 && b[1..][i] == b[1..][j];
      assert b[i + 1] == b[j + 1];
    }
  }

  lemma {:induction false} DuplicatesAgree(a: seq<nat>, b: seq<nat>)
    requires multiset(a) == multiset(b) && HasDuplicates(a)
    ensures HasDuplicates(b)
  {
    var x := DuplicateCount(a);
    CountDuplicate(b, x);
  }

  method GroupCommitment<A(==, !new), S(!new)>(c: Curve<A, S>, h: Hashes<A, S>, l: Package<A>, key: A, msg: seq<byte>)
    returns (r: Option<A>)
    requires IsGroup(c.f, c.g)
    ensures r.None? <==> Refused(c, l, key)
    ensures r.Some? ==> r.value == GroupPoint(c, h, l, key, msg)
  {
    var can := Canonical(l);
    CanonicalIds(l);
    if HasDuplicates(Ids(can)) {
      DuplicatesAgree(Ids(can), Ids(l));
      return None;
    }
    if HasDuplicates(Ids(l)) { DuplicatesAgree(Ids(l), Ids(can)); }
    var point := c.g.zero;
    ghost var parts := NoncePoints(c, h, l, key, msg);
    var k := 0;
    while k < |can|
      invariant 0 <= k <= |can|
      invariant k > 0 ==> key != c.g.zero
      invariant point == SumPoints(c.g, parts[..k])
    {
      if key == c.g.zero { return None; }
      var rho := h.bindingFactor(can[k].0, key, msg, can);
      assert parts[..k + 1] == parts[..k] + [parts[k]];
      SumPointsAppend(c.f, c.g, parts[..k], parts[k]);
      point := c.g.add(point, c.g.add(can[k].1.hiding, c.g.mul(can[k].1.binding, rho)));
      k := k + 1;
    }
    assert parts[..k] == parts;
    return Some(point);
  }

  // ---------------------------------------------------------------------------
  // Sign, verify a share, recover, verify
  // ---------------------------------------------------------------------------

  function Challenge<A, S>(s: Session<A, S>): S {
    s.h.challenge(GroupPoint(s.c, s.h, s.commitments, EffectiveKey(s), s.msg), EffectiveKey(s), s.msg)
  }

  /** The weight of the signer's key in its share: lambda times the challenge. */
  function KeyWeight<A, S(==)>(s: Session<A, S>, id: nat): S {
    s.c.f.mul(Coefficient(s.c, Ids(s.commitments), id).GetOr(s.c.f.zero), Challenge(s))
  }

  function Committed<A, S>(s: Session<A, S>, id: nat): NonceCommitment<A> {
    Lookup(s.commitments, id).GetOr(NonceCommitment(s.c.g.zero, s.c.g.zero))
  }

  /** The point a participant's share must be the discrete logarithm of. */
  function SharePoint<A, S(==)>(s: Session<A, S>, id: nat): A {
    var nc := Committed(s, id);
    s.c.g.add(NoncePoint(s.c, s.h, s.commitments, EffectiveKey(s), s.msg, id, nc),
              s.c.g.mul(Scaled(s.c, Eval(s.c.g, s.publicPoly, s.c.embed(id)), s.derivation), KeyWeight(s, id)))
  }

  predicate SharePasses<A(==), S(==)>(s: Session<A, S>, share: PriShare<S>) {
    && share.i in Ids(s.commitments)
    && EffectiveKey(s) != s.c.g.zero && !Refused(s.c, s.commitments, EffectiveKey(s))
    && Coefficient(s.c, Ids(s.commitments), share.i).Some?
    && s.c.g.mul(s.c.base, share.v) == SharePoint(s, share.i)
  }

  method VerifyShare<A(==, !new), S(==, !new)>(s: Session<A, S>, share: PriShare<S>) returns (ok: bool)
    requires IsGroup(s.c.f, s.c.g)
    ensures ok <==> SharePasses(s, share)
  {
    LookupSome(s.commitments, share.i);
    var commitment := Lookup(s.commitments, share.i);
    if commitment.None? { return false; }
    var key := EffectiveKey(s);
    if key == s.c.g.zero { return false; }
    var point := GroupCommitment(s.c, s.h, s.commitments, key, s.msg);
    if point.None? { return false; }
    var rho := s.h.bindingFactor(share.i, key, s.msg, Canonical(s.commitments));
    var challenge := s.h.challenge(point.value, key, s.msg);
    var lambda := LagrangeCoefficient(s.c, share.i, Ids(s.commitments));
    if lambda.None? { return false; }
    var keyShare := Scaled(s.c, Eval(s.c.g, s.publicPoly, s.c.embed(share.i)), s.derivation);
    var nonces := s.c.g.add(commitment.value.hiding, s.c.g.mul(commitment.value.binding, rho));
    return s.c.g.mul(s.c.base, share.v) == s.c.g.add(nonces, s.c.g.mul(keyShare, s.c.f.mul(lambda.value, challenge)));
  }

  function DerivedShare<S>(f: Field<S>, v: S, d: Option<S>): S {
    match d case Some(t) => f.mul(v, t) case None => v
  }

  /** What a signer answers with. */
  function Response<A, S(==)>(s: Session<A, S>, id: nat, v: S, hidingNonce: S, bindingNonce: S): S {
    var f := s.c.f;
    var rho := s.h.bindingFactor(id, EffectiveKey(s), s.msg, Canonical(s.commitments));
    var lambda := Coefficient(s.c, Ids(s.commitments), id).GetOr(f.zero);
    f.add(f.add(hidingNonce, f.mul(rho, bindingNonce)),
          f.mul(f.mul(lambda, DerivedShare(f, v, s.derivation)), Challenge(s)))
  }

  function NoncesOf<A, S>(c: Curve<A, S>, hidingNonce: S, bindingNonce: S): NonceCommitment<A> {
    NonceCommitment(c.g.mul(c.base, hidingNonce), c.g.mul(c.base, bindingNonce))
  }

  /** The answer in the exponent: the nonces' point, and the weighted key share. */
  lemma {:induction false} ResponsePoint<A(!new), S(!new)>(
      s: Session<A, S>, id: nat, v: S, hidingNonce: S, bindingNonce: S)
    requires IsGroup(s.c.f, s.c.g)
    requires Committed(s, id) == NoncesOf(s.c, hidingNonce, bindingNonce)
    ensures s.c.g.mul(s.c.base, Response(s, id, v, hidingNonce, bindingNonce))
            == s.c.g.add(NonceOf(s)(id), s.c.g.mul(Scaled(s.c, s.c.g.mul(s.c.base, v), s.derivation), KeyWeight(s, id)))
  {
    var f := s.c.f;
    var rho := s.h.bindingFactor(id, EffectiveKey(s), s.msg, Canonical(s.commitments));
    var lambda := Coefficient(s.c, Ids(s.commitments), id).GetOr(f.zero);
    SignedPoint(s.c, hidingNonce, bindingNonce, rho, lambda, DerivedShare(f, v, s.derivation), Challenge(s));
    if s.derivation.Some? { ScalarDistribute(f, s.c.g, s.c.base, v, s.derivation.value); }
  }

  /** An answer passes exactly when the share it was made with matches the public polynomial,
      a zero weight aside. */
  lemma {:induction false} ResponsePasses<A(!new), S(!new)>(
      s: Session<A, S>, id: nat, v: S, hidingNonce: S, bindingNonce: S)
    requires IsGroup(s.c.f, s.c.g) && s.derivation != Some(s.c.f.zero)
    requires Committed(s, id) == NoncesOf(s.c, hidingNonce, bindingNonce)
    ensures s.c.g.mul(s.c.base, Response(s, id, v, hidingNonce, bindingNonce)) == SharePoint(s, id)
            <==> Matches(s.c, s.publicPoly, s.c.embed(id), v) || KeyWeight(s, id) == s.c.f.zero
  {
    var f, g := s.c.f, s.c.g;
    var mine, right, w := g.mul(s.c.base, v), Eval(g, s.publicPoly, s.c.embed(id)), KeyWeight(s, id);
    var p, q := g.mul(Scaled(s.c, mine, s.derivation), w), g.mul(Scaled(s.c, right, s.derivation), w);
    ResponsePoint(s, id, v, hidingNonce, bindingNonce);
    PointComm(f, g, NonceOf(s)(id), p);
    PointComm(f, g, NonceOf(s)(id), q);
    PointCancel(f, g, p, q, NonceOf(s)(id));
    ScaleInjective(f, g, Scaled(s.c, mine, s.derivation), Scaled(s.c, right, s.derivation), w);
    if s.derivation.Some? { ScaleInjective(f, g, mine, right, s.derivation.value); }
  }

  /** The weight is zero only with the challenge. */
  lemma {:induction false} WeightIsZero<A(!new), S(!new)>(s: Session<A, S>, k: nat, n: nat)
    requires IsCurve(s.c, n) && ValidIds(Ids(s.commitments), n) && k < |s.commitments|
    ensures KeyWeight(s, Ids(s.commitments)[k]) == s.c.f.zero <==> Challenge(s) == s.c.f.zero
  {
    var f, ids := s.c.f, Ids(s.commitments);
    CoefficientIsLambda(s.c, ids, k, n);
    NodesDistinct(s.c, ids, n);
    LambdaNonzero(f, Nodes(s.c, ids), k);
    MulZero(f, Lambda(f, Nodes(s.c, ids), k));
    if KeyWeight(s, ids[k]) == f.zero { NoZeroDivisors(f, Lambda(f, Nodes(s.c, ids), k), Challenge(s)); }
  }

  /** Two parties that list the same commitments in different orders compute the same group
      commitment, challenge and answers, and pass the same shares. */
  lemma {:induction false} OrderIgnored<A(!new), S(!new)>(
      s: Session<A, S>, l: Package<A>, id: nat, v: S, hidingNonce: S, bindingNonce: S)
    requires IsGroup(s.c.f, s.c.g) && multiset(s.commitments) == multiset(l) && !HasDuplicates(Ids(s.commitments))
    ensures var s' := s.(commitments := l);
            && GroupPoint(s'.c, s'.h, l, EffectiveKey(s'), s'.msg)
               == GroupPoint(s.c, s.h, s.commitments, EffectiveKey(s), s.msg)
            && Challenge(s') == Challenge(s)
            && Response(s', id, v, hidingNonce, bindingNonce) == Response(s, id, v, hidingNonce, bindingNonce)
            && (SharePasses(s', PriShare(id, v)) <==> SharePasses(s, PriShare(id, v)))
  {
    var s' := s.(commitments := l);
    CanonicalSame(s.commitments, l);
    SameIds(s.commitments, l);
    CoefficientIgnoresOrder(s.c, Ids(s.commitments), Ids(l), id);
    if HasDuplicates(Ids(l)) { DuplicatesAgree(Ids(l), Ids(s.commitments)); }
    SameLookup(s.commitments, l, id);
    assert NoncePoints(s'.c, s'.h, l, EffectiveKey(s'), s'.msg)
           == NoncePoints(s.c, s.h, s.commitments, EffectiveKey(s), s.msg);
    assert id in Ids(l) <==> id in Ids(s.commitments) by {
      assert id in Ids(l) <==> id in multiset(Ids(l));
      assert id in Ids(s.commitments) <==> id in multiset(Ids(s.commitments));
    }
  }

  /** Refuses when the signer's own commitment was altered, the derivation is zero, or the
      session is refused. Otherwise the answer passes exactly when the key share matches the
      public polynomial, a zero weight aside. */
  method Sign<A(==, !new), S(==, !new)>(
      s: Session<A, S>, share: PriShare<S>, hidingNonce: S, bindingNonce: S, nonceIndex: nat)
    returns (r: Option<PriShare<S>>)
    requires IsGroup(s.c.f, s.c.g)
    ensures r.Some? <==>
              && share.i == nonceIndex
              && Lookup(s.commitments, share.i)
                 == Some(NonceCommitment(s.c.g.mul(s.c.base, hidingNonce), s.c.g.mul(s.c.base, bindingNonce)))
              && s.derivation != Some(s.c.f.zero)
              && EffectiveKey(s) != s.c.g.zero && !Refused(s.c, s.commitments, EffectiveKey(s))
              && Coefficient(s.c, Ids(s.commitments), share.i).Some?
    ensures r.Some? ==> r.value == PriShare(share.i, Response(s, share.i, share.v, hidingNonce, bindingNonce))
    ensures r.Some? ==>
              (SharePasses(s, r.value) <==>
               Matches(s.c, s.publicPoly, s.c.embed(share.i), share.v) || KeyWeight(s, share.i) == s.c.f.zero)
  {
    var f := s.c.f;
    if share.i != nonceIndex { return None; }
    var own := Lookup(s.commitments, share.i);
    if own.None? { return None; }
    if own.value.hiding != s.c.g.mul(s.c.base, hidingNonce) || own.value.binding != s.c.g.mul(s.c.base, bindingNonce) {
      return None;
    }
    if s.derivation == Some(f.zero) { return None; }
    var key := EffectiveKey(s);
    if key == s.c.g.zero { return None; }
    var point := GroupCommitment(s.c, s.h, s.commitments, key, s.msg);
    if point.None? { return None; }
    var rho := s.h.bindingFactor(share.i, key, s.msg, Canonical(s.commitments));
    var challenge := s.h.challenge(point.value, key, s.msg);
    var lambda := LagrangeCoefficient(s.c, share.i, Ids(s.commitments));
    if lambda.None? { return None; }
    var secret := match s.derivation case Some(d) => f.mul(share.v, d) case None => share.v;
    var z := f.add(f.add(hidingNonce, f.mul(rho, bindingNonce)), f.mul(f.mul(lambda.value, secret), challenge));
    LookupSome(s.commitments, share.i);
    ResponsePasses(s, share.i, share.v, hidingNonce, bindingNonce);
    return Some(PriShare(share.i, z));
  }

  /** The partial signature in the exponent. */
  lemma {:induction false} SignedPoint<A(!new), S(!new)>(
      c: Curve<A, S>, d: S, e: S, rho: S, lambda: S, secret: S, challenge: S)
    requires IsGroup(c.f, c.g)
    ensures c.g.mul(c.base, c.f.add(c.f.add(d, c.f.mul(rho, e)), c.f.mul(c.f.mul(lambda, secret), challenge)))
            == c.g.add(c.g.add(c.g.mul(c.base, d), c.g.mul(c.g.mul(c.base, e), rho)),
                       c.g.mul(c.g.mul(c.base, secret), c.f.mul(lambda, challenge)))
  {
    var f := c.f;
    ScalarDistribute(f, c.g, c.base, f.add(d, f.mul(rho, e)), f.mul(f.mul(lambda, secret), challenge));
    ScalarDistribute(f, c.g, c.base, d, f.mul(rho, e));
    MulComm(f, rho, e);
    ScalarDistribute(f, c.g, c.base, e, rho);
    MulComm(f, lambda, secret);
    MulAssoc(f, secret, lambda, challenge);
    ScalarDistribute(f, c.g, c.base, secret, f.mul(lambda, challenge));
  }

  predicate Verifies<A(==), S>(c: Curve<A, S>, h: Hashes<A, S>, key: A, msg: seq<byte>, sig: Signature<A, S>) {
    key != c.g.zero && c.g.mul(c.base, sig.z) == c.g.add(sig.r, c.g.mul(key, h.challenge(sig.r, key, msg)))
  }

  function ShareIds<S>(shares: seq<PriShare<S>>): (ids: seq<nat>)
    ensures |ids| == |shares|
  {
    seq(|shares|, i requires 0 <= i < |shares| => shares[i].i)
  }

  function ShareValues<S>(shares: seq<PriShare<S>>): (vs: seq<S>)
    ensures |vs| == |shares|
  {
    seq(|shares|, i requires 0 <= i < |shares| => shares[i].v)
  }

  datatype Recovery<+T> = Failed | TooFew | Recovered(value: T)

  /** One share per index, all of them committed. */
  predicate OnePerCommitted<A, S>(shares: seq<PriShare<S>>, l: Package<A>) {
    !HasDuplicates(ShareIds(shares)) && forall i :: 0 <= i < |shares| ==> ShareIds(shares)[i] in Ids(l)
  }

  method CheckIndices(ids: seq<nat>, participantIds: seq<nat>) returns (ok: bool)
    ensures ok <==> !HasDuplicates(ids) && forall i :: 0 <= i < |ids| ==> ids[i] in participantIds
  {
    var seen: set<nat> := {};
    var k := 0;
    while k < |ids|
      invariant 0 <= k <= |ids|
      invariant forall i :: 0 <= i < k ==> ids[i] in seen
      invariant forall j :: j in seen ==> exists i :: 0 <= i < k && ids[i] == j
      invariant forall i, j :: 0 <= i < j < k ==> ids[i] != ids[j]
      invariant forall i :: 0 <= i < k ==> ids[i] in participantIds
    {
      if ids[k] !in participantIds { return false; }
      if ids[k] in seen {
        var i :| 0 <= i < k && ids[i] == ids[k];
        return false;
      }
      seen := seen + {ids[k]};
      k := k + 1;
    }
    return true;
  }

  method SumValues<S(!new)>(f: Field<S>, vs: seq<S>) returns (z: S)
    requires IsField(f)
    ensures z == Sum(f, vs)
  {
    z := f.zero;
    var k := 0;
    while k < |vs|
      invariant 0 <= k <= |vs|
      invariant z == Sum(f, vs[..k])
    {
      assert vs[..k + 1] == vs[..k] + [vs[k]];
      SumAppend(f, vs[..k], vs[k]);
      z := f.add(z, vs[k]);
      k := k + 1;
    }
    assert vs[..k] == vs;
  }

  /** Only indices are checked here: the shares may be those of some of the committed
      participants, as long as there are `t` of them. */
  method Recover<A(==, !new), S(!new)>(
      c: Curve<A, S>, h: Hashes<A, S>, shares: seq<PriShare<S>>, t: nat, key: A, msg: seq<byte>, l: Package<A>)
    returns (r: Recovery<Signature<A, S>>)
    requires IsGroup(c.f, c.g)
    ensures r.TooFew? <==> 0 < t && |shares| < t
    ensures r.Recovered? <==> 0 < t <= |shares| && OnePerCommitted(shares, l) && !Refused(c, l, key)
    ensures r.Recovered? ==> r.value == Signature(GroupPoint(c, h, l, key, msg), Sum(c.f, ShareValues(shares)))
  {
    if t == 0 { return Failed; }
    if |shares| < t { return TooFew; }
    var checked := CheckIndices(ShareIds(shares), Ids(l));
    if !checked { return Failed; }
    var z := SumValues(c.f, ShareValues(shares));
    var point := GroupCommitment(c, h, l, key, msg);
    if point.None? { return Failed; }
    return Recovered(Signature(point.value, z));
  }

  // ---------------------------------------------------------------------------
  // The signature verifies
  // ---------------------------------------------------------------------------

  lemma {:induction false} PointPermutation<A(!new), S(!new)>(
      f: Field<S>, g: Group<A, S>, h: nat -> A, a: seq<nat>, b: seq<nat>)
    requires IsGroup(f, g) && multiset(a) == multiset(b)
    ensures SumPoints(g, Mapped(h, a)) == SumPoints(g, Mapped(h, b))
  {
    if a == [] {
      assert |b| == |multiset(b)| == |multiset(a)| == 0;
    } else {
      var k := FindHead(a, b);
      PointPermutation(f, g, h, a[1..], Drop(b, k));
      SumPointsDrop(f, g, Mapped(h, b), k);
      assert Drop(Mapped(h, b), k) == Mapped(h, Drop(b, k));
      assert Mapped(h, a)[1..] == Mapped(h, a[1..]);
    }
  }

  lemma {:induction false} SumPointsConcat<A(!new), S(!new)>(f: Field<S>, g: Group<A, S>, a: seq<A>, b: seq<A>)
    requires IsGroup(f, g)
    ensures SumPoints(g, a + b) == g.add(SumPoints(g, a), SumPoints(g, b))
  {
    if a == [] {
      assert a + b == b;
      PointZero(f, g, SumPoints(g, b));
    } else {
      assert (a + b)[1..] == a[1..] + b;
      SumPointsConcat(f, g, a[1..], b);
      PointAssoc(f, g, a[0], SumPoints(g, a[1..]), SumPoints(g, b));
    }
  }

  function NonceOf<A, S>(s: Session<A, S>): nat -> A {
    (id: nat) => NoncePoint(s.c, s.h, s.commitments, EffectiveKey(s), s.msg, id, Committed(s, id))
  }

  function KeyOf<A, S(==)>(s: Session<A, S>): nat -> A {
    (id: nat) => s.c.g.mul(Scaled(s.c, Eval(s.c.g, s.publicPoly, s.c.embed(id)), s.derivation), KeyWeight(s, id))
  }

  function PointOf<A, S(==)>(s: Session<A, S>): nat -> A {
    (id: nat) => SharePoint(s, id)
  }

  /** The group commitment is the sum over the list as given, in any order. */
  lemma {:induction false} NonceSum<A(!new), S(!new)>(s: Session<A, S>)
    requires IsGroup(s.c.f, s.c.g) && !HasDuplicates(Ids(s.commitments))
    ensures SumPoints(s.c.g, Mapped(NonceOf(s), Ids(s.commitments)))
            == GroupPoint(s.c, s.h, s.commitments, EffectiveKey(s), s.msg)
  {
    var l, can := s.commitments, Canonical(s.commitments);
    var parts := NoncePoints(s.c, s.h, l, EffectiveKey(s), s.msg);
    forall i | 0 <= i < |can| ensures Mapped(NonceOf(s), Ids(can))[i] == parts[i] {
      assert can[i] in l;
      var k :| 0 <= k < |l| && l[k] == can[i];
      LookupEntry(l, k);
    }
    assert Mapped(NonceOf(s), Ids(can)) == parts;
    CanonicalIds(l);
    PointPermutation(s.c.f, s.c.g, NonceOf(s), Ids(can), Ids(l));
  }

  /** ((P d) (w e)) = (P w) (d e), the derivation being one if there is none. */
  lemma {:induction false} Reweighted<A(!new), S(!new)>(c: Curve<A, S>, p: A, d: Option<S>, w: S, e: S)
    requires IsGroup(c.f, c.g)
    ensures c.g.mul(Scaled(c, p, d), c.f.mul(w, e)) == c.g.mul(c.g.mul(p, w), c.f.mul(d.GetOr(c.f.one), e))
    ensures c.g.mul(Scaled(c, p, d), e) == c.g.mul(p, c.f.mul(d.GetOr(c.f.one), e))
  {
    var f, t := c.f, d.GetOr(c.f.one);
    PointZero(f, c.g, p);
    assert Scaled(c, p, d) == c.g.mul(p, t);
    ScalarDistribute(f, c.g, p, t, f.mul(w, e));
    ScalarDistribute(f, c.g, p, t, e);
    ScalarDistribute(f, c.g, p, w, f.mul(t, e));
    MulAssoc(f, t, w, e);
    MulComm(f, t, w);
    MulAssoc(f, w, t, e);
  }

  /** The challenge, times the derivation scalar if any. */
  function DerivedChallenge<A, S>(s: Session<A, S>): S {
    s.c.f.mul(s.derivation.GetOr(s.c.f.one), Challenge(s))
  }

  /** The participants' key points as they enter a signature, whatever points they are. */
  function WeightedKeys<A, S(==)>(s: Session<A, S>, qs: seq<A>): (r: seq<A>)
    requires |qs| == |s.commitments|
    ensures |r| == |qs|
  {
    seq(|qs|, i requires 0 <= i < |qs| =>
      s.c.g.mul(Scaled(s.c, qs[i], s.derivation), KeyWeight(s, Ids(s.commitments)[i])))
  }

  lemma {:induction false} WeightedKeyAt<A(!new), S(!new)>(s: Session<A, S>, qs: seq<A>, i: nat, n: nat)
    requires IsCurve(s.c, n) && ValidIds(Ids(s.commitments), n) && i < |qs| == |s.commitments|
    ensures WeightedKeys(s, qs)[i]
            == s.c.g.mul(s.c.g.mul(qs[i], Lambda(s.c.f, Nodes(s.c, Ids(s.commitments)), i)), DerivedChallenge(s))
  {
    var ids := Ids(s.commitments);
    var w := Lambda(s.c.f, Nodes(s.c, ids), i);
    assert KeyWeight(s, ids[i]) == s.c.f.mul(w, Challenge(s)) by { CoefficientIsLambda(s.c, ids, i, n); }
    Reweighted(s.c, qs[i], s.derivation, w, Challenge(s));
  }

  lemma {:induction false} WeightedKeySum<A(!new), S(!new)>(s: Session<A, S>, qs: seq<A>, n: nat)
    requires IsCurve(s.c, n) && ValidIds(Ids(s.commitments), n) && |qs| == |s.commitments|
    ensures SumPoints(s.c.g, WeightedKeys(s, qs))
            == s.c.g.mul(SumPoints(s.c.g, WeightedPoints(s.c.g, Lambdas(s.c.f, Nodes(s.c, Ids(s.commitments))), qs)),
                         DerivedChallenge(s))
  {
    var t := DerivedChallenge(s);
    var ws := WeightedPoints(s.c.g, Lambdas(s.c.f, Nodes(s.c, Ids(s.commitments))), qs);
    forall i | 0 <= i < |qs| ensures WeightedKeys(s, qs)[i] == Times(s.c.g, ws, t)[i] { WeightedKeyAt(s, qs, i, n); }
    assert WeightedKeys(s, qs) == Times(s.c.g, ws, t);
    SumPointsTimes(s.c.f, s.c.g, ws, t);
  }

  /** The participants' weighted key shares sum to the key times the challenge. */
  lemma {:induction false} KeySum<A(!new), S(!new)>(s: Session<A, S>, n: nat)
    requires IsCurve(s.c, n) && ValidIds(Ids(s.commitments), n) && |s.publicPoly| <= |s.commitments|
    ensures SumPoints(s.c.g, Mapped(KeyOf(s), Ids(s.commitments))) == s.c.g.mul(EffectiveKey(s), Challenge(s))
  {
    var ids := Ids(s.commitments);
    var xs := Nodes(s.c, ids);
    var qs := PointValues(s.c.g, s.publicPoly, xs);
    assert Mapped(KeyOf(s), ids) == WeightedKeys(s, qs);
    WeightedKeySum(s, qs, n);
    NodesDistinct(s.c, ids, n);
    PointsAtZero(s.c.f, s.c.g, xs, s.publicPoly);
    Reweighted(s.c, Eval(s.c.g, s.publicPoly, s.c.f.zero), s.derivation, s.c.f.one, Challenge(s));
  }

  lemma {:induction false} TotalPoint<A(!new), S(!new)>(s: Session<A, S>, n: nat)
    requires IsCurve(s.c, n) && ValidIds(Ids(s.commitments), n) && |s.publicPoly| <= |s.commitments|
    ensures SumPoints(s.c.g, Mapped(PointOf(s), Ids(s.commitments)))
            == s.c.g.add(GroupPoint(s.c, s.h, s.commitments, EffectiveKey(s), s.msg),
                         s.c.g.mul(EffectiveKey(s), Challenge(s)))
  {
    var ids := Ids(s.commitments);
    NonceSum(s);
    KeySum(s, n);
    assert Mapped(PointOf(s), ids) == Plus(s.c.g, Mapped(NonceOf(s), ids), Mapped(KeyOf(s), ids));
    SumPointsPlus(s.c.f, s.c.g, Mapped(NonceOf(s), ids), Mapped(KeyOf(s), ids));
  }

  /** The committed participants without a share. */
  function Missing(all: seq<nat>, present: seq<nat>): seq<nat> {
    if all == [] then [] else (if all[0] in present then [] else [all[0]]) + Missing(all[1..], present)
  }

  lemma {:induction false} MissingCount(all: seq<nat>, present: seq<nat>, x: nat)
    ensures multiset(Missing(all, present))[x] == if x in present then 0 else multiset(all)[x]
  {
    if all != [] {
      MissingCount(all[1..], present, x);
      assert all == [all[0]] + all[1..];
    }
  }

  lemma {:induction false} PresentAndMissing(all: seq<nat>, present: seq<nat>, n: nat)
    requires ValidIds(all, n) && !HasDuplicates(present) && forall i :: 0 <= i < |present| ==> present[i] in all
    ensures multiset(present + Missing(all, present)) == multiset(all)
  {
    assert ValidIds(present, n);
    forall x: nat ensures multiset(present + Missing(all, present))[x] == multiset(all)[x] {
      MissingCount(all, present, x);
      OnceOnly(all, x, n);
      OnceOnly(present, x, n);
      if x in present { assert x in multiset(present) && x in multiset(all); }
    }
  }

  ghost predicate Recoverable<A(!new), S(!new)>(s: Session<A, S>, shares: seq<PriShare<S>>, n: nat) {
    && IsCurve(s.c, n) && ValidIds(Ids(s.commitments), n) && |s.publicPoly| <= |s.commitments|
    && EffectiveKey(s) != s.c.g.zero
    && OnePerCommitted(shares, s.commitments) && forall i :: 0 <= i < |shares| ==> SharePasses(s, shares[i])
  }

  function RecoveredSignature<A, S>(s: Session<A, S>, shares: seq<PriShare<S>>): Signature<A, S> {
    Signature(GroupPoint(s.c, s.h, s.commitments, EffectiveKey(s), s.msg), Sum(s.c.f, ShareValues(shares)))
  }

  /** The shares present are the logarithm of their points' sum. */
  lemma {:induction false} PresentSum<A(!new), S(!new)>(s: Session<A, S>, shares: seq<PriShare<S>>)
    requires IsGroup(s.c.f, s.c.g) && forall i :: 0 <= i < |shares| ==> SharePasses(s, shares[i])
    ensures SumPoints(s.c.g, Mapped(PointOf(s), ShareIds(shares)))
            == s.c.g.mul(s.c.base, Sum(s.c.f, ShareValues(shares)))
  {
    assert Commit(s.c.g, s.c.base, ShareValues(shares)) == Mapped(PointOf(s), ShareIds(shares));
    SumCommits(s.c.f, s.c.g, s.c.base, ShareValues(shares));
  }

  lemma {:induction false} MappedConcat<A>(h: nat -> A, a: seq<nat>, b: seq<nat>)
    ensures Mapped(h, a + b) == Mapped(h, a) + Mapped(h, b)
  {
  }

  lemma {:induction false} PartsSum<A(!new), S(!new)>(
      f: Field<S>, g: Group<A, S>, h: nat -> A, all: seq<nat>, present: seq<nat>, n: nat)
    requires IsGroup(f, g)
    requires ValidIds(all, n) && !HasDuplicates(present) && forall i :: 0 <= i < |present| ==> present[i] in all
    ensures SumPoints(g, Mapped(h, all))
            == g.add(SumPoints(g, Mapped(h, present)), SumPoints(g, Mapped(h, Missing(all, present))))
  {
    var missing := Missing(all, present);
    PresentAndMissing(all, present, n);
    PointPermutation(f, g, h, present + missing, all);
    MappedConcat(h, present, missing);
    SumPointsConcat(f, g, Mapped(h, present), Mapped(h, missing));
  }

  /** From shares that pass, the recovered signature verifies exactly when the points of
      the absent participants cancel out. */
  lemma {:induction false} VerifiesIff<A(!new), S(!new)>(s: Session<A, S>, shares: seq<PriShare<S>>, n: nat)
    requires Recoverable(s, shares, n)
    ensures Verifies(s.c, s.h, EffectiveKey(s), s.msg, RecoveredSignature(s, shares))
            <==> SumPoints(s.c.g, Mapped(PointOf(s), Missing(Ids(s.commitments), ShareIds(shares)))) == s.c.g.zero
  {
    var f, g := s.c.f, s.c.g;
    var all, present := Ids(s.commitments), ShareIds(shares);
    TotalPoint(s, n);
    PresentSum(s, shares);
    PartsSum(f, g, PointOf(s), all, present, n);
    var p, m := SumPoints(g, Mapped(PointOf(s), present)), SumPoints(g, Mapped(PointOf(s), Missing(all, present)));
    PointComm(f, g, p, m);
    PointZero(f, g, p);
    PointCancel(f, g, m, g.zero, p);
  }

  lemma {:induction false} NoneMissing(all: seq<nat>, present: seq<nat>)
    requires forall i :: 0 <= i < |all| ==> all[i] in present
    ensures Missing(all, present) == []
  {
    if all != [] { NoneMissing(all[1..], present); }
  }

  /** With a passing share of every committed participant it verifies, whoever produced
      the shares, the commitments and the public polynomial. */
  lemma {:induction false} CompleteVerifies<A(!new), S(!new)>(s: Session<A, S>, shares: seq<PriShare<S>>, n: nat)
    requires Recoverable(s, shares, n)
    requires forall i :: 0 <= i < |s.commitments| ==> s.commitments[i].0 in ShareIds(shares)
    ensures Verifies(s.c, s.h, EffectiveKey(s), s.msg, RecoveredSignature(s, shares))
  {
    NoneMissing(Ids(s.commitments), ShareIds(shares));
    VerifiesIff(s, shares, n);
  }

  // ---------------------------------------------------------------------------
  // Signing with what the members of a ring hold
  // ---------------------------------------------------------------------------

  /** Every participant committed to its nonces. */
  predicate OwnNonces<A(==), S>(s: Session<A, S>, hiding: nat -> S, binding: nat -> S) {
    forall i :: 0 <= i < |s.commitments| ==>
      s.commitments[i].1 == NoncesOf(s.c, hiding(s.commitments[i].0), binding(s.commitments[i].0))
  }

  /** Every participant answers with the share it holds. */
  ghost function Responses<A, S>(s: Session<A, S>, ring: Ring<A, S>, hiding: nat -> S, binding: nat -> S, n: nat)
    : (zs: seq<S>)
    requires MembersOf(ring, Ids(s.commitments), n)
    ensures |zs| == |s.commitments|
  {
    var ids := Ids(s.commitments);
    seq(|ids|, i requires 0 <= i < |ids| =>
      Response(s, ids[i], ring.members[ids[i]].share, hiding(ids[i]), binding(ids[i])))
  }

  lemma {:induction false} ResponsesPoint<A(!new), S(!new)>(
      s: Session<A, S>, ring: Ring<A, S>, hiding: nat -> S, binding: nat -> S, n: nat)
    requires IsCurve(s.c, n) && Held(s.c, ring, n) && MembersOf(ring, Ids(s.commitments), n)
    requires OwnNonces(s, hiding, binding)
    ensures s.c.g.mul(s.c.base, Sum(s.c.f, Responses(s, ring, hiding, binding, n)))
            == s.c.g.add(GroupPoint(s.c, s.h, s.commitments, EffectiveKey(s), s.msg),
                         s.c.g.mul(Combined(s.c, ring, Ids(s.commitments), n), DerivedChallenge(s)))
  {
    var g, ids := s.c.g, Ids(s.commitments);
    var zs, qs := Responses(s, ring, hiding, binding, n), PublicShares(s.c, ring, ids, n);
    var nonces := Mapped(NonceOf(s), ids);
    forall i | 0 <= i < |ids| ensures Commit(g, s.c.base, zs)[i] == Plus(g, nonces, WeightedKeys(s, qs))[i] {
      LookupEntry(s.commitments, i);
      assert Holds(s.c, ring, ids[i], ring.members[ids[i]]);
      ResponsePoint(s, ids[i], ring.members[ids[i]].share, hiding(ids[i]), binding(ids[i]));
    }
    assert Commit(g, s.c.base, zs) == Plus(g, nonces, WeightedKeys(s, qs));
    SumCommits(s.c.f, g, s.c.base, zs);
    SumPointsPlus(s.c.f, g, nonces, WeightedKeys(s, qs));
    NonceSum(s);
    WeightedKeySum(s, qs, n);
  }

  /** Members that sign with what they hold, whatever polynomials they computed, produce a
      signature under the ring's key exactly when their public combination is that key, a
      zero challenge or derivation aside. */
  lemma {:induction false} SignatureIff<A(!new), S(!new)>(
      s: Session<A, S>, ring: Ring<A, S>, hiding: nat -> S, binding: nat -> S, n: nat)
    requires IsCurve(s.c, n) && Held(s.c, ring, n) && MembersOf(ring, Ids(s.commitments), n)
    requires OwnNonces(s, hiding, binding)
    requires Eval(s.c.g, s.publicPoly, s.c.f.zero) == ring.key && EffectiveKey(s) != s.c.g.zero
    ensures Verifies(s.c, s.h, EffectiveKey(s), s.msg,
                     Signature(GroupPoint(s.c, s.h, s.commitments, EffectiveKey(s), s.msg),
                               Sum(s.c.f, Responses(s, ring, hiding, binding, n))))
            <==> Combined(s.c, ring, Ids(s.commitments), n) == ring.key || DerivedChallenge(s) == s.c.f.zero
  {
    var f, g := s.c.f, s.c.g;
    var r, t := GroupPoint(s.c, s.h, s.commitments, EffectiveKey(s), s.msg), DerivedChallenge(s);
    var mine := Combined(s.c, ring, Ids(s.commitments), n);
    ResponsesPoint(s, ring, hiding, binding, n);
    Reweighted(s.c, ring.key, s.derivation, f.one, Challenge(s));
    PointComm(f, g, r, g.mul(mine, t));
    PointComm(f, g, r, g.mul(ring.key, t));
    PointCancel(f, g, g.mul(mine, t), g.mul(ring.key, t), r);
    ScaleInjective(f, g, mine, ring.key, t);
  }

  /** The coordinator's checks of all answers against its own polynomial pass exactly when
      every participant's share is one of that polynomial. */
  lemma {:induction false} AnswersPassIff<A(!new), S(!new)>(
      s: Session<A, S>, ring: Ring<A, S>, hiding: nat -> S, binding: nat -> S, n: nat)
    requires IsCurve(s.c, n) && MembersOf(ring, Ids(s.commitments), n) && OwnNonces(s, hiding, binding)
    requires s.derivation != Some(s.c.f.zero) && EffectiveKey(s) != s.c.g.zero && Challenge(s) != s.c.f.zero
    ensures var ids, zs := Ids(s.commitments), Responses(s, ring, hiding, binding, n);
            (forall i :: 0 <= i < |ids| ==> SharePasses(s, PriShare(ids[i], zs[i])))
            <==> forall i :: 0 <= i < |ids| ==> SignsUnder(s.c, ring, ids[i], s.publicPoly)
  {
    var ids, zs := Ids(s.commitments), Responses(s, ring, hiding, binding, n);
    forall i | 0 <= i < |ids|
      ensures SharePasses(s, PriShare(ids[i], zs[i])) <==> SignsUnder(s.c, ring, ids[i], s.publicPoly)
    {
      LookupEntry(s.commitments, i);
      CoefficientIsLambda(s.c, ids, i, n);
      WeightIsZero(s, i, n);
      ResponsePasses(s, ids[i], ring.members[ids[i]].share, hiding(ids[i]), binding(ids[i]));
    }
  }

  /** Over any history, whatever the dealers showed, every quorum vouched for signs under
      the first generation's key. */
  lemma {:induction false} SignsInEveryGeneration<A(!new), S(!new)>(
      s: Session<A, S>, rings: seq<Ring<A, S>>, cers: seq<Ceremony<A, S>>, n: nat, k: nat,
      hiding: nat -> S, binding: nat -> S)
    requires IsCurve(s.c, n) && History(s.c, rings, cers, n) && k < |rings|
    requires Quorum(rings[k], Ids(s.commitments), n) && Vouched(s.c, rings, cers, n, k, Ids(s.commitments))
    requires OwnNonces(s, hiding, binding)
    requires Eval(s.c.g, s.publicPoly, s.c.f.zero) == rings[0].key && EffectiveKey(s) != s.c.g.zero
    ensures Verifies(s.c, s.h, EffectiveKey(s), s.msg,
                     Signature(GroupPoint(s.c, s.h, s.commitments, EffectiveKey(s), s.msg),
                               Sum(s.c.f, Responses(s, rings[k], hiding, binding, n))))
  {
    EveryGeneration(s.c, rings, cers, n, k);
    VouchedHoldsKey(s.c, rings, cers, n, k, Ids(s.commitments));
    SignatureIff(s, rings[k], hiding, binding, n);
  }
}
