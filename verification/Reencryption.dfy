/** Threshold proxy re-encryption: every member re-encrypts with its share and proves it,
    a quorum's replies combine, and the reader recovers the point the data was sealed
    under. Symmetric encryption and hashing are left to parameters. */
module Reencryption {
  import opened Algebra
  import opened Bytes
  import opened Polynomial
  import opened Lagrange
  import opened Threshold
  import opened Dkg
  import opened Lifecycle
  import opened Frost
  import opened Options

  /** The challenge hash: index, reader key, commitment, effective key share, and the three proof points. */
  type ChallengeHash<!A, !S> = (nat, A, A, A, A, A, A) -> S

  datatype Reply<+A, +S> = Reply(i: nat, v: A, challenge: S, proof: S)

  function EffectiveShare<S>(f: Field<S>, ski: S, d: Option<S>): S {
    match d case Some(t) => f.mul(t, ski) case None => ski
  }

  function Subtract<A, S>(c: Curve<A, S>, p: A, q: A): A { c.g.add(p, Minus(c.f, c.g, q)) }

  // ---------------------------------------------------------------------------
  // The reader's authorization
  // ---------------------------------------------------------------------------

  /** The challenge of an authorization: reader key, nonce point, digest of the request. */
  type AuthorizationHash<!A, !S> = (A, A, seq<byte>) -> S

  datatype Authorization<+S> = Authorization(challenge: S, response: S)

  function Authorize<A, S>(
      c: Curve<A, S>, h: AuthorizationHash<A, S>, rdrSk: S, rdrPk: A, digest: seq<byte>, nonce: S): Authorization<S>
  {
    var e := h(rdrPk, c.g.mul(c.base, nonce), digest);
    Authorization(e, c.f.add(nonce, c.f.mul(e, rdrSk)))
  }

  predicate Authorized<A(==), S(==)>(
      c: Curve<A, S>, h: AuthorizationHash<A, S>, rdrPk: A, digest: seq<byte>, a: Authorization<S>)
  {
    && rdrPk != c.g.zero
    && h(rdrPk, Subtract(c, c.g.mul(c.base, a.response), c.g.mul(rdrPk, a.challenge)), digest) == a.challenge
  }

  /** A reader's own authorization is valid exactly when its key is not the identity. */
  lemma {:induction false} OwnAuthorization<A(!new), S(!new)>(
      c: Curve<A, S>, h: AuthorizationHash<A, S>, rdrSk: S, digest: seq<byte>, nonce: S)
    requires IsGroup(c.f, c.g)
    ensures var rdrPk := c.g.mul(c.base, rdrSk);
            Authorized(c, h, rdrPk, digest, Authorize(c, h, rdrSk, rdrPk, digest, nonce)) <==> rdrPk != c.g.zero
  {
    var rdrPk := c.g.mul(c.base, rdrSk);
    ProofOpens(c, c.base, nonce, h(rdrPk, c.g.mul(c.base, nonce), digest), rdrSk);
  }

  /** Two authorizations with one nonce point and different challenges give the secret key:
      whoever can answer for a nonce point knows it. */
  lemma {:induction false} AuthorizationExtracts<A(!new), S(!new)>(
      c: Curve<A, S>, rdrPk: A, a: Authorization<S>, b: Authorization<S>) returns (rdrSk: S)
    requires IsGroup(c.f, c.g) && a.challenge != b.challenge
    requires Subtract(c, c.g.mul(c.base, a.response), c.g.mul(rdrPk, a.challenge))
             == Subtract(c, c.g.mul(c.base, b.response), c.g.mul(rdrPk, b.challenge))
    ensures rdrPk == c.g.mul(c.base, rdrSk)
  {
    rdrSk := c.f.mul(c.f.Sub(a.response, b.response), c.f.inverse(c.f.Sub(a.challenge, b.challenge)));
    Extract(c, c.base, rdrPk, a.challenge, a.response, b.challenge, b.response);
  }

  // ---------------------------------------------------------------------------
  // A member's reply
  // ---------------------------------------------------------------------------

  /** What a member is asked: the reader's key and authorization, the commitment, and the
      derivation scalar if any. */
  datatype Request<+A, +S> = Request(
    rdrPk: A,
    encCmt: A,
    derivation: Option<S>,
    digest: seq<byte>,
    authorization: Authorization<S>)

  /** Refused: index zero, a request without a valid authorization, a zero derivation, and
      the identity as either point. */
  predicate Refuses<A(==), S(==)>(c: Curve<A, S>, ah: AuthorizationHash<A, S>, idx: nat, q: Request<A, S>) {
    || idx == 0 || !Authorized(c, ah, q.rdrPk, q.digest, q.authorization)
    || q.derivation == Some(c.f.zero) || q.encCmt == c.g.zero
  }

  /** A member's reply, with the proof nonce `ri`. */
  function Reencrypt<A(==), S(==)>(
      c: Curve<A, S>, h: ChallengeHash<A, S>, ah: AuthorizationHash<A, S>, idx: nat, ski: S, q: Request<A, S>, ri: S)
    : Option<Reply<A, S>>
  {
    if idx == 0 then None else
    if !Authorized(c, ah, q.rdrPk, q.digest, q.authorization) then None else
    if q.derivation == Some(c.f.zero) then None else
    if q.rdrPk == c.g.zero || q.encCmt == c.g.zero then None else
    var rdrPk, encCmt, d := q.rdrPk, q.encCmt, q.derivation;
    var share := EffectiveShare(c.f, ski, d);
    var x := c.g.add(rdrPk, encCmt);
    var v := c.g.mul(x, share);
    var challenge := h(idx, rdrPk, encCmt, c.g.mul(c.base, share), v, c.g.mul(x, ri), c.g.mul(c.base, ri));
    Some(Reply(idx, v, challenge, c.f.add(ri, c.f.mul(challenge, share))))
  }

  /** A nonce point, recomputed from the proof that `claim` is a multiple of `point`. */
  function Recomputed<A, S>(c: Curve<A, S>, point: A, claim: A, reply: Reply<A, S>): A {
    Subtract(c, c.g.mul(point, reply.proof), c.g.mul(claim, reply.challenge))
  }

  /** The check of a reply against the public polynomial. */
  predicate ReplyPasses<A, S(==)>(
      c: Curve<A, S>, h: ChallengeHash<A, S>, rdrPk: A, publicPoly: seq<A>, encCmt: A, reply: Reply<A, S>, d: Option<S>)
  {
    var keyShare := Scaled(c, Eval(c.g, publicPoly, c.embed(reply.i)), d);
    var uiHat := Recomputed(c, c.g.add(rdrPk, encCmt), reply.v, reply);
    var hiHat := Recomputed(c, c.base, keyShare, reply);
    h(reply.i, rdrPk, encCmt, keyShare, reply.v, uiHat, hiHat) == reply.challenge
  }

  /** P (r + e s) - (P s) e = P r */
  lemma {:induction false} ProofOpens<A(!new), S(!new)>(c: Curve<A, S>, p: A, r: S, e: S, s: S)
    requires IsGroup(c.f, c.g)
    ensures Subtract(c, c.g.mul(p, c.f.add(r, c.f.mul(e, s))), c.g.mul(c.g.mul(p, s), e)) == c.g.mul(p, r)
  {
    ScalarDistribute(c.f, c.g, p, r, c.f.mul(e, s));
    MulComm(c.f, e, s);
    ScalarDistribute(c.f, c.g, p, s, e);
    PointCancel(c.f, c.g, c.g.mul(p, r), c.g.zero, c.g.mul(c.g.mul(p, s), e));
  }

  /** Exactly the stated requests are refused; otherwise a member whose share matches the
      public polynomial produces a reply that passes. */
  lemma {:induction false} HonestReplyPasses<A(!new), S(!new)>(
      c: Curve<A, S>, h: ChallengeHash<A, S>, ah: AuthorizationHash<A, S>, publicPoly: seq<A>, idx: nat, ski: S,
      q: Request<A, S>, ri: S)
    requires IsGroup(c.f, c.g) && Matches(c, publicPoly, c.embed(idx), ski)
    ensures var reply := Reencrypt(c, h, ah, idx, ski, q, ri);
            && (reply.None? <==> Refuses(c, ah, idx, q))
            && (reply.Some? ==> ReplyPasses(c, h, q.rdrPk, publicPoly, q.encCmt, reply.value, q.derivation))
  {
    if Reencrypt(c, h, ah, idx, ski, q, ri).None? { return; }
    var d, share := q.derivation, EffectiveShare(c.f, ski, q.derivation);
    var reply := Reencrypt(c, h, ah, idx, ski, q, ri).value;
    if d.Some? {
      ScalarDistribute(c.f, c.g, c.base, ski, d.value);
      MulComm(c.f, ski, d.value);
    }
    assert Scaled(c, Eval(c.g, publicPoly, c.embed(idx)), d) == c.g.mul(c.base, share);
    ProofOpens(c, c.g.add(q.rdrPk, q.encCmt), ri, reply.challenge, share);
    ProofOpens(c, c.base, ri, reply.challenge, share);
  }

  /** The reply a member with share `ski` owes: the reader's key plus the commitment, times
      the share, derivation included. */
  function RightReply<A, S>(c: Curve<A, S>, ski: S, q: Request<A, S>): A {
    c.g.mul(c.g.add(q.rdrPk, q.encCmt), EffectiveShare(c.f, ski, q.derivation))
  }

  lemma {:induction false} ReplyIsOwed<A(!new), S(!new)>(
      c: Curve<A, S>, h: ChallengeHash<A, S>, ah: AuthorizationHash<A, S>, idx: nat, ski: S, q: Request<A, S>, ri: S)
    ensures var reply := Reencrypt(c, h, ah, idx, ski, q, ri);
            reply.Some? ==> reply.value.i == idx && reply.value.v == RightReply(c, ski, q)
  {
  }

  /** Two replies that pass under two hashes for the same nonce points, with different
      challenges: the reply is the one a member whose share matches the public polynomial
      owes. Whoever can answer two challenges for one pair of nonce points replies rightly. */
  lemma {:induction false} ReplyIsRight<A(!new), S(!new)>(
      c: Curve<A, S>, h: ChallengeHash<A, S>, h': ChallengeHash<A, S>, publicPoly: seq<A>, ski: S, q: Request<A, S>,
      a: Reply<A, S>, b: Reply<A, S>, n: nat)
    requires IsCurve(c, n) && Matches(c, publicPoly, c.embed(a.i), ski)
    requires ReplyPasses(c, h, q.rdrPk, publicPoly, q.encCmt, a, q.derivation)
    requires ReplyPasses(c, h', q.rdrPk, publicPoly, q.encCmt, b, q.derivation)
    requires a.i == b.i && a.v == b.v && a.challenge != b.challenge
    requires SameNonces(c, publicPoly, q, a, b)
    ensures a.v == RightReply(c, ski, q)
  {
    var keyShare := Scaled(c, Eval(c.g, publicPoly, c.embed(a.i)), q.derivation);
    var w := c.f.mul(c.f.Sub(a.proof, b.proof), c.f.inverse(c.f.Sub(a.challenge, b.challenge)));
    Extract(c, c.g.add(q.rdrPk, q.encCmt), a.v, a.challenge, a.proof, b.challenge, b.proof);
    Extract(c, c.base, keyShare, a.challenge, a.proof, b.challenge, b.proof);
    if q.derivation.Some? {
      ScalarDistribute(c.f, c.g, c.base, ski, q.derivation.value);
      MulComm(c.f, ski, q.derivation.value);
    }
    BaseInjective(c, n, w, EffectiveShare(c.f, ski, q.derivation));
  }

  /** Both replies' proofs start from the same nonce points. */
  ghost predicate SameNonces<A, S>(
      c: Curve<A, S>, publicPoly: seq<A>, q: Request<A, S>, a: Reply<A, S>, b: Reply<A, S>)
  {
    var keyShare := Scaled(c, Eval(c.g, publicPoly, c.embed(a.i)), q.derivation);
    && Recomputed(c, c.g.add(q.rdrPk, q.encCmt), a.v, a) == Recomputed(c, c.g.add(q.rdrPk, q.encCmt), b.v, b)
    && Recomputed(c, c.base, keyShare, a) == Recomputed(c, c.base, keyShare, b)
  }

  lemma {:induction false} Extract<A(!new), S(!new)>(c: Curve<A, S>, x: A, v: A, e: S, p: S, e': S, p': S)
    requires IsGroup(c.f, c.g) && e != e'
    requires Subtract(c, c.g.mul(x, p), c.g.mul(v, e)) == Subtract(c, c.g.mul(x, p'), c.g.mul(v, e'))
    ensures v == c.g.mul(x, c.f.mul(c.f.Sub(p, p'), c.f.inverse(c.f.Sub(e, e'))))
  {
    var f, g := c.f, c.g;
    SubFacts(f, e, e');
    // x (p - p') == v (e - e')
    Difference(c, x, p, p');
    Difference(c, v, e, e');
    MoveAcross(c, g.mul(x, p), g.mul(v, e), g.mul(x, p'), g.mul(v, e'));
    assert g.mul(x, f.Sub(p, p')) == g.mul(v, f.Sub(e, e'));
    var i := f.inverse(f.Sub(e, e'));
    ScalarDistribute(f, g, x, f.Sub(p, p'), i);
    ScalarDistribute(f, g, v, f.Sub(e, e'), i);
    MulInverse(f, f.Sub(e, e'));
    PointZero(f, g, v);
  }

  lemma {:induction false} Difference<A(!new), S(!new)>(c: Curve<A, S>, x: A, p: S, q: S)
    requires IsGroup(c.f, c.g)
    ensures c.g.mul(x, c.f.Sub(p, q)) == Subtract(c, c.g.mul(x, p), c.g.mul(x, q))
  {
    var f := c.f;
    ScalarDistribute(f, c.g, x, p, f.neg(q));
    ScalarDistribute(f, c.g, x, q, f.neg(f.one));
    NegMul(f, q, f.one);
    MulOne(f, q);
  }

  /** a - b = a' - b' gives a - a' = b - b'. */
  lemma {:induction false} MoveAcross<A(!new), S(!new)>(c: Curve<A, S>, a: A, b: A, a': A, b': A)
    requires IsGroup(c.f, c.g) && Subtract(c, a, b) == Subtract(c, a', b')
    ensures Subtract(c, a, a') == Subtract(c, b, b')
  {
    var f, g := c.f, c.g;
    var mb, mb', ma' := Minus(f, g, b), Minus(f, g, b'), Minus(f, g, a');
    // (a - b) + (b - a') == a - a', and (a' - b') + (b - a') == b - b'
    PointSwap(f, g, a, mb, b, ma');
    PointComm(f, g, a, b);
    PointSwap(f, g, b, a, mb, ma');
    PointNeg(f, g, b);
    PointZero(f, g, g.add(a, ma'));
    PointSwap(f, g, a', mb', ma', b);
    PointComm(f, g, b, ma');
    PointNeg(f, g, a');
    PointComm(f, g, mb', b);
    PointZero(f, g, g.add(b, mb'));
  }

  // ---------------------------------------------------------------------------
  // Combining replies
  // ---------------------------------------------------------------------------

  /** The first `t` replies, with the Lagrange coefficients of their indices. */
  method Recover<A(!new), S(==, !new)>(c: Curve<A, S>, shares: seq<PriShare<A>>, t: nat, n: nat)
    returns (r: Recovery<A>)
    requires IsCurve(c, n)
    ensures r.TooFew? <==> 0 < t <= n && |shares| < t
    ensures r.Recovered? <==> 0 < t <= n && t <= |shares| && ValidIds(ShareIds(shares[..t]), n)
    ensures r.Recovered? ==>
              r.value == SumPoints(c.g, WeightedPoints(c.g, Lambdas(c.f, Nodes(c, ShareIds(shares[..t]))),
                                                       ShareValues(shares[..t])))
  {
    if t == 0 || t > n { return Failed; }
    if |shares| < t { return TooFew; }
    var used := shares[..t];
    var ids := ShareIds(used);
    var checked := CheckIndices(ids, AllIds(n));
    InRange(n);
    if !checked { return Failed; }
    assert ValidIds(ids, n);
    var point := c.g.zero;
    ghost var ws := WeightedPoints(c.g, Lambdas(c.f, Nodes(c, ids)), ShareValues(used));
    var k := 0;
    while k < t
      invariant 0 <= k <= t
      invariant point == SumPoints(c.g, ws[..k])
    {
      var lambda := LagrangeCoefficient(c, ids[k], ids);
      CoefficientIsLambda(c, ids, k, n);
      assert ws[..k + 1] == ws[..k] + [ws[k]];
      SumPointsAppend(c.f, c.g, ws[..k], ws[k]);
      point := c.g.add(point, c.g.mul(used[k].v, lambda.value));
      k := k + 1;
    }
    assert ws[..k] == ws;
    return Recovered(point);
  }

  lemma {:induction false} InRange(n: nat)
    ensures forall i: nat :: i in AllIds(n) <==> 1 <= i <= n
  {
    forall i: nat | 1 <= i <= n ensures i in AllIds(n) { assert AllIds(n)[i - 1] == i; }
  }

  /** Right replies of a group of members combine to the point times the secret they
      reconstruct, derivation included. */
  lemma {:induction false} RepliesCombine<A(!new), S(!new)>(
      c: Curve<A, S>, ring: Ring<A, S>, ids: seq<nat>, vs: seq<A>, x: A, d: Option<S>, n: nat)
    requires IsGroup(c.f, c.g) && MembersOf(ring, ids, n) && |vs| == |ids|
    requires RightReplies(c, ring, ids, vs, x, d, n)
    ensures SumPoints(c.g, WeightedPoints(c.g, Lambdas(c.f, Nodes(c, ids)), vs))
            == c.g.mul(Scaled(c, x, d), Reconstructed(c, ring, ids, n))
  {
    var ss := Shares(ring, ids, n);
    forall i | 0 <= i < |ids| ensures vs[i] == Commit(c.g, Scaled(c, x, d), ss)[i] {
      if d.Some? { ScalarDistribute(c.f, c.g, x, d.value, ss[i]); }
    }
    assert vs == Commit(c.g, Scaled(c, x, d), ss);
    WeightedCommits(c.f, c.g, Scaled(c, x, d), Lambdas(c.f, Nodes(c, ids)), ss);
  }

  /** Every member re-encrypted `x` with the share it holds. */
  ghost predicate RightReplies<A, S>(
      c: Curve<A, S>, ring: Ring<A, S>, ids: seq<nat>, vs: seq<A>, x: A, d: Option<S>, n: nat)
    requires MembersOf(ring, ids, n) && |vs| == |ids|
  {
    forall i :: 0 <= i < |ids| ==> vs[i] == c.g.mul(x, EffectiveShare(c.f, Shares(ring, ids, n)[i], d))
  }

  // ---------------------------------------------------------------------------
  // The reader
  // ---------------------------------------------------------------------------

  /** The point a reader derives the data key from. */
  function SharedPoint<A, S>(c: Curve<A, S>, effectivePk: A, xncCmt: A, rdrSk: S): A {
    Subtract(c, xncCmt, c.g.mul(effectivePk, rdrSk))
  }

  lemma {:induction false} Commute<A(!new), S(!new)>(c: Curve<A, S>, p: A, a: S, d: Option<S>, b: S)
    requires IsGroup(c.f, c.g)
    ensures c.g.mul(Scaled(c, c.g.mul(p, a), d), b) == c.g.mul(Scaled(c, c.g.mul(p, b), d), a)
  {
    var f, t := c.f, d.GetOr(c.f.one);
    Reweighted(c, c.g.mul(p, a), d, f.one, b);
    Reweighted(c, c.g.mul(p, b), d, f.one, a);
    ScalarDistribute(f, c.g, p, a, f.mul(t, b));
    ScalarDistribute(f, c.g, p, b, f.mul(t, a));
    MulComm(f, t, b);
    MulComm(f, t, a);
    MulAssoc(f, a, b, t);
    MulAssoc(f, b, a, t);
    MulComm(f, a, b);
  }

  /** A reply combined with any `secret` gives the reader the sealing point exactly when the
      secret is the key's, the degenerate scalars that the code refuses aside. */
  lemma {:induction false} OpensExactly<A(!new), S(!new)>(
      c: Curve<A, S>, secret: S, key: A, d: Option<S>, rdrSk: S, r: S)
    requires IsGroup(c.f, c.g)
    ensures var x := c.g.add(c.g.mul(c.base, rdrSk), c.g.mul(c.base, r));
            var scaled := Scaled(c, key, d);
            SharedPoint(c, scaled, c.g.mul(Scaled(c, x, d), secret), rdrSk) == c.g.mul(scaled, r)
            <==> c.g.mul(c.base, secret) == key || c.f.mul(d.GetOr(c.f.one), c.f.add(rdrSk, r)) == c.f.zero
  {
    var f, g := c.f, c.g;
    var sum, k, scaled := f.add(rdrSk, r), g.mul(c.base, secret), Scaled(c, key, d);
    var x := g.add(g.mul(c.base, rdrSk), g.mul(c.base, r));
    ScalarDistribute(f, g, c.base, rdrSk, r);
    Commute(c, c.base, sum, d, secret);
    var xnc := g.mul(Scaled(c, x, d), secret);
    assert xnc == g.mul(Scaled(c, k, d), sum);
    Reweighted(c, k, d, f.one, sum);
    Reweighted(c, key, d, f.one, sum);
    ScaleInjective(f, g, k, key, f.mul(d.GetOr(f.one), sum));
    AddComm(f, rdrSk, r);
    ScalarDistribute(f, g, scaled, r, rdrSk);
    PointCancel(f, g, g.mul(scaled, r), g.zero, g.mul(scaled, rdrSk));
    Subtracted(c, xnc, g.mul(scaled, rdrSk), g.mul(scaled, r));
  }

  /** a - b = e exactly when a = e + b. */
  lemma {:induction false} Subtracted<A(!new), S(!new)>(c: Curve<A, S>, a: A, b: A, e: A)
    requires IsGroup(c.f, c.g)
    ensures Subtract(c, a, b) == e <==> a == c.g.add(e, b)
  {
    PointCancel(c.f, c.g, a, c.g.add(e, b), Minus(c.f, c.g, b));
    PointCancel(c.f, c.g, e, c.g.zero, b);
  }

  /** The reader ends with the point the data key was derived from. */
  ghost predicate Opens<A, S>(c: Curve<A, S>, key: A, ids: seq<nat>, vs: seq<A>, d: Option<S>, rdrSk: S, r: S)
    requires |vs| == |ids|
  {
    SharedPoint(c, Scaled(c, key, d), SumPoints(c.g, WeightedPoints(c.g, Lambdas(c.f, Nodes(c, ids)), vs)), rdrSk)
    == c.g.mul(Scaled(c, key, d), r)
  }

  /** The reader's key and the commitment, added. */
  function Asked<A, S>(c: Curve<A, S>, rdrSk: S, r: S): A {
    c.g.add(c.g.mul(c.base, rdrSk), c.g.mul(c.base, r))
  }

  /** What was sealed to a ring's key is opened by the replies of a group of its members
      exactly when their public combination is that key, the degenerate scalars aside. */
  lemma {:induction false} OpensIff<A(!new), S(!new)>(
      c: Curve<A, S>, ring: Ring<A, S>, n: nat, ids: seq<nat>, vs: seq<A>, d: Option<S>, rdrSk: S, r: S)
    requires IsCurve(c, n) && Held(c, ring, n) && MembersOf(ring, ids, n) && |vs| == |ids|
    requires RightReplies(c, ring, ids, vs, Asked(c, rdrSk, r), d, n)
    ensures Opens(c, ring.key, ids, vs, d, rdrSk, r)
            <==> || Combined(c, ring, ids, n) == ring.key
                 || c.f.mul(d.GetOr(c.f.one), c.f.add(rdrSk, r)) == c.f.zero
  {
    RepliesCombine(c, ring, ids, vs, Asked(c, rdrSk, r), d, n);
    ReconstructedPoint(c, ring, ids, n);
    OpensExactly(c, Reconstructed(c, ring, ids, n), ring.key, d, rdrSk, r);
  }

  /** Over any history, whatever the dealers showed, every quorum vouched for opens what was
      sealed to the first generation's key. */
  lemma {:induction false} OpensInEveryGeneration<A(!new), S(!new)>(
      c: Curve<A, S>, rings: seq<Ring<A, S>>, cers: seq<Ceremony<A, S>>, n: nat, k: nat,
      ids: seq<nat>, vs: seq<A>, d: Option<S>, rdrSk: S, r: S)
    requires IsCurve(c, n) && History(c, rings, cers, n)
    requires k < |rings| && Quorum(rings[k], ids, n) && Vouched(c, rings, cers, n, k, ids)
    requires |vs| == |ids| && RightReplies(c, rings[k], ids, vs, Asked(c, rdrSk, r), d, n)
    ensures Opens(c, rings[0].key, ids, vs, d, rdrSk, r)
  {
    EveryGeneration(c, rings, cers, n, k);
    VouchedHoldsKey(c, rings, cers, n, k, ids);
    OpensIff(c, rings[k], n, ids, vs, d, rdrSk, r);
  }

  /** So do the signers of every ceremony that was stored, with what they staged. */
  lemma {:induction false} SignersOpen<A(!new), S(!new)>(
      c: Curve<A, S>, rings: seq<Ring<A, S>>, cers: seq<Ceremony<A, S>>, n: nat, k: nat,
      vs: seq<A>, d: Option<S>, rdrSk: S, r: S)
    requires IsCurve(c, n) && History(c, rings, cers, n) && k < |cers|
    requires Stores(c, rings[k], cers[k], n) && |vs| == |cers[k].signers|
    requires RightReplies(c, Staged(c, rings[k], cers[k], n), cers[k].signers, vs, Asked(c, rdrSk, r), d, n)
    ensures Opens(c, rings[0].key, cers[k].signers, vs, d, rdrSk, r)
  {
    var staged := Staged(c, rings[k], cers[k], n);
    EveryGeneration(c, rings, cers, n, k);
    StagedHeld(c, rings[k], cers[k], n);
    SignersHoldKey(c, rings[k], cers[k], n);
    OpensIff(c, staged, n, cers[k].signers, vs, d, rdrSk, r);
  }

  // ---------------------------------------------------------------------------
  // From request to data key
  // ---------------------------------------------------------------------------

  /** Every member of the group answers the request with the share it holds. */
  ghost function Answers<A, S>(
      c: Curve<A, S>, h: ChallengeHash<A, S>, ah: AuthorizationHash<A, S>, ring: Ring<A, S>, ids: seq<nat>,
      q: Request<A, S>, nonces: nat -> S, n: nat)
    : (r: seq<Option<Reply<A, S>>>)
    requires MembersOf(ring, ids, n)
    ensures |r| == |ids|
  {
    seq(|ids|, i requires 0 <= i < |ids| =>
      Reencrypt(c, h, ah, ids[i], ring.members[ids[i]].share, q, nonces(ids[i])))
  }

  ghost function Points<A, S>(c: Curve<A, S>, replies: seq<Option<Reply<A, S>>>): (vs: seq<A>)
    ensures |vs| == |replies|
  {
    seq(|replies|, i requires 0 <= i < |replies| => if replies[i].Some? then replies[i].value.v else c.g.zero)
  }

  /** Members answer exactly requests they may not refuse, and then reply rightly. */
  lemma {:induction false} AnswersAreRight<A(!new), S(!new)>(
      c: Curve<A, S>, h: ChallengeHash<A, S>, ah: AuthorizationHash<A, S>, ring: Ring<A, S>, ids: seq<nat>,
      q: Request<A, S>, nonces: nat -> S, rdrSk: S, r: S, n: nat)
    requires IsCurve(c, n) && Held(c, ring, n) && MembersOf(ring, ids, n) && ids != []
    requires q.rdrPk == c.g.mul(c.base, rdrSk) && q.encCmt == c.g.mul(c.base, r)
    ensures var replies := Answers(c, h, ah, ring, ids, q, nonces, n);
            && ((forall i :: 0 <= i < |ids| ==> replies[i].Some?) <==> !Refuses(c, ah, ids[0], q))
            && (!Refuses(c, ah, ids[0], q) ==>
                  RightReplies(c, ring, ids, Points(c, replies), Asked(c, rdrSk, r), q.derivation, n))
  {
    var replies := Answers(c, h, ah, ring, ids, q, nonces, n);
    forall i | 0 <= i < |ids|
      ensures replies[i].Some? <==> !Refuses(c, ah, ids[0], q)
      ensures replies[i].Some? ==> replies[i].value.v == RightReply(c, ring.members[ids[i]].share, q)
    {
      var share := ring.members[ids[i]].share;
      assert Holds(c, ring, ids[i], ring.members[ids[i]]);
      HonestReplyPasses(c, h, ah, ring.members[ids[i]].poly, ids[i], share, q, nonces(ids[i]));
      ReplyIsOwed(c, h, ah, ids[i], share, q, nonces(ids[i]));
    }
  }

  /** Over any history, whatever the dealers showed: when a quorum vouched for answers a
      reader's request that may not be refused, the reader ends with the very point the data
      was sealed under. */
  lemma {:induction false} RequestOpens<A(!new), S(!new)>(
      c: Curve<A, S>, h: ChallengeHash<A, S>, ah: AuthorizationHash<A, S>,
      rings: seq<Ring<A, S>>, cers: seq<Ceremony<A, S>>, n: nat, k: nat, ids: seq<nat>,
      q: Request<A, S>, nonces: nat -> S, rdrSk: S, r: S)
    requires IsCurve(c, n) && History(c, rings, cers, n)
    requires k < |rings| && Quorum(rings[k], ids, n) && Vouched(c, rings, cers, n, k, ids)
    requires q.rdrPk == c.g.mul(c.base, rdrSk) && q.encCmt == c.g.mul(c.base, r)
    requires ids != [] && !Refuses(c, ah, ids[0], q)
    ensures var vs := Points(c, Answers(c, h, ah, rings[k], ids, q, nonces, n));
            Opens(c, rings[0].key, ids, vs, q.derivation, rdrSk, r)
  {
    EveryGeneration(c, rings, cers, n, k);
    AnswersAreRight(c, h, ah, rings[k], ids, q, nonces, rdrSk, r, n);
    var vs := Points(c, Answers(c, h, ah, rings[k], ids, q, nonces, n));
    OpensInEveryGeneration(c, rings, cers, n, k, ids, vs, q.derivation, rdrSk, r);
  }
}
