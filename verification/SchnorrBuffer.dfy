/** The stand-alone signature verifier, called by a host through one shared buffer. It
    accepts exactly what the nodes' verifier accepts. */
module SchnorrBuffer {
  import opened Algebra
  import opened Bytes
  import opened Threshold
  import opened Dkg
  import opened Frost
  import opened Options

  const BUF_LEN: nat := 65536

  /** `usize` on the target has 32 bits. */
  const USIZE_MAX: nat := 0xFFFF_FFFF

  type u32 = n: nat | n <= 0xFFFF_FFFF

  /** Encodings of points and scalars, the hash of bytes reduced to a scalar, and the
      reduction of 64 bytes on their own. */
  datatype Codec<!A, !S> = Codec(
    encodePoint: A -> seq<byte>,
    decodePoint: seq<byte> -> Option<A>,
    encodeScalar: S -> seq<byte>,
    decodeScalar: seq<byte> -> Option<S>,
    hashToScalar: seq<byte> -> S,
    reduceWide: seq<byte> -> S,
    challengeDomain: seq<byte>,
    nonceDomain: seq<byte>)

  /** 32 bytes, one encoding per value, and nothing else decodes. */
  ghost predicate IsCodec<A(!new), S(!new)>(k: Codec<A, S>) {
    && (forall p {:trigger k.encodePoint(p)} :: |k.encodePoint(p)| == 32 && k.decodePoint(k.encodePoint(p)) == Some(p))
    && (forall s {:trigger k.encodeScalar(s)} ::
        |k.encodeScalar(s)| == 32 && k.decodeScalar(k.encodeScalar(s)) == Some(s))
    && (forall b {:trigger k.decodePoint(b)} :: k.decodePoint(b).Some? ==> k.encodePoint(k.decodePoint(b).value) == b)
    && (forall b {:trigger k.decodeScalar(b)} ::
        k.decodeScalar(b).Some? ==> k.encodeScalar(k.decodeScalar(b).value) == b)
  }

  function ComputeChallenge<A, S>(k: Codec<A, S>, rBytes: seq<byte>, pkBytes: seq<byte>, msg: seq<byte>): S {
    k.hashToScalar(k.challengeDomain + rBytes + pkBytes + msg)
  }

  predicate VerifyCore<A(==), S>(
      c: Curve<A, S>, k: Codec<A, S>, pkBytes: seq<byte>, msg: seq<byte>, sigBytes: seq<byte>)
  {
    |pkBytes| == 32 && |sigBytes| == 64 &&
    var rBytes, zBytes := sigBytes[..32], sigBytes[32..];
    var pk, r, z := k.decodePoint(pkBytes), k.decodePoint(rBytes), k.decodeScalar(zBytes);
    && pk.Some? && r.Some? && z.Some?
    && pk.value != c.g.zero
    && c.g.mul(c.base, z.value) == c.g.add(r.value, c.g.mul(pk.value, ComputeChallenge(k, rBytes, pkBytes, msg)))
  }

  function DerivePublicKeyCore<A, S>(c: Curve<A, S>, k: Codec<A, S>, secretBytes: seq<byte>): Option<seq<byte>> {
    match k.decodeScalar(secretBytes)
    case None => None
    case Some(secret) => Some(k.encodePoint(c.g.mul(c.base, secret)))
  }

  function TestSignCore<A, S>(
      c: Curve<A, S>, k: Codec<A, S>, secretBytes: seq<byte>, pkBytes: seq<byte>, msg: seq<byte>): Option<seq<byte>>
  {
    match k.decodeScalar(secretBytes)
    case None => None
    case Some(secret) =>
      if |pkBytes| != 32 then None else
      var nonce := k.hashToScalar(k.nonceDomain + secretBytes + msg);
      var rBytes := k.encodePoint(c.g.mul(c.base, nonce));
      var challenge := ComputeChallenge(k, rBytes, pkBytes, msg);
      Some(rBytes + k.encodeScalar(c.f.add(nonce, c.f.mul(challenge, secret))))
  }

  // ---------------------------------------------------------------------------
  // The same verifier as the nodes'
  // ---------------------------------------------------------------------------

  /** The nodes' challenge hash over encoded points. */
  ghost predicate SameTranscript<A(!new), S(!new)>(k: Codec<A, S>, h: Hashes<A, S>) {
    forall r, pk, msg {:trigger h.challenge(r, pk, msg)} ::
      h.challenge(r, pk, msg) == ComputeChallenge(k, k.encodePoint(r), k.encodePoint(pk), msg)
  }

  function SignatureBytes<A, S>(k: Codec<A, S>, sig: Signature<A, S>): seq<byte> {
    k.encodePoint(sig.r) + k.encodeScalar(sig.z)
  }

  /** On encodings the two verifiers agree. */
  lemma {:induction false} AgreesOnEncodings<A(!new), S(!new)>(
      c: Curve<A, S>, k: Codec<A, S>, h: Hashes<A, S>, pk: A, msg: seq<byte>, sig: Signature<A, S>)
    requires IsCodec(k) && SameTranscript(k, h)
    ensures VerifyCore(c, k, k.encodePoint(pk), msg, SignatureBytes(k, sig)) <==> Verifies(c, h, pk, msg, sig)
  {
    var bytes := SignatureBytes(k, sig);
    assert bytes[..32] == k.encodePoint(sig.r) && bytes[32..] == k.encodeScalar(sig.z);
  }

  /** Whatever bytes it accepts are the encodings of a key and a signature the nodes accept. */
  lemma {:induction false} AcceptsOnlyEncodings<A(!new), S(!new)>(
      c: Curve<A, S>, k: Codec<A, S>, h: Hashes<A, S>, pkBytes: seq<byte>, msg: seq<byte>, sigBytes: seq<byte>)
    returns (pk: A, sig: Signature<A, S>)
    requires IsCodec(k) && SameTranscript(k, h) && VerifyCore(c, k, pkBytes, msg, sigBytes)
    ensures pkBytes == k.encodePoint(pk) && sigBytes == SignatureBytes(k, sig) && Verifies(c, h, pk, msg, sig)
  {
    pk := k.decodePoint(pkBytes).value;
    sig := Signature(k.decodePoint(sigBytes[..32]).value, k.decodeScalar(sigBytes[32..]).value);
    assert sigBytes == sigBytes[..32] + sigBytes[32..];
    assert h.challenge(sig.r, pk, msg) == ComputeChallenge(k, sigBytes[..32], pkBytes, msg);
  }

  /** A signature recovered by a complete set of signers is accepted, end to end. */
  lemma {:induction false} ThresholdSignatureAccepted<A(!new), S(!new)>(
      s: Session<A, S>, k: Codec<A, S>, shares: seq<PriShare<S>>, n: nat)
    requires IsCodec(k) && SameTranscript(k, s.h) && Recoverable(s, shares, n)
    requires forall i :: 0 <= i < |s.commitments| ==> s.commitments[i].0 in ShareIds(shares)
    ensures VerifyCore(s.c, k, k.encodePoint(EffectiveKey(s)), s.msg, SignatureBytes(k, RecoveredSignature(s, shares)))
  {
    CompleteVerifies(s, shares, n);
    AgreesOnEncodings(s.c, k, s.h, EffectiveKey(s), s.msg, RecoveredSignature(s, shares));
  }

  /** A signature accepted for one message is accepted for another exactly when the two
      hash alike behind the domain, the signature's point and the key. */
  lemma {:induction false} SignatureBindsMessage<A(!new), S(!new)>(
      c: Curve<A, S>, k: Codec<A, S>, n: nat, pkBytes: seq<byte>, msg: seq<byte>, other: seq<byte>, sig: seq<byte>)
    requires IsCurve(c, n) && VerifyCore(c, k, pkBytes, msg, sig)
    ensures VerifyCore(c, k, pkBytes, other, sig) <==>
              k.hashToScalar(k.challengeDomain + (sig[..32] + (pkBytes + other)))
              == k.hashToScalar(k.challengeDomain + (sig[..32] + (pkBytes + msg)))
  {
    var r, pk := k.decodePoint(sig[..32]).value, k.decodePoint(pkBytes).value;
    var e, e' := ComputeChallenge(k, sig[..32], pkBytes, msg), ComputeChallenge(k, sig[..32], pkBytes, other);
    Joined(k.challengeDomain, sig[..32], pkBytes, msg);
    Joined(k.challengeDomain, sig[..32], pkBytes, other);
    PointComm(c.f, c.g, r, c.g.mul(pk, e));
    PointComm(c.f, c.g, r, c.g.mul(pk, e'));
    PointCancel(c.f, c.g, c.g.mul(pk, e), c.g.mul(pk, e'), r);
    MultiplesDistinct(c.f, c.g, pk, e, e');
  }

  /** The test signer repeats a nonce point exactly when the secret and message hash alike
      behind the nonce domain. */
  lemma {:induction false} NonceFollowsMessage<A(!new), S(!new)>(
      c: Curve<A, S>, k: Codec<A, S>, n: nat, secret: seq<byte>, pk: seq<byte>, msg: seq<byte>, other: seq<byte>)
    requires IsCurve(c, n) && IsCodec(k) && k.decodeScalar(secret).Some? && |pk| == 32
    ensures TestSignCore(c, k, secret, pk, msg).Some? && TestSignCore(c, k, secret, pk, other).Some?
    ensures var a, b := TestSignCore(c, k, secret, pk, msg).value, TestSignCore(c, k, secret, pk, other).value;
            && |a| == |b| == 64
            && (a[..32] == b[..32] <==>
                  k.hashToScalar(k.nonceDomain + (secret + msg)) == k.hashToScalar(k.nonceDomain + (secret + other)))
  {
    var s, t := k.hashToScalar(k.nonceDomain + secret + msg), k.hashToScalar(k.nonceDomain + secret + other);
    assert k.nonceDomain + secret + msg == k.nonceDomain + (secret + msg);
    assert k.nonceDomain + secret + other == k.nonceDomain + (secret + other);
    var p, q := c.g.mul(c.base, s), c.g.mul(c.base, t);
    assert TestSignCore(c, k, secret, pk, msg).value[..32] == k.encodePoint(p);
    assert TestSignCore(c, k, secret, pk, other).value[..32] == k.encodePoint(q);
    if p == q { BaseInjective(c, n, s, t); }
  }

  lemma {:induction false} Joined(a: seq<byte>, b: seq<byte>, c: seq<byte>, d: seq<byte>)
    ensures a + b + c + d == a + (b + (c + d))
  {
  }

  /** A signature of the test signer verifies under the derived key, unless that key is
      the identity. */
  lemma {:induction false} SignedVerifies<A(!new), S(!new)>(
      c: Curve<A, S>, k: Codec<A, S>, n: nat, secretBytes: seq<byte>, msg: seq<byte>)
    requires IsCurve(c, n) && IsCodec(k) && k.decodeScalar(secretBytes).Some?
    ensures var pk := DerivePublicKeyCore(c, k, secretBytes).value;
            && |pk| == 32
            && TestSignCore(c, k, secretBytes, pk, msg).Some? && |TestSignCore(c, k, secretBytes, pk, msg).value| == 64
            && (VerifyCore(c, k, pk, msg, TestSignCore(c, k, secretBytes, pk, msg).value)
                <==> k.decodeScalar(secretBytes).value != c.f.zero)
  {
    var secret := k.decodeScalar(secretBytes).value;
    var key := c.g.mul(c.base, secret);
    var pkBytes := k.encodePoint(key);
    var nonce := k.hashToScalar(k.nonceDomain + secretBytes + msg);
    var r := c.g.mul(c.base, nonce);
    var e := ComputeChallenge(k, k.encodePoint(r), pkBytes, msg);
    var z := c.f.add(nonce, c.f.mul(e, secret));
    var sig := TestSignCore(c, k, secretBytes, pkBytes, msg).value;
    assert sig[..32] == k.encodePoint(r) && sig[32..] == k.encodeScalar(z);
    ScalarDistribute(c.f, c.g, c.base, nonce, c.f.mul(e, secret));
    MulComm(c.f, e, secret);
    ScalarDistribute(c.f, c.g, c.base, secret, e);
    PointZero(c.f, c.g, c.base);
  }

  // ---------------------------------------------------------------------------
  // The exports over the shared buffer
  // ---------------------------------------------------------------------------

  function CheckedAdd(a: nat, b: nat): Option<nat> { if a + b > USIZE_MAX then None else Some(a + b) }

  /** `b` stored at offset `at`. */
  function Spliced(s: seq<byte>, at: nat, b: seq<byte>): (r: seq<byte>)
    requires at + |b| <= |s|
    ensures |r| == |s|
  {
    s[..at] + b + s[at + |b|..]
  }

  lemma {:induction false} SplicedRead(s: seq<byte>, at: nat, b: seq<byte>, lo: nat, hi: nat)
    requires at + |b| <= |s| && lo <= hi <= |s|
    ensures lo == at && hi == at + |b| ==> Spliced(s, at, b)[lo..hi] == b
    ensures hi <= at || at + |b| <= lo ==> Spliced(s, at, b)[lo..hi] == s[lo..hi]
  {
    var r := Spliced(s, at, b);
    assert forall i :: 0 <= i < |s| ==> r[i] == if at <= i < at + |b| then b[i - at] else s[i];
    assert |r[lo..hi]| == |s[lo..hi]| == hi - lo;
    assert forall i :: 0 <= i < hi - lo ==> r[lo..hi][i] == r[lo + i] && s[lo..hi][i] == s[lo + i];
  }

  class Module<A(==, !new), S(!new)> {
    const c: Curve<A, S>
    const k: Codec<A, S>
    const buf: array<byte>

    ghost predicate Valid() { buf.Length == BUF_LEN && IsCodec(k) }

    constructor (c: Curve<A, S>, k: Codec<A, S>)
      requires IsCodec(k)
      ensures Valid() && fresh(buf) && this.c == c && this.k == k
    {
      this.c, this.k := c, k;
      buf := new byte[BUF_LEN](i => 0);
    }

    method Store(at: nat, bytes: seq<byte>)
      requires at + |bytes| <= buf.Length
      modifies buf
      ensures buf[..] == Spliced(old(buf[..]), at, bytes)
    {
      forall i | 0 <= i < |bytes| { buf[at + i] := bytes[i]; }
    }

    method Verify(msgLen: u32) returns (r: int)
      requires Valid()
      ensures r == 1 <==> 96 + msgLen <= BUF_LEN && VerifyCore(c, k, buf[0..32], buf[96..96 + msgLen], buf[32..96])
      ensures buf[0..32] == k.encodePoint(c.g.zero) ==> r == 0
      ensures r == 0 || r == 1
    {
      assert k.decodePoint(k.encodePoint(c.g.zero)) == Some(c.g.zero);
      var msgEnd := CheckedAdd(96, msgLen);
      if msgEnd.None? { return 0; }
      if msgEnd.value > buf.Length { return 0; }
      return if VerifyCore(c, k, buf[0..32], buf[96..msgEnd.value], buf[32..96]) then 1 else 0;
    }

    method IsIdentityPubkey() returns (r: int)
      requires Valid()
      ensures r == 1 <==> buf[0..32] == k.encodePoint(c.g.zero)
      ensures r == 0 || r == 1
    {
      assert k.decodePoint(k.encodePoint(c.g.zero)) == Some(c.g.zero);
      var p := k.decodePoint(buf[0..32]);
      return if p == Some(c.g.zero) then 1 else 0;
    }

    method DerivePublicKey() returns (r: int)
      requires Valid()
      modifies buf
      ensures r == 32 <==> k.decodeScalar(old(buf[0..32])).Some?
      ensures r == 32 ==> buf[..] == Spliced(old(buf[..]), 0, DerivePublicKeyCore(c, k, old(buf[0..32])).value)
      ensures r != 32 ==> r == 0 && buf[..] == old(buf[..])
    {
      var pk := DerivePublicKeyCore(c, k, buf[0..32]);
      if pk.None? { return 0; }
      Store(0, pk.value);
      return 32;
    }

    method ReduceScalarWide() returns (r: int)
      requires Valid()
      modifies buf
      ensures r == 32 && buf[..] == Spliced(old(buf[..]), 0, k.encodeScalar(k.reduceWide(old(buf[0..64]))))
      ensures k.decodeScalar(buf[0..32]) == Some(k.reduceWide(old(buf[0..64])))
    {
      var reduced := k.encodeScalar(k.reduceWide(buf[0..64]));
      Store(0, reduced);
      SplicedRead(old(buf[..]), 0, reduced, 0, 32);
      assert buf[0..32] == buf[..][0..32];
      return 32;
    }

    method TestSign(msgLen: u32) returns (r: int)
      requires Valid()
      modifies buf
      ensures r == 64 <==> 64 + msgLen <= BUF_LEN && k.decodeScalar(old(buf[0..32])).Some?
      ensures r == 64 ==>
                && TestSignCore(c, k, old(buf[0..32]), old(buf[32..64]), old(buf[64..64 + msgLen])).Some?
                && |TestSignCore(c, k, old(buf[0..32]), old(buf[32..64]), old(buf[64..64 + msgLen])).value| == 64
                && buf[..] == Spliced(
                     old(buf[..]), 0,
                     TestSignCore(c, k, old(buf[0..32]), old(buf[32..64]), old(buf[64..64 + msgLen])).value)
      ensures r != 64 ==> r == 0 && buf[..] == old(buf[..])
    {
      var msgEnd := CheckedAdd(64, msgLen);
      if msgEnd.None? { return 0; }
      if msgEnd.value > buf.Length { return 0; }
      var sig := TestSignCore(c, k, buf[0..32], buf[32..64], buf[64..msgEnd.value]);
      if sig.None? { return 0; }
      Store(0, sig.value);
      return 64;
    }

    method HostDerive(secretBytes: seq<byte>) returns (r: int, pk: seq<byte>)
      requires Valid() && |secretBytes| == 32 && k.decodeScalar(secretBytes).Some?
      modifies buf
      ensures r == 32 && Some(pk) == DerivePublicKeyCore(c, k, secretBytes)
    {
      Store(0, secretBytes);
      assert buf[0..32] == secretBytes;
      r := DerivePublicKey();
      pk := buf[0..32];
    }

    method HostSign(secretBytes: seq<byte>, pk: seq<byte>, msg: seq<byte>) returns (r: int, sig: seq<byte>)
      requires Valid() && |secretBytes| == 32 && k.decodeScalar(secretBytes).Some? && |pk| == 32
               && 64 + |msg| <= BUF_LEN
      modifies buf
      ensures r == 64 && Some(sig) == TestSignCore(c, k, secretBytes, pk, msg)
    {
      Store(0, secretBytes);
      Store(32, pk);
      Store(64, msg);
      assert buf[0..32] == secretBytes && buf[32..64] == pk && buf[64..64 + |msg|] == msg;
      r := TestSign(|msg|);
      sig := buf[0..64];
    }

    method HostVerify(pk: seq<byte>, sig: seq<byte>, msg: seq<byte>) returns (r: int)
      requires Valid() && |pk| == 32 && |sig| == 64 && 96 + |msg| <= BUF_LEN
      modifies buf
      ensures r == 1 <==> VerifyCore(c, k, pk, msg, sig)
    {
      Store(0, pk);
      Store(32, sig);
      Store(96, msg);
      assert buf[0..32] == pk && buf[32..96] == sig && buf[96..96 + |msg|] == msg;
      r := Verify(|msg|);
    }

    /** The host derives a key, signs and verifies, every input and output overlapping
        the previous ones in the buffer. */
    method DeriveSignVerify(secretBytes: seq<byte>, msg: seq<byte>, ghost n: nat)
      returns (derived: int, signed: int, verified: int)
      requires Valid() && IsCurve(c, n)
      requires k.decodeScalar(secretBytes).Some? && 96 + |msg| <= BUF_LEN
      modifies buf
      ensures derived == 32 && signed == 64
      ensures verified == 1 <==> k.decodeScalar(secretBytes).value != c.f.zero
    {
      assert k.encodeScalar(k.decodeScalar(secretBytes).value) == secretBytes;
      SignedVerifies(c, k, n, secretBytes, msg);
      var pk, sig;
      derived, pk := HostDerive(secretBytes);
      signed, sig := HostSign(secretBytes, pk, msg);
      verified := HostVerify(pk, sig, msg);
    }
  }
}
