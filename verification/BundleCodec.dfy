/** The two binary formats under which a node stores its share of a ring: a
    length-prefixed bundle, and a staged reshare that nests one. */
module BundleCodec {
  import opened Bytes

  datatype Result<+T> = Ok(value: T) | Err(error: Error)

  datatype Error =
    | Empty
    | UnsupportedVersion(version: byte)
    | TooShortLength
    | TooShort(field: Field)
    | InvalidUtf8(field: Field)
    | InvalidJson

  datatype Field = ShareBytes | PublicPolynomial | LastPss | Bundle | BulletinPostId | Committee | Threshold

  const BUNDLE_VERSION: byte := 0x01
  const PENDING_RESHARE_BUNDLE_VERSION: byte := 0x01
  const U32: nat := 0x1_0000_0000
  const U64: nat := 0x1_0000_0000_0000_0000
  /** No Rust allocation is longer than `isize::MAX` bytes. */
  const MAX_ALLOCATION: nat := 0x7FFF_FFFF_FFFF_FFFF

  datatype RingShareBundle = RingShareBundle(shareBytes: seq<byte>, publicPolynomial: Str, lastPss: nat)

  predicate ValidBundle(b: RingShareBundle) { b.lastPss < U64 }

  // ---------------------------------------------------------------------------
  // Specification
  // ---------------------------------------------------------------------------

  /** A block with its length, cast to `u32`, in front. */
  function Block(s: seq<byte>): seq<byte> { LittleEndian(|s|, 4) + s }

  function Encode(b: RingShareBundle): seq<byte> {
    [BUNDLE_VERSION] + Block(b.shareBytes) + Block(b.publicPolynomial) + LittleEndian(b.lastPss, 8)
  }

  /** A block read at the front of `s`, and what follows it. */
  datatype Read = Read(block: seq<byte>, rest: seq<byte>)

  function ReadBlock(s: seq<byte>, field: Field): (r: Result<Read>)
    ensures r.Ok? ==> |r.value.block| < U32 && s == Block(r.value.block) + r.value.rest
  {
    if |s| < 4 then Err(TooShortLength) else
    Widths();
    var n := FromLittleEndian(s[..4]);
    if |s| < 4 + n then Err(TooShort(field)) else
    FromLittleEndianInverse(s[..4]);
    assert s == s[..4] + s[4..4 + n] + s[4 + n..];
    Ok(Read(s[4..4 + n], s[4 + n..]))
  }

  lemma {:induction false} ReadBlockInverse(s: seq<byte>, rest: seq<byte>, field: Field)
    requires |s| < U32
    ensures ReadBlock(Block(s) + rest, field) == Ok(Read(s, rest))
  {
    Widths();
    LittleEndianInverse(|s|, 4);
    var all := Block(s) + rest;
    assert all[..4] == LittleEndian(|s|, 4);
    assert all[4..4 + |s|] == s && all[4 + |s|..] == rest;
  }

  function ReadU64(s: seq<byte>): (n: nat)
    requires |s| >= 8
    ensures n < U64
  {
    Widths();
    FromLittleEndian(s[..8])
  }

  lemma {:induction false} ReadU64Inverse(n: nat, suffix: seq<byte>)
    requires n < U64
    ensures ReadU64(LittleEndian(n, 8) + suffix) == n
  {
    assert (LittleEndian(n, 8) + suffix)[..8] == LittleEndian(n, 8);
    LittleEndianInverse(n, 8);
    Widths();
  }

  function Decode(bytes: seq<byte>): (r: Result<RingShareBundle>) {
    if bytes == [] then Err(Empty) else
    if bytes[0] != BUNDLE_VERSION then Err(UnsupportedVersion(bytes[0])) else
    match ReadBlock(bytes[1..], ShareBytes)
    case Err(e) => Err(e)
    case Ok(Read(share, rest)) =>
      match ReadBlock(rest, PublicPolynomial)
      case Err(e) => Err(e)
      case Ok(Read(poly, tail)) =>
        if !ValidUtf8(poly) then Err(InvalidUtf8(PublicPolynomial)) else
        if |tail| < 8 then Err(TooShort(LastPss)) else
        Ok(RingShareBundle(share, poly, ReadU64(tail)))
  }

  /** The lengths the `u32` prefixes can carry. */
  predicate Fits(b: RingShareBundle) { |b.shareBytes| < U32 && |b.publicPolynomial| < U32 }

  lemma {:induction false} EncodeShape(b: RingShareBundle, suffix: seq<byte>)
    ensures Encode(b) + suffix
            == [BUNDLE_VERSION]
                + (Block(b.shareBytes) + (Block(b.publicPolynomial) + (LittleEndian(b.lastPss, 8) + suffix)))
  {
  }

  lemma {:induction false} DecodeShape(share: seq<byte>, poly: Str, tail: seq<byte>)
    requires |share| < U32 && |poly| < U32 && |tail| >= 8
    ensures Decode([BUNDLE_VERSION] + (Block(share) + (Block(poly) + tail)))
            == Ok(RingShareBundle(share, poly, ReadU64(tail)))
  {
    var rest := Block(poly) + tail;
    assert ([BUNDLE_VERSION] + (Block(share) + rest))[1..] == Block(share) + rest;
    ReadBlockInverse(share, rest, ShareBytes);
    ReadBlockInverse(poly, tail, PublicPolynomial);
  }

  lemma {:induction false} FittingRoundTrip(b: RingShareBundle, suffix: seq<byte>)
    requires ValidBundle(b) && Fits(b)
    ensures Decode(Encode(b) + suffix) == Ok(b)
  {
    ReadU64Inverse(b.lastPss, suffix);
    EncodeShape(b, suffix);
    DecodeShape(b.shareBytes, b.publicPolynomial, LittleEndian(b.lastPss, 8) + suffix);
  }

  /** Decoding undoes encoding whatever follows, exactly when both lengths fit their prefix. */
  lemma {:induction false} RoundTrip(b: RingShareBundle, suffix: seq<byte>)
    requires ValidBundle(b)
    ensures Decode(Encode(b) + suffix) == Ok(b) <==> Fits(b)
  {
    if Fits(b) {
      FittingRoundTrip(b, suffix);
    } else if Decode(Encode(b) + suffix).Ok? {
      AcceptedIsCanonical(Encode(b) + suffix);
    }
  }

  /** Whatever decoding accepts starts with the encoding of what it returns, so two
      accepted inputs give the same bundle only if they share that prefix. */
  lemma {:induction false} AcceptedIsCanonical(bytes: seq<byte>)
    requires Decode(bytes).Ok?
    ensures var b := Decode(bytes).value;
            ValidBundle(b) && Fits(b) && Encode(b) <= bytes
  {
    var b := Decode(bytes).value;
    var tail := AcceptedParts(bytes);
    TailSplits(tail);
    EncodeShape(b, tail[8..]);
  }

  lemma {:induction false} AcceptedParts(bytes: seq<byte>) returns (tail: seq<byte>)
    requires Decode(bytes).Ok?
    ensures var b := Decode(bytes).value;
            && ValidBundle(b) && Fits(b) && |tail| >= 8 && b.lastPss == ReadU64(tail)
            && bytes == [BUNDLE_VERSION] + (Block(b.shareBytes) + (Block(b.publicPolynomial) + tail))
  {
    assert bytes == [bytes[0]] + bytes[1..];
    tail := ReadBlock(ReadBlock(bytes[1..], ShareBytes).value.rest, PublicPolynomial).value.rest;
  }

  lemma {:induction false} TailSplits(tail: seq<byte>)
    requires |tail| >= 8
    ensures tail == LittleEndian(ReadU64(tail), 8) + tail[8..]
  {
    FromLittleEndianInverse(tail[..8]);
    assert tail == tail[..8] + tail[8..];
  }

  /** Where everything is: a version byte, two blocks with their lengths in front, and the
      time in the last eight bytes. */
  lemma {:induction false} BundleLayout(b: RingShareBundle)
    ensures var e, n, m := Encode(b), |b.shareBytes|, |b.publicPolynomial|;
            && |e| == n + m + 17 && e[0] == 1
            && e[1..5] == LittleEndian(n, 4) && e[5..5 + n] == b.shareBytes
            && e[5 + n..9 + n] == LittleEndian(m, 4) && e[9 + n..9 + n + m] == b.publicPolynomial
            && e[9 + n + m..] == LittleEndian(b.lastPss, 8)
  {
  }

  // ---------------------------------------------------------------------------
  // The code: a growing buffer and a moving cursor
  // ---------------------------------------------------------------------------

  method ToBytes(b: RingShareBundle) returns (buf: seq<byte>)
    ensures buf == Encode(b)
  {
    var polyBytes := b.publicPolynomial;
    buf := [BUNDLE_VERSION];
    buf := buf + LittleEndian(|b.shareBytes|, 4);
    buf := buf + b.shareBytes;
    buf := buf + LittleEndian(|polyBytes|, 4);
    buf := buf + polyBytes;
    buf := buf + LittleEndian(b.lastPss, 8);
  }

  /** `read_u32`: four bytes at the cursor, which then moves past them. */
  method ReadLength(buf: seq<byte>, pos: nat) returns (r: Result<nat>, pos': nat)
    requires pos <= |buf| <= MAX_ALLOCATION
    ensures r.Ok? <==> |buf| - pos >= 4
    ensures r.Ok? ==> pos' == pos + 4 && r.value == FromLittleEndian(buf[pos..pos + 4]) < U32
    ensures r.Err? ==> r.error == TooShortLength
  {
    assert pos + 4 < U64;
    if |buf| < pos + 4 { return Err(TooShortLength), pos; }
    Widths();
    return Ok(FromLittleEndian(buf[pos..pos + 4])), pos + 4;
  }

  /** A length followed by that many bytes; the additions never leave 64 bits. */
  method TakeBlock(bytes: seq<byte>, cursor: nat, field: Field) returns (r: Result<seq<byte>>, cursor': nat)
    requires cursor <= |bytes| <= MAX_ALLOCATION
    ensures cursor <= cursor' <= |bytes|
    ensures match ReadBlock(bytes[cursor..], field)
            case Err(e) => r == Err(e)
            case Ok(read) => r == Ok(read.block) && bytes[cursor'..] == read.rest
  {
    var length, start := ReadLength(bytes, cursor);
    if length.Err? { return Err(length.error), cursor; }
    var n := length.value;
    assert start + n < U64;
    assert bytes[cursor..][..4] == bytes[cursor..cursor + 4];
    if |bytes| < start + n { return Err(TooShort(field)), cursor; }
    r, cursor' := Ok(bytes[start..start + n]), start + n;
    assert bytes[cursor..][4..4 + n] == bytes[start..start + n];
    assert bytes[cursor..][4 + n..] == bytes[start + n..];
  }

  method FromBytes(bytes: seq<byte>) returns (r: Result<RingShareBundle>)
    requires |bytes| <= MAX_ALLOCATION
    ensures r == Decode(bytes)
  {
    if bytes == [] { return Err(Empty); }
    if bytes[0] != BUNDLE_VERSION { return Err(UnsupportedVersion(bytes[0])); }
    var cursor := 1;
    var share;
    share, cursor := TakeBlock(bytes, cursor, ShareBytes);
    if share.Err? { return Err(share.error); }
    var poly;
    poly, cursor := TakeBlock(bytes, cursor, PublicPolynomial);
    if poly.Err? { return Err(poly.error); }
    if !ValidUtf8(poly.value) { return Err(InvalidUtf8(PublicPolynomial)); }
    assert cursor + 8 < U64;
    if |bytes| < cursor + 8 { return Err(TooShort(LastPss)); }
    assert bytes[cursor..][..8] == bytes[cursor..cursor + 8];
    return Ok(RingShareBundle(share.value, poly.value, FromLittleEndian(bytes[cursor..cursor + 8])));
  }

  // ---------------------------------------------------------------------------
  // The staged reshare
  // ---------------------------------------------------------------------------

  datatype PendingReshareBundle = PendingReshareBundle(
    bundle: RingShareBundle,
    bulletinPostId: Str,
    expectedNewCommittee: seq<Str>,
    expectedNewThreshold: nat)

  /** The JSON library, as the pair of functions it offers here. */
  datatype Json = Json(toVec: seq<Str> -> seq<byte>, fromSlice: seq<byte> -> Result<seq<Str>>)

  /** What is written reads back, and no proper prefix of it is a document. */
  ghost predicate Lossless(json: Json) {
    && (forall c {:trigger json.toVec(c)} :: json.fromSlice(json.toVec(c)) == Ok(c))
    && (forall c, n {:trigger json.fromSlice(json.toVec(c)[..n])} ::
          0 <= n < |json.toVec(c)| ==> json.fromSlice(json.toVec(c)[..n]).Err?)
    && (forall s {:trigger json.fromSlice(s)} :: json.fromSlice(s).Err? ==> json.fromSlice(s).error == InvalidJson)
  }

  function EncodePending(json: Json, p: PendingReshareBundle): seq<byte> {
    [PENDING_RESHARE_BUNDLE_VERSION] + Block(Encode(p.bundle)) + Block(p.bulletinPostId)
    + Block(json.toVec(p.expectedNewCommittee)) + LittleEndian(p.expectedNewThreshold, 4)
  }

  function DecodePending(json: Json, bytes: seq<byte>): (r: Result<PendingReshareBundle>) {
    if bytes == [] then Err(Empty) else
    if bytes[0] != PENDING_RESHARE_BUNDLE_VERSION then Err(UnsupportedVersion(bytes[0])) else
    match ReadBlock(bytes[1..], Bundle)
    case Err(e) => Err(e)
    case Ok(Read(inner, rest)) =>
      match Decode(inner)
      case Err(e) => Err(e)
      case Ok(bundle) => DecodeExpectations(json, bundle, rest)
  }

  /** What follows the nested bundle. */
  function DecodeExpectations(json: Json, bundle: RingShareBundle, rest: seq<byte>): (r: Result<PendingReshareBundle>) {
    match ReadBlock(rest, BulletinPostId)
    case Err(e) => Err(e)
    case Ok(Read(postId, rest)) =>
      if !ValidUtf8(postId) then Err(InvalidUtf8(BulletinPostId)) else
      match ReadBlock(rest, Committee)
      case Err(e) => Err(e)
      case Ok(Read(committee, tail)) =>
        match json.fromSlice(committee)
        case Err(e) => Err(e)
        case Ok(members) =>
          if |tail| < 4 then Err(TooShort(Threshold)) else
          Ok(PendingReshareBundle(bundle, postId, members, FromLittleEndian(tail[..4])))
  }

  predicate ValidPending(p: PendingReshareBundle) {
    ValidBundle(p.bundle) && p.expectedNewThreshold < U32
  }

  predicate FitsPending(json: Json, p: PendingReshareBundle) {
    |Encode(p.bundle)| < U32 && |p.bulletinPostId| < U32 && |json.toVec(p.expectedNewCommittee)| < U32
  }

  /** The format with everything after the committee left open. */
  function PendingLayout(json: Json, p: PendingReshareBundle, tail: seq<byte>): seq<byte> {
    [PENDING_RESHARE_BUNDLE_VERSION] + (Block(Encode(p.bundle)) + (Block(p.bulletinPostId)
    + (Block(json.toVec(p.expectedNewCommittee)) + tail)))
  }

  lemma {:induction false} EncodePendingShape(json: Json, p: PendingReshareBundle, suffix: seq<byte>)
    ensures EncodePending(json, p) + suffix == PendingLayout(json, p, LittleEndian(p.expectedNewThreshold, 4) + suffix)
  {
  }

  lemma {:induction false} DecodePendingShape(json: Json, p: PendingReshareBundle, tail: seq<byte>)
    requires Lossless(json) && ValidPending(p) && FitsPending(json, p)
    requires |tail| >= 4 && FromLittleEndian(tail[..4]) == p.expectedNewThreshold
    ensures DecodePending(json, PendingLayout(json, p, tail)) == Ok(p)
  {
    var committee := json.toVec(p.expectedNewCommittee);
    var afterPost := Block(committee) + tail;
    var afterBundle := Block(p.bulletinPostId) + afterPost;
    var body := Block(Encode(p.bundle)) + afterBundle;
    assert ([PENDING_RESHARE_BUNDLE_VERSION] + body)[1..] == body;
    ReadBlockInverse(Encode(p.bundle), afterBundle, Bundle);
    assert Decode(Encode(p.bundle)) == Ok(p.bundle) by {
      RoundTrip(p.bundle, []);
      assert Encode(p.bundle) + [] == Encode(p.bundle);
    }
    ReadBlockInverse(p.bulletinPostId, afterPost, BulletinPostId);
    ReadBlockInverse(committee, tail, Committee);
  }

  lemma {:induction false} AcceptedPendingFits(json: Json, bytes: seq<byte>)
    requires DecodePending(json, bytes).Ok?
    ensures var p := DecodePending(json, bytes).value;
            |Encode(p.bundle)| < U32 && |p.bulletinPostId| < U32
  {
    AcceptedIsCanonical(ReadBlock(bytes[1..], Bundle).value.block);
  }

  /** A committee too long for its prefix is cut short, and so is no JSON document. */
  lemma {:induction false} LongCommitteeRejected(
      json: Json, bundle: RingShareBundle, p: PendingReshareBundle, tail: seq<byte>)
    requires Lossless(json) && |p.bulletinPostId| < U32 && |json.toVec(p.expectedNewCommittee)| >= U32
    ensures DecodeExpectations(json, bundle,
                               Block(p.bulletinPostId) + (Block(json.toVec(p.expectedNewCommittee)) + tail)).Err?
  {
    var committee := json.toVec(p.expectedNewCommittee);
    var n := |committee| % U32;
    ReadBlockInverse(p.bulletinPostId, Block(committee) + tail, BulletinPostId);
    var s := Block(committee) + tail;
    assert s[..4] == LittleEndian(|committee|, 4);
    LittleEndianInverse(|committee|, 4);
    Widths();
    assert s[4..4 + n] == committee[..n];
    assert json.fromSlice(committee[..n]).Err?;
  }

  /** The nested format round-trips whatever follows, exactly when its lengths fit. */
  lemma {:induction false} PendingRoundTrip(json: Json, p: PendingReshareBundle, suffix: seq<byte>)
    requires Lossless(json) && ValidPending(p)
    ensures DecodePending(json, EncodePending(json, p) + suffix) == Ok(p) <==> FitsPending(json, p)
  {
    if FitsPending(json, p) {
      PendingDecodes(json, p, suffix);
    } else if |Encode(p.bundle)| < U32 && |p.bulletinPostId| < U32 {
      var tail := LittleEndian(p.expectedNewThreshold, 4) + suffix;
      var expectations := Block(p.bulletinPostId) + (Block(json.toVec(p.expectedNewCommittee)) + tail);
      EncodePendingShape(json, p, suffix);
      ReadBlockInverse(Encode(p.bundle), expectations, Bundle);
      assert PendingLayout(json, p, tail)[1..] == Block(Encode(p.bundle)) + expectations;
      if Decode(Encode(p.bundle)).Ok? {
        LongCommitteeRejected(json, Decode(Encode(p.bundle)).value, p, tail);
      }
    } else if DecodePending(json, EncodePending(json, p) + suffix).Ok? {
      AcceptedPendingFits(json, EncodePending(json, p) + suffix);
    }
  }

  lemma {:induction false} PendingDecodes(json: Json, p: PendingReshareBundle, suffix: seq<byte>)
    requires Lossless(json) && ValidPending(p) && FitsPending(json, p)
    ensures DecodePending(json, EncodePending(json, p) + suffix) == Ok(p)
  {
    var tail := LittleEndian(p.expectedNewThreshold, 4) + suffix;
    assert FromLittleEndian(tail[..4]) == p.expectedNewThreshold by {
      assert tail[..4] == LittleEndian(p.expectedNewThreshold, 4);
      LittleEndianInverse(p.expectedNewThreshold, 4);
      Widths();
    }
    EncodePendingShape(json, p, suffix);
    DecodePendingShape(json, p, tail);
  }

  /** The staged format nests the bundle as its first block and ends with the threshold. */
  lemma {:induction false} PendingBundleLayout(json: Json, p: PendingReshareBundle)
    ensures var e, b, c := EncodePending(json, p), Encode(p.bundle), json.toVec(p.expectedNewCommittee);
            var i, j := 5 + |b|, 9 + |b| + |p.bulletinPostId|;
            && |e| == j + 8 + |c| && e[0] == 1
            && e[1..5] == LittleEndian(|b|, 4) && e[5..i] == b
            && e[i..i + 4] == LittleEndian(|p.bulletinPostId|, 4) && e[i + 4..j] == p.bulletinPostId
            && e[j..j + 4] == LittleEndian(|c|, 4) && e[j + 4..j + 4 + |c|] == c
            && e[j + 4 + |c|..] == LittleEndian(p.expectedNewThreshold, 4)
  {
  }

  method PendingToBytes(json: Json, p: PendingReshareBundle) returns (buf: seq<byte>)
    ensures buf == EncodePending(json, p)
  {
    var bundleBytes := ToBytes(p.bundle);
    var postIdBytes := p.bulletinPostId;
    var committeeJson := json.toVec(p.expectedNewCommittee);
    buf := [PENDING_RESHARE_BUNDLE_VERSION];
    buf := buf + LittleEndian(|bundleBytes|, 4);
    buf := buf + bundleBytes;
    buf := buf + LittleEndian(|postIdBytes|, 4);
    buf := buf + postIdBytes;
    buf := buf + LittleEndian(|committeeJson|, 4);
    buf := buf + committeeJson;
    buf := buf + LittleEndian(p.expectedNewThreshold, 4);
  }

  method PendingFromBytes(json: Json, bytes: seq<byte>) returns (r: Result<PendingReshareBundle>)
    requires |bytes| <= MAX_ALLOCATION
    ensures r == DecodePending(json, bytes)
  {
    if bytes == [] { return Err(Empty); }
    if bytes[0] != PENDING_RESHARE_BUNDLE_VERSION { return Err(UnsupportedVersion(bytes[0])); }
    var cursor := 1;
    var inner;
    inner, cursor := TakeBlock(bytes, cursor, Bundle);
    if inner.Err? { return Err(inner.error); }
    var bundle := FromBytes(inner.value);
    if bundle.Err? { return Err(bundle.error); }
    r := ExpectationsFromBytes(json, bundle.value, bytes, cursor);
  }

  method ExpectationsFromBytes(json: Json, bundle: RingShareBundle, bytes: seq<byte>, start: nat)
    returns (r: Result<PendingReshareBundle>)
    requires start <= |bytes| <= MAX_ALLOCATION
    ensures r == DecodeExpectations(json, bundle, bytes[start..])
  {
    var postId, cursor := TakeBlock(bytes, start, BulletinPostId);
    if postId.Err? { return Err(postId.error); }
    if !ValidUtf8(postId.value) { return Err(InvalidUtf8(BulletinPostId)); }
    var committee;
    committee, cursor := TakeBlock(bytes, cursor, Committee);
    if committee.Err? { return Err(committee.error); }
    var members := json.fromSlice(committee.value);
    if members.Err? { return Err(members.error); }
    assert cursor + 4 < U64;
    if |bytes| < cursor + 4 { return Err(TooShort(Threshold)); }
    assert bytes[cursor..][..4] == bytes[cursor..cursor + 4];
    return Ok(PendingReshareBundle(bundle, postId.value, members.value, FromLittleEndian(bytes[cursor..cursor + 4])));
  }
}
