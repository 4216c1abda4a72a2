/** The canonical encodings that proofs and signatures are bound to. An encoding is a
    list of length-prefixed blocks, fixed-width words and presence-tagged options. */
module Transcript {
  import opened Bytes
  import opened Options

  type u64 = n: nat | n < 0x1_0000_0000_0000_0000

  const MAX_LEN: nat := 0x1_0000_0000

  // ---------------------------------------------------------------------------
  // The wire format
  // ---------------------------------------------------------------------------

  datatype Leaf = Block(bytes: seq<byte>) | Word(n: u64)

  datatype Item = Plain(leaf: Leaf) | Maybe(content: Option<seq<Leaf>>)

  function EncodeLeaf(l: Leaf): seq<byte> {
    match l
    case Block(bytes) => BigEndian(|bytes|, 4) + bytes
    case Word(n) => BigEndian(n, 8)
  }

  function EncodeLeaves(ls: seq<Leaf>): seq<byte> {
    if ls == [] then [] else EncodeLeaf(ls[0]) + EncodeLeaves(ls[1..])
  }

  function EncodeItem(i: Item): seq<byte> {
    match i
    case Plain(leaf) => EncodeLeaf(leaf)
    case Maybe(None) => [0]
    case Maybe(Some(ls)) => [1] + EncodeLeaves(ls)
  }

  function EncodeItems(xs: seq<Item>): seq<byte> {
    if xs == [] then [] else EncodeItem(xs[0]) + EncodeItems(xs[1..])
  }

  lemma {:induction false} EncodeAppend(a: seq<Item>, b: seq<Item>)
    ensures EncodeItems(a + b) == EncodeItems(a) + EncodeItems(b)
  {
    if a == [] {
      assert a + b == b;
    } else {
      assert (a + b)[1..] == a[1..] + b;
      EncodeAppend(a[1..], b);
      RegroupTwo(EncodeItem(a[0]), EncodeItems(a[1..]), EncodeItems(b));
    }
  }

  /** Every block is shorter than `n`. */
  predicate LeafBelow(l: Leaf, n: nat) { l.Block? ==> |l.bytes| < n }

  predicate LeavesBelow(ls: seq<Leaf>, n: nat) { forall i :: 0 <= i < |ls| ==> LeafBelow(ls[i], n) }

  predicate ItemBelow(i: Item, n: nat) {
    match i
    case Plain(leaf) => LeafBelow(leaf, n)
    case Maybe(o) => o.Some? ==> LeavesBelow(o.value, n)
  }

  predicate Below(xs: seq<Item>, n: nat) { forall i :: 0 <= i < |xs| ==> ItemBelow(xs[i], n) }

  /** The length of every block survives the cast to 32 bits. */
  predicate LeafFits(l: Leaf) { LeafBelow(l, MAX_LEN) }

  predicate LeavesFit(ls: seq<Leaf>) { LeavesBelow(ls, MAX_LEN) }

  predicate ItemFits(i: Item) { ItemBelow(i, MAX_LEN) }

  predicate Fits(xs: seq<Item>) { Below(xs, MAX_LEN) }

  // ---------------------------------------------------------------------------
  // A reader for it, given the kinds of the fields
  // ---------------------------------------------------------------------------

  datatype LeafKind = ABlock | AWord

  datatype Kind = Always(kind: LeafKind) | Sometimes(kinds: seq<LeafKind>)

  type Read<T> = Option<(T, seq<byte>)>

  function ReadLeaf(k: LeafKind, s: seq<byte>): (r: Read<Leaf>)
    ensures r.Some? ==> LeafFits(r.value.0)
  {
    Widths();
    match k
    case ABlock =>
      if |s| < 4 then None else
      var n := FromBigEndian(s[..4]);
      if |s| < 4 + n then None else Some((Block(s[4..4 + n]), s[4 + n..]))
    case AWord =>
      if |s| < 8 then None else Some((Word(FromBigEndian(s[..8])), s[8..]))
  }

  function ReadLeaves(ks: seq<LeafKind>, s: seq<byte>): (r: Read<seq<Leaf>>)
    ensures r.Some? ==> LeavesFit(r.value.0)
  {
    if ks == [] then Some(([], s)) else
    match ReadLeaf(ks[0], s)
    case None => None
    case Some((l, rest)) =>
      match ReadLeaves(ks[1..], rest)
      case None => None
      case Some((ls, left)) => Some(([l] + ls, left))
  }

  function ReadItem(k: Kind, s: seq<byte>): (r: Read<Item>)
    ensures r.Some? ==> ItemFits(r.value.0)
  {
    match k
    case Always(leaf) =>
      (match ReadLeaf(leaf, s)
       case None => None
       case Some((l, rest)) => Some((Plain(l), rest)))
    case Sometimes(ks) =>
      if s == [] || s[0] > 1 then None else
      if s[0] == 0 then Some((Maybe(None), s[1..])) else
      match ReadLeaves(ks, s[1..])
      case None => None
      case Some((ls, rest)) => Some((Maybe(Some(ls)), rest))
  }

  function ReadItems(ks: seq<Kind>, s: seq<byte>): (r: Read<seq<Item>>)
    ensures r.Some? ==> Fits(r.value.0)
  {
    if ks == [] then Some(([], s)) else
    match ReadItem(ks[0], s)
    case None => None
    case Some((i, rest)) =>
      match ReadItems(ks[1..], rest)
      case None => None
      case Some((xs, left)) => Some(([i] + xs, left))
  }

  predicate LeafConforms(l: Leaf, k: LeafKind) { l.Block? <==> k.ABlock? }

  predicate LeavesConform(ls: seq<Leaf>, ks: seq<LeafKind>) {
    |ls| == |ks| && forall i :: 0 <= i < |ls| ==> LeafConforms(ls[i], ks[i])
  }

  predicate ItemConforms(i: Item, k: Kind) {
    match i
    case Plain(l) => k.Always? && LeafConforms(l, k.kind)
    case Maybe(o) => k.Sometimes? && (o.Some? ==> LeavesConform(o.value, k.kinds))
  }

  predicate Conforms(xs: seq<Item>, ks: seq<Kind>) {
    |xs| == |ks| && forall i :: 0 <= i < |xs| ==> ItemConforms(xs[i], ks[i])
  }

  lemma {:induction false} BlockReadsBack(bytes: seq<byte>, s: seq<byte>)
    requires |bytes| < MAX_LEN
    ensures ReadLeaf(ABlock, BigEndian(|bytes|, 4) + bytes + s) == Some((Block(bytes), s))
  {
    Widths();
    var whole := BigEndian(|bytes|, 4) + bytes + s;
    assert whole[..4] == BigEndian(|bytes|, 4);
    BigEndianInverse(|bytes|, 4);
    assert whole[4..4 + |bytes|] == bytes && whole[4 + |bytes|..] == s;
  }

  lemma {:induction false} WordReadsBack(n: u64, s: seq<byte>)
    ensures ReadLeaf(AWord, BigEndian(n, 8) + s) == Some((Word(n), s))
  {
    Widths();
    var whole := BigEndian(n, 8) + s;
    assert whole[..8] == BigEndian(n, 8) && whole[8..] == s;
    BigEndianInverse(n, 8);
  }

  lemma {:induction false} LeafReadsBack(l: Leaf, k: LeafKind, s: seq<byte>)
    requires LeafConforms(l, k) && LeafFits(l)
    ensures ReadLeaf(k, EncodeLeaf(l) + s) == Some((l, s))
  {
    match l
    case Block(bytes) => BlockReadsBack(bytes, s);
    case Word(n) => WordReadsBack(n, s);
  }

  lemma {:induction false} LeavesReadBack(ls: seq<Leaf>, ks: seq<LeafKind>, s: seq<byte>)
    requires LeavesConform(ls, ks) && LeavesFit(ls)
    ensures ReadLeaves(ks, EncodeLeaves(ls) + s) == Some((ls, s))
  {
    if ls == [] {
      assert EncodeLeaves(ls) + s == s;
    } else {
      var tail := EncodeLeaves(ls[1..]) + s;
      RegroupTwo(EncodeLeaf(ls[0]), EncodeLeaves(ls[1..]), s);
      LeafReadsBack(ls[0], ks[0], tail);
      LeavesReadBack(ls[1..], ks[1..], s);
      assert ls == [ls[0]] + ls[1..];
    }
  }

  lemma {:induction false} ItemReadsBack(i: Item, k: Kind, s: seq<byte>)
    requires ItemConforms(i, k) && ItemFits(i)
    ensures ReadItem(k, EncodeItem(i) + s) == Some((i, s))
  {
    match i
    case Plain(l) => LeafReadsBack(l, k.kind, s);
    case Maybe(None) => assert ([0] + s)[1..] == s;
    case Maybe(Some(ls)) =>
      assert (EncodeItem(i) + s)[1..] == EncodeLeaves(ls) + s;
      LeavesReadBack(ls, k.kinds, s);
  }

  lemma {:induction false} FittingReadsBack(xs: seq<Item>, ks: seq<Kind>, s: seq<byte>)
    requires Conforms(xs, ks) && Fits(xs)
    ensures ReadItems(ks, EncodeItems(xs) + s) == Some((xs, s))
  {
    if xs == [] {
      assert EncodeItems(xs) + s == s;
    } else {
      var tail := EncodeItems(xs[1..]) + s;
      assert EncodeItems(xs) + s == EncodeItem(xs[0]) + tail;
      ItemReadsBack(xs[0], ks[0], tail);
      FittingReadsBack(xs[1..], ks[1..], s);
      assert xs == [xs[0]] + xs[1..];
    }
  }

  /** No encoding is a prefix of another one of the same kinds. */
  lemma {:induction false} PrefixFree(a: seq<Item>, b: seq<Item>, ks: seq<Kind>, p: seq<byte>, q: seq<byte>)
    requires Conforms(a, ks) && Conforms(b, ks) && Fits(a) && Fits(b)
    requires EncodeItems(a) + p == EncodeItems(b) + q
    ensures a == b && p == q
  {
    FittingReadsBack(a, ks, p);
    FittingReadsBack(b, ks, q);
  }

  // ---------------------------------------------------------------------------
  // The contexts
  // ---------------------------------------------------------------------------

  datatype PetTagBinding = PetTagBinding(ringId: Str, petPk: seq<byte>, ephemeralPoint: seq<byte>,
                                         maskedFingerprint: seq<byte>)

  datatype CiphertextContext = CiphertextContext(
    ringPk: seq<byte>,
    policyId: Str,
    resource: Str,
    permission: Str,
    tier: Option<Str>,
    timestamp: Option<u64>,
    salt: Option<Str>,
    petTag: Option<PetTagBinding>)

  datatype ValidWindowBinding = ValidWindowBinding(start: u64, end: u64)

  datatype ReaderAuthorizationContext = ReaderAuthorizationContext(
    chainId: Str,
    ringPk: seq<byte>,
    jwtIssuer: Str,
    jwtSubject: Option<Str>,
    resolvedActor: Str,
    jwtId: Str,
    jwtIssuedTime: u64,
    jwtExpirationTime: u64,
    jwtNotBefore: Option<u64>,
    objectId: Str,
    recipientPk: seq<byte>,
    derivation: Option<seq<byte>>,
    salt: Option<Str>,
    validWindow: Option<ValidWindowBinding>,
    auditTargetObjectId: Option<Str>)

  function Put(b: seq<byte>): Item { Plain(Block(b)) }

  function PutOpt(o: Option<seq<byte>>): Item {
    match o case None => Maybe(None) case Some(b) => Maybe(Some([Block(b)]))
  }

  function OptBytes(o: Option<Str>): Option<seq<byte>> {
    match o case None => None case Some(s) => Some(s)
  }

  function PutOptWord(o: Option<u64>): Item {
    match o case None => Maybe(None) case Some(n) => Maybe(Some([Word(n)]))
  }

  function PutOptTag(o: Option<PetTagBinding>): Item {
    match o
    case None => Maybe(None)
    case Some(t) => Maybe(Some([Block(t.ringId), Block(t.petPk), Block(t.ephemeralPoint), Block(t.maskedFingerprint)]))
  }

  function PutOptWindow(o: Option<ValidWindowBinding>): Item {
    match o case None => Maybe(None) case Some(w) => Maybe(Some([Word(w.start), Word(w.end)]))
  }

  function ContextPolicy(c: CiphertextContext): seq<Item> {
    [Put(c.ringPk), Put(c.policyId), Put(c.resource), Put(c.permission)]
  }

  function ContextOptions(c: CiphertextContext): seq<Item> {
    [PutOpt(OptBytes(c.tier)), PutOptWord(c.timestamp), PutOpt(OptBytes(c.salt)), PutOptTag(c.petTag)]
  }

  function ContextItems(c: CiphertextContext): seq<Item> { ContextPolicy(c) + ContextOptions(c) }

  function PolicyKinds(): seq<Kind> { [Always(ABlock), Always(ABlock), Always(ABlock), Always(ABlock)] }

  function OptionKinds(): seq<Kind> {
    [Sometimes([ABlock]), Sometimes([AWord]), Sometimes([ABlock]), Sometimes([ABlock, ABlock, ABlock, ABlock])]
  }

  function ContextKinds(): seq<Kind> { PolicyKinds() + OptionKinds() }

  function ReaderIdentity(c: ReaderAuthorizationContext): seq<Item> {
    [Put(c.chainId), Put(c.ringPk), Put(c.jwtIssuer), PutOpt(OptBytes(c.jwtSubject)), Put(c.resolvedActor)]
  }

  function ReaderToken(c: ReaderAuthorizationContext): seq<Item> {
    [Put(c.jwtId), Plain(Word(c.jwtIssuedTime)), Plain(Word(c.jwtExpirationTime)), PutOptWord(c.jwtNotBefore),
     Put(c.objectId)]
  }

  function ReaderRequest(c: ReaderAuthorizationContext): seq<Item> {
    [Put(c.recipientPk), PutOpt(c.derivation), PutOpt(OptBytes(c.salt)), PutOptWindow(c.validWindow),
     PutOpt(OptBytes(c.auditTargetObjectId))]
  }

  function ReaderItems(c: ReaderAuthorizationContext): seq<Item> {
    ReaderIdentity(c) + ReaderToken(c) + ReaderRequest(c)
  }

  function IdentityKinds(): seq<Kind> {
    [Always(ABlock), Always(ABlock), Always(ABlock), Sometimes([ABlock]), Always(ABlock)]
  }

  function TokenKinds(): seq<Kind> {
    [Always(ABlock), Always(AWord), Always(AWord), Sometimes([AWord]), Always(ABlock)]
  }

  function RequestKinds(): seq<Kind> {
    [Always(ABlock), Sometimes([ABlock]), Sometimes([ABlock]), Sometimes([AWord, AWord]), Sometimes([ABlock])]
  }

  function ReaderKinds(): seq<Kind> { IdentityKinds() + TokenKinds() + RequestKinds() }

  lemma {:induction false} SameOpt(a: Option<Str>, b: Option<Str>)
    requires PutOpt(OptBytes(a)) == PutOpt(OptBytes(b))
    ensures a == b
  {
    if a.Some? && b.Some? {
      assert PutOpt(OptBytes(a)).content.value[0] == PutOpt(OptBytes(b)).content.value[0];
    }
  }

  lemma {:induction false} SameOptBytes(a: Option<seq<byte>>, b: Option<seq<byte>>)
    requires PutOpt(a) == PutOpt(b)
    ensures a == b
  {
    if a.Some? && b.Some? { assert PutOpt(a).content.value[0] == PutOpt(b).content.value[0]; }
  }

  lemma {:induction false} SameOptWord(a: Option<u64>, b: Option<u64>)
    requires PutOptWord(a) == PutOptWord(b)
    ensures a == b
  {
    if a.Some? && b.Some? { assert PutOptWord(a).content.value[0] == PutOptWord(b).content.value[0]; }
  }

  lemma {:induction false} SameTag(a: Option<PetTagBinding>, b: Option<PetTagBinding>)
    requires PutOptTag(a) == PutOptTag(b)
    ensures a == b
  {
    if a.Some? && b.Some? {
      var x, y := PutOptTag(a).content.value, PutOptTag(b).content.value;
      assert x[0] == y[0] && x[1] == y[1] && x[2] == y[2] && x[3] == y[3];
    }
  }

  lemma {:induction false} SameWindow(a: Option<ValidWindowBinding>, b: Option<ValidWindowBinding>)
    requires PutOptWindow(a) == PutOptWindow(b)
    ensures a == b
  {
    if a.Some? && b.Some? {
      var x, y := PutOptWindow(a).content.value, PutOptWindow(b).content.value;
      assert x[0] == y[0] && x[1] == y[1];
    }
  }

  lemma {:induction false} SameContext(a: CiphertextContext, b: CiphertextContext)
    requires ContextPolicy(a) == ContextPolicy(b) && ContextOptions(a) == ContextOptions(b)
    ensures a == b
  {
    var x, y := ContextPolicy(a), ContextPolicy(b);
    assert x[0] == y[0] && x[1] == y[1] && x[2] == y[2] && x[3] == y[3];
    x, y := ContextOptions(a), ContextOptions(b);
    assert x[0] == y[0] && x[1] == y[1] && x[2] == y[2] && x[3] == y[3];
    SameOpt(a.tier, b.tier);
    SameOptWord(a.timestamp, b.timestamp);
    SameOpt(a.salt, b.salt);
    SameTag(a.petTag, b.petTag);
  }

  lemma {:induction false} Halves(a: CiphertextContext, b: CiphertextContext)
    requires ContextItems(a) == ContextItems(b)
    ensures ContextPolicy(a) == ContextPolicy(b) && ContextOptions(a) == ContextOptions(b)
  {
    var x, y := ContextItems(a), ContextItems(b);
    assert x[..4] == ContextPolicy(a) && y[..4] == ContextPolicy(b);
    assert x[4..] == ContextOptions(a) && y[4..] == ContextOptions(b);
  }

  lemma {:induction false} SameReader(a: ReaderAuthorizationContext, b: ReaderAuthorizationContext)
    requires ReaderIdentity(a) == ReaderIdentity(b) && ReaderToken(a) == ReaderToken(b)
             && ReaderRequest(a) == ReaderRequest(b)
    ensures a == b
  {
    var x, y := ReaderIdentity(a), ReaderIdentity(b);
    assert x[0] == y[0] && x[1] == y[1] && x[2] == y[2] && x[3] == y[3] && x[4] == y[4];
    SameOpt(a.jwtSubject, b.jwtSubject);
    x, y := ReaderToken(a), ReaderToken(b);
    assert x[0] == y[0] && x[1] == y[1] && x[2] == y[2] && x[3] == y[3] && x[4] == y[4];
    SameOptWord(a.jwtNotBefore, b.jwtNotBefore);
    x, y := ReaderRequest(a), ReaderRequest(b);
    assert x[0] == y[0] && x[1] == y[1] && x[2] == y[2] && x[3] == y[3] && x[4] == y[4];
    SameOptBytes(a.derivation, b.derivation);
    SameOpt(a.salt, b.salt);
    SameWindow(a.validWindow, b.validWindow);
    SameOpt(a.auditTargetObjectId, b.auditTargetObjectId);
  }

  lemma {:induction false} Thirds(a: ReaderAuthorizationContext, b: ReaderAuthorizationContext)
    requires ReaderItems(a) == ReaderItems(b)
    ensures ReaderIdentity(a) == ReaderIdentity(b) && ReaderToken(a) == ReaderToken(b)
            && ReaderRequest(a) == ReaderRequest(b)
  {
    var x, y := ReaderItems(a), ReaderItems(b);
    assert x[..5] == ReaderIdentity(a) && y[..5] == ReaderIdentity(b);
    assert x[5..10] == ReaderToken(a) && y[5..10] == ReaderToken(b);
    assert x[10..] == ReaderRequest(a) && y[10..] == ReaderRequest(b);
  }

  // ---------------------------------------------------------------------------
  // The encoders
  // ---------------------------------------------------------------------------

  function Encoded(c: CiphertextContext): seq<byte> { EncodeItems(ContextItems(c)) }

  function EncodedReader(c: ReaderAuthorizationContext): seq<byte> { EncodeItems(ReaderItems(c)) }

  lemma {:induction false} Appended(before: seq<Item>, i: Item)
    ensures EncodeItems(before + [i]) == EncodeItems(before) + EncodeItem(i)
  {
    EncodeAppend(before, [i]);
    assert [i][1..] == [];
    assert EncodeItems([i]) == EncodeItem(i) + EncodeItems([]);
  }

  lemma {:induction false} Single(l: Leaf)
    ensures EncodeLeaves([l]) == EncodeLeaf(l)
  {
    assert EncodeLeaves([l]) == EncodeLeaf(l) + EncodeLeaves([]);
  }

  lemma {:induction false} Pair(l: Leaf, ls: seq<Leaf>)
    ensures EncodeLeaves([l] + ls) == EncodeLeaf(l) + EncodeLeaves(ls)
  {
    assert ([l] + ls)[1..] == ls;
  }

  lemma {:induction false} Regroup<T>(s: seq<T>, a: seq<T>, b: seq<T>, c: seq<T>, d: seq<T>, e: seq<T>)
    ensures s + a + b + c + d + e == s + (a + (b + (c + (d + e))))
  {
  }

  lemma {:induction false} RegroupTwo<T>(s: seq<T>, a: seq<T>, b: seq<T>)
    ensures s + a + b == s + (a + b)
  {
  }

  lemma {:induction false} RegroupThree<T>(s: seq<T>, a: seq<T>, b: seq<T>, c: seq<T>)
    ensures s + a + b + c == s + (a + (b + c))
  {
  }

  /** The buffer the encoders append to; `written` lists the items in it. */
  class Writer {
    var out: seq<byte>
    ghost var written: seq<Item>

    ghost predicate Valid()
      reads this
    {
      out == EncodeItems(written)
    }

    constructor ()
      ensures Valid() && written == []
    {
      out, written := [], [];
    }

    method Extend(bytes: seq<byte>)
      modifies this`out
      ensures out == old(out) + bytes
    {
      out := out + bytes;
    }

    method ExtendBlock(bytes: seq<byte>)
      modifies this`out
      ensures out == old(out) + EncodeLeaf(Block(bytes))
    {
      Extend(BigEndian(|bytes|, 4));
      Extend(bytes);
    }

    method PutBytes(bytes: seq<byte>)
      requires Valid()
      modifies this
      ensures Valid() && written == old(written) + [Put(bytes)]
    {
      Appended(written, Put(bytes));
      ExtendBlock(bytes);
      written := written + [Put(bytes)];
    }

    method PutU64(n: u64)
      requires Valid()
      modifies this
      ensures Valid() && written == old(written) + [Plain(Word(n))]
    {
      Appended(written, Plain(Word(n)));
      Extend(BigEndian(n, 8));
      written := written + [Plain(Word(n))];
    }

    method ExtendOpt(value: Option<seq<byte>>)
      modifies this`out
      ensures out == old(out) + EncodeItem(PutOpt(value))
    {
      match value
      case None => Extend([0]);
      case Some(b) =>
        Single(Block(b));
        RegroupTwo(out, [1], EncodeLeaf(Block(b)));
        Extend([1]);
        ExtendBlock(b);
    }

    method PutOptBytes(value: Option<seq<byte>>)
      requires Valid()
      modifies this
      ensures Valid() && written == old(written) + [PutOpt(value)]
    {
      Appended(written, PutOpt(value));
      ExtendOpt(value);
      written := written + [PutOpt(value)];
    }

    method PutOptStr(value: Option<Str>)
      requires Valid()
      modifies this
      ensures Valid() && written == old(written) + [PutOpt(OptBytes(value))]
    {
      PutOptBytes(OptBytes(value));
    }

    method ExtendOptU64(value: Option<u64>)
      modifies this`out
      ensures out == old(out) + EncodeItem(PutOptWord(value))
    {
      match value
      case None => Extend([0]);
      case Some(n) =>
        Single(Word(n));
        RegroupTwo(out, [1], BigEndian(n, 8));
        Extend([1]);
        Extend(BigEndian(n, 8));
    }

    method PutOptU64(value: Option<u64>)
      requires Valid()
      modifies this
      ensures Valid() && written == old(written) + [PutOptWord(value)]
    {
      Appended(written, PutOptWord(value));
      ExtendOptU64(value);
      written := written + [PutOptWord(value)];
    }

    method ExtendOptPetTag(value: Option<PetTagBinding>)
      modifies this`out
      ensures out == old(out) + EncodeItem(PutOptTag(value))
    {
      match value
      case None => Extend([0]);
      case Some(t) =>
        TagLeaves(t);
        Regroup(out, [1], EncodeLeaf(Block(t.ringId)), EncodeLeaf(Block(t.petPk)),
                EncodeLeaf(Block(t.ephemeralPoint)), EncodeLeaf(Block(t.maskedFingerprint)));
        Extend([1]);
        ExtendBlock(t.ringId);
        ExtendBlock(t.petPk);
        ExtendBlock(t.ephemeralPoint);
        ExtendBlock(t.maskedFingerprint);
    }

    method PutOptPetTag(value: Option<PetTagBinding>)
      requires Valid()
      modifies this
      ensures Valid() && written == old(written) + [PutOptTag(value)]
    {
      Appended(written, PutOptTag(value));
      ExtendOptPetTag(value);
      written := written + [PutOptTag(value)];
    }

    method ExtendOptWindow(value: Option<ValidWindowBinding>)
      modifies this`out
      ensures out == old(out) + EncodeItem(PutOptWindow(value))
    {
      match value
      case None => Extend([0]);
      case Some(w) =>
        WindowLeaves(w);
        RegroupThree(out, [1], BigEndian(w.start, 8), BigEndian(w.end, 8));
        Extend([1]);
        Extend(BigEndian(w.start, 8));
        Extend(BigEndian(w.end, 8));
    }

    method PutOptValidWindow(value: Option<ValidWindowBinding>)
      requires Valid()
      modifies this
      ensures Valid() && written == old(written) + [PutOptWindow(value)]
    {
      Appended(written, PutOptWindow(value));
      ExtendOptWindow(value);
      written := written + [PutOptWindow(value)];
    }
  }

  lemma {:induction false} TagLeaves(t: PetTagBinding)
    ensures EncodeItem(PutOptTag(Some(t)))
            == [1] + (EncodeLeaf(Block(t.ringId)) + (EncodeLeaf(Block(t.petPk))
               + (EncodeLeaf(Block(t.ephemeralPoint)) + EncodeLeaf(Block(t.maskedFingerprint)))))
  {
    var a, b, c, d := Block(t.ringId), Block(t.petPk), Block(t.ephemeralPoint), Block(t.maskedFingerprint);
    Single(d);
    Pair(c, [d]);
    Pair(b, [c] + [d]);
    Pair(a, [b] + ([c] + [d]));
    assert [a, b, c, d] == [a] + ([b] + ([c] + [d]));
  }

  lemma {:induction false} WindowLeaves(w: ValidWindowBinding)
    ensures EncodeItem(PutOptWindow(Some(w))) == [1] + (BigEndian(w.start, 8) + BigEndian(w.end, 8))
  {
    Single(Word(w.end));
    Pair(Word(w.start), [Word(w.end)]);
    assert [Word(w.start), Word(w.end)] == [Word(w.start)] + [Word(w.end)];
  }

  method CanonicalEncode(c: CiphertextContext) returns (out: seq<byte>)
    ensures out == Encoded(c)
  {
    var w := new Writer();
    WritePolicy(w, c);
    WriteOptions(w, c);
    assert w.written == ContextItems(c);
    return w.out;
  }

  method WritePolicy(w: Writer, c: CiphertextContext)
    requires w.Valid()
    modifies w
    ensures w.Valid() && w.written == old(w.written) + ContextPolicy(c)
  {
    w.PutBytes(c.ringPk);
    w.PutBytes(c.policyId);
    w.PutBytes(c.resource);
    w.PutBytes(c.permission);
  }

  method WriteOptions(w: Writer, c: CiphertextContext)
    requires w.Valid()
    modifies w
    ensures w.Valid() && w.written == old(w.written) + ContextOptions(c)
  {
    w.PutOptStr(c.tier);
    w.PutOptU64(c.timestamp);
    w.PutOptStr(c.salt);
    w.PutOptPetTag(c.petTag);
  }

  method WriteIdentity(w: Writer, c: ReaderAuthorizationContext)
    requires w.Valid()
    modifies w
    ensures w.Valid() && w.written == old(w.written) + ReaderIdentity(c)
  {
    w.PutBytes(c.chainId);
    w.PutBytes(c.ringPk);
    w.PutBytes(c.jwtIssuer);
    w.PutOptStr(c.jwtSubject);
    w.PutBytes(c.resolvedActor);
  }

  method WriteToken(w: Writer, c: ReaderAuthorizationContext)
    requires w.Valid()
    modifies w
    ensures w.Valid() && w.written == old(w.written) + ReaderToken(c)
  {
    w.PutBytes(c.jwtId);
    w.PutU64(c.jwtIssuedTime);
    w.PutU64(c.jwtExpirationTime);
    w.PutOptU64(c.jwtNotBefore);
    w.PutBytes(c.objectId);
  }

  method WriteRequest(w: Writer, c: ReaderAuthorizationContext)
    requires w.Valid()
    modifies w
    ensures w.Valid() && w.written == old(w.written) + ReaderRequest(c)
  {
    w.PutBytes(c.recipientPk);
    w.PutOptBytes(c.derivation);
    w.PutOptStr(c.salt);
    w.PutOptValidWindow(c.validWindow);
    w.PutOptStr(c.auditTargetObjectId);
  }

  method CanonicalEncodeReaderAuthorization(c: ReaderAuthorizationContext) returns (out: seq<byte>)
    ensures out == EncodedReader(c)
  {
    var w := new Writer();
    WriteIdentity(w, c);
    WriteToken(w, c);
    WriteRequest(w, c);
    assert w.written == ReaderItems(c);
    return w.out;
  }

  // ---------------------------------------------------------------------------
  // The encodings as they lie on the wire
  // ---------------------------------------------------------------------------

  lemma {:induction false} FourItems(a: Item, b: Item, c: Item, d: Item)
    ensures EncodeItems([a, b, c, d]) == EncodeItem(a) + (EncodeItem(b) + (EncodeItem(c) + EncodeItem(d)))
  {
    Appended([], d);
    assert [] + [d] == [d];
    OneMore(c, [d]);
    OneMore(b, [c] + [d]);
    OneMore(a, [b] + ([c] + [d]));
    assert [a, b, c, d] == [a] + ([b] + ([c] + [d]));
  }

  lemma {:induction false} FiveItems(a: Item, b: Item, c: Item, d: Item, e: Item)
    ensures EncodeItems([a, b, c, d, e])
            == EncodeItem(a) + (EncodeItem(b) + (EncodeItem(c) + (EncodeItem(d) + EncodeItem(e))))
  {
    FourItems(b, c, d, e);
    OneMore(a, [b, c, d, e]);
    assert [a, b, c, d, e] == [a] + [b, c, d, e];
  }

  /** A block: its length in four bytes, most significant first, then its bytes. */
  lemma {:induction false} BlockBytes(b: seq<byte>, i: nat)
    ensures var e := EncodeItem(Put(b));
            && |e| == |b| + 4 && e[4..] == b
            && (i < 4 ==> e[3 - i] == |b| / Pow256(i) % 256)
  {
    if i < 4 { BigEndianDigit(|b|, 4, i); }
  }

  /** A word: eight bytes, most significant first. */
  lemma {:induction false} WordBytes(n: u64, i: nat)
    requires i < 8
    ensures var e := EncodeItem(Plain(Word(n))); |e| == 8 && e[7 - i] == n / Pow256(i) % 256
  {
    BigEndianDigit(n, 8, i);
  }

  /** An absent value is one zero byte; a present one follows a byte of one. */
  lemma {:induction false} OptionalBytes(b: Option<seq<byte>>, n: Option<u64>)
    ensures EncodeItem(PutOpt(b)) == if b.None? then [0] else [1] + EncodeItem(Put(b.value))
    ensures EncodeItem(PutOptWord(n)) == if n.None? then [0] else [1] + EncodeItem(Plain(Word(n.value)))
  {
    if b.Some? { Single(Block(b.value)); }
    if n.Some? { Single(Word(n.value)); }
  }

  lemma {:induction false} GroupedBytes(t: Option<PetTagBinding>, w: Option<ValidWindowBinding>)
    ensures EncodeItem(PutOptTag(t))
            == if t.None? then [0] else
               [1] + (EncodeItem(Put(t.value.ringId)) + (EncodeItem(Put(t.value.petPk))
               + (EncodeItem(Put(t.value.ephemeralPoint)) + EncodeItem(Put(t.value.maskedFingerprint)))))
    ensures EncodeItem(PutOptWindow(w))
            == if w.None? then [0] else
               [1] + (EncodeItem(Plain(Word(w.value.start))) + EncodeItem(Plain(Word(w.value.end))))
  {
    if t.Some? { TagLeaves(t.value); }
    if w.Some? { WindowLeaves(w.value); }
  }

  /** A context: the ring key and the policy, then the options and the tag. */
  lemma {:induction false} ContextLayout(c: CiphertextContext)
    ensures Encoded(c)
            == (EncodeItem(Put(c.ringPk)) + (EncodeItem(Put(c.policyId)) + (EncodeItem(Put(c.resource))
                + EncodeItem(Put(c.permission)))))
               + (EncodeItem(PutOpt(OptBytes(c.tier))) + (EncodeItem(PutOptWord(c.timestamp))
                  + (EncodeItem(PutOpt(OptBytes(c.salt))) + EncodeItem(PutOptTag(c.petTag)))))
  {
    EncodeAppend(ContextPolicy(c), ContextOptions(c));
    FourItems(Put(c.ringPk), Put(c.policyId), Put(c.resource), Put(c.permission));
    FourItems(PutOpt(OptBytes(c.tier)), PutOptWord(c.timestamp), PutOpt(OptBytes(c.salt)), PutOptTag(c.petTag));
  }

  lemma {:induction false} IdentityLayout(c: ReaderAuthorizationContext)
    ensures EncodeItems(ReaderIdentity(c))
            == EncodeItem(Put(c.chainId)) + (EncodeItem(Put(c.ringPk)) + (EncodeItem(Put(c.jwtIssuer))
               + (EncodeItem(PutOpt(OptBytes(c.jwtSubject))) + EncodeItem(Put(c.resolvedActor)))))
  {
    FiveItems(Put(c.chainId), Put(c.ringPk), Put(c.jwtIssuer), PutOpt(OptBytes(c.jwtSubject)), Put(c.resolvedActor));
  }

  lemma {:induction false} TokenLayout(c: ReaderAuthorizationContext)
    ensures EncodeItems(ReaderToken(c))
            == EncodeItem(Put(c.jwtId)) + (EncodeItem(Plain(Word(c.jwtIssuedTime)))
               + (EncodeItem(Plain(Word(c.jwtExpirationTime)))
                  + (EncodeItem(PutOptWord(c.jwtNotBefore)) + EncodeItem(Put(c.objectId)))))
  {
    FiveItems(Put(c.jwtId), Plain(Word(c.jwtIssuedTime)), Plain(Word(c.jwtExpirationTime)),
              PutOptWord(c.jwtNotBefore), Put(c.objectId));
  }

  lemma {:induction false} RequestLayout(c: ReaderAuthorizationContext)
    ensures EncodeItems(ReaderRequest(c))
            == EncodeItem(Put(c.recipientPk)) + (EncodeItem(PutOpt(c.derivation))
               + (EncodeItem(PutOpt(OptBytes(c.salt)))
                  + (EncodeItem(PutOptWindow(c.validWindow)) + EncodeItem(PutOpt(OptBytes(c.auditTargetObjectId))))))
  {
    FiveItems(Put(c.recipientPk), PutOpt(c.derivation), PutOpt(OptBytes(c.salt)), PutOptWindow(c.validWindow),
              PutOpt(OptBytes(c.auditTargetObjectId)));
  }

  /** A reader authorization: who is reading, with which token, and what is asked for. */
  lemma {:induction false} ReaderLayout(c: ReaderAuthorizationContext)
    ensures EncodedReader(c)
            == EncodeItems(ReaderIdentity(c)) + EncodeItems(ReaderToken(c)) + EncodeItems(ReaderRequest(c))
  {
    EncodeAppend(ReaderIdentity(c) + ReaderToken(c), ReaderRequest(c));
    EncodeAppend(ReaderIdentity(c), ReaderToken(c));
  }

  /** Every field is shorter than 2^32 bytes. */
  predicate ContextFits(c: CiphertextContext) { Fits(ContextItems(c)) }

  predicate ReaderFits(c: ReaderAuthorizationContext) { Fits(ReaderItems(c)) }

  lemma {:induction false} ContextConforms(c: CiphertextContext)
    ensures Conforms(ContextItems(c), ContextKinds())
  {
    assert Conforms(ContextPolicy(c), PolicyKinds());
    assert Conforms(ContextOptions(c), OptionKinds());
    ConformsBoth(ContextPolicy(c), ContextOptions(c), PolicyKinds(), OptionKinds());
  }

  lemma {:induction false} ReaderConforms(c: ReaderAuthorizationContext)
    ensures Conforms(ReaderItems(c), ReaderKinds())
  {
    assert Conforms(ReaderIdentity(c), IdentityKinds());
    assert Conforms(ReaderToken(c), TokenKinds());
    assert Conforms(ReaderRequest(c), RequestKinds());
    ConformsBoth(ReaderIdentity(c), ReaderToken(c), IdentityKinds(), TokenKinds());
    ConformsBoth(ReaderIdentity(c) + ReaderToken(c), ReaderRequest(c), IdentityKinds() + TokenKinds(), RequestKinds());
  }

  lemma {:induction false} ConformsBoth(a: seq<Item>, b: seq<Item>, ks: seq<Kind>, ls: seq<Kind>)
    requires Conforms(a, ks) && Conforms(b, ls)
    ensures Conforms(a + b, ks + ls)
  {
  }

  lemma {:induction false} ContextPrefixFree(a: CiphertextContext, b: CiphertextContext, p: seq<byte>, q: seq<byte>)
    requires ContextFits(a) && ContextFits(b) && Encoded(a) + p == Encoded(b) + q
    ensures a == b && p == q
  {
    var x, y, ks := ContextItems(a), ContextItems(b), ContextKinds();
    ContextConforms(a);
    ContextConforms(b);
    assert x == y && p == q by { PrefixFree(x, y, ks, p, q); }
    Halves(a, b);
    SameContext(a, b);
  }

  lemma {:induction false} ReaderPrefixFree(
      a: ReaderAuthorizationContext, b: ReaderAuthorizationContext, p: seq<byte>, q: seq<byte>)
    requires ReaderFits(a) && ReaderFits(b) && EncodedReader(a) + p == EncodedReader(b) + q
    ensures a == b && p == q
  {
    var x, y, ks := ReaderItems(a), ReaderItems(b), ReaderKinds();
    ReaderConforms(a);
    ReaderConforms(b);
    assert x == y && p == q by { PrefixFree(x, y, ks, p, q); }
    Thirds(a, b);
    SameReader(a, b);
  }

  // ---------------------------------------------------------------------------
  // The documented claim: no two distinct values share an encoding
  // ---------------------------------------------------------------------------

  function Zeros(n: nat): (s: seq<byte>)
    ensures |s| == n
  {
    seq(n, i => 0)
  }

  lemma {:induction false} ZeroPrefix(n: nat, k: nat)
    requires n % Pow256(k) == 0
    ensures BigEndian(n, k) == Zeros(k)
  {
    if k != 0 {
      SplitMod(n, Pow256(k - 1));
      ZeroPrefix(n / 256, k - 1);
      assert Zeros(k) == Zeros(k - 1) + [0];
    }
  }

  /** A ring key of 2^32 bytes that reads like the remaining fields of a short one. */
  function LongKey(): seq<byte> {
    Zeros(15) + [1] + Zeros(12) + BigEndian(MAX_LEN - 16, 4) + Zeros(MAX_LEN - 32)
  }

  function LongContext(): CiphertextContext { CiphertextContext(LongKey(), [], [], [], None, None, None, None) }

  function ShortContext(): CiphertextContext {
    CiphertextContext([], [], [], [], None, None, None, Some(PetTagBinding([], [], [], Zeros(MAX_LEN - 16))))
  }

  lemma {:induction false} EmptyBlock()
    ensures EncodeLeaf(Block([])) == Zeros(4)
  {
    ZeroPrefix(0, 4);
  }

  lemma {:induction false} MoreZeros(a: nat, b: nat, x: seq<byte>)
    ensures Zeros(a) + (Zeros(b) + x) == Zeros(a + b) + x
  {
  }

  lemma {:induction false} OneMore(i: Item, xs: seq<Item>)
    ensures EncodeItems([i] + xs) == EncodeItem(i) + EncodeItems(xs)
  {
    assert ([i] + xs)[1..] == xs;
  }

  lemma {:induction false} ZerosEnd(a: nat, b: nat)
    ensures Zeros(a + b + 1) == Zeros(a) + (Zeros(b) + [0])
  {
  }

  lemma {:induction false} ZerosInFront(i: Item, k: nat, xs: seq<Item>, n: nat, x: seq<byte>)
    requires EncodeItem(i) == Zeros(k) && EncodeItems(xs) == Zeros(n) + x
    ensures EncodeItems([i] + xs) == Zeros(k + n) + x
  {
    OneMore(i, xs);
    MoreZeros(k, n, x);
  }

  /** Three empty blocks and three absent options in front of the last field. */
  function EmptyThen(last: Item): seq<Item> {
    var e, n := Put([]), Maybe(None);
    [e] + ([e] + ([e] + ([n] + ([n] + ([n] + [last])))))
  }

  lemma {:induction false} EmptyFields(last: Item)
    ensures EncodeItems(EmptyThen(last)) == Zeros(15) + EncodeItem(last)
  {
    var e, n, x := Put([]), Maybe(None), EncodeItem(last);
    EmptyBlock();
    assert EncodeItem(n) == Zeros(1);
    assert EncodeItems([last]) == Zeros(0) + x by {
      Appended([], last);
      assert [] + [last] == [last];
    }
    ZerosInFront(n, 1, [last], 0, x);
    ZerosInFront(n, 1, [n] + [last], 1, x);
    ZerosInFront(n, 1, [n] + ([n] + [last]), 2, x);
    var options := [n] + ([n] + ([n] + [last]));
    ZerosInFront(e, 4, options, 3, x);
    ZerosInFront(e, 4, [e] + options, 7, x);
    ZerosInFront(e, 4, [e] + ([e] + options), 11, x);
  }

  /** The encoding of a context with nothing but a ring key and perhaps a tag. */
  lemma {:induction false} SparseEncoding(key: seq<byte>, tag: Option<PetTagBinding>)
    ensures Encoded(CiphertextContext(key, [], [], [], None, None, None, tag))
            == EncodeLeaf(Block(key)) + (Zeros(15) + EncodeItem(PutOptTag(tag)))
  {
    var c := CiphertextContext(key, [], [], [], None, None, None, tag);
    var rest := EmptyThen(PutOptTag(tag));
    assert ContextItems(c) == [Put(key)] + rest;
    OneMore(Put(key), rest);
    EmptyFields(PutOptTag(tag));
  }

  lemma {:induction false} TagEncoding(z: seq<byte>)
    ensures EncodeItem(PutOptTag(Some(PetTagBinding([], [], [], z)))) == [1] + (Zeros(12) + (BigEndian(|z|, 4) + z))
  {
    var tag := PetTagBinding([], [], [], z);
    var x := EncodeLeaf(Block(z));
    TagLeaves(tag);
    EmptyBlock();
    MoreZeros(4, 4, x);
    MoreZeros(4, 8, x);
  }

  lemma {:induction false} LongEncoding()
    ensures Encoded(LongContext()) == Zeros(4) + (LongKey() + (Zeros(15) + [0]))
  {
    Widths();
    assert |LongKey()| == MAX_LEN;
    ZeroPrefix(MAX_LEN, 4);
    SparseEncoding(LongKey(), None);
    RegroupTwo(Zeros(4), LongKey(), Zeros(15) + [0]);
  }

  lemma {:induction false} ShortEncoding()
    ensures Encoded(ShortContext())
            == Zeros(4) + (Zeros(15) + ([1] + (Zeros(12) + (BigEndian(MAX_LEN - 16, 4) + Zeros(MAX_LEN - 16)))))
  {
    SparseEncoding([], Some(PetTagBinding([], [], [], Zeros(MAX_LEN - 16))));
    TagEncoding(Zeros(MAX_LEN - 16));
    EmptyBlock();
  }

  /** Two different contexts with one encoding: the length of the ring key is cast to 32
      bits, and its bytes read as the fields behind it. */
  lemma {:induction false} LongFieldsCollide()
    ensures Encoded(LongContext()) == Encoded(ShortContext()) && LongContext() != ShortContext()
  {
    LongEncoding();
    ShortEncoding();
    ZerosEnd(MAX_LEN - 32, 15);
    Regroup(Zeros(15), [1], Zeros(12), BigEndian(MAX_LEN - 16, 4), Zeros(MAX_LEN - 32), Zeros(15) + [0]);
    assert |LongKey()| != 0;
  }

  // ---------------------------------------------------------------------------
  // The same for reader authorizations
  // ---------------------------------------------------------------------------

  lemma {:induction false} ZerosAreText(n: nat)
    ensures ValidUtf8(Zeros(n))
  {
    if n != 0 {
      ZerosAreText(n - 1);
      assert Zeros(n)[1..] == Zeros(n - 1);
    }
  }

  /** An authorization with nothing but a ring key, and perhaps an audit target. */
  function SparseReader(key: seq<byte>, audit: Option<Str>): ReaderAuthorizationContext {
    ReaderAuthorizationContext([], key, [], None, [], [], 0, 0, None, [], [], None, None, None, audit)
  }

  /** What follows the ring key: the issuer to the actor, the token, the request. */
  function EmptyIdentity(xs: seq<Item>): seq<Item> { [Put([])] + ([Maybe(None)] + ([Put([])] + xs)) }

  function EmptyToken(xs: seq<Item>): seq<Item> {
    [Put([])] + ([Plain(Word(0))] + ([Plain(Word(0))] + ([Maybe(None)] + ([Put([])] + xs))))
  }

  function EmptyRequest(xs: seq<Item>): seq<Item> {
    [Put([])] + ([Maybe(None)] + ([Maybe(None)] + ([Maybe(None)] + xs)))
  }

  lemma {:induction false} ZeroWidths()
    ensures EncodeItem(Put([])) == Zeros(4) && EncodeItem(Maybe(None)) == Zeros(1)
            && EncodeItem(Plain(Word(0))) == Zeros(8)
  {
    EmptyBlock();
    ZeroPrefix(0, 8);
  }

  lemma {:induction false} IdentityZeros(xs: seq<Item>, n: nat, x: seq<byte>)
    requires EncodeItems(xs) == Zeros(n) + x
    ensures EncodeItems(EmptyIdentity(xs)) == Zeros(9 + n) + x
  {
    var e, o := Put([]), Maybe(None);
    ZeroWidths();
    ZerosInFront(e, 4, xs, n, x);
    ZerosInFront(o, 1, [e] + xs, 4 + n, x);
    ZerosInFront(e, 4, [o] + ([e] + xs), 5 + n, x);
  }

  lemma {:induction false} TokenZeros(xs: seq<Item>, n: nat, x: seq<byte>)
    requires EncodeItems(xs) == Zeros(n) + x
    ensures EncodeItems(EmptyToken(xs)) == Zeros(25 + n) + x
  {
    var e, o, w := Put([]), Maybe(None), Plain(Word(0));
    ZeroWidths();
    ZerosInFront(e, 4, xs, n, x);
    ZerosInFront(o, 1, [e] + xs, 4 + n, x);
    ZerosInFront(w, 8, [o] + ([e] + xs), 5 + n, x);
    ZerosInFront(w, 8, [w] + ([o] + ([e] + xs)), 13 + n, x);
    ZerosInFront(e, 4, [w] + ([w] + ([o] + ([e] + xs))), 21 + n, x);
  }

  lemma {:induction false} RequestZeros(xs: seq<Item>, n: nat, x: seq<byte>)
    requires EncodeItems(xs) == Zeros(n) + x
    ensures EncodeItems(EmptyRequest(xs)) == Zeros(7 + n) + x
  {
    var e, o := Put([]), Maybe(None);
    ZeroWidths();
    ZerosInFront(o, 1, xs, n, x);
    ZerosInFront(o, 1, [o] + xs, 1 + n, x);
    ZerosInFront(o, 1, [o] + ([o] + xs), 2 + n, x);
    ZerosInFront(e, 4, [o] + ([o] + ([o] + xs)), 3 + n, x);
  }

  lemma {:induction false} SparseItems(key: seq<byte>, audit: Option<Str>)
    ensures ReaderItems(SparseReader(key, audit))
            == [Put([])] + ([Put(key)] + EmptyIdentity(EmptyToken(EmptyRequest([PutOpt(OptBytes(audit))]))))
  {
    var c, last := SparseReader(key, audit), [PutOpt(OptBytes(audit))];
    assert ReaderIdentity(c) == [Put([])] + ([Put(key)] + EmptyIdentity([]));
    assert ReaderToken(c) == EmptyToken([]);
    assert ReaderRequest(c) == EmptyRequest(last);
  }

  lemma {:induction false} SparseReaderEncoding(key: seq<byte>, audit: Option<Str>)
    ensures EncodedReader(SparseReader(key, audit))
            == Zeros(4) + (EncodeLeaf(Block(key)) + (Zeros(41) + EncodeItem(PutOpt(OptBytes(audit)))))
  {
    var last := PutOpt(OptBytes(audit));
    var x := EncodeItem(last);
    assert EncodeItems([last]) == Zeros(0) + x by {
      Appended([], last);
      assert [] + [last] == [last];
    }
    var request := EmptyRequest([last]);
    RequestZeros([last], 0, x);
    TokenZeros(request, 7, x);
    IdentityZeros(EmptyToken(request), 32, x);
    var rest := EmptyIdentity(EmptyToken(request));
    OneMore(Put(key), rest);
    OneMore(Put([]), [Put(key)] + rest);
    EmptyBlock();
    SparseItems(key, audit);
  }

  /** A ring key of 2^32 bytes that reads like the remaining fields of a short one. */
  function LongReaderKey(): (s: seq<byte>)
    ensures |s| == MAX_LEN
  {
    Zeros(41) + [1] + BigEndian(MAX_LEN - 4, 4) + Zeros(MAX_LEN - 46)
  }

  function LongReader(): ReaderAuthorizationContext { SparseReader(LongReaderKey(), None) }

  function ShortReader(): ReaderAuthorizationContext {
    ZerosAreText(MAX_LEN - 4);
    SparseReader([], Some(Zeros(MAX_LEN - 4)))
  }

  lemma {:induction false} LongReaderEncoding()
    ensures EncodedReader(LongReader()) == Zeros(4) + (Zeros(4) + (LongReaderKey() + (Zeros(41) + [0])))
  {
    Widths();
    ZeroPrefix(MAX_LEN, 4);
    SparseReaderEncoding(LongReaderKey(), None);
    RegroupTwo(Zeros(4), LongReaderKey(), Zeros(41) + [0]);
  }

  lemma {:induction false} ShortReaderEncoding()
    ensures EncodedReader(ShortReader())
            == Zeros(4) + (Zeros(4) + (Zeros(41) + ([1] + (BigEndian(MAX_LEN - 4, 4) + Zeros(MAX_LEN - 4)))))
  {
    ZerosAreText(MAX_LEN - 4);
    SparseReaderEncoding([], Some(Zeros(MAX_LEN - 4)));
    Single(Block(Zeros(MAX_LEN - 4)));
    EmptyBlock();
  }

  lemma {:induction false} RegroupFour<T>(s: seq<T>, a: seq<T>, b: seq<T>, c: seq<T>, d: seq<T>)
    ensures s + a + b + c + d == s + (a + (b + (c + d)))
  {
  }

  lemma {:induction false} LongReadersDiffer()
    ensures LongReader() != ShortReader()
  {
    assert |LongReader().ringPk| == MAX_LEN && |ShortReader().ringPk| == 0;
  }

  lemma {:induction false} LongReadersCollide()
    ensures EncodedReader(LongReader()) == EncodedReader(ShortReader()) && LongReader() != ShortReader()
  {
    LongReaderEncoding();
    ShortReaderEncoding();
    ZerosEnd(MAX_LEN - 46, 41);
    RegroupFour(Zeros(41), [1], BigEndian(MAX_LEN - 4, 4), Zeros(MAX_LEN - 46), Zeros(41) + [0]);
    LongReadersDiffer();
  }

  // ---------------------------------------------------------------------------
  // The exact bound
  // ---------------------------------------------------------------------------

  /** No two contexts with fields shorter than `n` share an encoding. */
  ghost predicate ContextsInjective(n: nat) {
    forall a: CiphertextContext, b: CiphertextContext ::
      Below(ContextItems(a), n) && Below(ContextItems(b), n) && Encoded(a) == Encoded(b) ==> a == b
  }

  /** Nor does one's encoding start with another's. */
  ghost predicate ContextsPrefixFree(n: nat) {
    forall a: CiphertextContext, b: CiphertextContext, p: seq<byte>, q: seq<byte> ::
      Below(ContextItems(a), n) && Below(ContextItems(b), n) && Encoded(a) + p == Encoded(b) + q ==> a == b && p == q
  }

  ghost predicate ReadersInjective(n: nat) {
    forall a: ReaderAuthorizationContext, b: ReaderAuthorizationContext ::
      Below(ReaderItems(a), n) && Below(ReaderItems(b), n) && EncodedReader(a) == EncodedReader(b) ==> a == b
  }

  ghost predicate ReadersPrefixFree(n: nat) {
    forall a: ReaderAuthorizationContext, b: ReaderAuthorizationContext, p: seq<byte>, q: seq<byte> ::
      Below(ReaderItems(a), n) && Below(ReaderItems(b), n) && EncodedReader(a) + p == EncodedReader(b) + q
      ==> a == b && p == q
  }

  lemma {:induction false} BelowFits(xs: seq<Item>, n: nat)
    requires Below(xs, n) && n <= MAX_LEN
    ensures Fits(xs)
  {
    forall i | 0 <= i < |xs| ensures ItemFits(xs[i]) { assert ItemBelow(xs[i], n); }
  }

  lemma {:induction false} CollidingBelow(n: nat)
    requires n > MAX_LEN
    ensures Below(ContextItems(LongContext()), n) && Below(ContextItems(ShortContext()), n)
  {
    Widths();
    assert |LongKey()| == MAX_LEN;
    forall i | 0 <= i < 8 ensures ItemBelow(ContextItems(LongContext())[i], n) {}
    forall i | 0 <= i < 8 ensures ItemBelow(ContextItems(ShortContext())[i], n) {}
  }

  lemma {:induction false} CollidingReadersBelow(n: nat)
    requires n > MAX_LEN
    ensures Below(ReaderItems(LongReader()), n) && Below(ReaderItems(ShortReader()), n)
  {
    SparseBelow(LongReaderKey(), None, n);
    ZerosAreText(MAX_LEN - 4);
    SparseBelow([], Some(Zeros(MAX_LEN - 4)), n);
  }

  lemma {:induction false} SparseBelow(key: seq<byte>, audit: Option<Str>, n: nat)
    requires |key| < n && (audit.Some? ==> |audit.value| < n)
    ensures Below(ReaderItems(SparseReader(key, audit)), n)
  {
    BelowParts(SparseReader(key, audit), n);
  }

  lemma {:induction false} BelowParts(c: ReaderAuthorizationContext, n: nat)
    ensures Below(ReaderItems(c), n) <==>
              Below(ReaderIdentity(c), n) && Below(ReaderToken(c), n) && Below(ReaderRequest(c), n)
  {
    var x, y, z := ReaderIdentity(c), ReaderToken(c), ReaderRequest(c);
    assert forall i :: 0 <= i < |x| ==> ReaderItems(c)[i] == x[i];
    assert forall i :: 0 <= i < |y| ==> ReaderItems(c)[|x| + i] == y[i];
    assert forall i :: 0 <= i < |z| ==> ReaderItems(c)[|x| + |y| + i] == z[i];
  }

  /** The documented claim about contexts holds for fields below a bound exactly when the
      bound is at most 2^32. */
  lemma {:induction false} ContextsInjectiveIff(n: nat)
    ensures ContextsInjective(n) <==> n <= MAX_LEN
    ensures ContextsPrefixFree(n) <==> n <= MAX_LEN
  {
    if n <= MAX_LEN {
      forall a: CiphertextContext, b: CiphertextContext, p: seq<byte>, q: seq<byte>
        | Below(ContextItems(a), n) && Below(ContextItems(b), n) && Encoded(a) + p == Encoded(b) + q
        ensures a == b && p == q
      {
        BelowFits(ContextItems(a), n);
        BelowFits(ContextItems(b), n);
        ContextPrefixFree(a, b, p, q);
      }
      PrefixFreeInjective(n);
    } else {
      LongFieldsCollide();
      CollidingBelow(n);
      assert Encoded(LongContext()) + [] == Encoded(ShortContext()) + [];
    }
  }

  lemma {:induction false} PrefixFreeInjective(n: nat)
    requires ContextsPrefixFree(n)
    ensures ContextsInjective(n)
  {
    forall a: CiphertextContext, b: CiphertextContext
      | Below(ContextItems(a), n) && Below(ContextItems(b), n) && Encoded(a) == Encoded(b)
      ensures a == b
    {
      assert Encoded(a) + [] == Encoded(b) + [];
    }
  }

  /** And about reader authorizations. */
  lemma {:induction false} ReadersInjectiveIff(n: nat)
    ensures ReadersInjective(n) <==> n <= MAX_LEN
    ensures ReadersPrefixFree(n) <==> n <= MAX_LEN
  {
    if n <= MAX_LEN {
      forall a: ReaderAuthorizationContext, b: ReaderAuthorizationContext, p: seq<byte>, q: seq<byte>
        | Below(ReaderItems(a), n) && Below(ReaderItems(b), n) && EncodedReader(a) + p == EncodedReader(b) + q
        ensures a == b && p == q
      {
        BelowFits(ReaderItems(a), n);
        BelowFits(ReaderItems(b), n);
        ReaderPrefixFree(a, b, p, q);
      }
      ReaderPrefixFreeInjective(n);
    } else {
      LongReadersCollide();
      CollidingReadersBelow(n);
      assert EncodedReader(LongReader()) + [] == EncodedReader(ShortReader()) + [];
    }
  }

  lemma {:induction false} ReaderPrefixFreeInjective(n: nat)
    requires ReadersPrefixFree(n)
    ensures ReadersInjective(n)
  {
    forall a: ReaderAuthorizationContext, b: ReaderAuthorizationContext
      | Below(ReaderItems(a), n) && Below(ReaderItems(b), n) && EncodedReader(a) == EncodedReader(b)
      ensures a == b
    {
      assert EncodedReader(a) + [] == EncodedReader(b) + [];
    }
  }

  // ---------------------------------------------------------------------------
  // What the digests hash
  // ---------------------------------------------------------------------------

  function Ascii(s: string): (b: seq<byte>)
    ensures |b| == |s|
  {
    seq(|s|, i requires 0 <= i < |s| => s[i] as int % 256)
  }

  const CONTEXT_DIGEST_DOMAIN := Ascii("orbis-context-v1")
  const CIPHERTEXT_DIGEST_DOMAIN := Ascii("orbis-ciphertext-v1")
  const READER_AUTHORIZATION_CONTEXT_DIGEST_DOMAIN := Ascii("orbis-reader-authorization-context-v1")
  const TAG_PROOF_DIGEST_DOMAIN := Ascii("orbis-pet-tag-proof-v1")

  function ContextPreimage(c: CiphertextContext, encCmt: seq<byte>): seq<byte> {
    CONTEXT_DIGEST_DOMAIN + (Encoded(c) + EncodeLeaf(Block(encCmt)))
  }

  function CiphertextPreimage(nonce: seq<byte>, data: seq<byte>): seq<byte> {
    CIPHERTEXT_DIGEST_DOMAIN + (nonce + data)
  }

  function ReaderPreimage(c: ReaderAuthorizationContext): seq<byte> {
    READER_AUTHORIZATION_CONTEXT_DIGEST_DOMAIN + EncodedReader(c)
  }

  /** The tag ciphertext, the ring, the payload's context, secret and proof. */
  datatype TagInput = TagInput(
    ephemeralPoint: seq<byte>,
    maskedFingerprint: seq<byte>,
    petPk: seq<byte>,
    ringId: Str,
    context: CiphertextContext,
    encCmt: seq<byte>,
    nonce: seq<byte>,
    encryptedData: seq<byte>,
    challenge: seq<byte>,
    response: seq<byte>)

  function TagFront(t: TagInput): seq<Item> {
    [Put(t.ephemeralPoint), Put(t.maskedFingerprint), Put(t.petPk), Put(t.ringId)]
  }

  function TagBack(t: TagInput): seq<Item> {
    [Put(t.encCmt), Put(t.nonce), Put(t.encryptedData), Put(t.challenge), Put(t.response)]
  }

  function TagPreimage(t: TagInput): seq<byte> {
    TAG_PROOF_DIGEST_DOMAIN
        + (EncodeItems(TagFront(t)) + (EncodeLeaf(Block(Encoded(t.context))) + EncodeItems(TagBack(t))))
  }

  lemma {:induction false} TagShape(t: TagInput)
    ensures TagPreimage(t)
            == TAG_PROOF_DIGEST_DOMAIN + EncodeItems(TagFront(t) + [Put(Encoded(t.context))] + TagBack(t))
  {
    ThreeParts(TagFront(t), Put(Encoded(t.context)), TagBack(t));
  }

  lemma {:induction false} ThreeParts(f: seq<Item>, m: Item, b: seq<Item>)
    ensures EncodeItems(f + [m] + b) == EncodeItems(f) + (EncodeItem(m) + EncodeItems(b))
  {
    Appended(f, m);
    EncodeAppend(f + [m], b);
    RegroupTwo(EncodeItems(f), EncodeItem(m), EncodeItems(b));
  }

  method TagProofInput(t: TagInput) returns (hashed: seq<byte>)
    ensures hashed == TagPreimage(t)
  {
    var w := new Writer();
    WriteFront(w, t);
    var encoded := CanonicalEncode(t.context);
    w.PutBytes(encoded);
    WriteBack(w, t);
    TagShape(t);
    assert w.written == TagFront(t) + [Put(encoded)] + TagBack(t);
    return TAG_PROOF_DIGEST_DOMAIN + w.out;
  }

  method WriteFront(w: Writer, t: TagInput)
    requires w.Valid()
    modifies w
    ensures w.Valid() && w.written == old(w.written) + TagFront(t)
  {
    w.PutBytes(t.ephemeralPoint);
    w.PutBytes(t.maskedFingerprint);
    w.PutBytes(t.petPk);
    w.PutBytes(t.ringId);
  }

  method WriteBack(w: Writer, t: TagInput)
    requires w.Valid()
    modifies w
    ensures w.Valid() && w.written == old(w.written) + TagBack(t)
  {
    w.PutBytes(t.encCmt);
    w.PutBytes(t.nonce);
    w.PutBytes(t.encryptedData);
    w.PutBytes(t.challenge);
    w.PutBytes(t.response);
  }

  lemma {:induction false} Sliced(p: seq<byte>, a: seq<byte>, b: seq<byte>, n: nat)
    requires |p| == n
    ensures var s := p + (a + b);
            |s| == n + |a| + |b| && s[..n] == p && s[n..n + |a|] == a && s[n + |a|..] == b
  {
  }

  /** What is hashed, by position: the domain, the canonical encoding, and the commitment
      as a block. */
  lemma {:induction false} ContextDigestLayout(c: CiphertextContext, encCmt: seq<byte>)
    ensures var p, n := ContextPreimage(c, encCmt), 16 + |Encoded(c)|;
            && |p| == n + 4 + |encCmt| && p[..16] == Ascii("orbis-context-v1")
            && p[16..n] == Encoded(c) && p[n..] == EncodeItem(Put(encCmt))
  {
    Sliced(CONTEXT_DIGEST_DOMAIN, Encoded(c), EncodeItem(Put(encCmt)), 16);
  }

  /** The nonce and the data, one after the other. */
  lemma {:induction false} CiphertextDigestLayout(nonce: seq<byte>, data: seq<byte>)
    ensures var p, n := CiphertextPreimage(nonce, data), 19 + |nonce|;
            |p| == n + |data| && p[..19] == Ascii("orbis-ciphertext-v1") && p[19..n] == nonce && p[n..] == data
  {
    Sliced(CIPHERTEXT_DIGEST_DOMAIN, nonce, data, 19);
  }

  lemma {:induction false} ReaderDigestLayout(r: ReaderAuthorizationContext)
    ensures var p := ReaderPreimage(r);
            && |p| == 37 + |EncodedReader(r)| && p[..37] == Ascii("orbis-reader-authorization-context-v1")
            && p[37..] == EncodedReader(r)
  {
    Sliced(READER_AUTHORIZATION_CONTEXT_DIGEST_DOMAIN, EncodedReader(r), [], 37);
    assert EncodedReader(r) + [] == EncodedReader(r);
  }

  /** The tag proof's digest: ten blocks behind its domain, the context encoded as one. */
  lemma {:induction false} TagLayout(t: TagInput)
    ensures TagPreimage(t)
            == Ascii("orbis-pet-tag-proof-v1")
               + ((EncodeItem(Put(t.ephemeralPoint)) + (EncodeItem(Put(t.maskedFingerprint))
                   + (EncodeItem(Put(t.petPk)) + EncodeItem(Put(t.ringId)))))
                  + (EncodeItem(Put(Encoded(t.context)))
                     + (EncodeItem(Put(t.encCmt)) + (EncodeItem(Put(t.nonce)) + (EncodeItem(Put(t.encryptedData))
                        + (EncodeItem(Put(t.challenge)) + EncodeItem(Put(t.response))))))))
  {
    FourItems(Put(t.ephemeralPoint), Put(t.maskedFingerprint), Put(t.petPk), Put(t.ringId));
    FiveItems(Put(t.encCmt), Put(t.nonce), Put(t.encryptedData), Put(t.challenge), Put(t.response));
  }

  lemma {:induction false} SkipPrefix(p: seq<byte>, q: seq<byte>, a: seq<byte>, b: seq<byte>)
    requires |p| == |q| && p + a == q + b
    ensures p == q && a == b
  {
    assert (p + a)[..|p|] == p && (q + b)[..|p|] == q;
    assert (p + a)[|p|..] == a && (q + b)[|p|..] == b;
  }

  lemma {:induction false} ContextPreimageInjective(
      a: CiphertextContext, u: seq<byte>, b: CiphertextContext, v: seq<byte>)
    requires ContextFits(a) && ContextFits(b) && ContextPreimage(a, u) == ContextPreimage(b, v)
    ensures a == b && u == v
  {
    var p, q := EncodeLeaf(Block(u)), EncodeLeaf(Block(v));
    SkipPrefix(CONTEXT_DIGEST_DOMAIN, CONTEXT_DIGEST_DOMAIN, Encoded(a) + p, Encoded(b) + q);
    ContextPrefixFree(a, b, p, q);
    SkipPrefix(BigEndian(|u|, 4), BigEndian(|v|, 4), u, v);
  }

  lemma {:induction false} ReaderPreimageInjective(a: ReaderAuthorizationContext, b: ReaderAuthorizationContext)
    requires ReaderFits(a) && ReaderFits(b) && ReaderPreimage(a) == ReaderPreimage(b)
    ensures a == b
  {
    var d := READER_AUTHORIZATION_CONTEXT_DIGEST_DOMAIN;
    SkipPrefix(d, d, EncodedReader(a), EncodedReader(b));
    assert EncodedReader(a) + [] == EncodedReader(b) + [];
    ReaderPrefixFree(a, b, [], []);
  }

  /** The nonce is not delimited: a ciphertext digest determines the pair exactly when
      the nonce length is known. */
  lemma {:induction false} CiphertextPreimageInjective(n: seq<byte>, d: seq<byte>, n': seq<byte>, d': seq<byte>)
    requires CiphertextPreimage(n, d) == CiphertextPreimage(n', d')
    ensures |n| == |n'| <==> n == n' && d == d'
  {
    SkipPrefix(CIPHERTEXT_DIGEST_DOMAIN, CIPHERTEXT_DIGEST_DOMAIN, n + d, n' + d');
    if |n| == |n'| { SkipPrefix(n, n', d, d'); }
  }

  lemma {:induction false} NonceIsNotDelimited(n: seq<byte>, d: seq<byte>)
    requires d != []
    ensures CiphertextPreimage(n, d) == CiphertextPreimage(n + [d[0]], d[1..])
  {
    assert n + d == n + [d[0]] + d[1..];
  }

  predicate TagFits(t: TagInput) { Fits(TagFront(t)) && Fits(TagBack(t)) && ContextFits(t.context) }

  /** The nested context encoding may itself be longer than its 32-bit length prefix can
      say; the digest still determines every input, because the encoding delimits itself. */
  lemma {:induction false} TagPreimageInjective(a: TagInput, b: TagInput)
    requires TagFits(a) && TagFits(b) && TagPreimage(a) == TagPreimage(b)
    ensures a == b
  {
    var x, y := Encoded(a.context), Encoded(b.context);
    var r, s := EncodeItems(TagBack(a)), EncodeItems(TagBack(b));
    var p, q := EncodeLeaf(Block(x)) + r, EncodeLeaf(Block(y)) + s;
    SkipPrefix(TAG_PROOF_DIGEST_DOMAIN, TAG_PROOF_DIGEST_DOMAIN, EncodeItems(TagFront(a)) + p,
               EncodeItems(TagFront(b)) + q);
    SameBlocks(TagFront(a), TagFront(b), p, q);
    PrefixSkipped(x, y, r, s);
    ContextPrefixFree(a.context, b.context, r, s);
    assert r + [] == s + [];
    SameBlocks(TagBack(a), TagBack(b), [], []);
    SameTagInput(a, b);
  }

  lemma {:induction false} PrefixSkipped(x: seq<byte>, y: seq<byte>, r: seq<byte>, s: seq<byte>)
    requires EncodeLeaf(Block(x)) + r == EncodeLeaf(Block(y)) + s
    ensures x + r == y + s
  {
    RegroupTwo(BigEndian(|x|, 4), x, r);
    RegroupTwo(BigEndian(|y|, 4), y, s);
    SkipPrefix(BigEndian(|x|, 4), BigEndian(|y|, 4), x + r, y + s);
  }

  lemma {:induction false} SameTagInput(a: TagInput, b: TagInput)
    requires TagFront(a) == TagFront(b) && a.context == b.context && TagBack(a) == TagBack(b)
    ensures a == b
  {
    var f, g := TagFront(a), TagFront(b);
    assert f[0] == g[0] && f[1] == g[1] && f[2] == g[2] && f[3] == g[3];
    f, g := TagBack(a), TagBack(b);
    assert f[0] == g[0] && f[1] == g[1] && f[2] == g[2] && f[3] == g[3] && f[4] == g[4];
  }

  predicate AllBlocks(xs: seq<Item>) { forall i :: 0 <= i < |xs| ==> xs[i].Plain? && xs[i].leaf.Block? }

  lemma {:induction false} SameBlocks(xs: seq<Item>, ys: seq<Item>, p: seq<byte>, q: seq<byte>)
    requires |xs| == |ys| && AllBlocks(xs) && AllBlocks(ys) && Fits(xs) && Fits(ys)
    requires EncodeItems(xs) + p == EncodeItems(ys) + q
    ensures xs == ys && p == q
  {
    PrefixFree(xs, ys, seq(|xs|, i => Always(ABlock)), p, q);
  }

  lemma {:induction false} Differ(p: seq<byte>, a: seq<byte>, q: seq<byte>, b: seq<byte>, i: nat)
    requires i < |p| && i < |q| && p[i] != q[i]
    ensures p + a != q + b
  {
    assert (p + a)[i] == p[i] && (q + b)[i] == q[i];
  }

  /** No input of one digest is an input of another: every two domains differ within
      their first eight bytes. */
  lemma {:induction false} DomainsSeparate(a: seq<byte>, b: seq<byte>)
    ensures CONTEXT_DIGEST_DOMAIN + a != CIPHERTEXT_DIGEST_DOMAIN + b
    ensures CONTEXT_DIGEST_DOMAIN + a != READER_AUTHORIZATION_CONTEXT_DIGEST_DOMAIN + b
    ensures CONTEXT_DIGEST_DOMAIN + a != TAG_PROOF_DIGEST_DOMAIN + b
    ensures CIPHERTEXT_DIGEST_DOMAIN + a != READER_AUTHORIZATION_CONTEXT_DIGEST_DOMAIN + b
    ensures CIPHERTEXT_DIGEST_DOMAIN + a != TAG_PROOF_DIGEST_DOMAIN + b
    ensures READER_AUTHORIZATION_CONTEXT_DIGEST_DOMAIN + a != TAG_PROOF_DIGEST_DOMAIN + b
  {
    var w, x, y, z :=
      CONTEXT_DIGEST_DOMAIN, CIPHERTEXT_DIGEST_DOMAIN, READER_AUTHORIZATION_CONTEXT_DIGEST_DOMAIN,
      TAG_PROOF_DIGEST_DOMAIN;
    Differ(w, a, x, b, 7);
    Differ(w, a, y, b, 6);
    Differ(w, a, z, b, 6);
    Differ(x, a, y, b, 6);
    Differ(x, a, z, b, 6);
    Differ(y, a, z, b, 6);
  }
}
