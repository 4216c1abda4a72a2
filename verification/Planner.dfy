/** The experiment planner: ring cases packed into stacks of bounded size, or one stack
    per case and profile for a capacity sweep. */
module Planner {
  import opened Chunking
  import MetricLabels
  import opened Options

  const MAX_LOCAL_RINGS_PER_NODE: nat := 256

  const SCHEMA_VERSION: nat := 1

  /** The scheduler's early-due grace window. */
  const PSS_GRACE_PERIOD_SECS: nat := 10

  datatype CryptoFeature = Bls12_381 | Jubjub

  datatype Operation = OpDkg | OpPre | OpPet | OpSign | OpPssRefresh | OpPssReshare

  datatype ExecutionBackend = Docker | InProcess

  /** A floating-point number: its value, or an infinity or not a number. */
  datatype Float = Finite(value: real) | NotFinite

  datatype RingCase = RingCase(ringSize: nat, threshold: nat)

  datatype NetworkProfile = NetworkProfile(
    name: string, lan: bool, delayMs: Float, jitterMs: Float, lossPercent: Float)

  datatype NetworkGroup = NetworkGroup(networkSize: nat, cases: seq<RingCase>)

  datatype Timeouts = Timeouts(
    setupSecs: nat, dkgSecs: nat, preSecs: nat, signSecs: nat, pssRefreshSecs: nat, petSecs: nat)

  datatype Experiment = Experiment(
    schemaVersion: nat,
    name: string,
    crypto: CryptoFeature,
    networks: seq<NetworkGroup>,
    operations: set<Operation>,
    profiles: seq<NetworkProfile>,
    repetitions: nat,
    warmups: nat,
    concurrency: seq<nat>,
    loadWarmupSecs: nat,
    loadMeasureSecs: nat,
    timeouts: Timeouts,
    cpusPerNode: Option<Float>,
    memoryPerNode: Option<string>,
    veraReplicas: nat,
    setupBatchSize: nat,
    pssIntervalSecs: nat,
    pssPollIntervalSecs: nat,
    reshareOverlap: Option<nat>,
    backend: ExecutionBackend)

  datatype StackPlan = StackPlan(networkSize: nat, profile: NetworkProfile, cases: seq<RingCase>,
                                 maximumLocalRings: nat)

  datatype ExperimentPlan = ExperimentPlan(stacks: seq<StackPlan>, ringsPerCase: nat, serialTrials: nat,
                                           estimatedMinimumSecs: nat)

  function Flag(b: bool): nat { if b then 1 else 0 }

  function RingsPerCase(e: Experiment): nat {
    var each := e.warmups + e.repetitions;
    (if OpDkg in e.operations then each else 0)
    + Flag(OpPre in e.operations || OpSign in e.operations)
    + Flag(OpPet in e.operations)
    + Flag(OpPssRefresh in e.operations)
    + (if OpPssReshare in e.operations then each else 0)
  }

  predicate Blank(s: string) { forall i :: 0 <= i < |s| ==> MetricLabels.White(s[i]) }

  predicate SoundGeneral(e: Experiment, compiled: CryptoFeature) {
    && e.schemaVersion == SCHEMA_VERSION && e.crypto == compiled && !Blank(e.name)
    && e.networks != [] && e.profiles != [] && e.operations != {} && e.repetitions != 0
    && e.setupBatchSize != 0 && e.veraReplicas != 0 && e.loadMeasureSecs != 0
    && e.timeouts.setupSecs != 0 && e.timeouts.dkgSecs != 0 && e.timeouts.preSecs != 0
    && e.timeouts.signSecs != 0 && e.timeouts.pssRefreshSecs != 0 && e.timeouts.petSecs != 0
    && e.pssPollIntervalSecs != 0
    && (OpPssRefresh in e.operations ==> e.pssIntervalSecs > PSS_GRACE_PERIOD_SECS)
    && (OpPssReshare in e.operations ==> e.reshareOverlap.Some?)
    && RingsPerCase(e) <= MAX_LOCAL_RINGS_PER_NODE
    && (e.cpusPerNode.Some? ==> e.cpusPerNode.value.Finite? && e.cpusPerNode.value.value > 0.0)
    && (e.memoryPerNode.Some? ==> !Blank(e.memoryPerNode.value))
  }

  predicate SoundProfile(p: NetworkProfile) {
    && !Blank(p.name) && p.delayMs.Finite? && p.jitterMs.Finite? && p.lossPercent.Finite?
    && p.delayMs.value >= 0.0 && p.jitterMs.value >= 0.0 && 0.0 <= p.lossPercent.value <= 100.0
    && (p.lan ==> p.delayMs.value == 0.0 && p.jitterMs.value == 0.0 && p.lossPercent.value == 0.0)
  }

  predicate SoundProfiles(ps: seq<NetworkProfile>) {
    && (forall i :: 0 <= i < |ps| ==> SoundProfile(ps[i]))
    && forall i, j :: 0 <= i < j < |ps| ==> ps[i].name != ps[j].name
  }

  /** Old and new committee of a reshare together fit the network. */
  predicate SoundCase(e: Experiment, networkSize: nat, c: RingCase) {
    && 1 <= c.ringSize <= networkSize && 1 <= c.threshold <= c.ringSize
    && (OpPssReshare in e.operations && e.reshareOverlap.Some? ==>
          e.reshareOverlap.value <= c.ringSize && 2 * c.ringSize - e.reshareOverlap.value <= networkSize)
  }

  predicate SoundGroup(e: Experiment, g: NetworkGroup) {
    && g.networkSize != 0 && g.cases != [] && e.veraReplicas <= g.networkSize
    && forall i :: 0 <= i < |g.cases| ==> SoundCase(e, g.networkSize, g.cases[i])
  }

  predicate SoundLoad(e: Experiment) {
    && (OpPre in e.operations || OpSign in e.operations || OpPet in e.operations ==> e.concurrency != [])
    && (forall i :: 0 <= i < |e.concurrency| ==> e.concurrency[i] != 0)
    && (e.backend.InProcess? ==> OpPssReshare !in e.operations)
    && (e.backend.Docker? ==> OpPet !in e.operations)
  }

  /** Every rule of `validate`, for a binary compiled with one of the curves. */
  predicate Validated(e: Experiment, compiled: CryptoFeature) {
    && SoundGeneral(e, compiled) && SoundProfiles(e.profiles) && SoundLoad(e)
    && forall g :: 0 <= g < |e.networks| ==> SoundGroup(e, e.networks[g])
  }

  /** Every validated experiment needs a ring: a case always takes a slot. */
  lemma {:induction false} SomeRing(e: Experiment)
    requires e.operations != {} && e.repetitions != 0
    ensures RingsPerCase(e) >= 1
  {
    var o :| o in e.operations;
    match o { case OpDkg => case OpPre => case OpPet => case OpSign => case OpPssRefresh => case OpPssReshare => }
  }

  // ---------------------------------------------------------------------------
  // Splitting the cases of one group
  // ---------------------------------------------------------------------------

  /** A split of the cases, in order, into nonempty stacks that fit a node. */
  ghost predicate Split<T>(cases: seq<T>, bs: seq<seq<T>>, slots: nat) {
    && Flatten(bs) == cases
    && forall b :: 0 <= b < |bs| ==> bs[b] != [] && |bs[b]| * slots <= MAX_LOCAL_RINGS_PER_NODE
  }

  function Capacity(slots: nat): (m: nat)
    requires 1 <= slots <= MAX_LOCAL_RINGS_PER_NODE
    ensures m >= 1
  {
    MAX_LOCAL_RINGS_PER_NODE / slots
  }

  lemma {:induction false} CapacityExact(slots: nat, k: nat)
    requires 1 <= slots <= MAX_LOCAL_RINGS_PER_NODE
    ensures k * slots <= MAX_LOCAL_RINGS_PER_NODE <==> k <= Capacity(slots)
  {
    var m, n := Capacity(slots), MAX_LOCAL_RINGS_PER_NODE;
    assert m * slots <= n < m * slots + slots;
    if k <= m {
      assert k * slots <= m * slots;
    } else {
      assert k * slots >= (m + 1) * slots == m * slots + slots;
    }
  }

  lemma {:induction false} ChunksSplit<T>(cases: seq<T>, slots: nat)
    requires 1 <= slots <= MAX_LOCAL_RINGS_PER_NODE
    ensures Split(cases, Chunks(cases, Capacity(slots)), slots)
  {
    var bs := Chunks(cases, Capacity(slots));
    forall b | 0 <= b < |bs| ensures |bs[b]| * slots <= MAX_LOCAL_RINGS_PER_NODE { CapacityExact(slots, |bs[b]|); }
  }

  lemma {:induction false} SplitHolds<T>(cases: seq<T>, bs: seq<seq<T>>, slots: nat)
    requires 1 <= slots <= MAX_LOCAL_RINGS_PER_NODE && Split(cases, bs, slots)
    ensures |cases| <= |bs| * Capacity(slots)
    decreases |bs|
  {
    var m := Capacity(slots);
    if bs != [] {
      assert Split(Flatten(bs[1..]), bs[1..], slots);
      SplitHolds(Flatten(bs[1..]), bs[1..], slots);
      CapacityExact(slots, |bs[0]|);
      assert |bs| * m == (|bs| - 1) * m + m;
    }
  }

  /** No split of the cases uses fewer stacks. */
  lemma {:induction false} FewestStacks<T>(cases: seq<T>, slots: nat, bs: seq<seq<T>>)
    requires 1 <= slots <= MAX_LOCAL_RINGS_PER_NODE && Split(cases, bs, slots)
    ensures |Chunks(cases, Capacity(slots))| <= |bs|
  {
    if cases != [] {
      var m, k := Capacity(slots), |Chunks(cases, Capacity(slots))|;
      ChunksFull(cases, m);
      SplitHolds(cases, bs, slots);
      MoreThan(k - 1, |bs|, m);
    }
  }

  lemma {:induction false} MoreThan(a: nat, b: nat, m: nat)
    requires a * m < b * m
    ensures a < b
  {
    if a >= b { Monotone(b, a, m); }
  }

  lemma {:induction false} Monotone(a: nat, b: nat, m: nat)
    requires a <= b
    ensures a * m <= b * m
  {
  }

  // ---------------------------------------------------------------------------
  // Planning
  // ---------------------------------------------------------------------------

  /** The stacks of one group under one profile. */
  function Stacked(size: nat, profile: NetworkProfile, bs: seq<seq<RingCase>>, slots: nat): (r: seq<StackPlan>)
    ensures |r| == |bs|
  {
    seq(|bs|, i requires 0 <= i < |bs| => StackPlan(size, profile, bs[i], |bs[i]| * slots))
  }

  function ForProfiles(g: NetworkGroup, profiles: seq<NetworkProfile>, slots: nat): seq<StackPlan>
    requires 1 <= slots <= MAX_LOCAL_RINGS_PER_NODE
  {
    if profiles == [] then [] else
    ForProfiles(g, profiles[..|profiles| - 1], slots)
    + Stacked(g.networkSize, profiles[|profiles| - 1], Chunks(g.cases, Capacity(slots)), slots)
  }

  function ForGroups(groups: seq<NetworkGroup>, profiles: seq<NetworkProfile>, slots: nat): seq<StackPlan>
    requires 1 <= slots <= MAX_LOCAL_RINGS_PER_NODE
  {
    if groups == [] then [] else
    ForGroups(groups[..|groups| - 1], profiles, slots) + ForProfiles(groups[|groups| - 1], profiles, slots)
  }

  lemma {:induction false} FullBatch<T>(batch: seq<T>, rest: seq<T>, m: nat)
    requires m >= 1 && |batch| == m && rest != []
    ensures Chunks(batch + rest, m) == [batch] + Chunks(rest, m)
  {
    assert (batch + rest)[..m] == batch && (batch + rest)[m..] == rest;
  }

  /** The batches still to come from case `i`, with `batch` open. */
  function Packed<T>(cases: seq<T>, i: nat, batch: seq<T>, m: nat): seq<seq<T>>
    requires i <= |cases|
    decreases |cases| - i
  {
    if i == |cases| then (if batch == [] then [] else [batch])
    else if batch != [] && |batch| >= m then [batch] + Packed(cases, i + 1, [cases[i]], m)
    else Packed(cases, i + 1, batch + [cases[i]], m)
  }

  lemma {:induction false} PackedIsChunks<T>(cases: seq<T>, i: nat, batch: seq<T>, m: nat)
    requires i <= |cases| && |batch| <= m && m >= 1
    ensures Packed(cases, i, batch, m) == Chunks(batch + cases[i..], m)
    decreases |cases| - i
  {
    if i == |cases| {
      assert batch + cases[i..] == batch;
    } else if batch != [] && |batch| >= m {
      PackedIsChunks(cases, i + 1, [cases[i]], m);
      FullBatch(batch, cases[i..], m);
      TakeOne([], cases, i);
      assert [] + [cases[i]] + cases[i + 1..] == [cases[i]] + cases[i + 1..] && [] + cases[i..] == cases[i..];
    } else {
      PackedIsChunks(cases, i + 1, batch + [cases[i]], m);
      TakeOne(batch, cases, i);
    }
  }

  lemma {:induction false} TakeOne<T>(batch: seq<T>, cases: seq<T>, i: nat)
    requires i < |cases|
    ensures batch + [cases[i]] + cases[i + 1..] == batch + cases[i..]
  {
  }

  lemma {:induction false} Room(n: nat, rings: nat, slots: nat)
    requires 1 <= slots <= MAX_LOCAL_RINGS_PER_NODE && rings == n * slots
    ensures rings + slots > MAX_LOCAL_RINGS_PER_NODE <==> n >= Capacity(slots)
    ensures (n + 1) * slots == rings + slots
  {
    CapacityExact(slots, n + 1);
  }

  lemma {:induction false} StackedFirst(
      size: nat, profile: NetworkProfile, b: seq<RingCase>, bs: seq<seq<RingCase>>, slots: nat)
    ensures Stacked(size, profile, [b] + bs, slots)
            == [StackPlan(size, profile, b, |b| * slots)] + Stacked(size, profile, bs, slots)
  {
  }

  /** What the packing loop still outputs from case `i`. */
  function Output(
      g: NetworkGroup, profile: NetworkProfile, i: nat, batch: seq<RingCase>, rings: nat, slots: nat): seq<StackPlan>
    requires i <= |g.cases|
    decreases |g.cases| - i
  {
    var plan := StackPlan(g.networkSize, profile, batch, rings);
    if i == |g.cases| then (if batch == [] then [] else [plan])
    else if batch != [] && rings + slots > MAX_LOCAL_RINGS_PER_NODE
    then [plan] + Output(g, profile, i + 1, [g.cases[i]], slots, slots)
    else Output(g, profile, i + 1, batch + [g.cases[i]], rings + slots, slots)
  }

  lemma {:induction false} OutputIsPacked(
      g: NetworkGroup, profile: NetworkProfile, i: nat, batch: seq<RingCase>, rings: nat, slots: nat)
    requires i <= |g.cases| && 1 <= slots <= MAX_LOCAL_RINGS_PER_NODE && rings == |batch| * slots
    ensures Output(g, profile, i, batch, rings, slots)
            == Stacked(g.networkSize, profile, Packed(g.cases, i, batch, Capacity(slots)), slots)
    decreases |g.cases| - i
  {
    var m := Capacity(slots);
    if i == |g.cases| {
    } else {
      Room(|batch|, rings, slots);
      if batch != [] && |batch| >= m {
        Room(0, 0, slots);
        OutputIsPacked(g, profile, i + 1, [g.cases[i]], slots, slots);
        StackedFirst(g.networkSize, profile, batch, Packed(g.cases, i + 1, [g.cases[i]], m), slots);
      } else {
        OutputIsPacked(g, profile, i + 1, batch + [g.cases[i]], rings + slots, slots);
      }
    }
  }

  lemma {:induction false} OutputIsChunks(g: NetworkGroup, profile: NetworkProfile, slots: nat)
    requires 1 <= slots <= MAX_LOCAL_RINGS_PER_NODE
    ensures Output(g, profile, 0, [], 0, slots)
            == Stacked(g.networkSize, profile, Chunks(g.cases, Capacity(slots)), slots)
  {
    OutputIsPacked(g, profile, 0, [], 0, slots);
    PackedIsChunks(g.cases, 0, [], Capacity(slots));
    assert [] + g.cases[0..] == g.cases;
  }

  /** The packing loop for one group and profile. */
  method PackCases(g: NetworkGroup, profile: NetworkProfile, slots: nat) returns (stacks: seq<StackPlan>)
    requires 1 <= slots <= MAX_LOCAL_RINGS_PER_NODE
    ensures stacks == Stacked(g.networkSize, profile, Chunks(g.cases, Capacity(slots)), slots)
  {
    stacks := [];
    var batch: seq<RingCase> := [];
    var batchRings := 0;
    var i := 0;
    ghost var all := Output(g, profile, 0, [], 0, slots);
    while i < |g.cases|
      invariant 0 <= i <= |g.cases|
      invariant all == stacks + Output(g, profile, i, batch, batchRings, slots)
    {
      if batch != [] && batchRings + slots > MAX_LOCAL_RINGS_PER_NODE {
        stacks := stacks + [StackPlan(g.networkSize, profile, batch, batchRings)];
        batch, batchRings := [], 0;
        assert [] + [g.cases[i]] == [g.cases[i]];
      }
      batch := batch + [g.cases[i]];
      batchRings := batchRings + slots;
      i := i + 1;
    }
    if batch != [] {
      stacks := stacks + [StackPlan(g.networkSize, profile, batch, batchRings)];
    }
    OutputIsChunks(g, profile, slots);
  }

  method PackGroup(g: NetworkGroup, profiles: seq<NetworkProfile>, slots: nat) returns (stacks: seq<StackPlan>)
    requires 1 <= slots <= MAX_LOCAL_RINGS_PER_NODE
    ensures stacks == ForProfiles(g, profiles, slots)
  {
    stacks := [];
    var j := 0;
    while j < |profiles|
      invariant 0 <= j <= |profiles|
      invariant stacks == ForProfiles(g, profiles[..j], slots)
    {
      var packed := PackCases(g, profiles[j], slots);
      assert profiles[..j + 1][..j] == profiles[..j];
      stacks := stacks + packed;
      j := j + 1;
    }
    assert profiles[..j] == profiles;
  }

  /** The sum over the stacks of their number of cases times `k`. */
  function SumTimes(stacks: seq<StackPlan>, k: nat): nat {
    if stacks == [] then 0 else SumTimes(stacks[..|stacks| - 1], k) + |stacks[|stacks| - 1].cases| * k
  }

  function TrialsPerCase(e: Experiment): nat { |e.operations| * (e.warmups + e.repetitions) }

  function LoadSecsPerCase(e: Experiment): nat {
    var online := Flag(OpPre in e.operations) + Flag(OpSign in e.operations) + Flag(OpPet in e.operations);
    online * |e.concurrency| * (e.loadWarmupSecs + e.loadMeasureSecs)
  }

  function LoadSecs(e: Experiment, stacks: seq<StackPlan>): nat {
    if OpPre in e.operations || OpSign in e.operations || OpPet in e.operations
    then SumTimes(stacks, LoadSecsPerCase(e)) else 0
  }

  function PlanFromStacks(e: Experiment, stacks: seq<StackPlan>, slots: nat): ExperimentPlan {
    var serial := SumTimes(stacks, TrialsPerCase(e));
    ExperimentPlan(stacks, slots, serial, serial + LoadSecs(e, stacks))
  }

  method Resolve(e: Experiment, compiled: CryptoFeature) returns (r: Option<ExperimentPlan>)
    ensures r.Some? <==> Validated(e, compiled)
    ensures r.Some? ==> 1 <= RingsPerCase(e) <= MAX_LOCAL_RINGS_PER_NODE
                        && r.value == PlanFromStacks(e, ForGroups(e.networks, e.profiles, RingsPerCase(e)),
                                                     RingsPerCase(e))
  {
    if !Validated(e, compiled) { return None; }
    SomeRing(e);
    var slots := RingsPerCase(e);
    var stacks := PackGroups(e.networks, e.profiles, slots);
    return Some(PlanFromStacks(e, stacks, slots));
  }

  method PackGroups(groups: seq<NetworkGroup>, profiles: seq<NetworkProfile>, slots: nat)
    returns (stacks: seq<StackPlan>)
    requires 1 <= slots <= MAX_LOCAL_RINGS_PER_NODE
    ensures stacks == ForGroups(groups, profiles, slots)
  {
    stacks := [];
    var i := 0;
    while i < |groups|
      invariant 0 <= i <= |groups|
      invariant stacks == ForGroups(groups[..i], profiles, slots)
    {
      var packed := PackGroup(groups[i], profiles, slots);
      stacks := stacks + packed;
      assert groups[..i + 1][..i] == groups[..i];
      i := i + 1;
    }
    assert groups[..i] == groups;
  }

  /** One stack per profile for one case. */
  function SweepProfiles(size: nat, c: RingCase, profiles: seq<NetworkProfile>, slots: nat): (r: seq<StackPlan>)
    ensures |r| == |profiles|
  {
    seq(|profiles|, i requires 0 <= i < |profiles| => StackPlan(size, profiles[i], [c], slots))
  }

  function SweepCases(size: nat, cases: seq<RingCase>, profiles: seq<NetworkProfile>, slots: nat): seq<StackPlan> {
    if cases == [] then [] else
    SweepCases(size, cases[..|cases| - 1], profiles, slots) + SweepProfiles(size, cases[|cases| - 1], profiles, slots)
  }

  function SweepGroups(groups: seq<NetworkGroup>, profiles: seq<NetworkProfile>, slots: nat): seq<StackPlan> {
    if groups == [] then [] else
    SweepGroups(groups[..|groups| - 1], profiles, slots)
    + SweepCases(groups[|groups| - 1].networkSize, groups[|groups| - 1].cases, profiles, slots)
  }

  method ResolveCapacitySweep(e: Experiment, compiled: CryptoFeature) returns (r: Option<ExperimentPlan>)
    ensures r.Some? <==> Validated(e, compiled)
    ensures r.Some? ==>
            r.value == PlanFromStacks(e, SweepGroups(e.networks, e.profiles, RingsPerCase(e)), RingsPerCase(e))
  {
    if !Validated(e, compiled) { return None; }
    var slots := RingsPerCase(e);
    var stacks: seq<StackPlan> := [];
    var i := 0;
    while i < |e.networks|
      invariant 0 <= i <= |e.networks|
      invariant stacks == SweepGroups(e.networks[..i], e.profiles, slots)
    {
      var g := e.networks[i];
      var swept := SweepGroup(g, e.profiles, slots);
      stacks := stacks + swept;
      assert e.networks[..i + 1][..i] == e.networks[..i];
      i := i + 1;
    }
    assert e.networks[..i] == e.networks;
    return Some(PlanFromStacks(e, stacks, slots));
  }

  method SweepGroup(g: NetworkGroup, profiles: seq<NetworkProfile>, slots: nat) returns (stacks: seq<StackPlan>)
    ensures stacks == SweepCases(g.networkSize, g.cases, profiles, slots)
  {
    stacks := [];
    var j := 0;
    while j < |g.cases|
      invariant 0 <= j <= |g.cases|
      invariant stacks == SweepCases(g.networkSize, g.cases[..j], profiles, slots)
    {
      ghost var before := stacks;
      var k := 0;
      while k < |profiles|
        invariant 0 <= k <= |profiles|
        invariant stacks == before + SweepProfiles(g.networkSize, g.cases[j], profiles[..k], slots)
      {
        stacks := stacks + [StackPlan(g.networkSize, profiles[k], [g.cases[j]], slots)];
        k := k + 1;
      }
      assert profiles[..k] == profiles;
      assert g.cases[..j + 1][..j] == g.cases[..j];
      j := j + 1;
    }
    assert g.cases[..j] == g.cases;
  }

  // ---------------------------------------------------------------------------
  // Both plans cover the same trials
  // ---------------------------------------------------------------------------

  type Trial = (nat, NetworkProfile, RingCase)

  /** One trial per case. */
  function CoverCases(size: nat, profile: NetworkProfile, cases: seq<RingCase>): multiset<Trial> {
    if cases == [] then multiset{} else
    CoverCases(size, profile, cases[..|cases| - 1]) + multiset{(size, profile, cases[|cases| - 1])}
  }

  function Cover(stacks: seq<StackPlan>): multiset<Trial> {
    if stacks == [] then multiset{} else
    var s := stacks[|stacks| - 1];
    Cover(stacks[..|stacks| - 1]) + CoverCases(s.networkSize, s.profile, s.cases)
  }

  lemma {:induction false} CoverConcat(a: seq<StackPlan>, b: seq<StackPlan>)
    ensures Cover(a + b) == Cover(a) + Cover(b)
  {
    if b == [] {
      assert a + b == a;
    } else {
      assert (a + b)[..|a + b| - 1] == a + b[..|b| - 1];
      CoverConcat(a, b[..|b| - 1]);
    }
  }

  lemma {:induction false} CoverCasesConcat(size: nat, profile: NetworkProfile, a: seq<RingCase>, b: seq<RingCase>)
    ensures CoverCases(size, profile, a + b) == CoverCases(size, profile, a) + CoverCases(size, profile, b)
  {
    if b == [] {
      assert a + b == a;
    } else {
      assert (a + b)[..|a + b| - 1] == a + b[..|b| - 1];
      CoverCasesConcat(size, profile, a, b[..|b| - 1]);
    }
  }

  lemma {:induction false} CoverOne(s: StackPlan)
    ensures Cover([s]) == CoverCases(s.networkSize, s.profile, s.cases)
  {
    assert Cover([s][..0]) == multiset{};
  }

  lemma {:induction false} CoverStacked(size: nat, profile: NetworkProfile, bs: seq<seq<RingCase>>, slots: nat)
    ensures Cover(Stacked(size, profile, bs, slots)) == CoverCases(size, profile, Flatten(bs))
  {
    if bs != [] {
      var s := StackPlan(size, profile, bs[0], |bs[0]| * slots);
      assert Stacked(size, profile, bs, slots) == [s] + Stacked(size, profile, bs[1..], slots);
      CoverConcat([s], Stacked(size, profile, bs[1..], slots));
      CoverOne(s);
      CoverStacked(size, profile, bs[1..], slots);
      CoverCasesConcat(size, profile, bs[0], Flatten(bs[1..]));
    }
  }

  /** Every profile with every case. */
  function CoverProfiles(size: nat, profiles: seq<NetworkProfile>, cases: seq<RingCase>): multiset<Trial> {
    if profiles == [] then multiset{} else
    CoverProfiles(size, profiles[..|profiles| - 1], cases) + CoverCases(size, profiles[|profiles| - 1], cases)
  }

  lemma {:induction false} CoverForProfiles(g: NetworkGroup, profiles: seq<NetworkProfile>, slots: nat)
    requires 1 <= slots <= MAX_LOCAL_RINGS_PER_NODE
    ensures Cover(ForProfiles(g, profiles, slots)) == CoverProfiles(g.networkSize, profiles, g.cases)
  {
    if profiles != [] {
      var n := |profiles| - 1;
      var bs := Chunks(g.cases, Capacity(slots));
      CoverForProfiles(g, profiles[..n], slots);
      CoverConcat(ForProfiles(g, profiles[..n], slots), Stacked(g.networkSize, profiles[n], bs, slots));
      CoverStacked(g.networkSize, profiles[n], bs, slots);
      ChunksSplit(g.cases, slots);
    }
  }

  /** One more case is one more trial under every profile. */
  lemma {:induction false} CoverOneMore(
      size: nat, profiles: seq<NetworkProfile>, cases: seq<RingCase>, c: RingCase, slots: nat)
    ensures CoverProfiles(size, profiles, cases + [c])
            == CoverProfiles(size, profiles, cases) + Cover(SweepProfiles(size, c, profiles, slots))
  {
    if profiles != [] {
      var n := |profiles| - 1;
      var p := profiles[n];
      CoverOneMore(size, profiles[..n], cases, c, slots);
      assert (cases + [c])[..|cases|] == cases;
      assert SweepProfiles(size, c, profiles, slots)[..n] == SweepProfiles(size, c, profiles[..n], slots);
      assert CoverCases(size, p, [c]) == multiset{(size, p, c)} by { assert [c][..0] == []; }
    }
  }

  lemma {:induction false} CoverSweepCases(size: nat, cases: seq<RingCase>, profiles: seq<NetworkProfile>, slots: nat)
    ensures Cover(SweepCases(size, cases, profiles, slots)) == CoverProfiles(size, profiles, cases)
  {
    if cases == [] {
      NoCases(size, profiles);
    } else {
      var front, c := cases[..|cases| - 1], cases[|cases| - 1];
      assert front + [c] == cases;
      CoverSweepCases(size, front, profiles, slots);
      calc {
        Cover(SweepCases(size, cases, profiles, slots));
        { CoverConcat(SweepCases(size, front, profiles, slots), SweepProfiles(size, c, profiles, slots)); }
        CoverProfiles(size, profiles, front) + Cover(SweepProfiles(size, c, profiles, slots));
        { CoverOneMore(size, profiles, front, c, slots); }
        CoverProfiles(size, profiles, cases);
      }
    }
  }

  lemma {:induction false} NoCases(size: nat, profiles: seq<NetworkProfile>)
    ensures CoverProfiles(size, profiles, []) == multiset{}
  {
    if profiles != [] { NoCases(size, profiles[..|profiles| - 1]); }
  }

  /** The two planners cover the same (network size, profile, case) trials. */
  lemma {:induction false} SameCover(groups: seq<NetworkGroup>, profiles: seq<NetworkProfile>, slots: nat)
    requires 1 <= slots <= MAX_LOCAL_RINGS_PER_NODE
    ensures Cover(ForGroups(groups, profiles, slots)) == Cover(SweepGroups(groups, profiles, slots))
  {
    if groups != [] {
      var n := |groups| - 1;
      var g := groups[n];
      SameCover(groups[..n], profiles, slots);
      CoverConcat(ForGroups(groups[..n], profiles, slots), ForProfiles(g, profiles, slots));
      CoverConcat(SweepGroups(groups[..n], profiles, slots), SweepCases(g.networkSize, g.cases, profiles, slots));
      CoverForProfiles(g, profiles, slots);
      CoverSweepCases(g.networkSize, g.cases, profiles, slots);
    }
  }

  lemma {:induction false} CoverSize(size: nat, profile: NetworkProfile, cases: seq<RingCase>)
    ensures |CoverCases(size, profile, cases)| == |cases|
  {
    if cases != [] { CoverSize(size, profile, cases[..|cases| - 1]); }
  }

  lemma {:induction false} CoverLast(stacks: seq<StackPlan>)
    requires stacks != []
    ensures |Cover(stacks)| == |Cover(stacks[..|stacks| - 1])| + |stacks[|stacks| - 1].cases|
  {
    var s := stacks[|stacks| - 1];
    CoverSize(s.networkSize, s.profile, s.cases);
  }

  lemma {:induction false} Distributes(a: nat, b: nat, k: nat)
    ensures (a + b) * k == a * k + b * k
  {
  }

  /** A weighted sum over the stacks depends only on how many trials they cover. */
  lemma {:induction false} SumIsCover(stacks: seq<StackPlan>, k: nat)
    ensures SumTimes(stacks, k) == |Cover(stacks)| * k
  {
    if stacks != [] {
      var n := |stacks| - 1;
      SumIsCover(stacks[..n], k);
      CoverLast(stacks);
      Distributes(|Cover(stacks[..n])|, |stacks[n].cases|, k);
    }
  }

  /** Both plans estimate the same number of trials and seconds. */
  lemma {:induction false} SameEstimates(e: Experiment, compiled: CryptoFeature)
    requires Validated(e, compiled)
    ensures 1 <= RingsPerCase(e) <= MAX_LOCAL_RINGS_PER_NODE
    ensures var slots := RingsPerCase(e);
            var a, b := PlanFromStacks(e, ForGroups(e.networks, e.profiles, slots), slots),
                        PlanFromStacks(e, SweepGroups(e.networks, e.profiles, slots), slots);
            && Cover(a.stacks) == Cover(b.stacks)
            && a.serialTrials == b.serialTrials && a.estimatedMinimumSecs == b.estimatedMinimumSecs
  {
    SomeRing(e);
    var slots := RingsPerCase(e);
    var a, b := ForGroups(e.networks, e.profiles, slots), SweepGroups(e.networks, e.profiles, slots);
    SameCover(e.networks, e.profiles, slots);
    EstimatesFollow(e, a, b, slots);
  }

  lemma {:induction false} EstimatesFollow(e: Experiment, a: seq<StackPlan>, b: seq<StackPlan>, slots: nat)
    requires |Cover(a)| == |Cover(b)|
    ensures PlanFromStacks(e, a, slots).serialTrials == PlanFromStacks(e, b, slots).serialTrials
    ensures PlanFromStacks(e, a, slots).estimatedMinimumSecs == PlanFromStacks(e, b, slots).estimatedMinimumSecs
  {
    SameSum(a, b, TrialsPerCase(e));
    SameSum(a, b, LoadSecsPerCase(e));
  }

  lemma {:induction false} SameSum(a: seq<StackPlan>, b: seq<StackPlan>, k: nat)
    requires |Cover(a)| == |Cover(b)|
    ensures SumTimes(a, k) == SumTimes(b, k)
  {
    SumIsCover(a, k);
    SumIsCover(b, k);
  }

  /** Every stack of the packed plan is nonempty and within the node's ring slots. */
  lemma {:induction false} ProfilesFit(g: NetworkGroup, profiles: seq<NetworkProfile>, slots: nat)
    requires 1 <= slots <= MAX_LOCAL_RINGS_PER_NODE
    ensures forall s :: s in ForProfiles(g, profiles, slots) ==>
              s.cases != [] && s.maximumLocalRings == |s.cases| * slots <= MAX_LOCAL_RINGS_PER_NODE
  {
    if profiles != [] {
      ProfilesFit(g, profiles[..|profiles| - 1], slots);
      ChunksSplit(g.cases, slots);
    }
  }

  lemma {:induction false} StacksFit(groups: seq<NetworkGroup>, profiles: seq<NetworkProfile>, slots: nat)
    requires 1 <= slots <= MAX_LOCAL_RINGS_PER_NODE
    ensures forall s :: s in ForGroups(groups, profiles, slots) ==>
              s.cases != [] && s.maximumLocalRings == |s.cases| * slots <= MAX_LOCAL_RINGS_PER_NODE
  {
    if groups != [] {
      StacksFit(groups[..|groups| - 1], profiles, slots);
      ProfilesFit(groups[|groups| - 1], profiles, slots);
    }
  }

  // ---------------------------------------------------------------------------
  // The numbers of a plan
  // ---------------------------------------------------------------------------

  /** What a ring of a case is for. */
  datatype RingUse = ForDkg(trial: nat) | ForPreAndSign | ForPet | ForRefresh | ForReshare(trial: nat)

  function Only<T>(b: bool, s: set<T>): set<T> { if b then s else {} }

  function DkgUses(n: nat): set<RingUse> { set i | 0 <= i < n :: ForDkg(i) }

  function ReshareUses(n: nat): set<RingUse> { set i | 0 <= i < n :: ForReshare(i) }

  /** Every trial that makes or reshares a ring has one of its own; the online operations
      share one, and PET and refresh have one each. */
  function RingUses(e: Experiment): set<RingUse> {
    DkgRings(e) + SharedRing(e) + PetRing(e) + RefreshRing(e) + ReshareRings(e)
  }

  function DkgRings(e: Experiment): set<RingUse> {
    Only(OpDkg in e.operations, DkgUses(e.warmups + e.repetitions))
  }

  function SharedRing(e: Experiment): set<RingUse> {
    Only(OpPre in e.operations || OpSign in e.operations, {ForPreAndSign})
  }

  function PetRing(e: Experiment): set<RingUse> { Only(OpPet in e.operations, {ForPet}) }

  function RefreshRing(e: Experiment): set<RingUse> { Only(OpPssRefresh in e.operations, {ForRefresh}) }

  function ReshareRings(e: Experiment): set<RingUse> {
    Only(OpPssReshare in e.operations, ReshareUses(e.warmups + e.repetitions))
  }

  lemma {:induction false} TrialRings(n: nat)
    ensures |DkgUses(n)| == n == |ReshareUses(n)|
  {
    if n != 0 {
      TrialRings(n - 1);
      assert DkgUses(n) == DkgUses(n - 1) + {ForDkg(n - 1)};
      assert ReshareUses(n) == ReshareUses(n - 1) + {ForReshare(n - 1)};
    }
  }

  lemma {:induction false} Disjoint5<T>(a: set<T>, b: set<T>, c: set<T>, d: set<T>, f: set<T>)
    requires a !! b && (a + b) !! c && (a + b + c) !! d && (a + b + c + d) !! f
    ensures |a + b + c + d + f| == |a| + |b| + |c| + |d| + |f|
  {
    assert |a + b| == |a| + |b|;
    assert |a + b + c| == |a + b| + |c|;
  }

  lemma {:induction false} OnlySize<T>(b: bool, s: set<T>)
    ensures |Only(b, s)| == if b then |s| else 0
    ensures forall x :: x in Only(b, s) ==> x in s
  {
  }

  /** Uses of different kinds are different. */
  lemma {:induction false} KindsDiffer(
      a: set<RingUse>, b: set<RingUse>, c: set<RingUse>, d: set<RingUse>, f: set<RingUse>)
    requires (forall u :: u in a ==> u.ForDkg?) && (forall u :: u in b ==> u.ForPreAndSign?)
    requires (forall u :: u in c ==> u.ForPet?) && (forall u :: u in d ==> u.ForRefresh?)
    requires forall u :: u in f ==> u.ForReshare?
    ensures |a + b + c + d + f| == |a| + |b| + |c| + |d| + |f|
  {
    Disjoint5(a, b, c, d, f);
  }

  /** A case takes as many ring slots as there are uses for rings. */
  lemma {:induction false} RingsAreUses(e: Experiment)
    ensures RingsPerCase(e) == |RingUses(e)|
  {
    TrialRingsOf(e);
    SingleRingsOf(e);
    KindsDiffer(DkgRings(e), SharedRing(e), PetRing(e), RefreshRing(e), ReshareRings(e));
  }

  lemma {:induction false} TrialRingsOf(e: Experiment)
    ensures |DkgRings(e)| == if OpDkg in e.operations then e.warmups + e.repetitions else 0
    ensures |ReshareRings(e)| == if OpPssReshare in e.operations then e.warmups + e.repetitions else 0
    ensures (forall u :: u in DkgRings(e) ==> u.ForDkg?) && (forall u :: u in ReshareRings(e) ==> u.ForReshare?)
  {
    TrialRings(e.warmups + e.repetitions);
  }

  lemma {:induction false} SingleRingsOf(e: Experiment)
    ensures |SharedRing(e)| == Flag(OpPre in e.operations || OpSign in e.operations)
    ensures |PetRing(e)| == Flag(OpPet in e.operations) && |RefreshRing(e)| == Flag(OpPssRefresh in e.operations)
    ensures forall u :: u in SharedRing(e) ==> u.ForPreAndSign?
    ensures (forall u :: u in PetRing(e) ==> u.ForPet?) && (forall u :: u in RefreshRing(e) ==> u.ForRefresh?)
  {
    OnlySize(OpPre in e.operations || OpSign in e.operations, {ForPreAndSign});
    OnlySize(OpPet in e.operations, {ForPet});
    OnlySize(OpPssRefresh in e.operations, {ForRefresh});
  }

  function TotalCases(groups: seq<NetworkGroup>): nat {
    if groups == [] then 0 else TotalCases(groups[..|groups| - 1]) + |groups[|groups| - 1].cases|
  }

  lemma {:induction false} ProfilesSize(size: nat, profiles: seq<NetworkProfile>, cases: seq<RingCase>)
    ensures |CoverProfiles(size, profiles, cases)| == |profiles| * |cases|
  {
    if profiles != [] {
      var n := |profiles| - 1;
      ProfilesSize(size, profiles[..n], cases);
      CoverSize(size, profiles[n], cases);
      Distributes(n, 1, |cases|);
    }
  }

  lemma {:induction false} GroupSize(g: NetworkGroup, profiles: seq<NetworkProfile>, slots: nat)
    requires 1 <= slots <= MAX_LOCAL_RINGS_PER_NODE
    ensures |Cover(ForProfiles(g, profiles, slots))| == |profiles| * |g.cases|
  {
    CoverForProfiles(g, profiles, slots);
    ProfilesSize(g.networkSize, profiles, g.cases);
  }

  /** The cases of every group, once for each of `p` profiles. */
  function Covered(groups: seq<NetworkGroup>, p: nat): nat {
    if groups == [] then 0 else Covered(groups[..|groups| - 1], p) + p * |groups[|groups| - 1].cases|
  }

  lemma {:induction false} CoveredIs(groups: seq<NetworkGroup>, p: nat)
    ensures Covered(groups, p) == p * TotalCases(groups)
  {
    if groups != [] {
      CoveredIs(groups[..|groups| - 1], p);
      Times(p, TotalCases(groups[..|groups| - 1]), |groups[|groups| - 1].cases|);
    }
  }

  lemma {:induction false} Times(p: nat, a: nat, b: nat)
    ensures p * (a + b) == p * a + p * b
  {
  }

  lemma {:induction false} CoverLastGroup(groups: seq<NetworkGroup>, profiles: seq<NetworkProfile>, slots: nat)
    requires 1 <= slots <= MAX_LOCAL_RINGS_PER_NODE && groups != []
    ensures var front, g := groups[..|groups| - 1], groups[|groups| - 1];
            |Cover(ForGroups(groups, profiles, slots))|
            == |Cover(ForGroups(front, profiles, slots))| + |Cover(ForProfiles(g, profiles, slots))|
  {
    var front, g := groups[..|groups| - 1], groups[|groups| - 1];
    CoverConcat(ForGroups(front, profiles, slots), ForProfiles(g, profiles, slots));
  }

  /** A plan covers every case of every group once for every profile. */
  lemma {:induction false} PlanSize(groups: seq<NetworkGroup>, profiles: seq<NetworkProfile>, slots: nat)
    requires 1 <= slots <= MAX_LOCAL_RINGS_PER_NODE
    ensures |Cover(ForGroups(groups, profiles, slots))| == Covered(groups, |profiles|)
  {
    if groups != [] {
      PlanSize(groups[..|groups| - 1], profiles, slots);
      GroupSize(groups[|groups| - 1], profiles, slots);
      CoverLastGroup(groups, profiles, slots);
    }
  }

  /** The online operations of an experiment. */
  function Online(e: Experiment): set<Operation> { e.operations * {OpPre, OpSign, OpPet} }

  lemma {:induction false} OnlineParts(s: set<Operation>, a: set<Operation>, b: set<Operation>, c: set<Operation>)
    requires forall o :: o in s <==> o in a || o in b || o in c
    requires (forall o :: o in a ==> o == OpPre) && (forall o :: o in b ==> o == OpSign)
    requires forall o :: o in c ==> o == OpPet
    ensures |s| == |a| + |b| + |c|
  {
    assert s == a + b + c;
    assert a + b + c + {} + {} == a + b + c;
    Disjoint5(a, b, c, {}, {});
  }

  lemma {:induction false} OnlineCount(e: Experiment)
    ensures |Online(e)| == Flag(OpPre in e.operations) + Flag(OpSign in e.operations) + Flag(OpPet in e.operations)
  {
    OnlySize(OpPre in e.operations, {OpPre});
    OnlySize(OpSign in e.operations, {OpSign});
    OnlySize(OpPet in e.operations, {OpPet});
    OnlineParts(Online(e), Only(OpPre in e.operations, {OpPre}), Only(OpSign in e.operations, {OpSign}),
                Only(OpPet in e.operations, {OpPet}));
  }

  /** A serial trial for every covered case, operation, warm-up and repetition. */
  lemma {:induction false} SerialTrials(e: Experiment, stacks: seq<StackPlan>, slots: nat)
    ensures PlanFromStacks(e, stacks, slots).serialTrials
            == |Cover(stacks)| * (|e.operations| * (e.warmups + e.repetitions))
    ensures PlanFromStacks(e, stacks, slots).stacks == stacks && PlanFromStacks(e, stacks, slots).ringsPerCase == slots
  {
    SumIsCover(stacks, TrialsPerCase(e));
  }

  /** One second for each, and a load run for every covered case, online operation and
      concurrency. */
  lemma {:induction false} LoadRuns(e: Experiment, stacks: seq<StackPlan>, slots: nat)
    ensures var plan := PlanFromStacks(e, stacks, slots);
            plan.estimatedMinimumSecs - plan.serialTrials
            == |Cover(stacks)| * (|Online(e)| * |e.concurrency| * (e.loadWarmupSecs + e.loadMeasureSecs))
  {
    SumIsCover(stacks, LoadSecsPerCase(e));
    OnlineCount(e);
    if !(OpPre in e.operations || OpSign in e.operations || OpPet in e.operations) {
      NoLoad(|Cover(stacks)|, |e.concurrency|, e.loadWarmupSecs + e.loadMeasureSecs);
    }
  }

  lemma {:induction false} NoLoad(covered: nat, concurrency: nat, secs: nat)
    ensures covered * (0 * concurrency * secs) == 0
  {
  }

  /** The numbers of an experiment's plan. */
  lemma {:induction false} PlanNumbers(e: Experiment, compiled: CryptoFeature)
    requires Validated(e, compiled)
    ensures 1 <= RingsPerCase(e) <= MAX_LOCAL_RINGS_PER_NODE
    ensures var slots := RingsPerCase(e);
            var plan := PlanFromStacks(e, ForGroups(e.networks, e.profiles, slots), slots);
            && plan.ringsPerCase == |RingUses(e)|
            && plan.serialTrials
               == |e.profiles| * TotalCases(e.networks) * (|e.operations| * (e.warmups + e.repetitions))
            && plan.estimatedMinimumSecs - plan.serialTrials
               == |e.profiles| * TotalCases(e.networks)
                  * (|Online(e)| * |e.concurrency| * (e.loadWarmupSecs + e.loadMeasureSecs))
  {
    SomeRing(e);
    RingsAreUses(e);
    var slots := RingsPerCase(e);
    var stacks := ForGroups(e.networks, e.profiles, slots);
    PlanSize(e.networks, e.profiles, slots);
    CoveredIs(e.networks, |e.profiles|);
    SerialTrials(e, stacks, slots);
    LoadRuns(e, stacks, slots);
  }
}
