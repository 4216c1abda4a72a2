/** Guards that own counters and active gauges: a guard counts its start when made and
    exactly one outcome when completed, abandoned or dropped. */
module MetricGuards {
  import opened Options

  datatype CeremonyKind = Fresh | Refresh | Reshare

  datatype Service = Pre | Sign | StoreSecret

  datatype Guard = DkgSession(kind: CeremonyKind) | Request(service: Service) | PrivatePair

  datatype End = Completed | Abandoned | Dropped

  /** One set of counters by outcome, and its gauge of active guards. */
  datatype Family = Family(started: nat, completed: nat, failed: nat, abandoned: nat, active: int)

  const ZERO := Family(0, 0, 0, 0, 0)

  /** The process-wide metrics. `dkgAbandonedTotal` is a second counter of abandonments;
      `privatePairs` has no start counter, and `storeSecret` no gauge. */
  datatype Counters = Counters(
    dkg: Family,
    refresh: Family,
    reshare: Family,
    pre: Family,
    sign: Family,
    storeSecret: Family,
    privatePairs: Family,
    dkgAbandonedTotal: nat)

  // ---------------------------------------------------------------------------
  // What the recording functions do
  // ---------------------------------------------------------------------------

  function Started(f: Family): Family { f.(started := f.started + 1, active := f.active + 1) }

  function Ended(f: Family, e: End): Family {
    match e
    case Completed => f.(completed := f.completed + 1, active := f.active - 1)
    case Abandoned => f.(abandoned := f.abandoned + 1, active := f.active - 1)
    case Dropped => f.(failed := f.failed + 1, active := f.active - 1)
  }

  /** Refresh and reshare count an abandoned session as failed. */
  function WithoutAbandoned(e: End): End { if e.Abandoned? then Dropped else e }

  function Opened(c: Counters, g: Guard): Counters {
    match g
    case DkgSession(Fresh) => c.(dkg := Started(c.dkg))
    case DkgSession(Refresh) => c.(dkg := Started(c.dkg), refresh := Started(c.refresh))
    case DkgSession(Reshare) => c.(dkg := Started(c.dkg), reshare := Started(c.reshare))
    case Request(Pre) => c.(pre := Started(c.pre))
    case Request(Sign) => c.(sign := Started(c.sign))
    case Request(StoreSecret) => c.(storeSecret := Started(c.storeSecret).(active := c.storeSecret.active))
    case PrivatePair => c.(privatePairs := Started(c.privatePairs).(started := c.privatePairs.started))
  }

  function Closed(c: Counters, g: Guard, e: End): Counters {
    match g
    case DkgSession(kind) =>
      var total := if e.Abandoned? then c.dkgAbandonedTotal + 1 else c.dkgAbandonedTotal;
      var d := c.(dkg := Ended(c.dkg, e), dkgAbandonedTotal := total);
      (match kind
       case Fresh => d
       case Refresh => d.(refresh := Ended(c.refresh, WithoutAbandoned(e)))
       case Reshare => d.(reshare := Ended(c.reshare, WithoutAbandoned(e))))
    case Request(Pre) => c.(pre := Ended(c.pre, e))
    case Request(Sign) => c.(sign := Ended(c.sign, e))
    case Request(StoreSecret) => c.(storeSecret := Ended(c.storeSecret, e).(active := c.storeSecret.active))
    case PrivatePair => c.(privatePairs := Ended(c.privatePairs, e))
  }

  // ---------------------------------------------------------------------------
  // The metrics and the guards
  // ---------------------------------------------------------------------------

  class Metrics {
    var counters: Counters

    constructor ()
      ensures counters == Counters(ZERO, ZERO, ZERO, ZERO, ZERO, ZERO, ZERO, 0)
    {
      counters := Counters(ZERO, ZERO, ZERO, ZERO, ZERO, ZERO, ZERO, 0);
    }

    method RecordDkgSession(e: End)
      modifies this
      ensures counters == Closed(old(counters), DkgSession(Fresh), e)
    {
      counters := counters.(dkg := Ended(counters.dkg, e));
      if e.Abandoned? { counters := counters.(dkgAbandonedTotal := counters.dkgAbandonedTotal + 1); }
    }

    method RecordKind(kind: CeremonyKind, e: End)
      requires !e.Abandoned?
      modifies this
      ensures counters == match kind
                          case Fresh => old(counters)
                          case Refresh => old(counters).(refresh := Ended(old(counters).refresh, e))
                          case Reshare => old(counters).(reshare := Ended(old(counters).reshare, e))
    {
      match kind
      case Fresh =>
      case Refresh => counters := counters.(refresh := Ended(counters.refresh, e));
      case Reshare => counters := counters.(reshare := Ended(counters.reshare, e));
    }
  }

  class DkgSessionMetricsGuard {
    const metrics: Metrics
    const kind: CeremonyKind
    var finished: bool

    constructor (metrics: Metrics, kind: CeremonyKind)
      modifies metrics
      ensures !finished && this.metrics == metrics && this.kind == kind
      ensures metrics.counters == Opened(old(metrics.counters), DkgSession(kind))
    {
      this.metrics, this.kind, this.finished := metrics, kind, false;
      new;
      var c := metrics.counters;
      c := c.(dkg := Started(c.dkg));
      match kind {
        case Fresh =>
        case Refresh => c := c.(refresh := Started(c.refresh));
        case Reshare => c := c.(reshare := Started(c.reshare));
      }
      metrics.counters := c;
    }

    /** Consumes the guard: its destructor runs too, and must not count again. */
    method Complete()
      requires !finished
      modifies this, metrics
      ensures finished && metrics.counters == Closed(old(metrics.counters), DkgSession(kind), Completed)
    {
      metrics.RecordDkgSession(Completed);
      metrics.RecordKind(kind, Completed);
      finished := true;
      Drop();
    }

    method Abandon()
      requires !finished
      modifies this, metrics
      ensures finished && metrics.counters == Closed(old(metrics.counters), DkgSession(kind), Abandoned)
    {
      metrics.RecordDkgSession(Abandoned);
      metrics.RecordKind(kind, Dropped);
      finished := true;
      Drop();
    }

    method Drop()
      modifies metrics
      ensures metrics.counters
              == if finished then old(metrics.counters) else Closed(old(metrics.counters), DkgSession(kind), Dropped)
    {
      if finished { return; }
      metrics.RecordDkgSession(Dropped);
      metrics.RecordKind(kind, Dropped);
    }
  }

  /** The counters of one request service. */
  function RequestFamily(c: Counters, s: Service): Family {
    match s case Pre => c.pre case Sign => c.sign case StoreSecret => c.storeSecret
  }

  function WithRequestFamily(c: Counters, s: Service, f: Family): Counters {
    match s
    case Pre => c.(pre := f)
    case Sign => c.(sign := f)
    case StoreSecret => c.(storeSecret := f)
  }

  class RequestMetricsGuard {
    const metrics: Metrics
    const service: Service
    const hasGauge: bool
    var finished: bool

    /** Store-secret requests have no gauge of active requests. */
    ghost predicate Valid() { hasGauge <==> service != StoreSecret }

    constructor (metrics: Metrics, service: Service)
      modifies metrics
      ensures Valid() && !finished && this.metrics == metrics && this.service == service
      ensures metrics.counters == Opened(old(metrics.counters), Request(service))
    {
      this.metrics, this.service, this.finished := metrics, service, false;
      hasGauge := service.Pre? || service.Sign?;
      new;
      var f := RequestFamily(metrics.counters, service);
      f := f.(started := f.started + 1);
      if hasGauge { f := f.(active := f.active + 1); }
      metrics.counters := WithRequestFamily(metrics.counters, service, f);
    }

    method Complete()
      requires Valid() && !finished
      modifies this, metrics
      ensures Valid() && finished && metrics.counters == Closed(old(metrics.counters), Request(service), Completed)
    {
      var f := RequestFamily(metrics.counters, service);
      f := f.(completed := f.completed + 1);
      if hasGauge { f := f.(active := f.active - 1); }
      metrics.counters := WithRequestFamily(metrics.counters, service, f);
      finished := true;
      Drop();
    }

    method Drop()
      requires Valid()
      modifies metrics
      ensures metrics.counters
              == if finished then old(metrics.counters) else Closed(old(metrics.counters), Request(service), Dropped)
    {
      if finished { return; }
      var f := RequestFamily(metrics.counters, service);
      f := f.(failed := f.failed + 1);
      if hasGauge { f := f.(active := f.active - 1); }
      metrics.counters := WithRequestFamily(metrics.counters, service, f);
    }
  }

  class PrivatePairMetricsGuard {
    const metrics: Metrics
    var finished: bool

    constructor (metrics: Metrics)
      modifies metrics
      ensures !finished && this.metrics == metrics
      ensures metrics.counters == Opened(old(metrics.counters), PrivatePair)
    {
      this.metrics, this.finished := metrics, false;
      new;
      var p := metrics.counters.privatePairs;
      metrics.counters := metrics.counters.(privatePairs := p.(active := p.active + 1));
    }

    method Complete()
      requires !finished
      modifies this, metrics
      ensures finished && metrics.counters == Closed(old(metrics.counters), PrivatePair, Completed)
    {
      var p := metrics.counters.privatePairs;
      metrics.counters := metrics.counters.(privatePairs := p.(completed := p.completed + 1, active := p.active - 1));
      finished := true;
      Drop();
    }

    method Drop()
      modifies metrics
      ensures metrics.counters
              == if finished then old(metrics.counters) else Closed(old(metrics.counters), PrivatePair, Dropped)
    {
      if finished { return; }
      var p := metrics.counters.privatePairs;
      metrics.counters := metrics.counters.(privatePairs := p.(failed := p.failed + 1, active := p.active - 1));
    }
  }

  // ---------------------------------------------------------------------------
  // Any run of guards
  // ---------------------------------------------------------------------------

  datatype Event = Make(guard: Guard) | Finish(id: nat, end: End)

  /** `live` are the guards not yet ended, `made` and `ended` the history. */
  datatype State = State(counters: Counters, live: map<nat, Guard>, made: seq<Guard>, ended: seq<(Guard, End)>)

  function Initial(): State {
    State(Counters(ZERO, ZERO, ZERO, ZERO, ZERO, ZERO, ZERO, 0), map[], [], [])
  }

  /** A guard is consumed by its end; only ceremonies can be abandoned. */
  predicate Enabled(s: State, ev: Event) {
    ev.Finish? ==> ev.id in s.live && (ev.end.Abandoned? ==> s.live[ev.id].DkgSession?)
  }

  function Next(s: State, ev: Event): State
    requires Enabled(s, ev)
  {
    match ev
    case Make(g) => State(Opened(s.counters, g), s.live[|s.made| := g], s.made + [g], s.ended)
    case Finish(id, e) =>
      State(Closed(s.counters, s.live[id], e), s.live - {id}, s.made, s.ended + [(s.live[id], e)])
  }

  /** The state after the first events; what cannot happen does not. */
  function After(events: seq<Event>, n: nat): State
    requires n <= |events|
  {
    if n == 0 then Initial() else
    var s := After(events, n - 1);
    if Enabled(s, events[n - 1]) then Next(s, events[n - 1]) else s
  }

  /** The seven sets of counters. */
  datatype Account = AllDkg | Refreshes | Reshares | Requests(service: Service) | Pairs

  predicate Belongs(g: Guard, a: Account) {
    match a
    case AllDkg => g.DkgSession?
    case Refreshes => g == DkgSession(Refresh)
    case Reshares => g == DkgSession(Reshare)
    case Requests(s) => g == Request(s)
    case Pairs => g.PrivatePair?
  }

  function FamilyOf(c: Counters, a: Account): Family {
    match a
    case AllDkg => c.dkg
    case Refreshes => c.refresh
    case Reshares => c.reshare
    case Requests(Pre) => c.pre
    case Requests(Sign) => c.sign
    case Requests(StoreSecret) => c.storeSecret
    case Pairs => c.privatePairs
  }

  predicate HasGauge(a: Account) { a != Requests(StoreSecret) }

  predicate HasStarts(a: Account) { !a.Pairs? }

  /** How an account counts an end. */
  function CountedAs(a: Account, e: End): End { if a.Refreshes? || a.Reshares? then WithoutAbandoned(e) else e }

  function Made(made: seq<Guard>, a: Account): nat {
    if made == [] then 0 else Made(made[..|made| - 1], a) + if Belongs(made[|made| - 1], a) then 1 else 0
  }

  /** The ends counted by `a` as `e`. */
  function Ends(ended: seq<(Guard, End)>, a: Account, e: End): nat {
    if ended == [] then 0 else
    var (g, how) := ended[|ended| - 1];
    Ends(ended[..|ended| - 1], a, e) + if Belongs(g, a) && CountedAs(a, how) == e then 1 else 0
  }

  function Live(live: map<nat, Guard>, a: Account): set<nat> { set id | id in live && Belongs(live[id], a) }

  /** The counters say exactly what happened: one start per guard made, one outcome per
      guard ended, and a gauge equal to the guards still alive. */
  ghost predicate Accounted(s: State, a: Account) {
    var f := FamilyOf(s.counters, a);
    && (HasStarts(a) ==> f.started == Made(s.made, a))
    && f.completed == Ends(s.ended, a, Completed)
    && f.failed == Ends(s.ended, a, Dropped)
    && f.abandoned == Ends(s.ended, a, Abandoned)
    && (HasGauge(a) ==> f.active == |Live(s.live, a)|)
    && Made(s.made, a)
       == Ends(s.ended, a, Completed) + Ends(s.ended, a, Dropped) + Ends(s.ended, a, Abandoned) + |Live(s.live, a)|
  }

  ghost predicate Inv(s: State) {
    && (forall a :: Accounted(s, a))
    && (forall id :: id in s.live ==> id < |s.made|)
    && s.counters.dkgAbandonedTotal == s.counters.dkg.abandoned
    && s.counters.refresh.abandoned == 0 && s.counters.reshare.abandoned == 0
  }

  function One(b: bool): nat { if b then 1 else 0 }

  /** A guard's start, as one account sees it. */
  lemma {:induction false} OpenedFamily(c: Counters, g: Guard, a: Account)
    ensures var f, f' := FamilyOf(c, a), FamilyOf(Opened(c, g), a);
            && f'.completed == f.completed && f'.failed == f.failed && f'.abandoned == f.abandoned
            && f'.started == f.started + One(Belongs(g, a) && HasStarts(a))
            && f'.active == f.active + One(Belongs(g, a) && HasGauge(a))
  {
  }

  /** A guard's end, as one account sees it. */
  lemma {:induction false} ClosedFamily(c: Counters, g: Guard, e: End, a: Account)
    ensures var f, f' := FamilyOf(c, a), FamilyOf(Closed(c, g, e), a);
            var how := CountedAs(a, e);
            && f'.started == f.started
            && f'.completed == f.completed + One(Belongs(g, a) && how.Completed?)
            && f'.failed == f.failed + One(Belongs(g, a) && how.Dropped?)
            && f'.abandoned == f.abandoned + One(Belongs(g, a) && how.Abandoned?)
            && f'.active == f.active - One(Belongs(g, a) && HasGauge(a))
  {
    match a { case AllDkg => case Refreshes => case Reshares => case Requests(s) => case Pairs => }
  }

  function WithIf(s: set<nat>, x: nat, b: bool): set<nat> { if b then s + {x} else s }

  lemma {:induction false} OneMore(s: set<nat>, x: nat, b: bool)
    requires x !in s
    ensures |WithIf(s, x, b)| == |s| + One(b)
  {
  }

  lemma {:induction false} LiveMore(live: map<nat, Guard>, id: nat, g: Guard, a: Account)
    requires id !in live
    ensures |Live(live[id := g], a)| == |Live(live, a)| + One(Belongs(g, a))
  {
    var after, told := Live(live[id := g], a), WithIf(Live(live, a), id, Belongs(g, a));
    assert forall x :: x in after <==> x in told;
    assert after == told;
    OneMore(Live(live, a), id, Belongs(g, a));
  }

  lemma {:induction false} LiveLess(live: map<nat, Guard>, id: nat, a: Account)
    requires id in live
    ensures |Live(live - {id}, a)| == |Live(live, a)| - One(Belongs(live[id], a))
  {
    assert Live(live - {id}, a) == Live(live, a) - {id};
  }

  lemma {:induction false} MadeMore(made: seq<Guard>, g: Guard, a: Account)
    ensures Made(made + [g], a) == Made(made, a) + One(Belongs(g, a))
  {
    assert (made + [g])[..|made|] == made;
  }

  lemma {:induction false} EndsMore(ended: seq<(Guard, End)>, g: Guard, how: End, a: Account, e: End)
    ensures Ends(ended + [(g, how)], a, e) == Ends(ended, a, e) + One(Belongs(g, a) && CountedAs(a, how) == e)
  {
    assert (ended + [(g, how)])[..|ended|] == ended;
  }

  lemma {:induction false} MakeAccounts(s: State, g: Guard, a: Account)
    requires Accounted(s, a) && |s.made| !in s.live
    ensures Accounted(Next(s, Make(g)), a)
  {
    OpenedFamily(s.counters, g, a);
    MadeMore(s.made, g, a);
    LiveMore(s.live, |s.made|, g, a);
  }

  lemma {:induction false} FinishAccounts(s: State, id: nat, e: End, a: Account)
    requires Accounted(s, a) && Enabled(s, Finish(id, e))
    ensures Accounted(Next(s, Finish(id, e)), a)
  {
    var g := s.live[id];
    ClosedFamily(s.counters, g, e, a);
    EndsMore(s.ended, g, e, a, Completed);
    EndsMore(s.ended, g, e, a, Dropped);
    EndsMore(s.ended, g, e, a, Abandoned);
    LiveLess(s.live, id, a);
  }

  lemma {:induction false} StepKeeps(s: State, ev: Event)
    requires Inv(s) && Enabled(s, ev)
    ensures Inv(Next(s, ev))
  {
    forall a ensures Accounted(Next(s, ev), a) {
      match ev
      case Make(g) => MakeAccounts(s, g, a);
      case Finish(id, e) => FinishAccounts(s, id, e, a);
    }
  }

  lemma {:induction false} InitialInv()
    ensures Inv(Initial())
  {
    forall a ensures Accounted(Initial(), a) { assert Live(map[], a) == {}; }
  }

  /** In every state of every run the counters say exactly what happened. */
  lemma {:induction false} RunKeeps(events: seq<Event>, n: nat)
    requires n <= |events|
    ensures Inv(After(events, n))
  {
    if n == 0 {
      InitialInv();
    } else {
      RunKeeps(events, n - 1);
      if Enabled(After(events, n - 1), events[n - 1]) { StepKeeps(After(events, n - 1), events[n - 1]); }
    }
  }

  // ---------------------------------------------------------------------------
  // What happened, by the events alone
  // ---------------------------------------------------------------------------

  /** The guards made, in order; a guard is known by its place. */
  function GuardsOf(events: seq<Event>, n: nat): seq<Guard>
    requires n <= |events|
  {
    if n == 0 then [] else
    GuardsOf(events, n - 1) + if events[n - 1].Make? then [events[n - 1].guard] else []
  }

  /** How guard `id` ended: by the first end it was given that its kind allows. */
  function EndOf(events: seq<Event>, n: nat, id: nat): Option<End>
    requires n <= |events|
  {
    if n == 0 then None else
    match EndOf(events, n - 1, id)
    case Some(e) => Some(e)
    case None =>
      var ev, guards := events[n - 1], GuardsOf(events, n - 1);
      if ev.Finish? && ev.id == id < |guards| && (ev.end.Abandoned? ==> guards[id].DkgSession?)
      then Some(ev.end) else None
  }

  /** The guards of an account, those still alive, and those whose end it counts as `e`. */
  function MadeIds(events: seq<Event>, n: nat, a: Account): set<nat>
    requires n <= |events|
  {
    IdsOf(GuardsOf(events, n), a)
  }

  function IdsOf(guards: seq<Guard>, a: Account): set<nat> { set id | 0 <= id < |guards| && Belongs(guards[id], a) }

  function LiveIds(events: seq<Event>, n: nat, a: Account): set<nat>
    requires n <= |events|
  {
    set id | id in MadeIds(events, n, a) && EndOf(events, n, id).None?
  }

  function EndedIds(events: seq<Event>, n: nat, a: Account, e: End): set<nat>
    requires n <= |events|
  {
    set id | id in MadeIds(events, n, a) && EndOf(events, n, id).Some? && CountedAs(a, EndOf(events, n, id).value) == e
  }

  /** The state is made of the guards and ends the events tell of. */
  lemma {:induction false} StateTold(events: seq<Event>, n: nat)
    requires n <= |events|
    ensures After(events, n).made == GuardsOf(events, n)
    ensures forall id: nat :: id in After(events, n).live <==> id < |GuardsOf(events, n)| && EndOf(events, n, id).None?
    ensures forall id: nat :: id in After(events, n).live ==> After(events, n).live[id] == GuardsOf(events, n)[id]
    ensures forall id: nat :: id >= |GuardsOf(events, n)| ==> EndOf(events, n, id).None?
  {
    if n != 0 { StateTold(events, n - 1); }
  }

  lemma {:induction false} IdsMore(guards: seq<Guard>, g: Guard, a: Account)
    ensures |IdsOf(guards + [g], a)| == |IdsOf(guards, a)| + One(Belongs(g, a))
  {
    var more := guards + [g];
    assert forall id :: 0 <= id < |guards| ==> more[id] == guards[id];
    assert IdsOf(more, a) == IdsOf(guards, a) + if Belongs(g, a) then {|guards|} else {};
  }

  lemma {:induction false} MadeCount(guards: seq<Guard>, a: Account)
    ensures |IdsOf(guards, a)| == Made(guards, a)
  {
    if guards == [] {
      assert IdsOf(guards, a) == {};
    } else {
      var front, last := guards[..|guards| - 1], guards[|guards| - 1];
      MadeCount(front, a);
      IdsMore(front, last, a);
      assert front + [last] == guards;
    }
  }

  /** An event that ends no guard leaves all ends as they were. */
  lemma {:induction false} NoEnd(events: seq<Event>, n: nat, a: Account, e: End)
    requires 0 < n <= |events| && !(events[n - 1].Finish? && Enabled(After(events, n - 1), events[n - 1]))
    ensures EndedIds(events, n, a, e) == EndedIds(events, n - 1, a, e)
    ensures After(events, n).ended == After(events, n - 1).ended
  {
    StateTold(events, n - 1);
    var guards, guards' := GuardsOf(events, n - 1), GuardsOf(events, n);
    assert forall id :: 0 <= id < |guards| ==> guards'[id] == guards[id];
    forall id: nat ensures EndOf(events, n, id) == EndOf(events, n - 1, id) {
    }
    forall id | id in EndedIds(events, n, a, e) ensures id in EndedIds(events, n - 1, a, e) {
      assert id < |guards|;
    }
  }

  lemma {:induction false} OneEnd(events: seq<Event>, n: nat, a: Account, e: End)
    requires 0 < n <= |events| && events[n - 1].Finish? && Enabled(After(events, n - 1), events[n - 1])
    ensures var ev, g := events[n - 1], After(events, n - 1).live[events[n - 1].id];
            && ev.id !in EndedIds(events, n - 1, a, e)
            && EndedIds(events, n, a, e)
               == WithIf(EndedIds(events, n - 1, a, e), ev.id, Belongs(g, a) && CountedAs(a, ev.end) == e)
  {
    StateTold(events, n - 1);
    var ev := events[n - 1];
    assert EndOf(events, n - 1, ev.id).None? && EndOf(events, n, ev.id) == Some(ev.end);
    forall id: nat | id != ev.id ensures EndOf(events, n, id) == EndOf(events, n - 1, id) {
    }
  }

  lemma {:induction false} EndedCount(events: seq<Event>, n: nat, a: Account, e: End)
    requires n <= |events|
    ensures |EndedIds(events, n, a, e)| == Ends(After(events, n).ended, a, e)
  {
    if n == 0 {
      assert EndedIds(events, 0, a, e) == {};
    } else {
      var s, ev := After(events, n - 1), events[n - 1];
      EndedCount(events, n - 1, a, e);
      if ev.Finish? && Enabled(s, ev) {
        OneEndCounted(events, n, a, e);
      } else {
        NoEnd(events, n, a, e);
      }
    }
  }

  lemma {:induction false} OneEndCounted(events: seq<Event>, n: nat, a: Account, e: End)
    requires 0 < n <= |events| && events[n - 1].Finish? && Enabled(After(events, n - 1), events[n - 1])
    requires |EndedIds(events, n - 1, a, e)| == Ends(After(events, n - 1).ended, a, e)
    ensures |EndedIds(events, n, a, e)| == Ends(After(events, n).ended, a, e)
  {
    var s, ev := After(events, n - 1), events[n - 1];
    var g := s.live[ev.id];
    OneEnd(events, n, a, e);
    OneMore(EndedIds(events, n - 1, a, e), ev.id, Belongs(g, a) && CountedAs(a, ev.end) == e);
    assert After(events, n).ended == s.ended + [(g, ev.end)];
    EndsMore(s.ended, g, ev.end, a, e);
  }

  /** After any events every account's counters are the numbers of its guards made, completed,
      failed and abandoned, each guard counted once, and its gauge the guards still alive. */
  lemma {:induction false} CountersTell(events: seq<Event>, n: nat, a: Account)
    requires n <= |events|
    ensures var f := FamilyOf(After(events, n).counters, a);
            && f.completed == |EndedIds(events, n, a, Completed)|
            && f.failed == |EndedIds(events, n, a, Dropped)|
            && f.abandoned == |EndedIds(events, n, a, Abandoned)|
            && (HasStarts(a) ==> f.started == |MadeIds(events, n, a)|)
            && (HasGauge(a) ==> f.active == |LiveIds(events, n, a)|)
    ensures |MadeIds(events, n, a)| == |LiveIds(events, n, a)| + |EndedIds(events, n, a, Completed)|
                                       + |EndedIds(events, n, a, Dropped)| + |EndedIds(events, n, a, Abandoned)|
  {
    RunKeeps(events, n);
    StateTold(events, n);
    assert Accounted(After(events, n), a);
    EndedCount(events, n, a, Completed);
    EndedCount(events, n, a, Dropped);
    EndedCount(events, n, a, Abandoned);
    MadeCount(GuardsOf(events, n), a);
    assert LiveIds(events, n, a) == Live(After(events, n).live, a);
  }

  /** The books balance: started is ended plus active, and for refresh and reshare an
      abandoned session is a failed one. */
  lemma {:induction false} BooksBalance(events: seq<Event>, n: nat)
    requires n <= |events|
    ensures var c := After(events, n).counters;
            && c.dkg.started == c.dkg.completed + c.dkg.failed + c.dkg.abandoned + c.dkg.active
            && c.refresh.started == c.refresh.completed + c.refresh.failed + c.refresh.active
            && c.reshare.started == c.reshare.completed + c.reshare.failed + c.reshare.active
            && c.refresh.abandoned == 0 == c.reshare.abandoned
            && c.dkgAbandonedTotal == c.dkg.abandoned
  {
    RunKeeps(events, n);
    var s := After(events, n);
    assert Accounted(s, AllDkg) && Accounted(s, Refreshes) && Accounted(s, Reshares);
  }

  /** When every guard has ended, every gauge is back to zero. */
  lemma {:induction false} GaugesReturn(events: seq<Event>, n: nat, a: Account)
    requires n <= |events| && HasGauge(a)
    requires forall id :: id in MadeIds(events, n, a) ==> EndOf(events, n, id).Some?
    ensures FamilyOf(After(events, n).counters, a).active == 0
  {
    CountersTell(events, n, a);
    assert LiveIds(events, n, a) == {};
  }
}
