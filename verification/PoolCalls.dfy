/** What a call comes to. Every task of every run ends as the network's answers to it and the
    cache's contents at its critical sections decide, told without its program counter. */
module PoolCalls {
  import opened PeerPool
  import opened PoolProtocol
  import opened Options

  /** What one task met: lookups that found nothing, connects answered and refused, what the
      cache held under its key after it last looked or inserted, that connection for every
      stream opened and refused, whether the target of each removal was still cached, and
      the connections it closed. */
  datatype Tale = Tale(
    misses: nat,
    connects: nat,
    refused: nat,
    offered: Option<Conn>,
    streams: seq<Option<Conn>>,
    failed: seq<Option<Conn>>,
    removals: seq<bool>,
    closes: seq<Conn>,
    cancelled: bool)

  const UNTOLD := Tale(0, 0, 0, None, [], [], [], [], false)

  /** What the call is out to remove: the given connection, or the one whose open failed. */
  function Target(call: Call, y: Tale): Option<Conn> {
    if call.InvalidateIfSame? then Some(call.expected) else if y.failed == [] then None else y.failed[0]
  }

  /** The tale after one more step of its own. */
  function Tell(s: State, step: Step, key: Key, call: Call, y: Tale): Tale
    requires Enabled(s, step) && !step.Start?
  {
    match step
    case DoLookup(_) => y.(offered := Find(s.pool, key), misses := y.misses + if Has(s.pool, key) then 0 else 1)
    case ConnectOk(_) => y.(connects := y.connects + 1)
    case ConnectErr(_) => y.(connects := y.connects + 1, refused := y.refused + 1)
    case DoInsert(_) => y.(offered := Find(Next(s, step).pool, key))
    case OpenOk(_) => y.(streams := y.streams + [y.offered])
    case OpenErr(_) => y.(failed := y.failed + [y.offered])
    case DoRemove(_) => y.(removals := y.removals + [Find(s.pool, key) == Target(call, y)])
    case DoClose(_) => y.(closes := y.closes + Added(s.closed, Next(s, step).closed))
    case Cancel(_) => y.(cancelled := true)
  }

  function Added(before: seq<Conn>, after: seq<Conn>): seq<Conn> {
    if |before| <= |after| then after[|before|..] else []
  }

  /** The tale of task `t` over a run. */
  function Told(s: State, steps: seq<Step>, t: TaskId, key: Key, call: Call, y: Tale): Tale
    decreases |steps|
  {
    if steps == [] || !Enabled(s, steps[0]) then y else
    Told(Next(s, steps[0]), steps[1..], t, key, call, Heard(s, steps[0], t, key, call, y))
  }

  /** Only steps of `t` add to its tale. */
  function Heard(s: State, step: Step, t: TaskId, key: Key, call: Call, y: Tale): Tale
    requires Enabled(s, step)
  {
    if step.t == t && !step.Start? then Tell(s, step, key, call, y) else y
  }

  // ---------------------------------------------------------------------------
  // Program counter and tale
  // ---------------------------------------------------------------------------

  /** Inside `get_or_connect`, on the way back to `ret`. */
  predicate Bound(ret: Return, call: Call, y: Tale) {
    && y.refused == 0 && y.streams == []
    && match ret
       case ToCaller => call.GetOrConnect? && y.failed == [] && y.removals == []
       case ToFirstOpen => call.OpenStreamObserved? && y.failed == [] && y.removals == []
       case ToRetryOpen(failed) => call.OpenStreamObserved? && y.failed == [Some(failed)] && |y.removals| == 1
  }

  /** The offered connection is not one that this call has closed or is about to close. */
  predicate Offers(y: Tale, conn: Conn) { y.offered == Some(conn) && conn !in y.closes }

  predicate AtPc(pc: Pc, call: Call, y: Tale) {
    match pc
    case Lookup(ret) => Bound(ret, call, y) && y.connects == y.misses
    case Connecting(ret) => Bound(ret, call, y) && y.connects + 1 == y.misses
    case Inserting(ret, _) => Bound(ret, call, y) && y.connects == y.misses
    case ClosingLoser(ret, mine, existing) =>
      Bound(ret, call, y) && y.connects == y.misses && Offers(y, existing) && mine != existing
    case ClosingEvicted(ret, mine, evicted) =>
      Bound(ret, call, y) && y.connects == y.misses && Offers(y, mine) && mine != evicted
    case Opening(conn, retryOf) =>
      && y.refused == 0 && y.streams == [] && y.connects == y.misses && Offers(y, conn) && call.OpenStreamObserved?
      && y.failed == (if retryOf.Some? then [retryOf] else []) && |y.removals| == |y.failed|
    case Invalidating(conn, resume) =>
      && y.refused == 0 && y.streams == [] && y.connects == y.misses && y.removals == []
      && y.failed == (if resume then [Some(conn)] else [])
      && (if resume then call.OpenStreamObserved? else call == InvalidateIfSame(conn) && y.closes == [])
    case ClosingInvalidated(conn, resume) =>
      && y.refused == 0 && y.streams == [] && y.connects == y.misses && y.removals == [true]
      && y.failed == (if resume then [Some(conn)] else [])
      && (if resume then call.OpenStreamObserved? else call == InvalidateIfSame(conn) && y.closes == [])
    case Done(outcome) =>
      y.connects == y.misses && Fits(outcome, call, y)
      && (call.OpenStreamObserved? ==> |y.removals| == Count(y.failed != []))
    case Cancelled => true
  }

  /** The outcome of a finished call, by its tale. */
  predicate Fits(outcome: Outcome, call: Call, y: Tale) {
    match outcome
    case Failed =>
      && !call.InvalidateIfSame? && y.streams == []
      && (|| (y.refused == 1 && |y.failed| <= 1 && (call.GetOrConnect? ==> y.failed == []))
          || (y.refused == 0 && |y.failed| == 2 && call.OpenStreamObserved?))
    case GotConnection(conn) =>
      call.GetOrConnect? && y.refused == 0 && y.streams == [] && y.failed == [] && Offers(y, conn)
    case GotStream(conn) =>
      && call.OpenStreamObserved? && y.refused == 0 && y.streams == [Some(conn)] && |y.failed| <= 1 && Offers(y, conn)
      && Some(conn) !in y.failed
    case Invalidated(removed) =>
      && call.InvalidateIfSame? && y.refused == 0 && y.streams == [] && y.failed == []
      && y.removals == [removed] && y.closes == if removed then [call.expected] else []
  }

  /** A failed open's connection is out of the cache for good once it was dealt with. */
  ghost predicate Reports(s: State, task: Task, key: Key, call: Call, y: Tale) {
    && task.key == key && (y.cancelled <==> task.pc.Cancelled?) && AtPc(task.pc, call, y)
    && (forall c :: c in y.closes ==> c in s.closed)
    && (y.failed != [] && !task.pc.Invalidating? && !task.pc.Cancelled? ==>
          y.failed[0].Some? && Retired(s, y.failed[0].value))
    && (task.pc.Done? && task.pc.outcome.GotConnection? ==> Handed(s, task, task.pc.outcome.conn))
  }

  // ---------------------------------------------------------------------------
  // Every step keeps the two in line
  // ---------------------------------------------------------------------------

  lemma {:induction false} CachedIsOpen(s: State, key: Key)
    requires Inv(s) && Has(s.pool, key)
    ensures Find(s.pool, key).value in s.entered && Find(s.pool, key).value !in s.closed
    ensures IsCached(s, Find(s.pool, key).value) && Find(s.pool, key).value < |s.madeFor|
    ensures s.madeFor[Find(s.pool, key).value] == key
  {
    assert Slot(key, Find(s.pool, key).value) in s.pool;
  }

  lemma {:induction false} LookupTold(s: State, t: TaskId, key: Key, call: Call, y: Tale)
    requires Inv(s) && Enabled(s, DoLookup(t)) && Reports(s, s.tasks[t], key, call, y)
    ensures var s' := Next(s, DoLookup(t)); Reports(s', s'.tasks[t], key, call, Tell(s, DoLookup(t), key, call, y))
  {
    StepKeeps(s, DoLookup(t));
    assert TaskInv(s, s.tasks[t]);
    if Has(s.pool, key) { CachedIsOpen(s, key); }
    StillReports(s, Next(s, DoLookup(t)), y);
  }

  /** What was retired stays so. */
  lemma {:induction false} StillReports(s: State, s': State, y: Tale)
    requires Inv(s) && CacheMoves(s, s')
    ensures y.failed != [] && y.failed[0].Some? && Retired(s, y.failed[0].value) ==> Retired(s', y.failed[0].value)
  {
    if y.failed != [] && y.failed[0].Some? && Retired(s, y.failed[0].value) {
      RetiredStays(s, s', y.failed[0].value);
    }
  }

  /** After an insert the cache offers what it returned. */
  lemma {:induction false} InsertOffers(s: State, t: TaskId)
    requires Inv(s) && Enabled(s, DoInsert(t))
    ensures var key, s' := s.tasks[t].key, Next(s, DoInsert(t));
            var c := Cache(s.pool, s.capacity, key, s.tasks[t].pc.mine);
            && Inv(s') && CacheMoves(s, s') && Find(s'.pool, key) == Some(c.returned) && c.returned !in s'.closed
            && (Has(s.pool, key) ==> c.returned in s.entered && Find(s.pool, key) == Some(c.returned))
            && (!Has(s.pool, key) ==> c.returned == s.tasks[t].pc.mine)
  {
    var key, s' := s.tasks[t].key, Next(s, DoInsert(t));
    var c := Cache(s.pool, s.capacity, key, s.tasks[t].pc.mine);
    StepKeeps(s, DoInsert(t));
    CacheKeeps(s.pool, s.capacity, key, s.tasks[t].pc.mine);
    FindUnique(s'.pool, Slot(key, c.returned));
    CachedIsOpen(s', key);
    if Has(s.pool, key) {
      CachedIsOpen(s, key);
      FindUnique(s.pool, Slot(key, c.returned));
    }
  }

  lemma {:induction false} LosingTold(s: State, t: TaskId, key: Key, call: Call, y: Tale)
    requires Inv(s) && Enabled(s, DoInsert(t)) && Reports(s, s.tasks[t], key, call, y) && Has(s.pool, key)
    ensures var s' := Next(s, DoInsert(t)); Reports(s', s'.tasks[t], key, call, Tell(s, DoInsert(t), key, call, y))
  {
    InsertOffers(s, t);
    assert TaskInv(s, s.tasks[t]);
    StillReports(s, Next(s, DoInsert(t)), y);
  }

  /** What `get_or_connect` hands back is what the cache offered. */
  lemma {:induction false} ResumeAt(task: Task, ret: Return, conn: Conn, call: Call, y: Tale)
    requires Bound(ret, call, y) && y.connects == y.misses && Offers(y, conn)
    ensures AtPc(Resume(task, ret, conn).pc, call, y) && !Resume(task, ret, conn).pc.Cancelled?
    ensures Resume(task, ret, conn).key == task.key
  {
  }

  lemma {:induction false} CachedOnTheWay(s: State, t: TaskId, call: Call, y: Tale)
    requires Inv(s) && Enabled(s, DoInsert(t)) && !Has(s.pool, s.tasks[t].key) && AtPc(s.tasks[t].pc, call, y)
    requires s.tasks[t].pc.mine !in s.entered && s.tasks[t].pc.mine !in y.closes
    ensures var s', y' := Next(s, DoInsert(t)), Tell(s, DoInsert(t), s.tasks[t].key, call, y);
            && y' == y.(offered := Some(s.tasks[t].pc.mine))
            && AtPc(s'.tasks[t].pc, call, y') && !s'.tasks[t].pc.Cancelled? && s'.tasks[t].key == s.tasks[t].key
  {
    var task, y' := s.tasks[t], Tell(s, DoInsert(t), s.tasks[t].key, call, y);
    InsertOffers(s, t);
    assert s.pool != [] ==> s.pool[0] in s.pool;
    ResumeAt(task, task.pc.ret, task.pc.mine, call, y');
  }

  lemma {:induction false} WinningTold(s: State, t: TaskId, key: Key, call: Call, y: Tale)
    requires Inv(s) && Enabled(s, DoInsert(t)) && Reports(s, s.tasks[t], key, call, y) && !Has(s.pool, key)
    ensures var s' := Next(s, DoInsert(t)); Reports(s', s'.tasks[t], key, call, Tell(s, DoInsert(t), key, call, y))
  {
    var s' := Next(s, DoInsert(t));
    InsertOffers(s, t);
    assert TaskInv(s, s.tasks[t]) && Loose(s, s.tasks[t].pc.mine);
    CachedOnTheWay(s, t, call, y);
    StillReports(s, s', y);
  }

  /** A loser or an evicted connection is closed on the way back. */
  lemma {:induction false} ClosedOnTheWay(s: State, t: TaskId, call: Call, y: Tale)
    requires Inv(s) && Enabled(s, DoClose(t)) && !s.tasks[t].pc.ClosingInvalidated? && AtPc(s.tasks[t].pc, call, y)
    ensures var s', y' := Next(s, DoClose(t)), Tell(s, DoClose(t), s.tasks[t].key, call, y);
            && y' == y.(closes := y.closes + [Owned(s.tasks[t].pc).value])
            && s'.closed == s.closed + [Owned(s.tasks[t].pc).value]
            && AtPc(s'.tasks[t].pc, call, y') && !s'.tasks[t].pc.Cancelled? && s'.tasks[t].key == s.tasks[t].key
  {
    var task, s', y' := s.tasks[t], Next(s, DoClose(t)), Tell(s, DoClose(t), s.tasks[t].key, call, y);
    var conn := if task.pc.ClosingLoser? then task.pc.existing else task.pc.mine;
    assert Added(s.closed, s'.closed) == [Owned(task.pc).value];
    ResumeAt(task, task.pc.ret, conn, call, y');
  }

  lemma {:induction false} CloseTold(s: State, t: TaskId, key: Key, call: Call, y: Tale)
    requires Inv(s) && Enabled(s, DoClose(t)) && Reports(s, s.tasks[t], key, call, y)
    requires !s.tasks[t].pc.ClosingInvalidated?
    ensures var s' := Next(s, DoClose(t)); Reports(s', s'.tasks[t], key, call, Tell(s, DoClose(t), key, call, y))
  {
    var s' := Next(s, DoClose(t));
    StepKeeps(s, DoClose(t));
    assert TaskInv(s, s.tasks[t]);
    ClosedOnTheWay(s, t, call, y);
    StillReports(s, s', y);
  }

  lemma {:induction false} CloseInvalidatedTold(s: State, t: TaskId, key: Key, call: Call, y: Tale)
    requires Inv(s) && Enabled(s, DoClose(t)) && Reports(s, s.tasks[t], key, call, y)
    requires s.tasks[t].pc.ClosingInvalidated?
    ensures var s' := Next(s, DoClose(t)); Reports(s', s'.tasks[t], key, call, Tell(s, DoClose(t), key, call, y))
  {
    var s' := Next(s, DoClose(t));
    StepKeeps(s, DoClose(t));
    assert TaskInv(s, s.tasks[t]) && TaskInv(s', s'.tasks[t]);
    assert Added(s.closed, s'.closed) == [s.tasks[t].pc.conn];
    StillReports(s, s', y);
  }

  lemma {:induction false} RemoveTold(s: State, t: TaskId, key: Key, call: Call, y: Tale)
    requires Inv(s) && Enabled(s, DoRemove(t)) && Reports(s, s.tasks[t], key, call, y)
    ensures var s' := Next(s, DoRemove(t)); Reports(s', s'.tasks[t], key, call, Tell(s, DoRemove(t), key, call, y))
  {
    var s' := Next(s, DoRemove(t));
    StepKeeps(s, DoRemove(t));
    assert TaskInv(s, s.tasks[t]) && TaskInv(s', s'.tasks[t]);
    assert Target(call, y) == Some(s.tasks[t].pc.conn);
    StillReports(s, s', y);
  }

  /** The remaining steps change no more than one task and the record of what was made. */
  lemma {:induction false} NetworkTold(s: State, step: Step, key: Key, call: Call, y: Tale)
    requires Inv(s) && Enabled(s, step) && !step.Start? && Reports(s, s.tasks[step.t], key, call, y)
    requires step.ConnectOk? || step.ConnectErr? || step.OpenOk? || step.OpenErr? || step.Cancel?
    ensures var s' := Next(s, step); Reports(s', s'.tasks[step.t], key, call, Tell(s, step, key, call, y))
  {
    StepKeeps(s, step);
    assert TaskInv(s, s.tasks[step.t]);
    StillReports(s, Next(s, step), y);
  }

  lemma {:induction false} OwnStepTold(s: State, step: Step, key: Key, call: Call, y: Tale)
    requires Inv(s) && Enabled(s, step) && !step.Start? && Reports(s, s.tasks[step.t], key, call, y)
    ensures var s' := Next(s, step); Reports(s', s'.tasks[step.t], key, call, Tell(s, step, key, call, y))
  {
    match step
    case DoLookup(t) => LookupTold(s, t, key, call, y);
    case DoInsert(t) =>
      if Has(s.pool, key) { LosingTold(s, t, key, call, y); } else { WinningTold(s, t, key, call, y); }
    case DoClose(t) =>
      if s.tasks[t].pc.ClosingInvalidated? { CloseInvalidatedTold(s, t, key, call, y); }
      else { CloseTold(s, t, key, call, y); }
    case DoRemove(t) => RemoveTold(s, t, key, call, y);
    case _ => NetworkTold(s, step, key, call, y);
  }

  /** Closing only ever adds to the log. */
  lemma {:induction false} ClosedGrows(s: State, step: Step)
    requires Enabled(s, step)
    ensures forall c :: c in s.closed ==> c in Next(s, step).closed
  {
  }

  lemma {:induction false} OtherStepTold(s: State, step: Step, t: TaskId, key: Key, call: Call, y: Tale)
    requires Inv(s) && Enabled(s, step) && step.t != t && t in s.tasks && Reports(s, s.tasks[t], key, call, y)
    ensures var s' := Next(s, step); t in s'.tasks && Reports(s', s'.tasks[t], key, call, y)
  {
    var s' := Next(s, step);
    StepKeeps(s, step);
    assert s'.tasks[t] == s.tasks[t];
    ClosedGrows(s, step);
    StillReports(s, s', y);
    assert forall c :: 0 <= c < |s.madeFor| ==> s'.madeFor[c] == s'.madeFor[..|s.madeFor|][c] == s.madeFor[c];
  }

  lemma {:induction false} StepTold(s: State, step: Step, t: TaskId, key: Key, call: Call, y: Tale)
    requires Inv(s) && Enabled(s, step) && t in s.tasks && Reports(s, s.tasks[t], key, call, y)
    ensures var s' := Next(s, step);
            Inv(s') && t in s'.tasks && Reports(s', s'.tasks[t], key, call, Heard(s, step, t, key, call, y))
  {
    StepKeeps(s, step);
    if step.t == t {
      OwnStepTold(s, step, key, call, y);
    } else {
      OtherStepTold(s, step, t, key, call, y);
    }
  }

  lemma {:induction false} RunTold(s: State, steps: seq<Step>, t: TaskId, key: Key, call: Call, y: Tale)
    requires Inv(s) && t in s.tasks && Reports(s, s.tasks[t], key, call, y)
    ensures var s' := Run(s, steps);
            t in s'.tasks && Reports(s', s'.tasks[t], key, call, Told(s, steps, t, key, call, y))
    decreases |steps|
  {
    if steps != [] && Enabled(s, steps[0]) {
      StepTold(s, steps[0], t, key, call, y);
      RunTold(Next(s, steps[0]), steps[1..], t, key, call, Heard(s, steps[0], t, key, call, y));
    }
  }

  // ---------------------------------------------------------------------------
  // The outcome of a call
  // ---------------------------------------------------------------------------

  lemma {:induction false} CallTold(s: State, t: TaskId, key: Key, call: Call, steps: seq<Step>)
    requires Reachable(s) && Enabled(s, Start(t, key, call))
    ensures var first := Next(s, Start(t, key, call));
            var s' := Run(first, steps);
            t in s'.tasks && Reports(s', s'.tasks[t], key, call, Told(first, steps, t, key, call, UNTOLD))
  {
    ReachableInv(s);
    StepKeeps(s, Start(t, key, call));
    RunTold(Next(s, Start(t, key, call)), steps, t, key, call, UNTOLD);
  }

  /** A stream open that was not cancelled fails exactly when a connect was refused or two
      opens failed, and otherwise ends with the stream it opened, on the connection the cache
      last offered. It connects as often as it found nothing cached. After a failed open the
      connection is gone from the cache and another one was used. */
  lemma {:induction false} StreamOpenOutcome(s: State, t: TaskId, key: Key, steps: seq<Step>)
    requires Reachable(s) && Enabled(s, Start(t, key, OpenStreamObserved))
    ensures var first := Next(s, Start(t, key, OpenStreamObserved));
            var s', y := Run(first, steps), Told(first, steps, t, key, OpenStreamObserved, UNTOLD);
            t in s'.tasks &&
            var pc := s'.tasks[t].pc;
            && (pc.Cancelled? <==> y.cancelled)
            && (pc.Done? ==>
                  && y.connects == y.misses && |y.failed| <= 2 && |y.removals| == Count(y.failed != [])
                  && (pc.outcome == Failed <==> y.refused == 1 || |y.failed| == 2)
                  && (pc.outcome != Failed <==> |y.streams| == 1)
                  && (pc.outcome != Failed ==>
                        && y.offered.Some? && pc.outcome == GotStream(y.offered.value) && y.streams == [y.offered]
                        && y.offered !in y.failed && y.offered.value !in y.closes)
                  && (y.failed != [] ==>
                        y.failed[0].Some? && y.failed[0].value in s'.entered && !IsCached(s', y.failed[0].value)))
  {
    CallTold(s, t, key, OpenStreamObserved, steps);
  }

  /** A `get_or_connect` that was not cancelled fails exactly when its connect was refused,
      and otherwise returns what the cache last offered under its key, a connection made for
      that key which the call itself did not close. */
  lemma {:induction false} GetOrConnectOutcome(s: State, t: TaskId, key: Key, steps: seq<Step>)
    requires Reachable(s) && Enabled(s, Start(t, key, GetOrConnect))
    ensures var first := Next(s, Start(t, key, GetOrConnect));
            var s', y := Run(first, steps), Told(first, steps, t, key, GetOrConnect, UNTOLD);
            t in s'.tasks &&
            var pc := s'.tasks[t].pc;
            && (pc.Cancelled? <==> y.cancelled)
            && (pc.Done? ==>
                  && y.connects == y.misses
                  && (pc.outcome == Failed <==> y.refused == 1)
                  && (pc.outcome != Failed ==>
                        && y.offered.Some? && pc.outcome == GotConnection(y.offered.value)
                        && y.offered.value in s'.entered && y.offered.value < |s'.madeFor|
                        && s'.madeFor[y.offered.value] == key && y.offered.value !in y.closes))
  {
    CallTold(s, t, key, GetOrConnect, steps);
  }

  /** An invalidation that was not cancelled reports whether the expected connection was still
      cached under the key at its critical section, and closes it exactly then. */
  lemma {:induction false} InvalidationOutcome(s: State, t: TaskId, key: Key, expected: Conn, steps: seq<Step>)
    requires Reachable(s) && Enabled(s, Start(t, key, InvalidateIfSame(expected)))
    ensures var call := InvalidateIfSame(expected);
            var first := Next(s, Start(t, key, call));
            var s', y := Run(first, steps), Told(first, steps, t, key, call, UNTOLD);
            t in s'.tasks &&
            var pc := s'.tasks[t].pc;
            && (pc.Cancelled? <==> y.cancelled)
            && (pc.Done? ==>
                  && |y.removals| == 1 && pc.outcome == Invalidated(y.removals[0])
                  && y.closes == if y.removals[0] then [expected] else [])
  {
    CallTold(s, t, key, InvalidateIfSame(expected), steps);
  }

  // ---------------------------------------------------------------------------
  // Every call can be made and ends
  // ---------------------------------------------------------------------------

  lemma {:induction false} NotCancelled(s: State, steps: seq<Step>, t: TaskId, key: Key, call: Call, y: Tale)
    requires NoCancel(steps) && !y.cancelled
    ensures !Told(s, steps, t, key, call, y).cancelled
    decreases |steps|
  {
    if steps != [] && Enabled(s, steps[0]) {
      NotCancelled(Next(s, steps[0]), steps[1..], t, key, call, Heard(s, steps[0], t, key, call, y));
    }
  }

  /** A new call can be made at any time, and a run without cancellations brings it to one of
      the outcomes above. */
  lemma {:induction false} CallsComplete(s: State, t: TaskId, key: Key, call: Call) returns (steps: seq<Step>)
    requires Reachable(s) && t !in s.tasks && (call.InvalidateIfSame? ==> call.expected in s.entered)
    ensures Enabled(s, Start(t, key, call))
    ensures var first := Next(s, Start(t, key, call));
            && NoStart(steps) && NoCancel(steps) && Executes(first, steps)
            && t in Run(first, steps).tasks && Run(first, steps).tasks[t].pc.Done?
  {
    var first := Next(s, Start(t, key, call));
    ReachableInv(s);
    StepKeeps(s, Start(t, key, call));
    steps := CanAlwaysFinish(first);
    RunKeeps(first, steps);
    StuckIsDrained(Run(first, steps));
    CallTold(s, t, key, call, steps);
    NotCancelled(first, steps, t, key, call, UNTOLD);
  }

  // ---------------------------------------------------------------------------
  // How full the cache gets
  // ---------------------------------------------------------------------------

  lemma {:induction false} CapacityStays(s: State, steps: seq<Step>)
    ensures Run(s, steps).capacity == s.capacity
    decreases |steps|
  {
    if steps != [] && Enabled(s, steps[0]) { CapacityStays(Next(s, steps[0]), steps[1..]); }
  }

  /** The pool holds at most as many connections as it was created for, or one if that was
      zero; only an insert into a full pool evicts, and then the one unused for longest. */
  lemma {:induction false} CapacityIsUsed(capacity: nat, steps: seq<Step>, t: TaskId)
    ensures var s, limit := Run(Initial(capacity), steps), if capacity == 0 then 1 else capacity;
            && |s.pool| <= limit
            && (Enabled(s, DoInsert(t)) ==>
                  var pc := Next(s, DoInsert(t)).tasks[t].pc;
                  && (pc.ClosingEvicted? <==> !Has(s.pool, s.tasks[t].key) && |s.pool| == limit)
                  && (pc.ClosingEvicted? ==> s.pool != [] && pc.evicted == s.pool[0].connection))
  {
    var s := Run(Initial(capacity), steps);
    InitialInv(capacity);
    RunKeeps(Initial(capacity), steps);
    CapacityStays(Initial(capacity), steps);
    if Enabled(s, DoInsert(t)) { CacheKeeps(s.pool, s.capacity, s.tasks[t].key, s.tasks[t].pc.mine); }
  }
}
