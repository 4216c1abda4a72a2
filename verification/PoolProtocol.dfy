/** Any number of tasks interleaving over one connection pool. A step is one
    critical section, one network event, one close, or a cancellation at an await. */
module PoolProtocol {
  import opened PeerPool
  import opened Options

  type TaskId = nat

  /** Who called `get_or_connect`. */
  datatype Return = ToCaller | ToFirstOpen | ToRetryOpen(failed: Conn)

  datatype Outcome = Failed | GotConnection(conn: Conn) | GotStream(conn: Conn) | Invalidated(removed: bool)

  /** A program counter for every await, with the connections held across it. */
  datatype Pc =
    | Lookup(ret: Return)
    | Connecting(ret: Return)
    | Inserting(ret: Return, mine: Conn)
    | ClosingLoser(ret: Return, mine: Conn, existing: Conn)
    | ClosingEvicted(ret: Return, mine: Conn, evicted: Conn)
    | Opening(conn: Conn, retryOf: Option<Conn>)
    | Invalidating(conn: Conn, resume: bool)
    | ClosingInvalidated(conn: Conn, resume: bool)
    | Done(outcome: Outcome)
    | Cancelled

  /** `observed` is the last value passed to the caller's `observe` callback. */
  datatype Task = Task(key: Key, pc: Pc, observed: Option<Conn>)

  /** Connection `c` is the `c`-th one the network returned, made for `madeFor[c]`.
      `closed` logs the close calls, `dropped` the connections a cancelled task was
      still responsible for, `entered` the connections that were ever cached. */
  datatype State = State(
    pool: Recency,
    capacity: nat,
    tasks: map<TaskId, Task>,
    madeFor: seq<Key>,
    closed: seq<Conn>,
    dropped: set<Conn>,
    entered: set<Conn>)

  datatype Call = GetOrConnect | OpenStreamObserved | InvalidateIfSame(expected: Conn)

  datatype Step =
    | Start(t: TaskId, key: Key, call: Call)
    | DoLookup(t: TaskId)
    | ConnectOk(t: TaskId)
    | ConnectErr(t: TaskId)
    | DoInsert(t: TaskId)
    | DoClose(t: TaskId)
    | OpenOk(t: TaskId)
    | OpenErr(t: TaskId)
    | DoRemove(t: TaskId)
    | Cancel(t: TaskId)

  predicate Finished(pc: Pc) { pc.Done? || pc.Cancelled? }

  predicate Closing(pc: Pc) { pc.ClosingLoser? || pc.ClosingEvicted? || pc.ClosingInvalidated? }

  /** The one connection a task alone is responsible for at this point, if any. */
  function Owned(pc: Pc): Option<Conn> {
    match pc
    case Inserting(_, mine) => Some(mine)
    case ClosingLoser(_, mine, _) => Some(mine)
    case ClosingEvicted(_, _, evicted) => Some(evicted)
    case ClosingInvalidated(conn, _) => Some(conn)
    case _ => None
  }

  predicate Enabled(s: State, step: Step) {
    if step.Start? then
      step.t !in s.tasks && (step.call.InvalidateIfSame? ==> step.call.expected in s.entered)
    else
      step.t in s.tasks &&
      var pc := s.tasks[step.t].pc;
      match step
      case DoLookup(_) => pc.Lookup?
      case ConnectOk(_) => pc.Connecting?
      case ConnectErr(_) => pc.Connecting?
      case DoInsert(_) => pc.Inserting?
      case DoClose(_) => Closing(pc)
      case OpenOk(_) => pc.Opening?
      case OpenErr(_) => pc.Opening?
      case DoRemove(_) => pc.Invalidating?
      case Cancel(_) => !Finished(pc)
  }

  /** `get_or_connect` hands `conn` back; inside `open_stream_observed` it is
      observed and its `open_stream` starts. */
  function Resume(task: Task, ret: Return, conn: Conn): Task {
    match ret
    case ToCaller => task.(pc := Done(GotConnection(conn)))
    case ToFirstOpen => task.(pc := Opening(conn, None), observed := Some(conn))
    case ToRetryOpen(failed) => task.(pc := Opening(conn, Some(failed)), observed := Some(conn))
  }

  /** The invalidation of `conn` is over; a stream open then retries, unobserved. */
  function AfterInvalidation(task: Task, conn: Conn, resume: bool, removed: bool): Task {
    if resume then task.(pc := Lookup(ToRetryOpen(conn)), observed := None)
    else task.(pc := Done(Invalidated(removed)))
  }

  function Put(s: State, t: TaskId, task: Task): State {
    s.(tasks := s.tasks[t := task])
  }

  function StartTask(key: Key, call: Call): Task {
    match call
    case GetOrConnect => Task(key, Lookup(ToCaller), None)
    case OpenStreamObserved => Task(key, Lookup(ToFirstOpen), None)
    case InvalidateIfSame(expected) => Task(key, Invalidating(expected, false), None)
  }

  function InsertResult(s: State, t: TaskId, task: Task): State
    requires task.pc.Inserting?
  {
    var ret, mine := task.pc.ret, task.pc.mine;
    var c := Cache(s.pool, s.capacity, task.key, mine);
    if Has(s.pool, task.key) then
      Put(s, t, task.(pc := ClosingLoser(ret, mine, c.returned))).(pool := c.list)
    else
      var task' := match c.toClose
        case Some(evicted) => task.(pc := ClosingEvicted(ret, mine, evicted))
        case None => Resume(task, ret, mine);
      Put(s, t, task').(pool := c.list, entered := s.entered + {mine})
  }

  function CloseResult(s: State, t: TaskId, task: Task): State
    requires Closing(task.pc)
  {
    var s' := s.(closed := s.closed + [Owned(task.pc).value]);
    match task.pc
    case ClosingLoser(ret, _, existing) => Put(s', t, Resume(task, ret, existing))
    case ClosingEvicted(ret, mine, _) => Put(s', t, Resume(task, ret, mine))
    case ClosingInvalidated(conn, resume) => Put(s', t, AfterInvalidation(task, conn, resume, true))
  }

  function RemoveResult(s: State, t: TaskId, task: Task): State
    requires task.pc.Invalidating?
  {
    var conn, resume := task.pc.conn, task.pc.resume;
    if Find(s.pool, task.key) == Some(conn) then
      Put(s, t, task.(pc := ClosingInvalidated(conn, resume))).(pool := RemoveIfSame(s.pool, task.key, conn))
    else
      Put(s, t, AfterInvalidation(task, conn, resume, false))
  }

  function Next(s: State, step: Step): State
    requires Enabled(s, step)
  {
    if step.Start? then Put(s, step.t, StartTask(step.key, step.call)) else
    var t, task := step.t, s.tasks[step.t];
    match step
    case DoLookup(_) =>
      (match Find(s.pool, task.key)
       case Some(conn) => Put(s, t, Resume(task, task.pc.ret, conn)).(pool := Touch(s.pool, task.key))
       case None => Put(s, t, task.(pc := Connecting(task.pc.ret))))
    case ConnectOk(_) =>
      Put(s, t, task.(pc := Inserting(task.pc.ret, |s.madeFor|))).(madeFor := s.madeFor + [task.key])
    case ConnectErr(_) => Put(s, t, task.(pc := Done(Failed)))
    case DoInsert(_) => InsertResult(s, t, task)
    case DoClose(_) => CloseResult(s, t, task)
    case OpenOk(_) => Put(s, t, task.(pc := Done(GotStream(task.pc.conn))))
    case OpenErr(_) =>
      Put(s, t, task.(pc := if task.pc.retryOf.None? then Invalidating(task.pc.conn, true) else Done(Failed)))
    case DoRemove(_) => RemoveResult(s, t, task)
    case Cancel(_) =>
      Put(s, t, task.(pc := Cancelled)).(dropped := s.dropped + OwnedSet(task.pc))
  }

  function OwnedSet(pc: Pc): set<Conn> {
    match Owned(pc) case Some(c) => {c} case None => {}
  }

  function Initial(capacity: nat): State {
    State([], if capacity >= 1 then capacity else 1, map[], [], [], {}, {})
  }

  /** The state after a run; a run stops at its first step that is not enabled. */
  function Run(s: State, steps: seq<Step>): State
    decreases |steps|
  {
    if steps == [] || !Enabled(s, steps[0]) then s else Run(Next(s, steps[0]), steps[1..])
  }

  // ---------------------------------------------------------------------------
  // The invariant
  // ---------------------------------------------------------------------------

  /** Because a connection is cached only under the key it was made for, this says
      that it is cached at all. */
  predicate IsCached(s: State, c: Conn) {
    c < |s.madeFor| && Slot(s.madeFor[c], c) in s.pool
  }

  ghost predicate PoolInv(s: State) {
    && WellFormed(s.pool, s.capacity)
    && (forall sl :: sl in s.pool ==>
          sl.connection < |s.madeFor| && s.madeFor[sl.connection] == sl.key && sl.connection in s.entered)
  }

  /** A connection that has not been handed to anyone: in no pool, never closed. */
  predicate Loose(s: State, c: Conn) {
    c < |s.madeFor| && !IsCached(s, c) && c !in s.closed && c !in s.dropped
  }

  ghost predicate OwnedInv(s: State) {
    && (forall t :: t in s.tasks && Owned(s.tasks[t].pc).Some? ==> Loose(s, Owned(s.tasks[t].pc).value))
    && (forall t, u :: t in s.tasks && u in s.tasks && t != u && Owned(s.tasks[t].pc).Some? ==>
                         Owned(s.tasks[t].pc) != Owned(s.tasks[u].pc))
  }

  ghost predicate GoneInv(s: State) {
    && (forall i, j :: 0 <= i < j < |s.closed| ==> s.closed[i] != s.closed[j])
    && (forall c :: c in s.closed ==> c < |s.madeFor| && !IsCached(s, c) && c !in s.dropped)
    && (forall c :: c in s.dropped ==> c < |s.madeFor| && !IsCached(s, c))
    && (forall c :: c in s.entered ==> c < |s.madeFor|)
  }

  ghost predicate OwnedBySome(s: State, c: Conn) {
    exists t :: t in s.tasks && Owned(s.tasks[t].pc) == Some(c)
  }

  ghost predicate TotalInv(s: State) {
    forall c {:trigger s.madeFor[c]} :: 0 <= c < |s.madeFor| ==>
      IsCached(s, c) || c in s.closed || c in s.dropped || OwnedBySome(s, c)
  }

  /** `failed` was cached once and is not any more, so it can never be handed out again. */
  predicate Retired(s: State, failed: Conn) {
    failed in s.entered && !IsCached(s, failed)
  }

  ghost predicate ReturnInv(s: State, ret: Return) {
    ret.ToRetryOpen? ==> Retired(s, ret.failed)
  }

  /** `c` was cached once, under the key of this task. */
  predicate Handed(s: State, task: Task, c: Conn) {
    c in s.entered && c < |s.madeFor| && s.madeFor[c] == task.key
  }

  ghost predicate TaskInv(s: State, task: Task) {
    match task.pc
    case Lookup(ret) => ReturnInv(s, ret) && task.observed.None?
    case Connecting(ret) => ReturnInv(s, ret) && task.observed.None?
    case Inserting(ret, mine) =>
      ReturnInv(s, ret) && task.observed.None? &&
      mine !in s.entered && mine < |s.madeFor| && s.madeFor[mine] == task.key
    case ClosingLoser(ret, mine, existing) =>
      ReturnInv(s, ret) && task.observed.None? && Handed(s, task, existing) && ret != ToRetryOpen(existing)
    case ClosingEvicted(ret, mine, evicted) =>
      ReturnInv(s, ret) && task.observed.None? && Handed(s, task, mine) && ret != ToRetryOpen(mine)
    case Opening(conn, retryOf) =>
      Handed(s, task, conn) && task.observed == Some(conn) &&
      (retryOf.Some? ==> Retired(s, retryOf.value) && conn != retryOf.value)
    case Invalidating(conn, resume) =>
      conn in s.entered && (resume ==> Handed(s, task, conn) && task.observed == Some(conn))
    case ClosingInvalidated(conn, resume) =>
      Retired(s, conn) && (resume ==> task.observed == Some(conn))
    case Done(outcome) =>
      (outcome.GotStream? ==> task.observed == Some(outcome.conn) && outcome.conn in s.entered)
    case Cancelled => true
  }

  ghost predicate TasksInv(s: State) {
    forall t :: t in s.tasks ==> TaskInv(s, s.tasks[t])
  }

  ghost predicate Inv(s: State) {
    PoolInv(s) && OwnedInv(s) && GoneInv(s) && TotalInv(s) && TasksInv(s)
  }

  lemma {:induction false} InitialInv(capacity: nat)
    ensures Inv(Initial(capacity))
  {
  }

  // ---------------------------------------------------------------------------
  // What a step may do to the cache
  // ---------------------------------------------------------------------------

  /** Only a connection that was never cached can become cached, and whatever
      leaves the cache stays created and entered. */
  ghost predicate CacheMoves(s: State, s': State) {
    && s.entered <= s'.entered
    && |s.madeFor| <= |s'.madeFor| && s'.madeFor[..|s.madeFor|] == s.madeFor
    && (forall c :: c in s.entered && !IsCached(s, c) ==> !IsCached(s', c))
  }

  lemma {:induction false} RetiredStays(s: State, s': State, c: Conn)
    requires GoneInv(s) && CacheMoves(s, s') && Retired(s, c)
    ensures Retired(s', c)
  {
  }

  /** Tasks other than the moving one keep their invariant. */
  lemma {:induction false} OthersKeep(s: State, s': State, task: Task)
    requires GoneInv(s) && CacheMoves(s, s') && TaskInv(s, task)
    requires task.pc.Inserting? ==> task.pc.mine !in s'.entered
    ensures TaskInv(s', task)
  {
    forall c | Retired(s, c) ensures Retired(s', c) { RetiredStays(s, s', c); }
    assert forall c :: 0 <= c < |s.madeFor| ==> s'.madeFor[c] == s'.madeFor[..|s.madeFor|][c] == s.madeFor[c];
  }

  ghost predicate OnlyTaskMoves(s: State, s': State, t: TaskId) {
    && t in s'.tasks && s'.tasks == s.tasks[t := s'.tasks[t]]
    && CacheMoves(s, s')
  }

  function OwnedAt(s: State, t: TaskId): Option<Conn> {
    if t in s.tasks then Owned(s.tasks[t].pc) else None
  }

  /** Enough to re-establish the invariants of tasks after `t` moved. */
  lemma {:induction false} TasksKeep(s: State, s': State, t: TaskId)
    requires Inv(s) && OnlyTaskMoves(s, s', t)
    requires TaskInv(s', s'.tasks[t])
    requires s'.entered == s.entered || (OwnedAt(s, t).Some? && s'.entered == s.entered + {OwnedAt(s, t).value})
    ensures TasksInv(s')
  {
    forall u | u in s'.tasks && u != t ensures TaskInv(s', s'.tasks[u]) {
      OthersKeep(s, s', s.tasks[u]);
    }
  }

  /** A step that neither creates, caches, uncaches, closes nor drops a connection. */
  lemma {:induction false} QuietStep(s: State, s': State, t: TaskId)
    requires Inv(s) && t in s'.tasks && s'.tasks == s.tasks[t := s'.tasks[t]]
    requires s' == s.(pool := s'.pool, tasks := s'.tasks)
    requires WellFormed(s'.pool, s'.capacity) && forall sl :: sl in s'.pool <==> sl in s.pool
    requires OwnedAt(s, t).None? && OwnedAt(s', t).None?
    requires TaskInv(s', s'.tasks[t])
    ensures Inv(s') && CacheMoves(s, s')
  {
    assert forall c :: IsCached(s', c) <==> IsCached(s, c);
    assert CacheMoves(s, s');
    TasksKeep(s, s', t);
    assert forall u :: u in s.tasks && Owned(s.tasks[u].pc).Some? ==> u != t && s'.tasks[u] == s.tasks[u];
    forall c | 0 <= c < |s'.madeFor|
      ensures IsCached(s', c) || c in s'.closed || c in s'.dropped || OwnedBySome(s', c)
    {
      assert s.madeFor[c] == s'.madeFor[c];
      if OwnedBySome(s, c) {
        var u :| u in s.tasks && Owned(s.tasks[u].pc) == Some(c);
        assert Owned(s'.tasks[u].pc) == Some(c);
      }
    }
  }

  /** The place of `c` does not change. */
  ghost predicate SamePlace(s: State, s': State, c: Conn) {
    && (IsCached(s', c) <==> IsCached(s, c))
    && (c in s'.closed <==> c in s.closed)
    && (c in s'.dropped <==> c in s.dropped)
  }

  /** A step that passes responsibility: `t` gives up what it owned to the cache, the
      close log or the dropped set, and takes on at most one connection nobody owned. */
  lemma {:induction false} Transfer(s: State, s': State, t: TaskId)
    requires Inv(s) && OnlyTaskMoves(s, s', t) && PoolInv(s') && GoneInv(s')
    requires forall c ::
             0 <= c < |s.madeFor| && OwnedAt(s, t) != Some(c) && OwnedAt(s', t) != Some(c) ==> SamePlace(s, s', c)
    requires forall c :: |s.madeFor| <= c < |s'.madeFor| ==> OwnedAt(s', t) == Some(c)
    requires OwnedAt(s', t).Some? ==>
               Loose(s', OwnedAt(s', t).value) &&
               (OwnedAt(s', t) == OwnedAt(s, t) || !OwnedBySome(s, OwnedAt(s', t).value))
    requires OwnedAt(s, t).Some? && OwnedAt(s', t) != OwnedAt(s, t) ==> !Loose(s', OwnedAt(s, t).value)
    ensures OwnedInv(s') && TotalInv(s')
  {
    var o, o' := OwnedAt(s, t), OwnedAt(s', t);
    forall u | u in s'.tasks && u != t && Owned(s'.tasks[u].pc).Some?
      ensures Loose(s', Owned(s'.tasks[u].pc).value) && Owned(s'.tasks[u].pc) != o'
    {
      var c := Owned(s.tasks[u].pc).value;
      assert Loose(s, c) && OwnedBySome(s, c);
      assert o != Some(c);
      assert SamePlace(s, s', c);
    }
    forall c | 0 <= c < |s'.madeFor|
      ensures IsCached(s', c) || c in s'.closed || c in s'.dropped || OwnedBySome(s', c)
    {
      if o' == Some(c) {
        assert Owned(s'.tasks[t].pc) == Some(c);
      } else if o != Some(c) {
        assert s.madeFor[c] == s'.madeFor[..|s.madeFor|][c];
        assert SamePlace(s, s', c);
        if OwnedBySome(s, c) {
          var u :| u in s.tasks && Owned(s.tasks[u].pc) == Some(c);
          assert Owned(s'.tasks[u].pc) == Some(c);
        }
      }
    }
  }

  lemma {:induction false} LookupKeeps(s: State, t: TaskId)
    requires Inv(s) && Enabled(s, DoLookup(t))
    ensures Inv(Next(s, DoLookup(t))) && CacheMoves(s, Next(s, DoLookup(t)))
  {
    var s', task := Next(s, DoLookup(t)), s.tasks[t];
    TouchKeeps(s.pool, s.capacity, task.key);
    if Has(s.pool, task.key) {
      var conn := Find(s.pool, task.key).value;
      assert IsCached(s, conn) && Handed(s, task, conn);
      assert forall c :: IsCached(s', c) <==> IsCached(s, c);
    }
    QuietStep(s, s', t);
  }

  lemma {:induction false} ConnectKeeps(s: State, t: TaskId)
    requires Inv(s) && Enabled(s, ConnectOk(t))
    ensures Inv(Next(s, ConnectOk(t))) && CacheMoves(s, Next(s, ConnectOk(t)))
  {
    var s' := Next(s, ConnectOk(t));
    var mine := |s.madeFor|;
    assert forall c :: 0 <= c < mine ==> s'.madeFor[c] == s.madeFor[c] && (IsCached(s', c) <==> IsCached(s, c));
    assert s'.madeFor[..mine] == s.madeFor;
    assert CacheMoves(s, s');
    TasksKeep(s, s', t);
    Transfer(s, s', t);
  }

  lemma {:induction false} LosingSlots(s: State, t: TaskId)
    requires Inv(s) && Enabled(s, DoInsert(t)) && Has(s.pool, s.tasks[t].key)
    ensures var s' := Next(s, DoInsert(t));
            && (forall c :: IsCached(s', c) <==> IsCached(s, c)) && CacheMoves(s, s')
            && PoolInv(s') && GoneInv(s') && TaskInv(s', s'.tasks[t])
            && OwnedAt(s', t) == OwnedAt(s, t) && OwnedAt(s', t).Some? && Loose(s', OwnedAt(s', t).value)
  {
    var s', task := Next(s, DoInsert(t)), s.tasks[t];
    var existing := Find(s.pool, task.key).value;
    TouchKeeps(s.pool, s.capacity, task.key);
    assert TaskInv(s, task) && Loose(s, task.pc.mine);
    assert IsCached(s, existing) && Handed(s, task, existing);
    assert forall c :: IsCached(s', c) <==> IsCached(s, c);
  }

  /** The insert race was lost: the cache is only reordered. */
  lemma {:induction false} InsertLosing(s: State, t: TaskId)
    requires Inv(s) && Enabled(s, DoInsert(t)) && Has(s.pool, s.tasks[t].key)
    ensures Inv(Next(s, DoInsert(t))) && CacheMoves(s, Next(s, DoInsert(t)))
  {
    var s' := Next(s, DoInsert(t));
    LosingSlots(s, t);
    TasksKeep(s, s', t);
    Transfer(s, s', t);
  }

  /** The new connection is cached; at most the oldest one leaves. */
  lemma {:induction false} InsertWinning(s: State, t: TaskId)
    requires Inv(s) && Enabled(s, DoInsert(t)) && !Has(s.pool, s.tasks[t].key)
    ensures Inv(Next(s, DoInsert(t))) && CacheMoves(s, Next(s, DoInsert(t)))
  {
    var s', task := Next(s, DoInsert(t)), s.tasks[t];
    var mine := task.pc.mine;
    assert TaskInv(s, task) && Loose(s, mine);
    InsertedSlots(s, t);
    assert PoolInv(s') && GoneInv(s');
    assert CacheMoves(s, s');
    assert TaskInv(s', s'.tasks[t]);
    TasksKeep(s, s', t);
    assert OwnedAt(s', t).Some? ==> IsCached(s, OwnedAt(s', t).value) && !OwnedBySome(s, OwnedAt(s', t).value);
    Transfer(s, s', t);
  }

  lemma {:induction false} InsertedSlots(s: State, t: TaskId)
    requires Inv(s) && Enabled(s, DoInsert(t)) && !Has(s.pool, s.tasks[t].key)
    ensures var s', mine := Next(s, DoInsert(t)), s.tasks[t].pc.mine;
            && WellFormed(s'.pool, s'.capacity)
            && (forall sl :: sl in s'.pool ==> sl in s.pool || sl == Slot(s.tasks[t].key, mine))
            && IsCached(s', mine)
            && (OwnedAt(s', t).Some? ==> IsCached(s, OwnedAt(s', t).value) && !IsCached(s', OwnedAt(s', t).value))
            && (forall c :: c != mine && OwnedAt(s', t) != Some(c) ==> (IsCached(s', c) <==> IsCached(s, c)))
  {
    var s', task := Next(s, DoInsert(t)), s.tasks[t];
    CacheKeeps(s.pool, s.capacity, task.key, task.pc.mine);
    assert TaskInv(s, task) && Loose(s, task.pc.mine);
    if |s.pool| == s.capacity {
      var evicted := s.pool[0].connection;
      assert s.pool[0] in s.pool && s.pool[0] == Slot(s.madeFor[evicted], evicted);
    }
  }

  lemma {:induction false} ClosedOnceMore(s: State, t: TaskId)
    requires Inv(s) && Enabled(s, DoClose(t))
    ensures var s' := Next(s, DoClose(t));
            (forall c :: IsCached(s', c) <==> IsCached(s, c)) && PoolInv(s') && GoneInv(s') && CacheMoves(s, s')
  {
    var s' := Next(s, DoClose(t));
    assert Loose(s, Owned(s.tasks[t].pc).value);
    assert forall c :: IsCached(s', c) <==> IsCached(s, c);
    assert s'.madeFor[..|s.madeFor|] == s.madeFor;
  }

  lemma {:induction false} CloserKeeps(s: State, t: TaskId)
    requires Inv(s) && Enabled(s, DoClose(t))
    ensures TaskInv(Next(s, DoClose(t)), Next(s, DoClose(t)).tasks[t])
    ensures OwnedAt(Next(s, DoClose(t)), t).None?
  {
    var s', task := Next(s, DoClose(t)), s.tasks[t];
    assert TaskInv(s, task);
    assert forall c :: IsCached(s', c) <==> IsCached(s, c);
  }

  lemma {:induction false} CloseKeeps(s: State, t: TaskId)
    requires Inv(s) && Enabled(s, DoClose(t))
    ensures Inv(Next(s, DoClose(t))) && CacheMoves(s, Next(s, DoClose(t)))
  {
    var s' := Next(s, DoClose(t));
    ClosedOnceMore(s, t);
    CloserKeeps(s, t);
    TasksKeep(s, s', t);
    Transfer(s, s', t);
  }

  lemma {:induction false} RemovedSlots(s: State, t: TaskId)
    requires Inv(s) && Enabled(s, DoRemove(t)) && Find(s.pool, s.tasks[t].key) == Some(s.tasks[t].pc.conn)
    ensures var s', conn := Next(s, DoRemove(t)), s.tasks[t].pc.conn;
            && IsCached(s, conn) && (forall c :: IsCached(s', c) <==> IsCached(s, c) && c != conn)
            && CacheMoves(s, s') && PoolInv(s') && GoneInv(s') && TaskInv(s', s'.tasks[t])
            && OwnedAt(s, t).None? && OwnedAt(s', t) == Some(conn) && Loose(s', conn)
  {
    var s', task := Next(s, DoRemove(t)), s.tasks[t];
    var conn := task.pc.conn;
    assert TaskInv(s, task);
    WithoutFacts(s.pool, task.key);
    assert IsCached(s, conn) && s.madeFor[conn] == task.key;
    forall c: Conn ensures IsCached(s', c) <==> IsCached(s, c) && c != conn {
      if IsCached(s, c) && s.madeFor[c] == task.key {
        FindUnique(s.pool, Slot(task.key, c));
      }
    }
  }

  lemma {:induction false} RemoveKeeps(s: State, t: TaskId)
    requires Inv(s) && Enabled(s, DoRemove(t))
    ensures Inv(Next(s, DoRemove(t))) && CacheMoves(s, Next(s, DoRemove(t)))
  {
    var s', task := Next(s, DoRemove(t)), s.tasks[t];
    var conn := task.pc.conn;
    assert TaskInv(s, task);
    if Find(s.pool, task.key) == Some(conn) {
      RemovedSlots(s, t);
      TasksKeep(s, s', t);
      Transfer(s, s', t);
    } else {
      if IsCached(s, conn) && s.madeFor[conn] == task.key {
        FindUnique(s.pool, Slot(task.key, conn));
      }
      QuietStep(s, s', t);
    }
  }

  lemma {:induction false} CancelKeeps(s: State, t: TaskId)
    requires Inv(s) && Enabled(s, Cancel(t))
    ensures Inv(Next(s, Cancel(t))) && CacheMoves(s, Next(s, Cancel(t)))
  {
    var s', task := Next(s, Cancel(t)), s.tasks[t];
    assert Owned(task.pc).Some? ==> Loose(s, Owned(task.pc).value);
    assert forall x :: IsCached(s', x) <==> IsCached(s, x);
    assert CacheMoves(s, s');
    TasksKeep(s, s', t);
    Transfer(s, s', t);
  }

  /** Every step of every task keeps the invariant. */
  lemma {:induction false} StepKeeps(s: State, step: Step)
    requires Inv(s) && Enabled(s, step)
    ensures Inv(Next(s, step)) && CacheMoves(s, Next(s, step))
  {
    match step
    case DoLookup(t) => LookupKeeps(s, t);
    case ConnectOk(t) => ConnectKeeps(s, t);
    case DoInsert(t) => if Has(s.pool, s.tasks[t].key) { InsertLosing(s, t); } else { InsertWinning(s, t); }
    case DoClose(t) => CloseKeeps(s, t);
    case DoRemove(t) => RemoveKeeps(s, t);
    case Cancel(t) => CancelKeeps(s, t);
    case _ => QuietStep(s, Next(s, step), step.t);
  }

  // ---------------------------------------------------------------------------
  // What holds of every run
  // ---------------------------------------------------------------------------

  lemma {:induction false} RunKeeps(s: State, steps: seq<Step>)
    requires Inv(s)
    ensures Inv(Run(s, steps)) && CacheMoves(s, Run(s, steps))
    decreases |steps|
  {
    if steps != [] && Enabled(s, steps[0]) {
      var s' := Next(s, steps[0]);
      StepKeeps(s, steps[0]);
      RunKeeps(s', steps[1..]);
      CacheMovesTransitive(s, s', Run(s', steps[1..]));
    } else {
      assert s.madeFor[..|s.madeFor|] == s.madeFor;
    }
  }

  lemma {:induction false} CacheMovesTransitive(a: State, b: State, c: State)
    requires GoneInv(a) && CacheMoves(a, b) && CacheMoves(b, c)
    ensures CacheMoves(a, c)
  {
    assert c.madeFor[..|a.madeFor|] == c.madeFor[..|b.madeFor|][..|a.madeFor|];
  }

  /** A state some run from an empty pool reaches. */
  ghost predicate Reachable(s: State) {
    exists capacity: nat, steps: seq<Step> :: s == Run(Initial(capacity), steps)
  }

  lemma {:induction false} ReachableInv(s: State)
    requires Reachable(s)
    ensures Inv(s)
  {
    var capacity: nat, steps: seq<Step> :| s == Run(Initial(capacity), steps);
    InitialInv(capacity);
    RunKeeps(Initial(capacity), steps);
  }

  ghost predicate InHand(s: State, c: Conn) {
    exists t :: t in s.tasks && s.tasks[t].pc.Inserting? && s.tasks[t].pc.mine == c
  }

  ghost predicate AboutToClose(s: State, c: Conn) {
    exists t :: t in s.tasks && Closing(s.tasks[t].pc) && Owned(s.tasks[t].pc) == Some(c)
  }

  function Count(b: bool): nat { if b then 1 else 0 }

  /** Every connection the network ever returned is in exactly one place, has at
      most one task responsible for it, and was closed at most once. */
  lemma {:induction false} ExactlyOnePlace(s: State, c: Conn)
    requires Reachable(s) && c < |s.madeFor|
    ensures Count(InHand(s, c)) + Count(IsCached(s, c)) + Count(AboutToClose(s, c))
            + multiset(s.closed)[c] + Count(c in s.dropped) == 1
    ensures forall t, u ::
            t in s.tasks && u in s.tasks && OwnedAt(s, t) == Some(c) && OwnedAt(s, u) == Some(c) ==> t == u
    ensures forall sl :: sl in s.pool && sl.connection == c ==> sl.key == s.madeFor[c]
  {
    ReachableInv(s);
    ClosedOnce(s.closed, c);
    assert s.madeFor[c] == s.madeFor[c];
    assert OwnedBySome(s, c) <==> InHand(s, c) || AboutToClose(s, c);
    if InHand(s, c) {
      var t :| t in s.tasks && s.tasks[t].pc.Inserting? && s.tasks[t].pc.mine == c;
      assert Owned(s.tasks[t].pc) == Some(c) && Loose(s, c);
      assert !AboutToClose(s, c);
    }
  }

  lemma {:induction false} ClosedOnce(log: seq<Conn>, c: Conn)
    requires forall i, j :: 0 <= i < j < |log| ==> log[i] != log[j]
    ensures multiset(log)[c] == Count(c in log)
  {
    if log != [] {
      assert log == [log[0]] + log[1..];
      ClosedOnce(log[1..], c);
      assert log[0] !in log[1..];
    }
  }

  /** Over any continuation of any run: the pool stays within its capacity, and a
      connection that left the pool never comes back. */
  lemma {:induction false} LeavingIsFinal(s: State, steps: seq<Step>, c: Conn)
    requires Reachable(s) && c in s.entered && !IsCached(s, c)
    ensures var s' := Run(s, steps); !IsCached(s', c) && |s'.pool| <= s'.capacity
  {
    ReachableInv(s);
    RunKeeps(s, steps);
  }

  /** Inside `get_or_connect`. */
  predicate Acquiring(pc: Pc) {
    pc.Lookup? || pc.Connecting? || pc.Inserting? || pc.ClosingLoser? || pc.ClosingEvicted?
  }

  /** Whenever a stream is being opened, the last observed value is that very
      connection; while a connection is being acquired it is `None`. */
  lemma {:induction false} ObservedIsExact(s: State, t: TaskId)
    requires Reachable(s) && t in s.tasks
    ensures var task := s.tasks[t];
            && (task.pc.Opening? ==> task.observed == Some(task.pc.conn))
            && (Acquiring(task.pc) ==> task.observed == None)
  {
    ReachableInv(s);
    assert TaskInv(s, s.tasks[t]);
  }

  /** The retry never reuses the connection whose `open_stream` failed, and that
      connection can no longer be handed to anyone. */
  lemma {:induction false} RetryUsesAnother(s: State, t: TaskId, steps: seq<Step>)
    requires Reachable(s) && t in s.tasks
    requires s.tasks[t].pc.Opening? && s.tasks[t].pc.retryOf.Some?
    ensures s.tasks[t].pc.conn != s.tasks[t].pc.retryOf.value
    ensures s.tasks[t].pc.retryOf.value in s.entered && !IsCached(Run(s, steps), s.tasks[t].pc.retryOf.value)
  {
    ReachableInv(s);
    assert TaskInv(s, s.tasks[t]);
    RunKeeps(s, steps);
  }

  /** A late invalidation with an observed connection takes out that connection and
      nothing else: any replacement stays, and once replaced nothing changes. */
  lemma {:induction false} InvalidationSparesReplacement(s: State, u: TaskId)
    requires Reachable(s) && Enabled(s, DoRemove(u))
    ensures var s', conn := Next(s, DoRemove(u)), s.tasks[u].pc.conn;
            && (forall sl :: sl in s.pool && sl.connection != conn ==> sl in s'.pool)
            && (forall sl :: sl in s'.pool ==> sl in s.pool)
            && (!IsCached(s, conn) ==> s'.pool == s.pool)
            && (IsCached(s', conn) ==> s.tasks[u].key != s.madeFor[conn])
  {
    ReachableInv(s);
    var key, conn := s.tasks[u].key, s.tasks[u].pc.conn;
    assert TaskInv(s, s.tasks[u]);
    WithoutFacts(s.pool, key);
    forall sl | sl in s.pool && sl.key == key ensures Find(s.pool, key) == Some(sl.connection) {
      FindUnique(s.pool, sl);
    }
  }

  predicate NoCancel(steps: seq<Step>) {
    forall i :: 0 <= i < |steps| ==> !steps[i].Cancel?
  }

  lemma {:induction false} NothingDropped(s: State, steps: seq<Step>)
    requires NoCancel(steps)
    ensures Run(s, steps).dropped == s.dropped
    decreases |steps|
  {
    if steps != [] && Enabled(s, steps[0]) {
      NothingDropped(Next(s, steps[0]), steps[1..]);
    }
  }

  /** Without cancellation nothing leaks: when all tasks have finished, every
      connection ever made is still cached or was closed exactly once. */
  lemma {:induction false} NoLeak(capacity: nat, steps: seq<Step>, c: Conn)
    requires NoCancel(steps)
    requires c < |Run(Initial(capacity), steps).madeFor|
    requires forall t ::
             t in Run(Initial(capacity), steps).tasks ==> Finished(Run(Initial(capacity), steps).tasks[t].pc)
    ensures var s := Run(Initial(capacity), steps);
            Count(IsCached(s, c)) + multiset(s.closed)[c] == 1
  {
    NothingDropped(Initial(capacity), steps);
    ExactlyOnePlace(Run(Initial(capacity), steps), c);
  }

  // ---------------------------------------------------------------------------
  // Every run comes to an end, and then everything is closed or cached
  // ---------------------------------------------------------------------------

  /** The steps a stream open still has ahead of it when its connection arrives. */
  function Ahead(ret: Return): nat {
    match ret
    case ToCaller => 0
    case ToRetryOpen(_) => 1
    case ToFirstOpen => 8
  }

  /** A bound on the steps a task still takes, whatever the network answers. */
  function Rank(pc: Pc): nat {
    match pc
    case Lookup(ret) => Ahead(ret) + 4
    case Connecting(ret) => Ahead(ret) + 3
    case Inserting(ret, _) => Ahead(ret) + 2
    case ClosingLoser(ret, _, _) => Ahead(ret) + 1
    case ClosingEvicted(ret, _, _) => Ahead(ret) + 1
    case Opening(_, retryOf) => if retryOf.None? then 8 else 1
    case Invalidating(_, resume) => if resume then 7 else 2
    case ClosingInvalidated(_, resume) => if resume then 6 else 1
    case Done(_) => 0
    case Cancelled => 0
  }

  ghost function Total(tasks: map<TaskId, Task>): nat
    decreases |tasks|
  {
    if tasks == map[] then 0 else
    var t :| t in tasks;
    Rank(tasks[t].pc) + Total(tasks - {t})
  }

  lemma {:induction false} TotalWithout(tasks: map<TaskId, Task>, t: TaskId)
    requires t in tasks
    ensures Total(tasks) == Rank(tasks[t].pc) + Total(tasks - {t})
    decreases |tasks|
  {
    var u :| u in tasks && Total(tasks) == Rank(tasks[u].pc) + Total(tasks - {u});
    if u != t {
      TotalWithout(tasks - {u}, t);
      TotalWithout(tasks - {t}, u);
      assert tasks - {u} - {t} == tasks - {t} - {u};
    }
  }

  lemma {:induction false} InsertAdvances(s: State, t: TaskId)
    requires t in s.tasks && s.tasks[t].pc.Inserting?
    ensures var s' := InsertResult(s, t, s.tasks[t]);
            t in s'.tasks && s'.tasks == s.tasks[t := s'.tasks[t]] && Rank(s'.tasks[t].pc) < Rank(s.tasks[t].pc)
  {
  }

  lemma {:induction false} CloseAdvances(s: State, t: TaskId)
    requires t in s.tasks && Closing(s.tasks[t].pc)
    ensures var s' := CloseResult(s, t, s.tasks[t]);
            t in s'.tasks && s'.tasks == s.tasks[t := s'.tasks[t]] && Rank(s'.tasks[t].pc) < Rank(s.tasks[t].pc)
  {
  }

  /** Every step but the start of a new call brings its task closer to its end. */
  lemma {:induction false} StepAdvances(s: State, step: Step)
    requires Enabled(s, step) && !step.Start?
    ensures var s' := Next(s, step);
            step.t in s'.tasks && s'.tasks == s.tasks[step.t := s'.tasks[step.t]]
            && Rank(s'.tasks[step.t].pc) < Rank(s.tasks[step.t].pc)
  {
    match step
    case DoInsert(t) => InsertAdvances(s, t);
    case DoClose(t) => CloseAdvances(s, t);
    case _ =>
  }

  lemma {:induction false} TotalFalls(s: State, step: Step)
    requires Enabled(s, step) && !step.Start?
    ensures Total(Next(s, step).tasks) < Total(s.tasks)
  {
    var t, s' := step.t, Next(s, step);
    StepAdvances(s, step);
    TotalWithout(s.tasks, t);
    TotalWithout(s'.tasks, t);
    assert s'.tasks - {t} == s.tasks - {t};
  }

  /** `steps` can all be taken, one after the other. */
  predicate Executes(s: State, steps: seq<Step>)
    decreases |steps|
  {
    steps == [] || (Enabled(s, steps[0]) && Executes(Next(s, steps[0]), steps[1..]))
  }

  predicate NoStart(steps: seq<Step>) {
    forall i :: 0 <= i < |steps| ==> !steps[i].Start?
  }

  /** However the tasks are scheduled and whatever the network answers, the calls already
      made take no more steps than their ranks add up to. */
  lemma {:induction false} RunsAreBounded(s: State, steps: seq<Step>)
    requires NoStart(steps) && Executes(s, steps)
    ensures |steps| + Total(Run(s, steps).tasks) <= Total(s.tasks)
    decreases |steps|
  {
    if steps != [] {
      TotalFalls(s, steps[0]);
      RunsAreBounded(Next(s, steps[0]), steps[1..]);
    }
  }

  /** No task can move, other than by a new call or a cancellation. */
  ghost predicate Stuck(s: State) {
    forall step: Step :: Enabled(s, step) ==> step.Start? || step.Cancel?
  }

  /** All tasks are finished and nothing that was not dropped before has leaked. */
  ghost predicate Drained(s: State, dropped: set<Conn>) {
    && Inv(s)
    && (forall t :: t in s.tasks ==> Finished(s.tasks[t].pc))
    && (forall c :: 0 <= c < |s.madeFor| ==> IsCached(s, c) || c in s.closed || c in dropped)
  }

  function Advance(t: TaskId, pc: Pc): Step {
    match pc
    case Lookup(_) => DoLookup(t)
    case Connecting(_) => ConnectErr(t)
    case Inserting(_, _) => DoInsert(t)
    case Opening(_, _) => OpenOk(t)
    case Invalidating(_, _) => DoRemove(t)
    case _ => DoClose(t)
  }

  lemma {:induction false} StuckIsDrained(s: State)
    requires Inv(s) && Stuck(s)
    ensures Drained(s, s.dropped)
  {
    forall t | t in s.tasks ensures Finished(s.tasks[t].pc) {
      var step := Advance(t, s.tasks[t].pc);
      assert Finished(s.tasks[t].pc) || Enabled(s, step);
    }
    forall c | 0 <= c < |s.madeFor| ensures IsCached(s, c) || c in s.closed || c in s.dropped {
      assert s.madeFor[c] == s.madeFor[c];
    }
  }

  /** Every run without new calls and cancellations ends after a bounded number of steps,
      and when it cannot be continued every connection that left the map or lost the
      insert race has been closed. */
  lemma {:induction false} EveryRunDrains(s: State, steps: seq<Step>)
    requires Reachable(s) && NoStart(steps) && NoCancel(steps) && Executes(s, steps)
    ensures |steps| <= Total(s.tasks)
    ensures Stuck(Run(s, steps)) ==> Drained(Run(s, steps), s.dropped)
  {
    ReachableInv(s);
    RunKeeps(s, steps);
    RunsAreBounded(s, steps);
    NothingDropped(s, steps);
    if Stuck(Run(s, steps)) { StuckIsDrained(Run(s, steps)); }
  }

  lemma {:induction false} OneStepMore(s: State, step: Step, rest: seq<Step>)
    requires Enabled(s, step) && !step.Start? && !step.Cancel?
    requires NoStart(rest) && NoCancel(rest) && Executes(Next(s, step), rest)
    ensures NoStart([step] + rest) && NoCancel([step] + rest) && Executes(s, [step] + rest)
    ensures Run(s, [step] + rest) == Run(Next(s, step), rest)
  {
    assert ([step] + rest)[1..] == rest;
  }

  /** Such a run always exists. */
  lemma {:induction false} CanAlwaysFinish(s: State) returns (steps: seq<Step>)
    requires Inv(s)
    ensures NoStart(steps) && NoCancel(steps) && Executes(s, steps) && Stuck(Run(s, steps))
    decreases Total(s.tasks)
  {
    if Stuck(s) {
      steps := [];
    } else {
      var step :| Enabled(s, step) && !step.Start? && !step.Cancel?;
      TotalFalls(s, step);
      StepKeeps(s, step);
      var rest := CanAlwaysFinish(Next(s, step));
      steps := [step] + rest;
      OneStepMore(s, step, rest);
    }
  }
}
