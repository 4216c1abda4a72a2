/** Setup messages are broadcast in bounded batches; a batch the chain refuses is
    halved until the one offending message stands alone. */
module Broadcast {
  import opened Chunking
  import opened Options

  type Any = seq<bv8>

  datatype SetupMessage = SetupMessage(itemLabel: string, any: Any)

  type Batch = seq<SetupMessage>

  /** The chain: its answer may depend on every call made before. */
  type Oracle = (seq<seq<Any>>, seq<Any>) -> Option<string>

  datatype BatchFailure = BatchFailure(labels: seq<string>, error: string)

  datatype BatchOutcome = BatchOutcome(
    transactions: nat,
    messages: nat,
    splitBatches: nat,
    failedAttempts: seq<BatchFailure>)

  datatype Result =
    | Ok(outcome: BatchOutcome)
    | ItemFailed(itemLabel: string, error: string)
    | BatchSizeZero

  /** One call to the chain and its answer. */
  datatype Attempt = Attempt(batch: Batch, error: Option<string>)

  function Anys(b: Batch): (r: seq<Any>)
    ensures |r| == |b|
  {
    seq(|b|, i requires 0 <= i < |b| => b[i].any)
  }

  function Labels(b: Batch): (r: seq<string>)
    ensures |r| == |b|
  {
    seq(|b|, i requires 0 <= i < |b| => b[i].itemLabel)
  }

  function Calls(trace: seq<Attempt>): seq<seq<Any>> {
    seq(|trace|, i requires 0 <= i < |trace| => Anys(trace[i].batch))
  }

  /** Calls a queue can still cause: a batch of n messages is a binary tree of at most 2n - 1 calls. */
  function Budget(queue: seq<Batch>): int {
    if queue == [] then 0 else 2 * |queue[0]| - 1 + Budget(queue[1..])
  }

  predicate NonEmpty(queue: seq<Batch>) {
    forall i :: 0 <= i < |queue| ==> queue[i] != []
  }

  lemma {:induction false} BudgetFacts(queue: seq<Batch>)
    requires NonEmpty(queue)
    ensures Budget(queue) == 2 * |Flatten(queue)| - |queue|
    ensures Budget(queue) >= |queue|
  {
    if queue != [] { BudgetFacts(queue[1..]); }
  }

  lemma {:induction false} SplitBudget(batch: Batch, m: nat, rest: seq<Batch>)
    requires m <= |batch|
    ensures Budget([batch[..m], batch[m..]] + rest) == Budget([batch] + rest) - 1
    ensures Flatten([batch[..m], batch[m..]] + rest) == Flatten([batch] + rest)
  {
    var q := [batch[..m], batch[m..]] + rest;
    assert q[1..] == [batch[m..]] + rest && q[1..][1..] == rest;
    assert ([batch] + rest)[1..] == rest;
    assert batch == batch[..m] + batch[m..];
    assert batch[..m] + (batch[m..] + Flatten(rest)) == batch + Flatten(rest);
  }

  /** The loop's variables: what is queued, the calls made so far, the counters. */
  datatype Loop = Loop(queue: seq<Batch>, trace: seq<Attempt>, outcome: BatchOutcome)

  ghost function Answer(oracle: Oracle, l: Loop): Option<string>
    requires l.queue != []
  {
    oracle(Calls(l.trace), Anys(l.queue[0]))
  }

  /** The loop gives up: a message on its own was refused. */
  ghost predicate Isolated(oracle: Oracle, l: Loop) {
    l.queue != [] && |l.queue[0]| == 1 && Answer(oracle, l).Some?
  }

  ghost function AfterCall(oracle: Oracle, l: Loop): seq<Attempt>
    requires l.queue != []
  {
    l.trace + [Attempt(l.queue[0], Answer(oracle, l))]
  }

  /** One turn of the loop that does not end it. */
  ghost function Turn(oracle: Oracle, l: Loop): Loop
    requires l.queue != []
  {
    var batch, o := l.queue[0], l.outcome;
    match Answer(oracle, l)
    case None => Loop(l.queue[1..], AfterCall(oracle, l), o.(transactions := o.transactions + 1))
    case Some(error) =>
      var m := |batch| / 2;
      Loop([batch[..m], batch[m..]] + l.queue[1..], AfterCall(oracle, l),
           o.(failedAttempts := o.failedAttempts + [BatchFailure(Labels(batch), error)],
              splitBatches := o.splitBatches + 1))
  }

  lemma {:induction false} TurnShrinks(oracle: Oracle, l: Loop)
    requires NonEmpty(l.queue) && l.queue != [] && !Isolated(oracle, l)
    ensures NonEmpty(Turn(oracle, l).queue)
    ensures 0 <= Budget(Turn(oracle, l).queue) < Budget(l.queue)
    ensures Flatten(Turn(oracle, l).queue)
            == if Answer(oracle, l).None? then Flatten(l.queue[1..]) else Flatten(l.queue)
  {
    var batch := l.queue[0];
    SplitBudget(batch, |batch| / 2, l.queue[1..]);
    assert l.queue == [batch] + l.queue[1..];
    BudgetFacts(Turn(oracle, l).queue);
  }

  /** The loop's variables when it stops. */
  ghost function Drive(oracle: Oracle, l: Loop): (e: Loop)
    requires NonEmpty(l.queue)
    ensures NonEmpty(e.queue) && (e.queue == [] || Isolated(oracle, e))
    decreases Budget(l.queue)
  {
    if l.queue == [] || Isolated(oracle, l) then l else
    TurnShrinks(oracle, l);
    Drive(oracle, Turn(oracle, l))
  }

  // ---------------------------------------------------------------------------
  // The loop of the code
  // ---------------------------------------------------------------------------

  function Start(messages: Batch, maximumBatchSize: nat): Loop
    requires maximumBatchSize >= 1
  {
    Loop(Chunks(messages, maximumBatchSize), [], BatchOutcome(0, |messages|, 0, []))
  }

  /** The result of a broadcast and every call it made. */
  datatype Finish = Finish(result: Result, trace: seq<Attempt>)

  ghost function BroadcastSpec(oracle: Oracle, messages: Batch, maximumBatchSize: nat): Finish {
    if maximumBatchSize == 0 then Finish(BatchSizeZero, []) else
    var e := Drive(oracle, Start(messages, maximumBatchSize));
    if e.queue == [] then Finish(Ok(e.outcome), e.trace)
    else Finish(ItemFailed(e.queue[0][0].itemLabel, Answer(oracle, e).value), AfterCall(oracle, e))
  }

  method BroadcastBoundedWith(messages: Batch, maximumBatchSize: nat, oracle: Oracle)
    returns (result: Result, trace: seq<Attempt>)
    ensures Finish(result, trace) == BroadcastSpec(oracle, messages, maximumBatchSize)
  {
    trace := [];
    if maximumBatchSize == 0 { return BatchSizeZero, []; }
    var queue := Chunks(messages, maximumBatchSize);
    var outcome := BatchOutcome(0, |messages|, 0, []);
    while queue != []
      invariant NonEmpty(queue)
      invariant Drive(oracle, Loop(queue, trace, outcome)) == Drive(oracle, Start(messages, maximumBatchSize))
      decreases Budget(queue)
    {
      ghost var l := Loop(queue, trace, outcome);
      if !Isolated(oracle, l) { TurnShrinks(oracle, l); }
      var batch := queue[0];
      queue := queue[1..];
      var answer := oracle(Calls(trace), Anys(batch));
      trace := trace + [Attempt(batch, answer)];
      match answer {
        case None =>
          outcome := outcome.(transactions := outcome.transactions + 1);
        case Some(failure) =>
          if |batch| == 1 {
            return ItemFailed(batch[0].itemLabel, failure), trace;
          }
          outcome := outcome.(failedAttempts := outcome.failedAttempts + [BatchFailure(Labels(batch), failure)]);
          var midpoint := |batch| / 2;
          var left, right := batch[..midpoint], batch[midpoint..];
          queue := [left, right] + queue;
          outcome := outcome.(splitBatches := outcome.splitBatches + 1);
      }
      assert Loop(queue, trace, outcome) == Turn(oracle, l);
    }
    return Ok(outcome), trace;
  }

  // ---------------------------------------------------------------------------
  // What it promises
  // ---------------------------------------------------------------------------

  /** The messages of the accepted batches, in the order they were accepted. */
  function Sent(trace: seq<Attempt>): Batch {
    if trace == [] then [] else
    var last := trace[|trace| - 1];
    Sent(trace[..|trace| - 1]) + if last.error.None? then last.batch else []
  }

  lemma {:induction false} SentAppend(trace: seq<Attempt>, a: Attempt)
    ensures Sent(trace + [a]) == Sent(trace) + if a.error.None? then a.batch else []
  {
    assert (trace + [a])[..|trace|] == trace;
  }

  /** Messages sent so far followed by the messages queued are always the original
      messages in order, and the counters account for every call. */
  ghost predicate Inv(l: Loop, messages: Batch, initial: nat) {
    var o := l.outcome;
    && Sent(l.trace) + Flatten(l.queue) == messages
    && o.messages == |messages|
    && o.transactions + |l.queue| == initial + o.splitBatches
    && |o.failedAttempts| == o.splitBatches
    && |l.trace| == o.transactions + o.splitBatches
    && |l.trace| + Budget(l.queue) <= 2 * |messages| - initial
  }

  lemma {:induction false} TurnKeeps(oracle: Oracle, l: Loop, messages: Batch, initial: nat)
    requires NonEmpty(l.queue) && l.queue != [] && !Isolated(oracle, l) && Inv(l, messages, initial)
    ensures Inv(Turn(oracle, l), messages, initial)
  {
    TurnShrinks(oracle, l);
    SentAppend(l.trace, Attempt(l.queue[0], Answer(oracle, l)));
  }

  lemma {:induction false} DriveKeeps(oracle: Oracle, l: Loop, messages: Batch, initial: nat)
    requires NonEmpty(l.queue) && Inv(l, messages, initial)
    ensures Inv(Drive(oracle, l), messages, initial)
    decreases Budget(l.queue)
  {
    if l.queue != [] && !Isolated(oracle, l) {
      TurnShrinks(oracle, l);
      TurnKeeps(oracle, l, messages, initial);
      DriveKeeps(oracle, Turn(oracle, l), messages, initial);
    }
  }

  function Initial(messages: Batch, maximumBatchSize: nat): nat
    requires maximumBatchSize >= 1
  {
    (|messages| + maximumBatchSize - 1) / maximumBatchSize
  }

  lemma {:induction false} EndInv(oracle: Oracle, messages: Batch, maximumBatchSize: nat)
    requires maximumBatchSize >= 1
    ensures Inv(Drive(oracle, Start(messages, maximumBatchSize)), messages, Initial(messages, maximumBatchSize))
  {
    var l := Start(messages, maximumBatchSize);
    ChunkCount(messages, maximumBatchSize);
    BudgetFacts(l.queue);
    DriveKeeps(oracle, l, messages, Initial(messages, maximumBatchSize));
  }

  /** Success: every message was sent exactly once, in order. Failure: exactly the
      messages before the named one were sent, and that one was refused on its own. */
  lemma {:induction false} DeliveredInOrder(oracle: Oracle, messages: Batch, maximumBatchSize: nat)
    requires maximumBatchSize >= 1
    ensures var f := BroadcastSpec(oracle, messages, maximumBatchSize);
            && !f.result.BatchSizeZero?
            && (f.result.Ok? ==> Sent(f.trace) == messages)
            && (f.result.ItemFailed? ==>
                  && Sent(f.trace) < messages
                  && messages[|Sent(f.trace)|].itemLabel == f.result.itemLabel
                  && f.trace != []
                  && f.trace[|f.trace| - 1] == Attempt([messages[|Sent(f.trace)|]], Some(f.result.error)))
  {
    EndInv(oracle, messages, maximumBatchSize);
    var e := Drive(oracle, Start(messages, maximumBatchSize));
    if e.queue != [] {
      SentAppend(e.trace, Attempt(e.queue[0], Answer(oracle, e)));
      assert Flatten(e.queue)[0] == e.queue[0][0];
      assert e.queue[0] == [e.queue[0][0]];
    }
  }

  /** At most two calls per message minus one per initial batch; on success the
      counters are tied to the number of splits. */
  lemma {:induction false} CallBound(oracle: Oracle, messages: Batch, maximumBatchSize: nat)
    requires maximumBatchSize >= 1
    ensures var f := BroadcastSpec(oracle, messages, maximumBatchSize);
            && |f.trace| <= 2 * |messages| - Initial(messages, maximumBatchSize)
            && (f.result.Ok? ==>
                  var o := f.result.outcome;
                  && o.messages == |messages|
                  && o.transactions == Initial(messages, maximumBatchSize) + o.splitBatches
                  && |o.failedAttempts| == o.splitBatches
                  && |f.trace| == o.transactions + o.splitBatches)
  {
    EndInv(oracle, messages, maximumBatchSize);
    BudgetFacts(Drive(oracle, Start(messages, maximumBatchSize)).queue);
  }

  /** A chain that refuses exactly the batches containing a bad message. */
  ghost predicate RefusesBad(oracle: Oracle, bad: Any -> bool) {
    forall calls, batch {:trigger oracle(calls, batch)} ::
      oracle(calls, batch).Some? <==> exists i :: 0 <= i < |batch| && bad(batch[i])
  }

  predicate Clean(b: Batch, bad: Any -> bool) {
    forall i :: 0 <= i < |b| ==> !bad(b[i].any)
  }

  lemma {:induction false} RefusalMeansBad(oracle: Oracle, bad: Any -> bool, calls: seq<seq<Any>>, batch: Batch)
    requires RefusesBad(oracle, bad)
    ensures oracle(calls, Anys(batch)).Some? <==> !Clean(batch, bad)
  {
    var anys := Anys(batch);
    assert forall i :: 0 <= i < |batch| ==> anys[i] == batch[i].any;
    if !Clean(batch, bad) {
      var i :| 0 <= i < |batch| && bad(batch[i].any);
      assert bad(anys[i]);
    }
  }

  lemma {:induction false} SentIsClean(oracle: Oracle, bad: Any -> bool, l: Loop)
    requires NonEmpty(l.queue) && RefusesBad(oracle, bad) && Clean(Sent(l.trace), bad)
    ensures Clean(Sent(Drive(oracle, l).trace), bad)
    decreases Budget(l.queue)
  {
    if l.queue != [] && !Isolated(oracle, l) {
      TurnShrinks(oracle, l);
      TurnIsClean(oracle, bad, l);
      SentIsClean(oracle, bad, Turn(oracle, l));
    }
  }

  lemma {:induction false} TurnIsClean(oracle: Oracle, bad: Any -> bool, l: Loop)
    requires l.queue != [] && RefusesBad(oracle, bad) && Clean(Sent(l.trace), bad)
    ensures Clean(Sent(Turn(oracle, l).trace), bad)
  {
    var a := Attempt(l.queue[0], Answer(oracle, l));
    SentAppend(l.trace, a);
    assert a.error.None? ==> Clean(a.batch, bad) by {
      RefusalMeansBad(oracle, bad, Calls(l.trace), a.batch);
    }
  }

  /** Fault isolation: the broadcast succeeds exactly when no message is bad, and
      otherwise names the first bad message. */
  lemma {:induction false} NamesFirstBad(oracle: Oracle, bad: Any -> bool, messages: Batch, maximumBatchSize: nat)
    requires maximumBatchSize >= 1 && RefusesBad(oracle, bad)
    ensures var f := BroadcastSpec(oracle, messages, maximumBatchSize);
            && (f.result.Ok? <==> Clean(messages, bad))
            && (f.result.ItemFailed? ==>
                  exists i :: 0 <= i < |messages| && bad(messages[i].any) && Clean(messages[..i], bad)
                              && messages[i].itemLabel == f.result.itemLabel)
  {
    var e := Drive(oracle, Start(messages, maximumBatchSize));
    DeliveredInOrder(oracle, messages, maximumBatchSize);
    SentIsClean(oracle, bad, Start(messages, maximumBatchSize));
    if e.queue != [] {
      SentAppend(e.trace, Attempt(e.queue[0], Answer(oracle, e)));
      RefusalMeansBad(oracle, bad, Calls(e.trace), e.queue[0]);
      var i := |Sent(e.trace)|;
      assert e.queue[0] == [messages[i]];
      assert messages[..i] == Sent(e.trace);
      assert bad(messages[i].any);
    }
  }

  // ---------------------------------------------------------------------------
  // What the chain was asked, and how often it refused
  // ---------------------------------------------------------------------------

  /** `calls` are the messages of the first `k` calls. */
  predicate Lists(calls: seq<seq<Any>>, trace: seq<Attempt>, k: nat) {
    && |calls| == k <= |trace|
    && forall i :: 0 <= i < k ==>
         |calls[i]| == |trace[i].batch| && forall j :: 0 <= j < |calls[i]| ==> calls[i][j] == trace[i].batch[j].any
  }

  /** Every answer in the trace is the chain's, after exactly the calls before it. */
  ghost predicate Honest(oracle: Oracle, trace: seq<Attempt>) {
    forall k, calls :: 0 <= k < |trace| && Lists(calls, trace, k) ==>
      trace[k].error == oracle(calls, Anys(trace[k].batch))
  }

  lemma {:induction false} ListsAreCalls(calls: seq<seq<Any>>, trace: seq<Attempt>)
    requires Lists(calls, trace, |trace|)
    ensures calls == Calls(trace)
  {
    forall i | 0 <= i < |trace| ensures calls[i] == Calls(trace)[i] { assert calls[i] == Anys(trace[i].batch); }
  }

  lemma {:induction false} CallIsHonest(oracle: Oracle, l: Loop)
    requires l.queue != [] && Honest(oracle, l.trace)
    ensures Honest(oracle, AfterCall(oracle, l))
  {
    var trace := AfterCall(oracle, l);
    forall k, calls | 0 <= k < |trace| && Lists(calls, trace, k)
      ensures trace[k].error == oracle(calls, Anys(trace[k].batch))
    {
      assert forall i :: 0 <= i < k ==> trace[i] == l.trace[i];
      assert Lists(calls, l.trace, k);
      if k == |l.trace| { ListsAreCalls(calls, l.trace); }
    }
  }

  lemma {:induction false} DriveIsHonest(oracle: Oracle, l: Loop)
    requires NonEmpty(l.queue) && Honest(oracle, l.trace)
    ensures Honest(oracle, Drive(oracle, l).trace)
    decreases Budget(l.queue)
  {
    if l.queue != [] && !Isolated(oracle, l) {
      TurnShrinks(oracle, l);
      CallIsHonest(oracle, l);
      DriveIsHonest(oracle, Turn(oracle, l));
    }
  }

  /** The chain is asked with the messages of the batch, and sees every earlier call. */
  lemma {:induction false} TraceIsHonest(oracle: Oracle, messages: Batch, maximumBatchSize: nat)
    ensures Honest(oracle, BroadcastSpec(oracle, messages, maximumBatchSize).trace)
  {
    if maximumBatchSize != 0 {
      var e := Drive(oracle, Start(messages, maximumBatchSize));
      DriveIsHonest(oracle, Start(messages, maximumBatchSize));
      if e.queue != [] { CallIsHonest(oracle, e); }
    }
  }

  /** The refused calls of a trace. */
  function RefusedOf(trace: seq<Attempt>): seq<Attempt> {
    if trace == [] then [] else
    var last := trace[|trace| - 1];
    RefusedOf(trace[..|trace| - 1]) + if last.error.Some? then [last] else []
  }

  lemma {:induction false} RefusedAppend(trace: seq<Attempt>, a: Attempt)
    ensures RefusedOf(trace + [a]) == RefusedOf(trace) + if a.error.Some? then [a] else []
  {
    assert (trace + [a])[..|trace|] == trace;
  }

  /** A recorded failure names the labels of the refused batch, in order, and the error. */
  predicate Describes(f: BatchFailure, a: Attempt) {
    && |f.labels| == |a.batch| && (forall i :: 0 <= i < |f.labels| ==> f.labels[i] == a.batch[i].itemLabel)
    && a.error == Some(f.error)
  }

  predicate Recorded(fs: seq<BatchFailure>, refused: seq<Attempt>) {
    |fs| == |refused| && forall k :: 0 <= k < |fs| ==> Describes(fs[k], refused[k])
  }

  lemma {:induction false} DriveRecords(oracle: Oracle, l: Loop)
    requires NonEmpty(l.queue) && Recorded(l.outcome.failedAttempts, RefusedOf(l.trace))
    ensures var e := Drive(oracle, l); Recorded(e.outcome.failedAttempts, RefusedOf(e.trace))
    decreases Budget(l.queue)
  {
    if l.queue != [] && !Isolated(oracle, l) {
      TurnShrinks(oracle, l);
      TurnRecords(oracle, l);
      DriveRecords(oracle, Turn(oracle, l));
    }
  }

  lemma {:induction false} TurnRecords(oracle: Oracle, l: Loop)
    requires l.queue != [] && Recorded(l.outcome.failedAttempts, RefusedOf(l.trace))
    ensures Recorded(Turn(oracle, l).outcome.failedAttempts, RefusedOf(Turn(oracle, l).trace))
  {
    var a := Attempt(l.queue[0], Answer(oracle, l));
    RefusedAppend(l.trace, a);
    if a.error.Some? {
      RecordedMore(l.outcome.failedAttempts, RefusedOf(l.trace), BatchFailure(Labels(a.batch), a.error.value), a);
    }
  }

  lemma {:induction false} RecordedMore(
      fs: seq<BatchFailure>, refused: seq<Attempt>, f: BatchFailure, a: Attempt)
    requires Recorded(fs, refused) && Describes(f, a)
    ensures Recorded(fs + [f], refused + [a])
  {
  }

  /** On success the failures recorded are the refused calls, in order. */
  lemma {:induction false} FailuresRecorded(oracle: Oracle, messages: Batch, maximumBatchSize: nat)
    ensures var f := BroadcastSpec(oracle, messages, maximumBatchSize);
            f.result.Ok? ==> Recorded(f.result.outcome.failedAttempts, RefusedOf(f.trace))
  {
    if maximumBatchSize != 0 { DriveRecords(oracle, Start(messages, maximumBatchSize)); }
  }

  // ---------------------------------------------------------------------------
  // Halving finds the first bad message in logarithmically many refusals
  // ---------------------------------------------------------------------------

  function Pow2(k: nat): nat { if k == 0 then 1 else 2 * Pow2(k - 1) }

  /** The batches before `i` are clean, the one there is not, and it can be halved at most
      `j` times. */
  predicate FirstBad(queue: seq<Batch>, bad: Any -> bool, i: nat, j: nat) {
    && i < |queue| && !Clean(queue[i], bad) && |queue[i]| <= Pow2(j)
    && forall m :: 0 <= m < i ==> Clean(queue[m], bad)
  }

  lemma {:induction false} HalvesFit(n: nat, j: nat)
    requires 2 <= n <= Pow2(j)
    ensures j >= 1 && n / 2 <= Pow2(j - 1) && n - n / 2 <= Pow2(j - 1)
  {
  }

  lemma {:induction false} HalfIsBad(batch: Batch, m: nat, bad: Any -> bool)
    requires !Clean(batch, bad) && m <= |batch|
    ensures !Clean(batch[..m], bad) || !Clean(batch[m..], bad)
  {
    var k :| 0 <= k < |batch| && bad(batch[k].any);
    if k < m { assert batch[..m][k] == batch[k]; } else { assert batch[m..][k - m] == batch[k]; }
  }

  lemma {:induction false} SplitFirstBad(batch: Batch, rest: seq<Batch>, bad: Any -> bool, j: nat) returns (i: nat)
    requires !Clean(batch, bad) && 2 <= |batch| <= Pow2(j)
    ensures j >= 1 && FirstBad([batch[..|batch| / 2], batch[|batch| / 2..]] + rest, bad, i, j - 1)
  {
    var m := |batch| / 2;
    var left, right := batch[..m], batch[m..];
    HalvesFit(|batch|, j);
    HalfIsBad(batch, m, bad);
    i := if Clean(left, bad) then 1 else 0;
  }

  lemma {:induction false} DriveRefusals(oracle: Oracle, bad: Any -> bool, l: Loop, i: nat, j: nat)
    requires NonEmpty(l.queue) && RefusesBad(oracle, bad) && FirstBad(l.queue, bad, i, j)
    ensures |RefusedOf(Drive(oracle, l).trace)| <= |RefusedOf(l.trace)| + j
    decreases Budget(l.queue)
  {
    if !Isolated(oracle, l) {
      var batch := l.queue[0];
      TurnShrinks(oracle, l);
      RefusedAppend(l.trace, Attempt(batch, Answer(oracle, l)));
      RefusalMeansBad(oracle, bad, Calls(l.trace), batch);
      if i == 0 {
        var i' := SplitFirstBad(batch, l.queue[1..], bad, j);
        DriveRefusals(oracle, bad, Turn(oracle, l), i', j - 1);
      } else {
        DriveRefusals(oracle, bad, Turn(oracle, l), i - 1, j);
      }
    }
  }

  lemma {:induction false} FirstOf(queue: seq<Batch>, bad: Any -> bool, k: nat) returns (i: nat)
    requires forall m :: 0 <= m < |queue| ==> |queue[m]| <= Pow2(k)
    ensures i == |queue| ==> forall m :: 0 <= m < |queue| ==> Clean(queue[m], bad)
    ensures i <= |queue| && (i < |queue| ==> FirstBad(queue, bad, i, k))
  {
    i := 0;
    while i < |queue| && Clean(queue[i], bad)
      invariant i <= |queue| && forall m :: 0 <= m < i ==> Clean(queue[m], bad)
    {
      i := i + 1;
    }
  }

  lemma {:induction false} CleanQueue(queue: seq<Batch>, bad: Any -> bool)
    requires forall m :: 0 <= m < |queue| ==> Clean(queue[m], bad)
    ensures Clean(Flatten(queue), bad)
  {
    if queue != [] { CleanQueue(queue[1..], bad); }
  }

  /** Bisection: if batches hold at most 2^k messages, a broadcast with a bad message is
      refused at most k + 1 times before that message is named. */
  lemma {:induction false} BisectionBound(
      oracle: Oracle, bad: Any -> bool, messages: Batch, maximumBatchSize: nat, k: nat)
    requires 1 <= maximumBatchSize <= Pow2(k) && RefusesBad(oracle, bad) && !Clean(messages, bad)
    ensures |RefusedOf(BroadcastSpec(oracle, messages, maximumBatchSize).trace)| <= k + 1
  {
    var l := Start(messages, maximumBatchSize);
    var i := FirstOf(l.queue, bad, k);
    if i == |l.queue| {
      CleanQueue(l.queue, bad);
    } else {
      DriveRefusals(oracle, bad, l, i, k);
      var e := Drive(oracle, l);
      if e.queue != [] { RefusedAppend(e.trace, Attempt(e.queue[0], Answer(oracle, e))); }
    }
  }
}
