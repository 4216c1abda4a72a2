/** What a node keeps about a ring: its current share bundle, and a short history of
    the public polynomials that bundle replaced, written in two separate writes. */
module RingHistory {
  import opened Bytes
  import opened BundleCodec
  import opened Options

  const RETENTION_SECS: nat := 180
  const MAX_ENTRIES: nat := 4

  datatype Retired = Retired(publicPolynomial: Str, retiredAt: nat)

  function SaturatingSub(a: nat, b: nat): nat { if a <= b then 0 else a - b }

  predicate InWindow(e: Retired, now: nat) { SaturatingSub(now, e.retiredAt) <= RETENTION_SECS }

  /** The entries still in the retention window, in order. */
  function Retain(entries: seq<Retired>, now: nat): seq<Retired> {
    if entries == [] then [] else
    if InWindow(entries[0], now) then [entries[0]] + Retain(entries[1..], now) else Retain(entries[1..], now)
  }

  function Truncate<T>(s: seq<T>, n: nat): seq<T> { if |s| <= n then s else s[..n] }

  function Polynomials(entries: seq<Retired>): (ps: seq<Str>)
    ensures |ps| == |entries| && forall i :: 0 <= i < |ps| ==> ps[i] == entries[i].publicPolynomial
  {
    if entries == [] then [] else [entries[0].publicPolynomial] + Polynomials(entries[1..])
  }

  /** One retirement recorded in a stored history, most recent first. */
  function Record(entries: seq<Retired>, e: Retired): seq<Retired> {
    Truncate([e] + Retain(entries, e.retiredAt), MAX_ENTRIES)
  }

  function Recent(entries: seq<Retired>, now: nat): seq<Str> { Polynomials(Retain(entries, now)) }

  // ---------------------------------------------------------------------------
  // The stored history against the unbounded log
  // ---------------------------------------------------------------------------

  /** The history stored after all retirements of a log (most recent first). */
  function HistoryOf(log: seq<Retired>): seq<Retired> {
    if log == [] then [] else Record(HistoryOf(log[1..]), log[0])
  }

  predicate Ordered(log: seq<Retired>) {
    forall i, j :: 0 <= i < j < |log| ==> log[i].retiredAt >= log[j].retiredAt
  }

  /** On an ordered list the window cuts off a suffix. */
  lemma {:induction false} RetainIsPrefix(log: seq<Retired>, now: nat)
    requires Ordered(log)
    ensures Retain(log, now) <= log
    ensures forall i :: 0 <= i < |log| ==> (InWindow(log[i], now) <==> i < |Retain(log, now)|)
  {
    if log != [] {
      RetainIsPrefix(log[1..], now);
      var r := Retain(log[1..], now);
      assert log == [log[0]] + log[1..];
      assert forall i :: 1 <= i < |log| ==> log[i] == log[1..][i - 1];
      if !InWindow(log[0], now) {
        assert |r| == 0 by {
          assert |log[1..]| > 0 ==> !InWindow(log[1..][0], now);
        }
      }
    }
  }

  /** Two prefixes of one list with the same length are the same. */
  lemma {:induction false} SamePrefix<T>(a: seq<T>, b: seq<T>, s: seq<T>)
    requires a <= s && b <= s && |a| == |b|
    ensures a == b
  {
    assert a == s[..|a|] == b;
  }

  lemma {:induction false} PrefixOrdered(p: seq<Retired>, log: seq<Retired>)
    requires Ordered(log) && p <= log
    ensures Ordered(p)
  {
    assert forall i :: 0 <= i < |p| ==> p[i] == log[i];
  }

  /** Filtering a truncated window later is filtering the log and truncating. */
  lemma {:induction false} RetainAfterTruncate(log: seq<Retired>, at: nat, now: nat)
    requires Ordered(log) && at <= now
    ensures Retain(Truncate(Retain(log, at), MAX_ENTRIES), now) == Truncate(Retain(log, now), MAX_ENTRIES)
    ensures Retain(Truncate(log, MAX_ENTRIES), now) == Truncate(Retain(log, now), MAX_ENTRIES)
  {
    RetainIsPrefix(log, at);
    RetainIsPrefix(log, now);
    assert |Retain(log, now)| <= |Retain(log, at)| by {
      var n := |Retain(log, at)|;
      assert n < |log| ==> !InWindow(log[n], at) && !InWindow(log[n], now);
    }
    RetainOfPrefix(log, Truncate(Retain(log, at), MAX_ENTRIES), now);
    RetainOfPrefix(log, Truncate(log, MAX_ENTRIES), now);
    SamePrefix(Retain(Truncate(Retain(log, at), MAX_ENTRIES), now), Truncate(Retain(log, now), MAX_ENTRIES), log);
    SamePrefix(Retain(Truncate(log, MAX_ENTRIES), now), Truncate(Retain(log, now), MAX_ENTRIES), log);
  }

  lemma {:induction false} WindowLength(log: seq<Retired>, p: seq<Retired>, now: nat, m: nat, n: nat)
    requires p <= log && m <= |log| && n <= |p|
    requires forall i :: 0 <= i < |log| ==> (InWindow(log[i], now) <==> i < m)
    requires forall i :: 0 <= i < |p| ==> (InWindow(p[i], now) <==> i < n)
    ensures n == if |p| <= m then |p| else m
  {
    assert forall i :: 0 <= i < |p| ==> p[i] == log[i];
    if n < |p| { assert !InWindow(log[n], now); }
    if n > 0 { assert InWindow(log[n - 1], now); }
  }

  lemma {:induction false} RetainOfPrefix(log: seq<Retired>, p: seq<Retired>, now: nat)
    requires Ordered(log) && p <= log
    ensures Retain(p, now) <= log
    ensures |Retain(p, now)| == if |p| <= |Retain(log, now)| then |p| else |Retain(log, now)|
  {
    PrefixOrdered(p, log);
    RetainIsPrefix(log, now);
    RetainIsPrefix(p, now);
    WindowLength(log, p, now, |Retain(log, now)|, |Retain(p, now)|);
  }

  /** What is stored is exactly the newest entries that were in the window when the
      last retirement was recorded. */
  lemma {:induction false} StoredIsWindow(log: seq<Retired>)
    requires Ordered(log) && log != []
    ensures HistoryOf(log) == Truncate(Retain(log, log[0].retiredAt), MAX_ENTRIES)
  {
    var e, older := log[0], log[1..];
    if older != [] {
      StoredIsWindow(older);
      RetainAfterTruncate(older, older[0].retiredAt, e.retiredAt);
    }
  }

  /** After any retirements with nondecreasing times, the pruned and capped history
      answers as the unbounded log would: the four newest, those still in the window. */
  lemma {:induction false} PrunedAgreesWithLog(log: seq<Retired>, now: nat)
    requires Ordered(log) && (log != [] ==> log[0].retiredAt <= now)
    ensures Recent(HistoryOf(log), now) == Recent(Truncate(log, MAX_ENTRIES), now)
  {
    if log != [] {
      StoredIsWindow(log);
      RetainAfterTruncate(log, log[0].retiredAt, now);
    }
  }

  /** Filtering moves an entry it keeps no further from the front. */
  lemma {:induction false} RetainKeeps(entries: seq<Retired>, now: nat, p: nat) returns (q: nat)
    requires p < |entries| && InWindow(entries[p], now)
    ensures q <= p && q < |Retain(entries, now)| && Retain(entries, now)[q] == entries[p]
  {
    if p == 0 {
      q := 0;
    } else {
      q := RetainKeeps(entries[1..], now, p - 1);
      if InWindow(entries[0], now) { q := q + 1; }
    }
  }

  /** In any order: an entry among the four newest is still stored as long as it is in the
      window at `now` and no later entry is dated after that. */
  lemma {:induction false} StillStored(log: seq<Retired>, k: nat, now: nat) returns (p: nat)
    requires k < |log| && k < MAX_ENTRIES && InWindow(log[k], now)
    requires forall i :: 0 <= i < k ==> log[i].retiredAt <= now
    ensures p <= k && p < |HistoryOf(log)| && HistoryOf(log)[p] == log[k]
  {
    if k == 0 {
      p := 0;
    } else {
      var older := log[1..];
      p := StillStored(older, k - 1, now);
      assert InWindow(log[k], log[0].retiredAt);
      var q := RetainKeeps(HistoryOf(older), log[0].retiredAt, p);
      p := q + 1;
    }
  }

  /** And so it is reported: out of order, only entries the capped log would not show can be
      added, none is lost. */
  lemma {:induction false} RetirementReported(log: seq<Retired>, k: nat, now: nat)
    requires k < |log| && k < MAX_ENTRIES && InWindow(log[k], now)
    requires forall i :: 0 <= i < k ==> log[i].retiredAt <= now
    ensures log[k].publicPolynomial in Recent(HistoryOf(log), now)
  {
    var p := StillStored(log, k, now);
    var q := RetainKeeps(HistoryOf(log), now, p);
    assert Polynomials(Retain(HistoryOf(log), now))[q] == log[k].publicPolynomial;
  }

  /** Without the order the two differ: an old entry recorded late can be pruned and
      leave room for an entry the capped log would not show. */
  lemma {:induction false} DisorderMatters()
    ensures exists log: seq<Retired>, now: nat ::
              log != [] && (forall i :: 0 <= i < |log| ==> log[i].retiredAt <= now)
              && Recent(HistoryOf(log), now) != Recent(Truncate(log, MAX_ENTRIES), now)
  {
    var a, b := Retired([], 1000), Retired([], 0);
    var log := [a, b, a, a, a];
    assert log[1..] == [b, a, a, a] && log[1..][1..] == [a, a, a] && [a, a, a][1..] == [a, a] && [a, a][1..] == [a];
    assert HistoryOf([a]) == [a];
    assert Retain([a], 1000) == [a];
    assert HistoryOf([a, a]) == [a, a];
    assert Retain([a, a], 1000) == [a, a] by { assert [a, a][1..] == [a]; }
    assert HistoryOf([a, a, a]) == [a, a, a];
    assert Retain([a, a, a], 0) == [a, a, a] by {
      assert [a, a][1..] == [a] && Retain([a], 0) == [a];
      assert Retain([a, a], 0) == [a, a];
    }
    assert HistoryOf([b, a, a, a]) == [b, a, a, a];
    assert Retain([a, a, a], 1000) == [a, a, a];
    assert Retain([b, a, a, a], 1000) == [a, a, a] by { assert [b, a, a, a][1..] == [a, a, a]; }
    assert HistoryOf(log) == [a, a, a, a];
    assert |Retain([a, a, a, a], 1000)| == 4 by { assert [a, a, a, a][1..] == [a, a, a]; }
    assert Truncate(log, MAX_ENTRIES) == [a, b, a, a];
    assert |Retain([a, b, a, a], 1000)| == 3 by {
      assert [a, b, a, a][1..] == [b, a, a] && [b, a, a][1..] == [a, a];
    }
    assert |Recent(HistoryOf(log), 1000)| != |Recent(Truncate(log, MAX_ENTRIES), 1000)|;
  }

  // ---------------------------------------------------------------------------
  // Saves, interrupted or not
  // ---------------------------------------------------------------------------

  /** The two storage entries of one ring: the bundle as the bytes written, the
      history as the value its JSON stands for. */
  datatype Stored = Stored(slot: Option<seq<byte>>, history: seq<Retired>)

  /** `stash_previous_polynomial`. */
  function Stash(st: Stored, b: RingShareBundle): Stored {
    if st.slot.None? || Decode(st.slot.value).Err? then st else
    var previous := Decode(st.slot.value).value;
    if previous.publicPolynomial == b.publicPolynomial then st
    else st.(history := Record(st.history, Retired(previous.publicPolynomial, b.lastPss)))
  }

  function Save(st: Stored, b: RingShareBundle): Stored {
    Stash(st, b).(slot := Some(Encode(b)))
  }

  class RingStore {
    var slot: Option<seq<byte>>
    var history: seq<Retired>

    function State(): Stored
      reads this
    {
      Stored(slot, history)
    }

    constructor ()
      ensures State() == Stored(None, [])
    {
      slot, history := None, [];
    }

    method RecordRetired(publicPolynomial: Str, retiredAt: nat)
      modifies this`history
      ensures history == Record(old(history), Retired(publicPolynomial, retiredAt))
    {
      var entries := history;
      entries := Retain(entries, retiredAt);
      entries := [Retired(publicPolynomial, retiredAt)] + entries;
      entries := Truncate(entries, MAX_ENTRIES);
      history := entries;
    }

    method StashPreviousPolynomial(b: RingShareBundle)
      requires slot.Some? ==> |slot.value| <= MAX_ALLOCATION
      modifies this`history
      ensures State() == Stash(old(State()), b)
    {
      if slot.None? { return; }
      var previous := FromBytes(slot.value);
      if previous.Err? { return; }
      if previous.value.publicPolynomial == b.publicPolynomial { return; }
      RecordRetired(previous.value.publicPolynomial, b.lastPss);
    }

    method SaveByRingKey(b: RingShareBundle)
      requires slot.Some? ==> |slot.value| <= MAX_ALLOCATION
      modifies this
      ensures State() == Save(old(State()), b)
    {
      StashPreviousPolynomial(b);
      var bytes := ToBytes(b);
      slot := Some(bytes);
    }
  }

  /** A save that completed, or one cut off between its two writes. */
  datatype Event = Event(bundle: RingShareBundle, completed: bool)

  function Apply(st: Stored, e: Event): Stored {
    if e.completed then Save(st, e.bundle) else Stash(st, e.bundle)
  }

  /** The storage after the first `n` events. */
  function After(events: seq<Event>, n: nat): Stored
    requires n <= |events|
  {
    if n == 0 then Stored(None, []) else Apply(After(events, n - 1), events[n - 1])
  }

  /** The bundle of the last completed save. */
  function Current(events: seq<Event>, n: nat): Option<RingShareBundle>
    requires n <= |events|
  {
    if n == 0 then None else
    if events[n - 1].completed then Some(events[n - 1].bundle) else Current(events, n - 1)
  }

  /** Whether event `n` retires the polynomial current before it. */
  predicate Retires(events: seq<Event>, n: nat)
    requires n < |events|
  {
    Current(events, n).Some? && Current(events, n).value.publicPolynomial != events[n].bundle.publicPolynomial
  }

  /** All retirements among the first `n` events, most recent first; an interrupted
      save and its retry count twice. */
  function Log(events: seq<Event>, n: nat): seq<Retired>
    requires n <= |events|
  {
    if n == 0 then [] else
    if Retires(events, n - 1) then
      [Retired(Current(events, n - 1).value.publicPolynomial, events[n - 1].bundle.lastPss)] + Log(events, n - 1)
    else Log(events, n - 1)
  }

  predicate WellFormedRun(events: seq<Event>) {
    forall i :: 0 <= i < |events| ==> ValidBundle(events[i].bundle) && Fits(events[i].bundle)
  }

  /** The clock behind `last_pss` never stepped back. */
  predicate OrderedRun(events: seq<Event>) {
    forall i, j :: 0 <= i < j < |events| ==> events[i].bundle.lastPss <= events[j].bundle.lastPss
  }

  function Slot(c: Option<RingShareBundle>): Option<seq<byte>> {
    match c case None => None case Some(b) => Some(Encode(b))
  }

  predicate Storable(c: Option<RingShareBundle>) { c.Some? ==> ValidBundle(c.value) && Fits(c.value) }

  /** What stashing does to a storage that holds `c`. */
  lemma {:induction false} StashStored(c: Option<RingShareBundle>, history: seq<Retired>, b: RingShareBundle)
    requires Storable(c)
    ensures Stash(Stored(Slot(c), history), b) ==
            Stored(Slot(c), if c.Some? && c.value.publicPolynomial != b.publicPolynomial
                            then Record(history, Retired(c.value.publicPolynomial, b.lastPss)) else history)
  {
    if c.Some? {
      RoundTrip(c.value, []);
      assert Encode(c.value) + [] == Encode(c.value);
    }
  }

  /** The storage always holds the last completed bundle and the pruned log. */
  lemma {:induction false} StorageIsLog(events: seq<Event>, n: nat)
    requires WellFormedRun(events) && n <= |events|
    ensures After(events, n) == Stored(Slot(Current(events, n)), HistoryOf(Log(events, n)))
    ensures Storable(Current(events, n))
  {
    if n != 0 {
      StorageIsLog(events, n - 1);
      StashStored(Current(events, n - 1), HistoryOf(Log(events, n - 1)), events[n - 1].bundle);
      if Retires(events, n - 1) {
        assert Log(events, n)[1..] == Log(events, n - 1);
      }
    }
  }

  lemma {:induction false} LogOrdered(events: seq<Event>, n: nat)
    requires OrderedRun(events) && n <= |events|
    ensures Ordered(Log(events, n))
    ensures forall i :: 0 <= i < |Log(events, n)| ==>
              n > 0 && Log(events, n)[i].retiredAt <= events[n - 1].bundle.lastPss
  {
    if n != 0 {
      LogOrdered(events, n - 1);
    }
  }

  /** With an ordered clock the stored history answers as the unbounded log would. */
  lemma {:induction false} HistoryAgrees(events: seq<Event>, now: nat)
    requires WellFormedRun(events) && OrderedRun(events)
    requires events != [] ==> events[|events| - 1].bundle.lastPss <= now
    ensures Recent(After(events, |events|).history, now) == Recent(Truncate(Log(events, |events|), MAX_ENTRIES), now)
  {
    StorageIsLog(events, |events|);
    LogOrdered(events, |events|);
    PrunedAgreesWithLog(Log(events, |events|), now);
  }

  /** How many retirements are recorded by events `from` to `to`. */
  function Recordings(events: seq<Event>, from: nat, to: nat): nat
    requires from <= to <= |events|
  {
    if from == to then 0 else
    Recordings(events, from, to - 1) + if Retires(events, to - 1) then 1 else 0
  }

  /** The retirement recorded by event `j` sits below every later recording. */
  lemma {:induction false} LogPosition(events: seq<Event>, j: nat, n: nat)
    requires j < n <= |events| && Retires(events, j)
    ensures var p := Recordings(events, j + 1, n);
            p < |Log(events, n)| &&
            Log(events, n)[p] == Retired(Current(events, j).value.publicPolynomial, events[j].bundle.lastPss)
  {
    if n != j + 1 {
      LogPosition(events, j, n - 1);
    }
  }

  /** The completed save, at or after `i`, that first replaces polynomial `p`; `n` if none does. */
  function Replaced(events: seq<Event>, p: Str, i: nat, n: nat): (j: nat)
    requires i <= n <= |events|
    ensures i <= j <= n
    decreases n - i
  {
    if i == n || (events[i].completed && events[i].bundle.publicPolynomial != p) then i
    else Replaced(events, p, i + 1, n)
  }

  lemma {:induction false} CurrentUntilReplaced(events: seq<Event>, p: Str, i: nat, n: nat)
    requires i <= n <= |events|
    requires Current(events, i).Some? && Current(events, i).value.publicPolynomial == p
    ensures var j := Replaced(events, p, i, n);
            Current(events, j).Some? && Current(events, j).value.publicPolynomial == p
    decreases n - i
  {
    if i != n && !(events[i].completed && events[i].bundle.publicPolynomial != p) {
      CurrentUntilReplaced(events, p, i + 1, n);
    }
  }

  lemma {:induction false} StoredReadsBack(events: seq<Event>)
    requires WellFormedRun(events) && Current(events, |events|).Some?
    ensures After(events, |events|).slot.Some?
    ensures Decode(After(events, |events|).slot.value) == Ok(Current(events, |events|).value)
  {
    var b := Current(events, |events|).value;
    StorageIsLog(events, |events|);
    RoundTrip(b, []);
    assert Encode(b) + [] == Encode(b);
  }

  /** No save after event `j` is dated after `now`. */
  predicate DatedBy(events: seq<Event>, j: nat, n: nat, now: nat)
    requires n <= |events|
  {
    forall e :: j < e < n ==> events[e].bundle.lastPss <= now
  }

  /** Recordings above event `j`'s are those of later events. */
  lemma {:induction false} LaterRecordings(events: seq<Event>, j: nat, n: nat, now: nat)
    requires j < n <= |events| && DatedBy(events, j, n, now)
    ensures Recordings(events, j + 1, n) <= |Log(events, n)|
    ensures forall i :: 0 <= i < Recordings(events, j + 1, n) ==> Log(events, n)[i].retiredAt <= now
  {
    if n != j + 1 {
      LaterRecordings(events, j, n - 1, now);
    }
  }

  lemma {:induction false} ReplacementReported(events: seq<Event>, j: nat, now: nat)
    requires WellFormedRun(events) && j < |events| && Retires(events, j)
    requires now <= events[j].bundle.lastPss + 180 && DatedBy(events, j, |events|, now)
    requires Recordings(events, j + 1, |events|) < 4
    ensures Current(events, j).value.publicPolynomial in Recent(After(events, |events|).history, now)
  {
    var n := |events|;
    LogPosition(events, j, n);
    LaterRecordings(events, j, n, now);
    StorageIsLog(events, n);
    RetirementReported(Log(events, n), Recordings(events, j + 1, n), now);
  }

  /** Any polynomial that was current at some moment of the last 180 seconds is still
      current or still reported, unless four newer recordings pushed it out. The clock may
      step back; only saves after the replacement must not be dated after `now`. */
  lemma {:induction false} RecentlyCurrentIsKnown(events: seq<Event>, i: nat, now: nat)
    requires WellFormedRun(events) && i <= |events| && Current(events, i).Some?
    ensures var n, p := |events|, Current(events, i).value.publicPolynomial;
            var j := Replaced(events, p, i, n);
            && (j == n ==> Current(events, n).Some? && Current(events, n).value.publicPolynomial == p
                           && After(events, n).slot.Some?
                           && Decode(After(events, n).slot.value) == Ok(Current(events, n).value))
            && (j < n && now <= events[j].bundle.lastPss + 180
                && DatedBy(events, j, n, now) && Recordings(events, j + 1, n) < 4 ==>
                  p in Recent(After(events, n).history, now))
  {
    var n, p := |events|, Current(events, i).value.publicPolynomial;
    var j := Replaced(events, p, i, n);
    CurrentUntilReplaced(events, p, i, n);
    if j == n {
      StoredReadsBack(events);
    } else if now <= events[j].bundle.lastPss + 180 && DatedBy(events, j, n, now) && Recordings(events, j + 1, n) < 4 {
      ReplacedCompletes(events, p, i, n);
      ReplacementReported(events, j, now);
    }
  }

  lemma {:induction false} ReplacedCompletes(events: seq<Event>, p: Str, i: nat, n: nat)
    requires i <= n <= |events|
    ensures var j := Replaced(events, p, i, n);
            j < n ==> events[j].completed && events[j].bundle.publicPolynomial != p
    decreases n - i
  {
    if i != n && !(events[i].completed && events[i].bundle.publicPolynomial != p) {
      ReplacedCompletes(events, p, i + 1, n);
    }
  }

  // ---------------------------------------------------------------------------
  // Nothing else is reported
  // ---------------------------------------------------------------------------

  /** The window keeps exactly what retired at most 180 seconds ago. */
  lemma {:induction false} RetainExact(entries: seq<Retired>, now: nat, e: Retired)
    ensures e in Retain(entries, now) <==> e in entries && now <= e.retiredAt + 180
  {
    if entries != [] {
      RetainExact(entries[1..], now, e);
      assert e in entries <==> e == entries[0] || e in entries[1..];
    }
  }

  lemma {:induction false} RecentExact(entries: seq<Retired>, now: nat, p: Str)
    ensures p in Recent(entries, now) <==>
              exists i :: 0 <= i < |entries| && entries[i].publicPolynomial == p && now <= entries[i].retiredAt + 180
  {
    var kept := Retain(entries, now);
    if p in Recent(entries, now) {
      var k :| 0 <= k < |kept| && kept[k].publicPolynomial == p;
      RetainExact(entries, now, kept[k]);
      var i :| 0 <= i < |entries| && entries[i] == kept[k];
    }
    if i :| 0 <= i < |entries| && entries[i].publicPolynomial == p && now <= entries[i].retiredAt + 180 {
      RetainExact(entries, now, entries[i]);
      var k :| 0 <= k < |kept| && kept[k] == entries[i];
      assert Recent(entries, now)[k] == p;
    }
  }

  /** What is stored was recorded. */
  lemma {:induction false} HistoryFromLog(log: seq<Retired>, e: Retired)
    requires e in HistoryOf(log)
    ensures e in log
  {
    var older := Retain(HistoryOf(log[1..]), log[0].retiredAt);
    if e != log[0] {
      var i :| 0 <= i < |HistoryOf(log)| && HistoryOf(log)[i] == e;
      assert ([log[0]] + older)[i] == e && older[i - 1] == e;
      RetainExact(HistoryOf(log[1..]), log[0].retiredAt, e);
      HistoryFromLog(log[1..], e);
    }
  }

  /** Every entry of the log is some event's retirement, below the later recordings. */
  lemma {:induction false} LogOrigin(events: seq<Event>, n: nat, k: nat) returns (j: nat)
    requires n <= |events| && k < |Log(events, n)|
    ensures j < n && Retires(events, j) && Recordings(events, j + 1, n) == k
    ensures Log(events, n)[k] == Retired(Current(events, j).value.publicPolynomial, events[j].bundle.lastPss)
  {
    if Retires(events, n - 1) && k == 0 {
      j := n - 1;
    } else {
      j := LogOrigin(events, n - 1, if Retires(events, n - 1) then k - 1 else k);
    }
  }

  /** Event `j` retired polynomial `p`, at most 180 seconds before `now`. */
  predicate RetiredRecently(events: seq<Event>, j: nat, p: Str, now: nat)
    requires j < |events|
  {
    Retires(events, j) && Current(events, j).value.publicPolynomial == p && now <= events[j].bundle.lastPss + 180
  }

  /** Whatever is reported was replaced at most 180 seconds ago, in any order of times. */
  lemma {:induction false} ReportedWasRetired(events: seq<Event>, now: nat, p: Str) returns (j: nat)
    requires WellFormedRun(events) && p in Recent(After(events, |events|).history, now)
    ensures j < |events| && RetiredRecently(events, j, p, now)
  {
    var n := |events|;
    var log := Log(events, n);
    StorageIsLog(events, n);
    RecentExact(HistoryOf(log), now, p);
    var i :| 0 <= i < |HistoryOf(log)| && HistoryOf(log)[i].publicPolynomial == p
             && now <= HistoryOf(log)[i].retiredAt + 180;
    HistoryFromLog(log, HistoryOf(log)[i]);
    var k :| 0 <= k < |log| && log[k] == HistoryOf(log)[i];
    j := LogOrigin(events, n, k);
  }

  /** With an ordered clock, exactly the polynomials replaced at most 180 seconds ago are
      reported that fewer than four later recordings followed. */
  lemma {:induction false} ReportedIff(events: seq<Event>, now: nat, p: Str)
    requires WellFormedRun(events) && OrderedRun(events)
    requires events != [] ==> events[|events| - 1].bundle.lastPss <= now
    ensures p in Recent(After(events, |events|).history, now) <==>
              exists j ::
                0 <= j < |events| && RetiredRecently(events, j, p, now) && Recordings(events, j + 1, |events|) < 4
  {
    var n := |events|;
    var newest := Truncate(Log(events, n), 4);
    HistoryAgrees(events, now);
    RecentExact(newest, now, p);
    if p in Recent(newest, now) {
      var k :| 0 <= k < |newest| && newest[k].publicPolynomial == p && now <= newest[k].retiredAt + 180;
      var j := LogOrigin(events, n, k);
      assert RetiredRecently(events, j, p, now) && Recordings(events, j + 1, n) < 4;
    }
    if j :| 0 <= j < n && RetiredRecently(events, j, p, now) && Recordings(events, j + 1, n) < 4 {
      var k := Recordings(events, j + 1, n);
      LogPosition(events, j, n);
      assert k < |newest| && newest[k] == Log(events, n)[k];
      assert newest[k].publicPolynomial == p && now <= newest[k].retiredAt + 180;
    }
  }
}
