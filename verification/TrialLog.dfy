/** The append-only trial log: one JSON record per line, cut off at any byte by a
    crash, repaired when the run is resumed. */
module TrialLog {
  import opened Bytes
  import opened TextLines
  import opened Options

  const NEWLINE: byte := 0x0A
  const CARRIAGE_RETURN: byte := 0x0D

  // ---------------------------------------------------------------------------
  // Repair
  // ---------------------------------------------------------------------------

  /** The length up to and including the last newline, or zero. */
  function CommittedLen(bytes: seq<byte>): (n: nat)
    ensures n <= |bytes|
  {
    if bytes == [] then 0 else
    if bytes[|bytes| - 1] == NEWLINE then |bytes| else CommittedLen(bytes[..|bytes| - 1])
  }

  predicate Terminated(bytes: seq<byte>) { bytes == [] || bytes[|bytes| - 1] == NEWLINE }

  predicate NewlineFree(bytes: seq<byte>) { NEWLINE !in bytes }

  lemma {:induction false} CommittedIsTerminated(bytes: seq<byte>)
    ensures Terminated(bytes[..CommittedLen(bytes)])
  {
    var n := |bytes|;
    if bytes != [] && bytes[n - 1] != NEWLINE {
      CommittedIsTerminated(bytes[..n - 1]);
      assert bytes[..CommittedLen(bytes)] == bytes[..n - 1][..CommittedLen(bytes)];
    } else {
      assert bytes[..n] == bytes;
    }
  }

  lemma {:induction false} TerminatedIsCommitted(bytes: seq<byte>, k: nat)
    requires k <= |bytes| && Terminated(bytes[..k])
    ensures k <= CommittedLen(bytes)
  {
    var n := |bytes|;
    if bytes != [] && bytes[n - 1] != NEWLINE {
      assert k < n by { assert bytes[..n] == bytes; }
      assert bytes[..k] == bytes[..n - 1][..k];
      TerminatedIsCommitted(bytes[..n - 1], k);
    }
  }

  lemma {:induction false} TornIsNewlineFree(bytes: seq<byte>)
    ensures NewlineFree(bytes[CommittedLen(bytes)..])
  {
    var n := |bytes|;
    if bytes != [] && bytes[n - 1] != NEWLINE {
      TornIsNewlineFree(bytes[..n - 1]);
      assert bytes[CommittedLen(bytes)..] == bytes[..n - 1][CommittedLen(bytes)..] + [bytes[n - 1]];
    }
  }

  /** Repair keeps the longest newline-terminated prefix and sets the rest aside. */
  lemma {:induction false} CommittedIsLongest(bytes: seq<byte>, k: nat)
    requires k <= |bytes|
    ensures Terminated(bytes[..CommittedLen(bytes)])
    ensures Terminated(bytes[..k]) ==> k <= CommittedLen(bytes)
    ensures NewlineFree(bytes[CommittedLen(bytes)..])
  {
    CommittedIsTerminated(bytes);
    if Terminated(bytes[..k]) { TerminatedIsCommitted(bytes, k); }
    TornIsNewlineFree(bytes);
  }

  // ---------------------------------------------------------------------------
  // The files, step by step
  // ---------------------------------------------------------------------------

  /** `trials.jsonl` and the file its last torn tail was moved to. */
  datatype Files = Files(trials: Option<seq<byte>>, fragment: Option<seq<byte>>)

  /** `repair_interrupted_jsonl`; the fragment is written before the log is cut. */
  function Repaired(f: Files): Files {
    if f.trials.None? || Terminated(f.trials.value) then f else
    var n := CommittedLen(f.trials.value);
    Files(Some(f.trials.value[..n]), Some(f.trials.value[n..]))
  }

  /** `append_file` creates a missing log. */
  function Opened(f: Files): Files {
    if f.trials.None? then f.(trials := Some([])) else f
  }

  function Appended(f: Files, bytes: seq<byte>): Files
    requires f.trials.Some?
  {
    f.(trials := Some(f.trials.value + bytes))
  }

  class ResultStore {
    var trials: Option<seq<byte>>
    var fragment: Option<seq<byte>>

    function State(): Files
      reads this
    {
      Files(trials, fragment)
    }

    constructor (onDisk: Files)
      ensures State() == onDisk
    {
      trials, fragment := onDisk.trials, onDisk.fragment;
    }

    method RepairInterruptedJsonl()
      modifies this
      ensures State() == Repaired(old(State()))
    {
      if trials.None? { return; }
      var bytes := trials.value;
      if bytes == [] || bytes[|bytes| - 1] == NEWLINE { return; }
      var committedLen := CommittedLen(bytes);
      fragment := Some(bytes[committedLen..]);
      trials := Some(bytes[..committedLen]);
    }

    method Resume()
      modifies this
      ensures State() == Opened(Repaired(old(State())))
    {
      RepairInterruptedJsonl();
      if trials.None? { trials := Some([]); }
    }

    method AppendTrial(record: seq<byte>)
      requires trials.Some?
      modifies this`trials
      ensures State() == Appended(old(State()), record + [NEWLINE])
    {
      trials := Some(trials.value + record);
      trials := Some(trials.value + [NEWLINE]);
      assert trials.value == old(trials.value) + (record + [NEWLINE]);
    }
  }

  /** Kept and set aside together are the original, and repairing again changes nothing. */
  lemma {:induction false} RepairSplits(f: Files)
    ensures f.trials.Some? ==>
              var r := Repaired(f);
              r.trials.Some? && Terminated(r.trials.value) &&
              (r != f ==>
                 r.fragment.Some? && r.fragment.value != [] && r.trials.value + r.fragment.value == f.trials.value)
    ensures Repaired(Repaired(f)) == Repaired(f)
  {
    if f.trials.Some? {
      CommittedIsLongest(f.trials.value, 0);
      assert f.trials.value[..CommittedLen(f.trials.value)] + f.trials.value[CommittedLen(f.trials.value)..]
             == f.trials.value;
      if !Terminated(f.trials.value) {
        CommittedIsLongest(f.trials.value, |f.trials.value|);
        assert f.trials.value[..|f.trials.value|] == f.trials.value;
      }
    }
  }

  // ---------------------------------------------------------------------------
  // Runs of appends, crashes and resumptions
  // ---------------------------------------------------------------------------

  /** `Append(r, n)` writes the first `n` bytes of the record and its newline; fewer
      than all of them is a crash. A crashed repair has written its fragment only. */
  datatype Event = Append(record: seq<byte>, written: nat) | Resume | RepairCrashed

  /** `running` is false from a crash until the next resumption. */
  datatype Log = Log(files: Files, running: bool)

  predicate Possible(l: Log, e: Event) {
    match e
    case Append(r, n) => l.running && l.files.trials.Some? && NewlineFree(r) && n <= |r| + 1
    case Resume => true
    case RepairCrashed => !l.running
  }

  function Apply(l: Log, e: Event): Log
    requires Possible(l, e)
  {
    match e
    case Append(r, n) => Log(Appended(l.files, (r + [NEWLINE])[..n]), n == |r| + 1)
    case Resume => Log(Opened(Repaired(l.files)), true)
    case RepairCrashed => Log(l.files.(fragment := Repaired(l.files).fragment), false)
  }

  /** The log after the first events; a run is cut at its first impossible event. */
  function Run(events: seq<Event>, n: nat): Log
    requires n <= |events|
  {
    if n == 0 then Log(Files(None, None), false) else
    var l := Run(events, n - 1);
    if Possible(l, events[n - 1]) then Apply(l, events[n - 1]) else l
  }

  /** The records whose newline was written, in order. */
  function Committed(events: seq<Event>, n: nat): seq<seq<byte>>
    requires n <= |events|
  {
    if n == 0 then [] else
    var e := events[n - 1];
    if e.Append? && Possible(Run(events, n - 1), e) && e.written == |e.record| + 1
    then Committed(events, n - 1) + [e.record] else Committed(events, n - 1)
  }

  /** Whether the store is running, by the events alone: from a resumption until an append
      that is cut short. */
  predicate Running(events: seq<Event>, n: nat)
    requires n <= |events|
  {
    if n == 0 then false else
    match events[n - 1]
    case Resume => true
    case RepairCrashed => Running(events, n - 1)
    case Append(r, written) =>
      Running(events, n - 1) && (NewlineFree(r) && written <= |r| + 1 ==> written == |r| + 1)
  }

  /** The records appended completely while running, in order. */
  function Kept(events: seq<Event>, n: nat): seq<seq<byte>>
    requires n <= |events|
  {
    if n == 0 then [] else
    match events[n - 1]
    case Append(r, written) =>
      if Running(events, n - 1) && NewlineFree(r) && written == |r| + 1 then Kept(events, n - 1) + [r]
      else Kept(events, n - 1)
    case _ => Kept(events, n - 1)
  }

  /** Every append while running is possible, whole or cut at any byte; exactly the whole ones
      are committed and leave the store running. */
  lemma {:induction false} RunIsTold(events: seq<Event>, n: nat)
    requires n <= |events|
    ensures Run(events, n).running <==> Running(events, n)
    ensures Committed(events, n) == Kept(events, n)
    ensures Running(events, n) ==> Run(events, n).files.trials.Some?
  {
    if n != 0 {
      RunIsTold(events, n - 1);
    }
  }

  /** The text of complete lines. */
  function Unlines(records: seq<seq<byte>>): (bytes: seq<byte>)
    ensures Terminated(bytes)
  {
    if records == [] then [] else
    Unlines(records[..|records| - 1]) + (records[|records| - 1] + [NEWLINE])
  }

  lemma {:induction false} UnlinesAppend(records: seq<seq<byte>>, r: seq<byte>)
    ensures Unlines(records + [r]) == Unlines(records) + (r + [NEWLINE])
  {
    assert (records + [r])[..|records|] == records;
  }

  lemma {:induction false} CommittedLenOf(kept: seq<byte>, torn: seq<byte>)
    requires Terminated(kept) && NewlineFree(torn)
    ensures CommittedLen(kept + torn) == |kept|
    ensures Terminated(kept + torn) <==> torn == []
  {
    var all := kept + torn;
    if torn == [] {
      assert all == kept;
    } else {
      var n := |torn| - 1;
      assert all[|all| - 1] == torn[n];
      assert all[..|all| - 1] == kept + torn[..n];
      CommittedLenOf(kept, torn[..n]);
    }
  }

  /** The log is the committed records followed by a torn tail, which is empty while running. */
  ghost predicate Holds(l: Log, records: seq<seq<byte>>, torn: seq<byte>) {
    && NewlineFree(torn)
    && (l.files.trials.None? ==> records == [] && torn == [])
    && (l.files.trials.Some? ==> l.files.trials.value == Unlines(records) + torn)
    && (l.running ==> torn == [] && l.files.trials.Some?)
  }

  lemma {:induction false} AppendHolds(l: Log, e: Event, records: seq<seq<byte>>) returns (torn: seq<byte>)
    requires Holds(l, records, []) && e.Append? && Possible(l, e)
    ensures Holds(Apply(l, e), if e.written == |e.record| + 1 then records + [e.record] else records, torn)
  {
    var r, n := e.record, e.written;
    if n == |r| + 1 {
      torn := [];
      UnlinesAppend(records, r);
      assert (r + [NEWLINE])[..n] == r + [NEWLINE];
    } else {
      torn := r[..n];
      assert (r + [NEWLINE])[..n] == torn;
    }
  }

  lemma {:induction false} ResumeHolds(l: Log, records: seq<seq<byte>>, torn: seq<byte>)
    requires Holds(l, records, torn)
    ensures Holds(Apply(l, Resume), records, [])
  {
    if l.files.trials.Some? {
      var kept := Unlines(records);
      CommittedLenOf(kept, torn);
      assert (kept + torn)[..|kept|] == kept;
    }
  }

  /** However often the run crashes and resumes, the log is the committed records,
      followed after a crash by one newline-free torn tail; nothing is lost, added
      or reordered, and while running there is no tail. */
  lemma {:induction false} LogIsCommitted(events: seq<Event>, n: nat) returns (torn: seq<byte>)
    requires n <= |events|
    ensures Holds(Run(events, n), Committed(events, n), torn)
  {
    torn := [];
    if n != 0 {
      torn := LogIsCommitted(events, n - 1);
      var l, e := Run(events, n - 1), events[n - 1];
      if Possible(l, e) {
        if e.Append? {
          torn := AppendHolds(l, e, Committed(events, n - 1));
        } else if e.Resume? {
          ResumeHolds(l, Committed(events, n - 1), torn);
          torn := [];
        }
      }
    }
  }

  // ---------------------------------------------------------------------------
  // Reading the log back
  // ---------------------------------------------------------------------------

  const ENDING: Ending<byte> := Ending(NEWLINE, CARRIAGE_RETURN)

  /** The JSON text of a record: one nonblank line that parses back to the record. */
  datatype Codec<!T> = Codec(write: T -> seq<byte>, parse: seq<byte> -> Option<T>, blank: seq<byte> -> bool)

  ghost predicate Lossless<T(!new)>(json: Codec<T>) {
    forall t {:trigger json.write(t)} ::
      && NewlineFree(json.write(t))
      && Stripped(ENDING, json.write(t)) == json.write(t)
      && !json.blank(json.write(t))
      && json.parse(json.write(t)) == Some(t)
  }

  /** What `read_trials` returns for the lines of a log: `None` when some line does not parse. */
  function Parsed<T>(json: Codec<T>, lines: seq<seq<byte>>): Option<seq<T>> {
    if lines == [] then Some([]) else
    match Parsed(json, lines[..|lines| - 1])
    case None => None
    case Some(records) =>
      var line := lines[|lines| - 1];
      if json.blank(line) then Some(records) else
      match json.parse(line)
      case None => None
      case Some(t) => Some(records + [t])
  }

  method ReadTrials<T>(json: Codec<T>, log: Option<seq<byte>>) returns (r: Option<seq<T>>)
    ensures r == match log case None => Some([]) case Some(bytes) => Parsed(json, Lines(ENDING, bytes, []))
  {
    if log.None? { return Some([]); }
    var lines := Lines(ENDING, log.value, []);
    var records := [];
    var i := 0;
    while i < |lines|
      invariant 0 <= i <= |lines|
      invariant Parsed(json, lines[..i]) == Some(records)
    {
      var line := lines[i];
      i := i + 1;
      assert lines[..i][..i - 1] == lines[..i - 1];
      if json.blank(line) { continue; }
      var t := json.parse(line);
      if t.None? {
        ParsedStops(json, lines, i);
        return None;
      }
      records := records + [t.value];
    }
    assert lines[..i] == lines;
    return Some(records);
  }

  lemma {:induction false} ParsedStops<T>(json: Codec<T>, lines: seq<seq<byte>>, i: nat)
    requires i <= |lines| && Parsed(json, lines[..i]).None?
    ensures Parsed(json, lines).None?
    decreases |lines|
  {
    if i == |lines| {
      assert lines[..i] == lines;
    } else {
      assert lines[..|lines| - 1][..i] == lines[..i];
      ParsedStops(json, lines[..|lines| - 1], i);
    }
  }

  function Printed<T>(json: Codec<T>, ts: seq<T>): seq<seq<byte>> {
    seq(|ts|, i requires 0 <= i < |ts| => json.write(ts[i]))
  }

  lemma {:induction false} LinesOfUnlines<T(!new)>(json: Codec<T>, ts: seq<T>, rest: seq<byte>)
    requires Lossless(json)
    ensures Lines(ENDING, Unlines(Printed(json, ts)) + rest, []) == Printed(json, ts) + Lines(ENDING, rest, [])
  {
    var rs := Printed(json, ts);
    if ts == [] {
      assert Unlines(rs) + rest == rest;
    } else {
      var n := |ts| - 1;
      var r := json.write(ts[n]);
      assert rs[..n] == Printed(json, ts[..n]);
      assert Unlines(rs) + rest == Unlines(rs[..n]) + (r + [NEWLINE] + rest);
      LinesOfUnlines(json, ts[..n], r + [NEWLINE] + rest);
      assert [] + r == r;
      FirstLine(ENDING, r, [], rest);
    }
  }

  lemma {:induction false} ParsedOfPrinted<T(!new)>(json: Codec<T>, ts: seq<T>)
    requires Lossless(json)
    ensures Parsed(json, Printed(json, ts)) == Some(ts)
  {
    if ts != [] {
      var n := |ts| - 1;
      assert Printed(json, ts)[..n] == Printed(json, ts[..n]);
      ParsedOfPrinted(json, ts[..n]);
      assert ts == ts[..n] + [ts[n]];
    }
  }

  /** End to end: after any crashes and resumptions, a running store reads back
      exactly the trials whose record was completely written. */
  lemma {:induction false} TrialsReadBack<T(!new)>(json: Codec<T>, events: seq<Event>, ts: seq<T>)
    requires Lossless(json) && Running(events, |events|) && Kept(events, |events|) == Printed(json, ts)
    ensures Run(events, |events|).files.trials.Some?
    ensures Parsed(json, Lines(ENDING, Run(events, |events|).files.trials.value, [])) == Some(ts)
  {
    var torn := LogIsCommitted(events, |events|);
    RunIsTold(events, |events|);
    var bytes := Unlines(Printed(json, ts));
    assert bytes + [] == bytes;
    LinesOfUnlines(json, ts, []);
    assert Printed(json, ts) + Lines(ENDING, [], []) == Printed(json, ts);
    ParsedOfPrinted(json, ts);
  }
}
