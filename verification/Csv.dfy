/** Resource samples are printed as CSV rows, quoting a field only when it must be,
    and read back by a character-at-a-time parser. */
module Csv {
  import opened TextLines

  predicate NeedsQuotes(value: string) { ',' in value || '"' in value || '\n' in value }

  /** `replace('"', "\"\"")`. */
  function Doubled(value: string): string {
    if value == [] then [] else
    (if value[0] == '"' then ['"', '"'] else [value[0]]) + Doubled(value[1..])
  }

  function CsvField(value: string): string {
    if NeedsQuotes(value) then ['"'] + Doubled(value) + ['"'] else value
  }

  lemma {:induction false} DoubledIsLonger(value: string)
    ensures |Doubled(value)| >= |value|
  {
    if value != [] { DoubledIsLonger(value[1..]); }
  }

  /** A field is printed as it is exactly when it has no comma, quote or newline, and in
      quotes otherwise. */
  lemma {:induction false} QuotedOnlyWhenNeeded(value: string)
    ensures CsvField(value) == value <==> forall i :: 0 <= i < |value| ==> value[i] !in ",\"\n"
    ensures CsvField(value) != value ==>
              var p := CsvField(value); |p| >= |value| + 2 && p[0] == '"' && p[|p| - 1] == '"'
  {
    DoubledIsLonger(value);
    assert forall c :: c in ",\"\n" <==> c == ',' || c == '"' || c == '\n';
  }

  function Join(fields: seq<string>): string
    requires fields != []
  {
    if |fields| == 1 then fields[0] else fields[0] + [','] + Join(fields[1..])
  }

  function Printed(fields: seq<string>): (r: seq<string>)
    ensures |r| == |fields|
  {
    seq(|fields|, i requires 0 <= i < |fields| => CsvField(fields[i]))
  }

  /** What the parser still returns, from its state and the characters left. */
  function Parse(rest: string, field: string, inQuotes: bool): seq<string>
    decreases |rest|
  {
    if rest == [] then [field] else
    var c, more := rest[0], rest[1..];
    if inQuotes then
      if c == '"' then
        if more != [] && more[0] == '"' then Parse(more[1..], field + ['"'], true)
        else Parse(more, field, false)
      else Parse(more, field + [c], true)
    else if c == '"' && field == [] then Parse(more, field, true)
    else if c == ',' then [field] + Parse(more, [], false)
    else Parse(more, field + [c], false)
  }

  method ParseCsvLine(line: string) returns (fields: seq<string>)
    ensures fields == Parse(line, [], false)
  {
    fields := [];
    var field: string := [];
    var inQuotes := false;
    var i := 0;
    while i < |line|
      invariant 0 <= i <= |line|
      invariant fields + Parse(line[i..], field, inQuotes) == Parse(line, [], false)
    {
      var character := line[i];
      assert line[i..][0] == character && line[i..][1..] == line[i + 1..];
      ghost var before, was, quoting := fields, field, inQuotes;
      if i + 1 < |line| { assert line[i + 1..][0] == line[i + 1] && line[i + 1..][1..] == line[i + 2..]; }
      i := i + 1;
      if inQuotes {
        if character == '"' {
          if i < |line| && line[i] == '"' {
            field := field + ['"'];
            i := i + 1;
          } else {
            inQuotes := false;
          }
        } else {
          field := field + [character];
        }
      } else if character == '"' && field == [] {
        inQuotes := true;
      } else if character == ',' {
        fields := fields + [field];
        field := [];
        assert fields + Parse(line[i..], field, inQuotes) == before + ([was] + Parse(line[i..], [], false));
      } else {
        field := field + [character];
      }
    }
    fields := fields + [field];
  }

  // ---------------------------------------------------------------------------
  // The parser undoes the printer
  // ---------------------------------------------------------------------------

  lemma {:induction false} ParsePlain(v: string, field: string, rest: string)
    requires !NeedsQuotes(v)
    ensures Parse(v + rest, field, false) == Parse(rest, field + v, false)
  {
    if v == [] {
      assert v + rest == rest && field + v == field;
    } else {
      assert (v + rest)[0] == v[0] && (v + rest)[1..] == v[1..] + rest;
      assert field + v == field + [v[0]] + v[1..];
      ParsePlain(v[1..], field + [v[0]], rest);
    }
  }

  lemma {:induction false} ParseQuoted(v: string, field: string, rest: string)
    requires rest != [] ==> rest[0] != '"'
    ensures Parse(Doubled(v) + ['"'] + rest, field, true) == Parse(rest, field + v, false)
  {
    var all := Doubled(v) + ['"'] + rest;
    if v == [] {
      assert all == ['"'] + rest && all[1..] == rest && field + v == field;
    } else {
      var tail := Doubled(v[1..]) + ['"'] + rest;
      assert field + v == field + [v[0]] + v[1..];
      if v[0] == '"' {
        assert all[0] == '"' && all[1..] == ['"'] + tail && all[1..][1..] == tail;
      } else {
        assert all[0] == v[0] && all[1..] == tail;
      }
      ParseQuoted(v[1..], field + [v[0]], rest);
    }
  }

  lemma {:induction false} ParseQuotedField(v: string, rest: string)
    requires rest != [] ==> rest[0] == ','
    ensures Parse(['"'] + Doubled(v) + ['"'] + rest, [], false) == Parse(rest, v, false)
  {
    var all := ['"'] + Doubled(v) + ['"'] + rest;
    assert all[1..] == Doubled(v) + ['"'] + rest;
    ParseQuoted(v, [], rest);
    assert [] + v == v;
  }

  lemma {:induction false} ParseField(v: string, rest: string)
    requires rest != [] ==> rest[0] == ','
    ensures Parse(CsvField(v) + rest, [], false) == Parse(rest, v, false)
  {
    if NeedsQuotes(v) {
      ParseQuotedField(v, rest);
    } else {
      ParsePlain(v, [], rest);
      assert [] + v == v;
    }
  }

  /** Any nonempty list of fields, whatever their text, survives printing and parsing. */
  lemma {:induction false} RoundTrip(fields: seq<string>)
    requires fields != []
    ensures Parse(Join(Printed(fields)), [], false) == fields
  {
    if |fields| == 1 {
      assert CsvField(fields[0]) + [] == CsvField(fields[0]);
      ParseField(fields[0], []);
    } else {
      var more := Join(Printed(fields[1..]));
      assert Printed(fields)[1..] == Printed(fields[1..]);
      assert Join(Printed(fields)) == CsvField(fields[0]) + ([','] + more);
      ParseField(fields[0], [','] + more);
      assert ([','] + more)[1..] == more;
      RoundTrip(fields[1..]);
      assert fields == [fields[0]] + fields[1..];
    }
  }

  /** Printing is injective: no two rows look the same. */
  lemma {:induction false} PrintingIsInjective(a: seq<string>, b: seq<string>)
    requires a != [] && b != [] && Join(Printed(a)) == Join(Printed(b))
    ensures a == b
  {
    RoundTrip(a);
    RoundTrip(b);
  }

  // ---------------------------------------------------------------------------
  // The file of samples
  // ---------------------------------------------------------------------------

  const ENDING: Ending<char> := Ending('\n', '\r')

  /** A number as printed, or nothing for an absent measurement. */
  type Number = n: string | forall i :: 0 <= i < |n| ==> n[i] in "0123456789.+-eEinfNa" witness []

  /** A column is free text, which goes through `csv_field`, or a number, which does not. */
  datatype Column = Text(text: string) | Measured(number: Number)

  function Value(c: Column): string {
    match c case Text(v) => v case Measured(n) => n
  }

  function Cell(c: Column): string {
    match c case Text(v) => CsvField(v) case Measured(n) => n
  }

  function Cells(cs: seq<Column>): (r: seq<string>)
    ensures |r| == |cs|
  {
    seq(|cs|, i requires 0 <= i < |cs| => Cell(cs[i]))
  }

  function Values(cs: seq<Column>): (r: seq<string>)
    ensures |r| == |cs|
  {
    seq(|cs|, i requires 0 <= i < |cs| => Value(cs[i]))
  }

  datatype ResourceSample = ResourceSample(
    runId: string, stackId: string, sampledAt: Number, service: string, containerId: string,
    cpuPercent: Number, memoryBytes: Number, memoryLimitBytes: Number, networkRxBytes: Number,
    networkTxBytes: Number, blockReadBytes: Number, blockWriteBytes: Number, pids: Number)

  function Columns(s: ResourceSample): (c: Row)
    ensures |c| == 13
  {
    [Text(s.runId), Text(s.stackId), Measured(s.sampledAt), Text(s.service), Text(s.containerId),
     Measured(s.cpuPercent), Measured(s.memoryBytes), Measured(s.memoryLimitBytes), Measured(s.networkRxBytes),
     Measured(s.networkTxBytes), Measured(s.blockReadBytes), Measured(s.blockWriteBytes), Measured(s.pids)]
  }

  /** A row ends in a number. */
  type Row = cs: seq<Column> | cs != [] && cs[|cs| - 1].Measured? witness [Measured([])]

  predicate NewlineFree(row: Row) {
    forall i :: 0 <= i < |row| ==> '\n' !in Value(row[i])
  }

  /** The line `append_resource` writes. */
  function RowText(row: Row): string { Join(Cells(row)) }

  lemma {:induction false} NumberIsPlain(n: Number)
    ensures CsvField(n) == n && '\n' !in n && '\r' !in n
  {
    NotADigit(n, ',');
    NotADigit(n, '"');
    NotADigit(n, '\n');
    NotADigit(n, '\r');
  }

  lemma {:induction false} NotADigit(n: Number, c: char)
    requires c !in "0123456789.+-eEinfNa"
    ensures c !in n
  {
  }

  /** Printing the numbers without quoting them is printing every column. */
  lemma {:induction false} CellsArePrinted(cs: seq<Column>)
    ensures Cells(cs) == Printed(Values(cs))
  {
    forall i | 0 <= i < |cs| ensures Cells(cs)[i] == Printed(Values(cs))[i] {
      if cs[i].Measured? { NumberIsPlain(cs[i].number); }
    }
  }

  /** The file: a header line, then one row per sample. */
  function FileText(header: string, rows: seq<Row>): string {
    if rows == [] then header + ['\n']
    else FileText(header, rows[..|rows| - 1]) + (RowText(rows[|rows| - 1]) + ['\n'])
  }

  /** The rows `read_resource_summary` sees: every line after the first, parsed. */
  function Rows(text: string): seq<seq<string>> {
    var lines := Lines(ENDING, text, []);
    if lines == [] then [] else ParsedAll(lines[1..])
  }

  function ParsedAll(lines: seq<string>): (r: seq<seq<string>>)
    ensures |r| == |lines|
  {
    seq(|lines|, i requires 0 <= i < |lines| => Parse(lines[i], [], false))
  }

  lemma {:induction false} DoubledNewlines(v: string)
    ensures '\n' in Doubled(v) <==> '\n' in v
  {
    if v != [] { DoubledNewlines(v[1..]); assert v == [v[0]] + v[1..]; }
  }

  lemma {:induction false} JoinNewlines(fields: seq<string>)
    requires fields != []
    ensures '\n' in Join(Printed(fields)) <==> exists i :: 0 <= i < |fields| && '\n' in fields[i]
  {
    DoubledNewlines(fields[0]);
    assert '\n' in CsvField(fields[0]) <==> '\n' in fields[0];
    if |fields| > 1 {
      assert Printed(fields)[1..] == Printed(fields[1..]);
      JoinNewlines(fields[1..]);
      if i :| 0 <= i < |fields| && '\n' in fields[i] {
        assert i == 0 || '\n' in fields[1..][i - 1];
      }
      if i :| 0 <= i < |fields[1..]| && '\n' in fields[1..][i] {
        assert '\n' in fields[i + 1];
      }
    }
  }

  lemma {:induction false} JoinEnd(fields: seq<string>)
    requires fields != [] && '\r' !in fields[|fields| - 1]
    ensures Stripped(ENDING, Join(fields)) == Join(fields)
  {
    if |fields| > 1 {
      var more := Join(fields[1..]);
      JoinEnd(fields[1..]);
      assert Join(fields) == fields[0] + ([','] + more);
      assert Join(fields)[|Join(fields)| - 1] == ([','] + more)[|more|];
    }
  }

  /** A row without newlines is one line, and that line parses to its columns. */
  lemma {:induction false} RowReadsBack(row: Row)
    ensures Parse(RowText(row), [], false) == Values(row)
    ensures Stripped(ENDING, RowText(row)) == RowText(row)
    ensures '\n' !in RowText(row) <==> NewlineFree(row)
  {
    CellsArePrinted(row);
    RoundTrip(Values(row));
    RowEnd(row);
    RowNewlines(row);
  }

  lemma {:induction false} RowEnd(row: Row)
    ensures Stripped(ENDING, RowText(row)) == RowText(row)
  {
    NumberIsPlain(row[|row| - 1].number);
    assert Cells(row)[|row| - 1] == row[|row| - 1].number;
    JoinEnd(Cells(row));
  }

  lemma {:induction false} RowNewlines(row: Row)
    ensures '\n' !in RowText(row) <==> NewlineFree(row)
  {
    CellsArePrinted(row);
    JoinNewlines(Values(row));
    assert forall i :: 0 <= i < |row| ==> Values(row)[i] == Value(row[i]);
  }

  function AllValues(rows: seq<Row>): (r: seq<seq<string>>)
    ensures |r| == |rows|
  {
    seq(|rows|, i requires 0 <= i < |rows| => Values(rows[i]))
  }

  function Texts(rows: seq<Row>): (r: seq<string>)
    ensures |r| == |rows|
  {
    seq(|rows|, i requires 0 <= i < |rows| => RowText(rows[i]))
  }

  lemma {:induction false} LineOfRow(row: Row, rest: string)
    requires NewlineFree(row)
    ensures Lines(ENDING, RowText(row) + ['\n'] + rest, []) == [RowText(row)] + Lines(ENDING, rest, [])
  {
    RowReadsBack(row);
    assert [] + RowText(row) == RowText(row);
    FirstLine(ENDING, RowText(row), [], rest);
  }

  lemma {:induction false} FileTextSplit(header: string, rows: seq<Row>, rest: string)
    requires rows != []
    ensures var n := |rows| - 1;
            FileText(header, rows) + rest == FileText(header, rows[..n]) + (RowText(rows[n]) + ['\n'] + rest)
  {
  }

  lemma {:induction false} TextsSplit(rows: seq<Row>)
    requires rows != []
    ensures Texts(rows) == Texts(rows[..|rows| - 1]) + [RowText(rows[|rows| - 1])]
  {
  }

  lemma {:induction false} Regroup<T>(a: seq<T>, b: seq<T>, c: seq<T>)
    ensures a + (b + c) == (a + b) + c
  {
  }

  lemma {:induction false} LinesOfFile(header: string, rows: seq<Row>, rest: string)
    requires '\n' !in header
    requires forall i :: 0 <= i < |rows| ==> NewlineFree(rows[i])
    ensures Lines(ENDING, FileText(header, rows) + rest, [])
            == [Stripped(ENDING, header)] + (Texts(rows) + Lines(ENDING, rest, []))
    decreases |rows|
  {
    if rows == [] {
      assert [] + header == header;
      FirstLine(ENDING, header, [], rest);
      assert Texts(rows) + Lines(ENDING, rest, []) == Lines(ENDING, rest, []);
    } else {
      var n := |rows| - 1;
      FileTextSplit(header, rows, rest);
      LinesOfFile(header, rows[..n], RowText(rows[n]) + ['\n'] + rest);
      LineOfRow(rows[n], rest);
      TextsSplit(rows);
      Regroup(Texts(rows[..n]), [RowText(rows[n])], Lines(ENDING, rest, []));
    }
  }

  lemma {:induction false} OwnLine(row: Row)
    ensures Newlines(ENDING, RowText(row) + ['\n']) >= 1
    ensures Newlines(ENDING, RowText(row) + ['\n']) == 1 ==> NewlineFree(row)
  {
    var text := RowText(row);
    NewlinesAppend(ENDING, text, ['\n']);
    NewlinesNone(ENDING, text);
    RowNewlines(row);
  }

  lemma {:induction false} HeaderLine(header: string)
    requires '\n' !in header
    ensures Newlines(ENDING, header + ['\n']) == 1
  {
    NewlinesAppend(ENDING, header, ['\n']);
    NewlinesNone(ENDING, header);
  }

  lemma {:induction false} LastLine(header: string, rows: seq<Row>)
    requires rows != []
    ensures var n := |rows| - 1;
            Newlines(ENDING, FileText(header, rows))
            == Newlines(ENDING, FileText(header, rows[..n])) + Newlines(ENDING, RowText(rows[n]) + ['\n'])
  {
    var n := |rows| - 1;
    NewlinesAppend(ENDING, FileText(header, rows[..n]), RowText(rows[n]) + ['\n']);
  }

  predicate AllFree(rows: seq<Row>) {
    rows == [] || (AllFree(rows[..|rows| - 1]) && NewlineFree(rows[|rows| - 1]))
  }

  lemma {:induction false} AllFreeEach(rows: seq<Row>, i: nat)
    requires AllFree(rows) && i < |rows|
    ensures NewlineFree(rows[i])
  {
    if i != |rows| - 1 { AllFreeEach(rows[..|rows| - 1], i); }
  }

  lemma {:induction false} FileNewlines(header: string, rows: seq<Row>)
    requires '\n' !in header
    ensures Newlines(ENDING, FileText(header, rows)) >= |rows| + 1
    ensures Newlines(ENDING, FileText(header, rows)) == |rows| + 1 ==> AllFree(rows)
  {
    if rows == [] {
      HeaderLine(header);
    } else {
      FileNewlines(header, rows[..|rows| - 1]);
      LastLine(header, rows);
      OwnLine(rows[|rows| - 1]);
    }
  }

  /** Samples read back as they were written exactly when none of their texts
      contains a newline: a quoted newline still ends the line for the reader. */
  lemma {:induction false} FileReadsBack(header: string, rows: seq<Row>)
    requires '\n' !in header
    ensures Rows(FileText(header, rows)) == AllValues(rows) <==>
              forall i :: 0 <= i < |rows| ==> NewlineFree(rows[i])
  {
    var text := FileText(header, rows);
    if forall i :: 0 <= i < |rows| ==> NewlineFree(rows[i]) {
      LinesOfFile(header, rows, []);
      assert text + [] == text;
      var lines := Lines(ENDING, text, []);
      assert Texts(rows) + Lines(ENDING, [], []) == Texts(rows);
      assert lines[1..] == Texts(rows);
      forall i | 0 <= i < |rows| ensures ParsedAll(lines[1..])[i] == Values(rows[i]) {
        RowReadsBack(rows[i]);
      }
    } else {
      FileNewlines(header, rows);
      var i :| 0 <= i < |rows| && !NewlineFree(rows[i]);
      if AllFree(rows) { AllFreeEach(rows, i); }
      LineCount(ENDING, text, []);
    }
  }

  predicate TextsNewlineFree(s: ResourceSample) {
    '\n' !in s.runId && '\n' !in s.stackId && '\n' !in s.service && '\n' !in s.containerId
  }

  lemma {:induction false} SampleNewlines(s: ResourceSample)
    ensures NewlineFree(Columns(s)) <==> TextsNewlineFree(s)
  {
    var c := Columns(s);
    forall i | 0 <= i < 13 && c[i].Measured? ensures '\n' !in Value(c[i]) { NumberIsPlain(c[i].number); }
    assert Value(c[0]) == s.runId && Value(c[1]) == s.stackId && Value(c[3]) == s.service
           && Value(c[4]) == s.containerId;
    assert forall i :: 0 <= i < 13 && c[i].Text? ==> i == 0 || i == 1 || i == 3 || i == 4;
  }

  function SampleRows(samples: seq<ResourceSample>): (r: seq<Row>)
    ensures |r| == |samples|
  {
    seq(|samples|, i requires 0 <= i < |samples| => Columns(samples[i]))
  }

  /** A run's samples all read back exactly when none of their four texts has a newline. */
  lemma {:induction false} SamplesReadBack(header: string, samples: seq<ResourceSample>)
    requires '\n' !in header
    ensures Rows(FileText(header, SampleRows(samples))) == AllValues(SampleRows(samples)) <==>
              forall i :: 0 <= i < |samples| ==> TextsNewlineFree(samples[i])
  {
    FileReadsBack(header, SampleRows(samples));
    forall i | 0 <= i < |samples| ensures NewlineFree(SampleRows(samples)[i]) <==> TextsNewlineFree(samples[i]) {
      SampleNewlines(samples[i]);
    }
    if forall i :: 0 <= i < |samples| ==> NewlineFree(SampleRows(samples)[i]) {
      assert forall i :: 0 <= i < |samples| ==> NewlineFree(SampleRows(samples)[i]) ==> TextsNewlineFree(samples[i]);
    }
  }

  /** Then every column is where the report looks for it, whatever the texts before it. */
  lemma {:induction false} SampleFields(header: string, samples: seq<ResourceSample>, i: nat)
    requires '\n' !in header && i < |samples|
    requires forall j :: 0 <= j < |samples| ==> TextsNewlineFree(samples[j])
    ensures var rows, s := Rows(FileText(header, SampleRows(samples))), samples[i];
            && |rows| == |samples| && |rows[i]| == 13
            && rows[i][..5] == [s.runId, s.stackId, s.sampledAt, s.service, s.containerId]
            && rows[i][5..8] == [s.cpuPercent, s.memoryBytes, s.memoryLimitBytes]
            && rows[i][8..] == [s.networkRxBytes, s.networkTxBytes, s.blockReadBytes, s.blockWriteBytes, s.pids]
  {
    SamplesReadBack(header, samples);
    var row := Values(Columns(samples[i]));
    assert AllValues(SampleRows(samples))[i] == row;
    assert row[0] == samples[i].runId;
  }
}
