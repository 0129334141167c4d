/**
 * insert_log_entry and process_log: parsed records become rows of the `logs`
 * table. The database is a `LogTable` object holding the committed rows and
 * counting the calls made on the cursor and the connection.
 */
module LogIngest {
  import opened Text
  import opened LogPattern
  import opened LogGenerator

  /** The parameter tuple of the INSERT statement. */
  datatype InsertParams = InsertParams(timestamp: string, status: nat, numberOfRequest: nat, statusDescription: string)

  /**
   * The tuple insert_log_entry builds, with int() applied to the status and
   * the request count; None when either conversion raises.
   */
  function InsertParameters(r: Record): (p: Option<InsertParams>)
    ensures p.Some? <==> |r.status| > 0 && Digits(r.status) && |r.numberOfRequest| > 0 && Digits(r.numberOfRequest)
    ensures p.Some? ==> p.value.timestamp == r.timestamp && p.value.statusDescription == r.statusDescription
    ensures p.Some? ==> ParseInt(r.status) == Some(p.value.status) && ParseInt(r.numberOfRequest) == Some(p.value.numberOfRequest)
  {
    var status :- ParseInt(r.status);
    var count :- ParseInt(r.numberOfRequest);
    Some(InsertParams(r.timestamp, status, count, r.statusDescription))
  }

  /** f applied to every line, in order. */
  function MapLines<T>(f: string -> T, lines: seq<string>): (r: seq<T>)
    ensures |r| == |lines|
    ensures forall i :: 0 <= i < |lines| ==> r[i] == f(lines[i])
  {
    seq(|lines|, i requires 0 <= i < |lines| => f(lines[i]))
  }

  lemma MapLinesAppend<T>(f: string -> T, a: seq<string>, b: seq<string>)
    ensures MapLines(f, a + b) == MapLines(f, a) + MapLines(f, b)
  {
  }

  /** The rows one parse result contributes: the INSERT parameters of a record, nothing for None. */
  function RecordRows(r: Option<Record>): (rows: seq<InsertParams>)
    ensures |rows| <= 1
  {
    if r.Some? && InsertParameters(r.value).Some? then [InsertParameters(r.value).value] else []
  }

  /** The rows of a sequence of parse results, in order. */
  function RowsOf(records: seq<Option<Record>>): (rows: seq<InsertParams>)
    ensures |rows| <= |records|
  {
    if records == [] then [] else RowsOf(records[..|records| - 1]) + RecordRows(records[|records| - 1])
  }

  /** The rows process_log inserts for the lines of a file, in file order. */
  function Ingest(lines: seq<string>): (rows: seq<InsertParams>)
    ensures |rows| <= |lines|
  {
    RowsOf(MapLines(Parse, lines))
  }

  /**
   * Every record the parser returns converts: int() never raises on a status
   * or count it matched, so no record is dropped by RowsOf.
   */
  lemma ParsedInsertable(line: string)
    ensures Parse(line).Some? ==> InsertParameters(Parse(line).value).Some?
  {
  }

  /** Reading one more line adds the rows of its parse result. */
  lemma IngestStep(lines: seq<string>, i: nat)
    requires i < |lines|
    ensures Ingest(lines[..i + 1]) == Ingest(lines[..i]) + RecordRows(Parse(lines[i]))
  {
    var records := MapLines(Parse, lines[..i + 1]);
    assert records[..i] == MapLines(Parse, lines[..i]);
  }

  /** The `logs` table together with the calls made on the database. */
  class LogTable {
    /** The committed rows, oldest first. */
    var rows: seq<InsertParams>
    /** Calls to cursor.execute. */
    var executes: nat
    /** Calls to connection.commit. */
    var commits: nat

    constructor()
      ensures rows == [] && executes == 0 && commits == 0
    {
      rows := [];
      executes := 0;
      commits := 0;
    }

    /**
     * insert_log_entry: one INSERT executed and committed. When an int()
     * conversion raises, the error happens while the parameters are built,
     * before execute, and nothing changes.
     */
    method InsertLogEntry(r: Record) returns (ok: bool)
      modifies this
      ensures ok <==> InsertParameters(r).Some?
      ensures ok ==> rows == old(rows) + [InsertParameters(r).value]
      ensures ok ==> executes == old(executes) + 1 && commits == old(commits) + 1
      ensures !ok ==> rows == old(rows) && executes == old(executes) && commits == old(commits)
    {
      var params := InsertParameters(r);
      if params.None? {
        return false;
      }
      rows := rows + [params.value];
      executes := executes + 1;
      commits := commits + 1;
      ok := true;
    }

    /** process_log: every line of the file is parsed and each record inserted. */
    method ProcessLog(file: string)
      modifies this
      ensures rows == old(rows) + Ingest(Lines(file))
      ensures executes == old(executes) + |Ingest(Lines(file))|
      ensures commits == old(commits) + |Ingest(Lines(file))|
    {
      var lines := Lines(file);
      for i := 0 to |lines|
        invariant rows == old(rows) + Ingest(lines[..i])
        invariant executes == old(executes) + |Ingest(lines[..i])|
        invariant commits == old(commits) + |Ingest(lines[..i])|
      {
        IngestStep(lines, i);
        ghost var before := rows;
        var logData := Parse(lines[i]);
        if logData.Some? {
          var ok := InsertLogEntry(logData.value);
        }
        assert rows == before + RecordRows(logData);
        Associate(old(rows), Ingest(lines[..i]), RecordRows(logData));
      }
      assert lines[..|lines|] == lines;
    }
  }

  /**
   * The insert unit test on an empty table: one call with its dictionary
   * executes once and commits once, inserting the status and the count as
   * integers.
   */
  method InsertOnceTest() returns (rows: seq<InsertParams>, executes: nat, commits: nat)
    ensures rows == [InsertParams("2025-03-05 12:34:56 +0000", 200, 1234, "Success")]
    ensures executes == 1 && commits == 1
  {
    SampleByteCount();
    assert DecimalString(200) == "200" by {
      assert DecimalString(2) == "2";
      assert DecimalString(20) == DecimalString(2) + "0";
      assert DecimalString(200) == DecimalString(20) + "0";
    }
    var table := new LogTable();
    var ok := table.InsertLogEntry(Record("2025-03-05 12:34:56 +0000", "200", "1234", "Success"));
    rows, executes, commits := table.rows, table.executes, table.commits;
  }

  /** Ingesting two stretches of a file is ingesting the whole. */
  lemma IngestAppend(a: seq<string>, b: seq<string>)
    ensures Ingest(a + b) == Ingest(a) + Ingest(b)
  {
    MapLinesAppend(Parse, a, b);
    RowsOfAppend(MapLines(Parse, a), MapLines(Parse, b));
  }

  lemma {:induction false} RowsOfAppend(a: seq<Option<Record>>, b: seq<Option<Record>>)
    ensures RowsOf(a + b) == RowsOf(a) + RowsOf(b)
    decreases |b|
  {
    if b == [] {
      assert a + b == a;
    } else {
      var b' := b[..|b| - 1];
      assert (a + b)[..|a + b| - 1] == a + b';
      RowsOfAppend(a, b');
    }
  }

  /** A file none of whose lines match inserts nothing. */
  lemma IngestNoMatch(lines: seq<string>)
    requires forall i :: 0 <= i < |lines| ==> Parse(lines[i]).None?
    ensures Ingest(lines) == []
  {
    RowsOfNone(MapLines(Parse, lines));
  }

  lemma {:induction false} RowsOfNone(records: seq<Option<Record>>)
    requires forall i :: 0 <= i < |records| ==> records[i].None?
    ensures RowsOf(records) == []
    decreases |records|
  {
    if records != [] {
      RowsOfNone(records[..|records| - 1]);
    }
  }

  /** When every line matches, row i holds the converted record of line i. */
  lemma IngestAllMatch(lines: seq<string>)
    requires forall i :: 0 <= i < |lines| ==> Parse(lines[i]).Some?
    ensures |Ingest(lines)| == |lines|
    ensures forall i :: 0 <= i < |lines| ==> Ingest(lines)[i] == InsertParameters(Parse(lines[i]).value).value
  {
    var records := MapLines(Parse, lines);
    forall i | 0 <= i < |lines|
      ensures records[i].Some? && InsertParameters(records[i].value).Some?
    {
      ParsedInsertable(lines[i]);
    }
    RowsOfAll(records);
  }

  lemma {:induction false} RowsOfAll(records: seq<Option<Record>>)
    requires forall i :: 0 <= i < |records| ==> records[i].Some? && InsertParameters(records[i].value).Some?
    ensures |RowsOf(records)| == |records|
    ensures forall i :: 0 <= i < |records| ==> RowsOf(records)[i] == InsertParameters(records[i].value).value
    decreases |records|
  {
    if records != [] {
      var init := records[..|records| - 1];
      RowsOfAll(init);
    }
  }

  /** A line feed at the end of a line changes nothing it contributes. */
  lemma IngestTerminated(line: string)
    ensures Ingest([line + "\n"]) == Ingest([line])
  {
    ParseTerminated(line);
    assert MapLines(Parse, [line + "\n"]) == MapLines(Parse, [line]);
  }

  /** The row a draw of the generator becomes. */
  function RowOf(d: Draw): InsertParams
    requires ValidDraw(d)
  {
    InsertParams(FormatTimestamp(d.time), DecimalValue(Statuses[d.statusIndex]), d.bytes, Describe(Statuses[d.statusIndex]))
  }

  /**
   * Every line the generator writes comes back, in order, as the row of the
   * draw it was made from.
   */
  lemma GeneratedRows(draws: seq<Draw>)
    requires forall i :: 0 <= i < |draws| ==> ValidDraw(draws[i])
    ensures |Ingest(Lines(Concat(FileLines(draws))))| == |draws|
    ensures forall i :: 0 <= i < |draws| ==> Ingest(Lines(Concat(FileLines(draws))))[i] == RowOf(draws[i])
  {
    var lines := FileLines(draws);
    GeneratedFileLines(draws);
    forall i | 0 <= i < |draws|
      ensures Parse(lines[i]).Some?
      ensures InsertParameters(Parse(lines[i]).value).value == RowOf(draws[i])
    {
      GeneratedLineRow(draws[i]);
    }
    IngestAllMatch(lines);
  }

  /** The row one generated line becomes. */
  lemma GeneratedLineRow(d: Draw)
    requires ValidDraw(d)
    ensures Parse(EntryOf(d) + "\n").Some?
    ensures InsertParameters(Parse(EntryOf(d) + "\n").value) == Some(RowOf(d))
    ensures RowOf(d).statusDescription != "Unknown"
  {
    GeneratedLineParses(d);
    ParseIntOfDecimal(d.bytes);
    StatusesDescribed(d.statusIndex);
  }

  /**
   * One round of the main loop: generate the file, then process it. The
   * table gains exactly the rows of the draws, each executed and committed.
   */
  method GenerateAndProcess(table: LogTable, draws: seq<Draw>)
    requires forall i :: 0 <= i < |draws| ==> ValidDraw(draws[i])
    modifies table
    ensures |table.rows| == |old(table.rows)| + |draws|
    ensures table.rows[..|old(table.rows)|] == old(table.rows)
    ensures forall i :: 0 <= i < |draws| ==> table.rows[|old(table.rows)| + i] == RowOf(draws[i])
    ensures table.executes == old(table.executes) + |draws|
    ensures table.commits == old(table.commits) + |draws|
  {
    var contents := GenerateLogs(draws);
    table.ProcessLog(contents);
    GeneratedRows(draws);
  }
}
