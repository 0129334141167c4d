/**
 * generate_random_logs: the synthetic access-log lines and the file they are
 * written to. The clock and the random draws are inputs: a `Draw` holds the
 * instant (already shifted back by the random number of days), the status
 * picked from the list and the random byte count.
 */
module LogGenerator {
  import opened Text
  import opened LogPattern

  /** The status codes the generator picks from; each is a key of the description table. */
  const Statuses: seq<string> := ["200", "301", "400", "403", "404", "500"]

  const MonthAbbreviations: seq<string> :=
    ["Jan", "Feb", "Mar", "Apr", "May", "Jun", "Jul", "Aug", "Sep", "Oct", "Nov", "Dec"]

  /** A calendar instant in UTC, to the second. */
  datatype DateTime = DateTime(year: nat, month: nat, day: nat, hour: nat, minute: nat, second: nat)

  predicate IsLeapYear(y: nat) {
    y % 4 == 0 && (y % 100 != 0 || y % 400 == 0)
  }

  function DaysInMonth(y: nat, m: nat): nat
    requires 1 <= m <= 12
  {
    if m == 2 then (if IsLeapYear(y) then 29 else 28)
    else if m == 4 || m == 6 || m == 9 || m == 11 then 30
    else 31
  }

  /** An instant the clock can give; `%Y` writes four digits for these years. */
  predicate ValidDateTime(t: DateTime) {
    && 1000 <= t.year <= 9999
    && 1 <= t.month <= 12
    && 1 <= t.day <= DaysInMonth(t.year, t.month)
    && t.hour < 24 && t.minute < 60 && t.second < 60
  }

  /** A zero-padded two-digit field, as `%d`, `%H`, `%M` and `%S` write it. */
  function Pad2(n: nat): (s: string)
    requires n < 100
    ensures |s| == 2 && Digits(s) && DecimalValue(s) == n
  {
    var s := [DigitChar(n / 10), DigitChar(n % 10)];
    assert s[..1] == [DigitChar(n / 10)] && s[..1][..0] == [];
    assert DecimalValue(s[..1]) == n / 10;
    s
  }

  /** The year as `%Y` writes it. */
  function Pad4(n: nat): (s: string)
    requires n < 10000
    ensures |s| == 4 && Digits(s) && DecimalValue(s) == n
  {
    var s := Pad2(n / 100) + Pad2(n % 100);
    assert s[..3] == Pad2(n / 100) + [s[2]];
    assert s[..2] == Pad2(n / 100);
    s
  }

  /** No character that ends the timestamp field or the line. */
  predicate Unbracketed(s: string) {
    forall k :: 0 <= k < |s| ==> s[k] != ']' && s[k] != '\n'
  }

  lemma UnbracketedConcat(a: string, b: string)
    requires Unbracketed(a) && Unbracketed(b)
    ensures Unbracketed(a + b)
  {
  }

  /** strftime('%d/%b/%Y:%H:%M:%S +0000') */
  function FormatTimestamp(t: DateTime): (s: string)
    requires ValidDateTime(t)
    ensures |s| > 0 && Unbracketed(s)
  {
    var pieces := [Pad2(t.day), "/", MonthAbbreviations[t.month - 1], "/", Pad4(t.year), ":",
                   Pad2(t.hour), ":", Pad2(t.minute), ":", Pad2(t.second), " +0000"];
    assert forall i :: 0 <= i < |pieces| ==> Unbracketed(pieces[i]);
    UnbracketedConcatAll(pieces);
    Concat(pieces)
  }

  lemma {:induction false} UnbracketedConcatAll(ls: seq<string>)
    requires forall i :: 0 <= i < |ls| ==> Unbracketed(ls[i])
    ensures Unbracketed(Concat(ls))
  {
    if ls != [] {
      UnbracketedConcatAll(ls[1..]);
      UnbracketedConcat(ls[0], Concat(ls[1..]));
    }
  }

  /** The log_entry f-string: a fixed client and request around the drawn fields. */
  function LogEntry(timestamp: string, status: string, bytes: nat): string {
    "127.0.0.1 - - [" + timestamp + "] \"GET /index.html HTTP/1.1\" " + status + " " + DecimalString(bytes)
  }

  /** The reading of an entry by the pattern. */
  function EntryParts(timestamp: string, status: string, bytes: nat): Parts {
    Parts("127.0.0.1", timestamp, Tail("GET", "/index.html", "HTTP/1.1", status, DecimalString(bytes), ""))
  }

  /** The entry with its concatenations grouped to the right. */
  lemma EntryNested(timestamp: string, status: string, bytes: nat)
    ensures LogEntry(timestamp, status, bytes) ==
      "127.0.0.1 - - [" + (timestamp + ("] \"GET /index.html HTTP/1.1\" " + (status + (" " + DecimalString(bytes)))))
  {
  }

  lemma EntryFits(timestamp: string, status: string, bytes: nat)
    requires |timestamp| > 0 && Unbracketed(timestamp)
    requires |status| > 0 && Digits(status)
    ensures Fits(LogEntry(timestamp, status, bytes), EntryParts(timestamp, status, bytes))
  {
    var p := EntryParts(timestamp, status, bytes);
    var d := DecimalString(bytes);
    var z := status + (" " + d);
    assert d + "" == d;
    EntryNested(timestamp, status, bytes);
    ClientLiteral(timestamp + ("] \"GET /index.html HTTP/1.1\" " + z));
    RequestLiteral(z);
  }

  lemma ClientLiteral(z: string)
    ensures "127.0.0.1 - - [" + z == "127.0.0.1" + (" " + (Separator + z))
  {
  }

  lemma RequestLiteral(z: string)
    ensures "] \"GET /index.html HTTP/1.1\" " + z ==
      RequestOpen + ("GET" + (" " + ("/index.html" + (" " + ("HTTP/1.1" + ("\" " + z))))))
  {
  }

  /**
   * Every generated entry parses back into the fields it was made from; the
   * byte count comes back as its decimal numeral.
   */
  lemma EntryRoundTrip(timestamp: string, status: string, bytes: nat)
    requires |timestamp| > 0 && Unbracketed(timestamp)
    requires |status| > 0 && Digits(status)
    ensures Parse(LogEntry(timestamp, status, bytes)) ==
      Some(Record(timestamp, status, DecimalString(bytes), Describe(status)))
  {
    EntryFits(timestamp, status, bytes);
    ParseUnbracketed(LogEntry(timestamp, status, bytes), EntryParts(timestamp, status, bytes));
  }

  /** The line of the parser's unit test gives the expected dictionary. */
  lemma SampleLine(line: string)
    requires line == "127.0.0.1 - - [05/Mar/2025:12:34:56 +0000] \"GET /index.html HTTP/1.1\" 200 1234"
    ensures Parse(line) == Some(Record("05/Mar/2025:12:34:56 +0000", "200", "1234", "Success"))
  {
    var timestamp := "05/Mar/2025:12:34:56 +0000";
    SampleFields(line);
    SampleByteCount();
    SampleTimestamp(timestamp);
    KnownDescriptions();
    assert line == LogEntry(timestamp, "200", 1234);
    EntryRoundTrip(timestamp, "200", 1234);
  }

  lemma SampleTimestamp(timestamp: string)
    requires timestamp == "05/Mar/2025:12:34:56 +0000"
    ensures |timestamp| > 0 && Unbracketed(timestamp)
  {
  }

  /** The unit test's line cut where the entry's f-string puts its fields. */
  lemma SampleFields(line: string)
    requires line == "127.0.0.1 - - [05/Mar/2025:12:34:56 +0000] \"GET /index.html HTTP/1.1\" 200 1234"
    ensures line == "127.0.0.1 - - [" + "05/Mar/2025:12:34:56 +0000" + "] \"GET /index.html HTTP/1.1\" " + "200" + " " + "1234"
  {
    var s1 := "127.0.0.1 - - [05/Mar/2025:12:34:56 +0000] \"GET /index.html HTTP/1.1\" 200 ";
    var s2 := "127.0.0.1 - - [05/Mar/2025:12:34:56 +0000] \"GET /index.html HTTP/1.1\" 200";
    var s3 := "127.0.0.1 - - [05/Mar/2025:12:34:56 +0000] \"GET /index.html HTTP/1.1\" ";
    var s4 := "127.0.0.1 - - [05/Mar/2025:12:34:56 +0000";
    PeelCount(line);
    PeelSpace(s1);
    PeelStatus(s2);
    PeelRequest(s3);
    PeelTimestamp(s4);
  }

  lemma PeelCount(s: string)
    requires s == "127.0.0.1 - - [05/Mar/2025:12:34:56 +0000] \"GET /index.html HTTP/1.1\" 200 1234"
    ensures s == "127.0.0.1 - - [05/Mar/2025:12:34:56 +0000] \"GET /index.html HTTP/1.1\" 200 " + "1234"
  {
  }

  lemma PeelSpace(s: string)
    requires s == "127.0.0.1 - - [05/Mar/2025:12:34:56 +0000] \"GET /index.html HTTP/1.1\" 200 "
    ensures s == "127.0.0.1 - - [05/Mar/2025:12:34:56 +0000] \"GET /index.html HTTP/1.1\" 200" + " "
  {
  }

  lemma PeelStatus(s: string)
    requires s == "127.0.0.1 - - [05/Mar/2025:12:34:56 +0000] \"GET /index.html HTTP/1.1\" 200"
    ensures s == "127.0.0.1 - - [05/Mar/2025:12:34:56 +0000] \"GET /index.html HTTP/1.1\" " + "200"
  {
  }

  lemma PeelRequest(s: string)
    requires s == "127.0.0.1 - - [05/Mar/2025:12:34:56 +0000] \"GET /index.html HTTP/1.1\" "
    ensures s == "127.0.0.1 - - [05/Mar/2025:12:34:56 +0000" + "] \"GET /index.html HTTP/1.1\" "
  {
  }

  lemma PeelTimestamp(s: string)
    requires s == "127.0.0.1 - - [05/Mar/2025:12:34:56 +0000"
    ensures s == "127.0.0.1 - - [" + "05/Mar/2025:12:34:56 +0000"
  {
  }

  lemma SampleByteCount()
    ensures DecimalString(1234) == "1234"
  {
  }

  /** A status missing from the table, 418 say, still matches, and is described as "Unknown". */
  lemma UnknownStatusLine(timestamp: string, status: string, bytes: nat)
    requires |timestamp| > 0 && Unbracketed(timestamp)
    requires |status| > 0 && Digits(status) && status !in StatusDescriptions
    ensures Parse(LogEntry(timestamp, status, bytes)) ==
      Some(Record(timestamp, status, DecimalString(bytes), "Unknown"))
  {
    EntryRoundTrip(timestamp, status, bytes);
  }

  /** The random inputs of one generated line. */
  datatype Draw = Draw(time: DateTime, statusIndex: nat, bytes: nat)

  /** What the clock, random.choice(statuses) and random.randint(200, 5000) can give. */
  predicate ValidDraw(d: Draw) {
    ValidDateTime(d.time) && d.statusIndex < |Statuses| && 200 <= d.bytes <= 5000
  }

  function EntryOf(d: Draw): string
    requires ValidDraw(d)
  {
    LogEntry(FormatTimestamp(d.time), Statuses[d.statusIndex], d.bytes)
  }

  /** The lines written to the log file, one per draw, each with its line feed. */
  function FileLines(draws: seq<Draw>): seq<string>
    requires forall i :: 0 <= i < |draws| ==> ValidDraw(draws[i])
  {
    seq(|draws|, i requires 0 <= i < |draws| => EntryOf(draws[i]) + "\n")
  }

  lemma FileLinesAppend(draws: seq<Draw>, i: nat)
    requires i < |draws| && forall j :: 0 <= j < |draws| ==> ValidDraw(draws[j])
    ensures FileLines(draws[..i + 1]) == FileLines(draws[..i]) + [EntryOf(draws[i]) + "\n"]
  {
  }

  /** generate_random_logs: the text of the file after it is opened for writing and each entry written. */
  method GenerateLogs(draws: seq<Draw>) returns (contents: string)
    requires forall i :: 0 <= i < |draws| ==> ValidDraw(draws[i])
    ensures contents == Concat(FileLines(draws))
  {
    contents := "";
    for i := 0 to |draws|
      invariant contents == Concat(FileLines(draws[..i]))
    {
      var entry := EntryOf(draws[i]);
      FileLinesAppend(draws, i);
      ConcatAppend(FileLines(draws[..i]), entry + "\n");
      contents := contents + (entry + "\n");
    }
    assert draws[..|draws|] == draws;
  }

  /** Every status the generator picks has a description. */
  lemma StatusesDescribed(i: nat)
    requires i < |Statuses|
    ensures Statuses[i] in StatusDescriptions && Describe(Statuses[i]) != "Unknown"
  {
  }

  /** A generated entry is a single line. */
  lemma EntryIsOneLine(d: Draw)
    requires ValidDraw(d)
    ensures TerminatedLine(EntryOf(d) + "\n")
  {
  }

  /** Reading the written file line by line gives back the lines written. */
  lemma GeneratedFileLines(draws: seq<Draw>)
    requires forall i :: 0 <= i < |draws| ==> ValidDraw(draws[i])
    ensures Lines(Concat(FileLines(draws))) == FileLines(draws)
  {
    forall i | 0 <= i < |draws| ensures TerminatedLine(FileLines(draws)[i]) {
      EntryIsOneLine(draws[i]);
    }
    LinesOfConcat(FileLines(draws));
  }

  /** Every line the generator writes parses into the draw it came from. */
  lemma GeneratedLineParses(d: Draw)
    requires ValidDraw(d)
    ensures Parse(EntryOf(d) + "\n") == Some(Record(FormatTimestamp(d.time), Statuses[d.statusIndex],
      DecimalString(d.bytes), Describe(Statuses[d.statusIndex])))
  {
    var entry := EntryOf(d);
    EntryRoundTrip(FormatTimestamp(d.time), Statuses[d.statusIndex], d.bytes);
    ParseTerminated(entry);
  }
}
