# Access-log ingester, modelled in Dafny

This project models the access-log pipeline in `script_unit_test.py`: a
generator writes synthetic access-log lines to a file, and a processor reads
the file back, parses each line with one regular expression and inserts each
record into a `logs` table. It also covers the two unit tests of that file.

Four modules, one per concern:

- `Text` (`text.dfy`) holds the shared pieces:
  - the ASCII classes `\s` and `\d`, and maximal runs of them;
  - decimal numerals, with `str(n)` and `int(s)` on them;
  - the splitting of a text into the lines a file iterator yields.
- `LogPattern` (`log_pattern.dfy`) is `parse_log_line`.
  - `Parse` is the matcher, resolved the way a backtracking engine resolves
    the pattern. Each `\S+` and `\d+` takes a maximal run, except the
    protocol's `\S+"`, which takes the run without its closing quote. The
    lazy timestamp `.+?` is searched shortest first and stops at a line feed.
  - `Parts`/`Fits` read the same pattern as a grammar.
  - Lemmas show the matcher and the grammar agree, and list the lines the
    pattern rejects. A trailing line feed does not change the result.
- `LogGenerator` (`log_generator.dfy`) is `generate_random_logs`.
  - The clock and the random draws are inputs (`Draw`).
  - `GenerateLogs` builds the file text with a loop, as the source does.
  - Lemmas show that each generated line parses back into the fields it was
    made from, and that the file splits back into the lines written.
- `LogIngest` (`log_ingest.dfy`) is `insert_log_entry` and `process_log`.
  - The database is a `LogTable` object. It holds the committed rows and
    counts the `execute` and `commit` calls.
  - `ProcessLog` is the loop over the file's lines. It is proved to append
    exactly `Ingest(Lines(file))`: the converted records of the matching
    lines, in file order, with one execute and one commit per row.

In `parse_log_line`, the status and the request count stay strings. They
become integers only when `insert_log_entry` builds its parameter tuple with
`int()`. The model follows the code here: `Record` holds strings and
`InsertParams` holds integers. `ParsedInsertable` shows that `int()` cannot
fail on a record the parser returns.

## Model

| member | source | states |
|---|---|---|
| Text.SpanNonSpace | script_unit_test.py:25 | the end of the maximal run of non-space characters from i: everything before it is non-space, and it stops at a space or the end |
| Text.SpanDigits | script_unit_test.py:26 | the end of the maximal run of digits from i: everything before it is a digit, and it stops at a non-digit or the end |
| Text.DecimalString | script_unit_test.py:90 | str(n) for a natural n: non-empty, all digits, no leading zero, and denotes n |
| Text.ParseInt | script_unit_test.py:75-76 | int(s) succeeds exactly when s is a non-empty string of ASCII digits |
| Text.ParseIntOfDecimal | script_unit_test.py:75-76 | int(str(n)) == n |
| Text.Lines | script_unit_test.py:96-97 | the lines of a file as `for line in file` yields them: they concatenate back to the text, none is empty, none holds a line feed before its last character, and every line but the last ends with a line feed |
| Text.LinesOfConcat | script_unit_test.py:96-97 | text written as terminated lines is read back as exactly those lines |
| LogPattern.Describe | script_unit_test.py:62 | STATUS_DESCRIPTIONS.get(status, "Unknown"): the result is "Unknown" exactly when the code is not in the table |
| LogPattern.KnownDescriptions | script_unit_test.py:29-36 | the six table entries (200 Success, 301 Moved Permanently, 400 Bad Request, 403 Forbidden, 404 Not Found, 500 Internal Server Error), and "Unknown" for 418 |
| LogPattern.Word | script_unit_test.py:25 | `\S+ ` at the front of a string: a non-empty non-space token, then a space, then the remainder |
| LogPattern.QuotedWord | script_unit_test.py:25 | `\S+" ` at the front of a string: a non-empty non-space token, then a quote and a space, then the remainder |
| LogPattern.Number | script_unit_test.py:26 | `\d+ ` at the front of a string: a non-empty digit token, then a space, then the remainder |
| LogPattern.LastNumber | script_unit_test.py:26 | the final greedy `\d+`: a non-empty digit token, after which no digit remains |
| LogPattern.MatchTail | script_unit_test.py:25-26 | the pattern after the timestamp: a match yields a well-formed tail that renders back to exactly the string read |
| LogPattern.MatchTailOf | script_unit_test.py:25-26 | every well-formed tail, rendered, is read back by the tail matcher as itself |
| LogPattern.TimestampEnd | script_unit_test.py:25 | the lazy `.+?` search. If found: the shortest timestamp length from k on, with no line feed, after which the tail matches. If not found: no position up to the first line feed lets the tail match |
| LogPattern.Parse | script_unit_test.py:57-64 | parse_log_line: every returned record has a non-empty timestamp without line feed, digit-string status and count, and the table's description of the status |
| LogPattern.ParseSound | script_unit_test.py:24-27 | every record Parse returns is the record of some reading of the line by the pattern |
| LogPattern.ParseComplete | script_unit_test.py:24-27 | every line the pattern can read is parsed. The timestamp taken is no longer than that of any reading, and a reading with an equally long timestamp gives the same record |
| LogPattern.ParseNoneIff | script_unit_test.py:59-64 | parse_log_line returns None exactly when no reading of the line by the pattern exists |
| LogPattern.SearchSucceeds | script_unit_test.py:25 | the lazy timestamp search succeeds whenever some timestamp without a line feed can be followed by the tail |
| LogPattern.SearchShortest | script_unit_test.py:25 | the lazy search returns a timestamp no longer than any other that can be followed by the tail |
| LogPattern.ParseUnbracketed | script_unit_test.py:24-27 | a reading whose timestamp holds no `]` is exactly the record Parse returns |
| LogPattern.ParseRejectsLeadingSpace | script_unit_test.py:25 | a line starting with white space gives None |
| LogPattern.ParseRejectsMissingSeparator | script_unit_test.py:25 | a line that nowhere contains " - - [" gives None |
| LogPattern.ParseRejectsUnquoted | script_unit_test.py:25 | a line without a double quote gives None |
| LogPattern.ParseRejectsMissingStatus | script_unit_test.py:25-26 | a line in which no quote-space pair is followed by a digit gives None |
| LogPattern.ParseExtended | script_unit_test.py:59 | the match is anchored at the start and never crosses a line feed, so whatever follows a line feed leaves the result unchanged |
| LogPattern.ParseTerminated | script_unit_test.py:97-98 | a line handed over with its line feed parses exactly as the bare line |
| LogGenerator.ValidDraw | script_unit_test.py:89-90 | what one iteration's random draws can be: a valid calendar instant, an index into the six statuses, and a byte count in 200..5000. `GeneratedRows` and `GeneratedLineRow` hold for every such draw |
| LogGenerator.LogEntry | script_unit_test.py:87-91 | the `log_entry` f-string around a timestamp, a status and a byte count. `EntryRoundTrip` shows it parses back into those fields, and `UnknownStatusLine` covers statuses missing from the table |
| LogGenerator.EntryOf | script_unit_test.py:87-91 | the entry written for one draw. `GeneratedLineParses` shows it parses back into the draw's fields |
| LogGenerator.FileLines | script_unit_test.py:86-92 | the lines written, one per draw in order, each with its line feed. `EntryIsOneLine` and `GeneratedFileLines` show reading the file gives them back |
| LogGenerator.Pad2 | script_unit_test.py:89 | `%d`/`%H`/`%M`/`%S`: two digits denoting the field's value |
| LogGenerator.Pad4 | script_unit_test.py:89 | `%Y`: four digits denoting the year |
| LogGenerator.FormatTimestamp | script_unit_test.py:89 | the strftime timestamp is non-empty and holds no `]` and no line feed |
| LogGenerator.EntryRoundTrip | script_unit_test.py:87-91 | an entry built from a timestamp without `]` or line feed, a digit status and a byte count parses back into exactly those fields, with str() of the count and the status's description |
| LogGenerator.SampleLine | script_unit_test.py:105-113 | the parser's unit-test line gives timestamp "05/Mar/2025:12:34:56 +0000", status "200", count "1234" and description "Success" |
| LogGenerator.UnknownStatusLine | script_unit_test.py:62 | a digit status missing from the table (418, say) still matches and is described "Unknown" |
| LogGenerator.GenerateLogs | script_unit_test.py:81-92 | the file text is the generated entries in draw order, each followed by a line feed |
| LogGenerator.StatusesDescribed | script_unit_test.py:83 | every status the generator picks from has a description other than "Unknown" |
| LogGenerator.EntryIsOneLine | script_unit_test.py:87-92 | a generated entry plus its line feed is exactly one terminated line |
| LogGenerator.GeneratedFileLines | script_unit_test.py:85-92 | reading the written file line by line gives back exactly the lines written |
| LogGenerator.GeneratedLineParses | script_unit_test.py:87-92 | every generated line, read with its line feed, parses into the timestamp, status, byte count and description it was made from |
| LogIngest.InsertParameters | script_unit_test.py:73-78 | the INSERT tuple exists exactly when status and count are non-empty digit strings; its integers are int() of the status and of the count, and the timestamp and the description pass through unchanged |
| LogIngest.RecordRows | script_unit_test.py:100-101 | the `if log_data:` filter for one line: at most one row, the INSERT tuple of a record, none for None. `ParsedInsertable` shows a parsed record always gives its row |
| LogIngest.RowsOf | script_unit_test.py:97-101 | the rows of a sequence of parse results in order, no more rows than results. `IngestAppend`, `IngestNoMatch` and `IngestAllMatch` state its behaviour |
| LogIngest.Ingest | script_unit_test.py:97-101 | the rows `process_log` inserts for a file's lines, at most one per line. `ProcessLog` is proved to append exactly these |
| LogIngest.ParsedInsertable | script_unit_test.py:73-78 | int() cannot fail on the status or the count of a record parse_log_line returns |
| LogIngest.LogTable.constructor | script_unit_test.py:117-118 | a fresh connection: no rows, no execute and no commit calls |
| LogIngest.LogTable.InsertLogEntry | script_unit_test.py:66-79 | on success: one row appended with the converted tuple, one execute, one commit. When int() raises: nothing changes |
| LogIngest.LogTable.ProcessLog | script_unit_test.py:94-101 | the table gains exactly the rows of the file's matching lines, in file order, with as many executes and commits as rows |
| LogIngest.InsertOnceTest | script_unit_test.py:115-129 | one insert of the test's dictionary executes once, commits once, and stores status 200 and count 1234 as integers |
| LogIngest.IngestAppend | script_unit_test.py:97-101 | processing two stretches of a file one after the other inserts what processing the whole file inserts |
| LogIngest.IngestNoMatch | script_unit_test.py:100-101 | a file none of whose lines match inserts nothing |
| LogIngest.IngestAllMatch | script_unit_test.py:97-101 | when every line matches, row i is the converted record of line i, one row per line |
| LogIngest.IngestTerminated | script_unit_test.py:97-98 | a line feed at the end of a line changes nothing it inserts |
| LogIngest.GeneratedLineRow | script_unit_test.py:73-78 | a generated line becomes the row of its draw: the formatted time, the status as an integer, the byte count and a known description |
| LogIngest.GeneratedRows | script_unit_test.py:141-142 | generating a file and processing it yields one row per draw, in draw order, each the row of its draw |
| LogIngest.GenerateAndProcess | script_unit_test.py:141-142 | one round of the main loop: the table keeps its rows and gains exactly the rows of the draws, each executed once and committed once |

## Left out

- Database connection: `connect_db`, `DB_CONFIG` and the `.env` loading are not modelled. `LogTable` stands for the `logs` table that each `insert_log_entry` call reaches through its own connection.
- `create_table`: the DDL, the `SERIAL` id column and PostgreSQL's conversion of the timestamp text into a `TIMESTAMP` are not modelled. Rows keep the timestamp as text, so the model does not say whether PostgreSQL accepts the `%d/%b/%Y:%H:%M:%S +0000` form.
- Connection failures and other database errors are not modelled. They would propagate and end the cycle.
- File I/O: the file is a string. Text-mode universal newlines are not modelled: Python reads `\r\n` as `\n` and also ends a line at a lone `\r`, while `Lines` splits only at `\n`. A `\r` inside a line, in the timestamp say, therefore splits that line in Python but not in the model.
- The clock and `random`: each generated line's instant, status index and byte count are inputs (`Draw`). The subtraction `datetime.utcnow() - timedelta(days=…)` is not modelled. A draw carries the already shifted instant.
- ValidDateTime: years are limited to 1000-9999, where `%Y` writes four digits. `%b` is the C-locale English month abbreviation.
- The endless scheduler loop, `time.sleep` and the two `print` calls are left out. The sleep lasts 24 hours, although the message printed says 12. `GenerateAndProcess` models one round of the loop.
- The unittest and mock machinery is not modelled. `InsertOnceTest` states what the insert test asserts about the calls `insert_log_entry` makes. As written, the test looks for the calls on `mock_conn.cursor().execute` and `mock_conn.commit`. The code makes them on the objects that the two `with` statements yield, and `MagicMock.__enter__` returns a different mock.
- Text.ParseInt: ASCII digits only. Python's `int()` also accepts surrounding white space, a sign, underscores and non-ASCII digits, but the parser never hands it such strings.
- LogPattern.Parse: `\s` and `\d` are their ASCII classes. Python's Unicode classes in a `str` pattern also accept other white space and other decimal digits.
- LogIngest.LogTable.InsertLogEntry: when `int()` raises, the call returns `false` with nothing changed. The exception propagating out of `process_log` is not modelled. `ParsedInsertable` shows that this never happens for records `parse_log_line` returns.
- LogGenerator.FormatTimestamp: the contract states only what the parser relies on: the timestamp is non-empty and holds no `]` and no line feed. The field layout is given by its definition, through `Pad2` and `Pad4`.
