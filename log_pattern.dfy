/**
 * The access-log line parser: the pattern
 *
 *     \S+ - - \[(?P<timestamp>.+?)\] "\S+ \S+ \S+" (?P<status>\d+) (?P<number_of_request>\d+)
 *
 * matched at the start of a line, and the status-description lookup.
 *
 * `Parse` is the matcher written out the way a backtracking engine resolves
 * this pattern: every `\S+` and `\d+` is a maximal run, except the
 * protocol's `\S+"`, which is the run less its closing quote, and the only
 * real choice, the lazy timestamp, is searched shortest first. Each piece of the
 * pattern is a function that reads the front of a string and hands on what
 * is left. `Parts` and `Fits` are the pattern read as a grammar instead; the
 * lemmas below show that `Parse` succeeds exactly on the lines the grammar
 * accepts and picks the reading with the shortest timestamp.
 */
module LogPattern {
  import opened Text

  /** The dictionary parse_log_line returns; all four fields are strings. */
  datatype Record = Record(timestamp: string, status: string, numberOfRequest: string, statusDescription: string)

  const StatusDescriptions: map<string, string> := map[
    "200" := "Success",
    "301" := "Moved Permanently",
    "400" := "Bad Request",
    "403" := "Forbidden",
    "404" := "Not Found",
    "500" := "Internal Server Error"
  ]

  /**
   * STATUS_DESCRIPTIONS.get(status, "Unknown"). No entry of the table reads
   * "Unknown", so that word marks exactly the codes the table lacks.
   */
  function Describe(status: string): (d: string)
    ensures d == "Unknown" <==> status !in StatusDescriptions
  {
    if status in StatusDescriptions then StatusDescriptions[status] else "Unknown"
  }

  /** The six descriptions of the table. */
  lemma KnownDescriptions()
    ensures Describe("200") == "Success"
    ensures Describe("301") == "Moved Permanently"
    ensures Describe("400") == "Bad Request"
    ensures Describe("403") == "Forbidden"
    ensures Describe("404") == "Not Found"
    ensures Describe("500") == "Internal Server Error"
    ensures Describe("418") == "Unknown"
  {
  }

  /** What follows the client field and its space, up to the timestamp's opening bracket. */
  const Separator: string := "- - ["

  /** What closes the timestamp and opens the quoted request. */
  const RequestOpen: string := "] \""

  // ---------------------------------------------------------------------------
  // The pattern as a grammar

  /** Everything a match reads after the timestamp; `rest` is the unread remainder of the line. */
  datatype Tail = Tail(httpMethod: string, path: string, protocol: string, status: string, numberOfRequest: string, rest: string)

  /** A line cut into the pieces the pattern names. */
  datatype Parts = Parts(client: string, timestamp: string, tail: Tail)

  predicate WellFormedTail(t: Tail) {
    && |t.httpMethod| > 0 && NonSpace(t.httpMethod)
    && |t.path| > 0 && NonSpace(t.path)
    && |t.protocol| > 0 && NonSpace(t.protocol)
    && |t.status| > 0 && Digits(t.status)
    && |t.numberOfRequest| > 0 && Digits(t.numberOfRequest)
    // the greedy byte count takes every digit there is
    && (t.rest == [] || !IsDigit(t.rest[0]))
  }

  predicate WellFormed(p: Parts) {
    && |p.client| > 0 && NonSpace(p.client)
    && |p.timestamp| > 0 && NoNewline(p.timestamp, 0, |p.timestamp|)
    && WellFormedTail(p.tail)
  }

  function RenderTail(t: Tail): string {
    RequestOpen + (t.httpMethod + (" " + (t.path + (" " + (t.protocol + ("\" " +
      (t.status + (" " + (t.numberOfRequest + t.rest)))))))))
  }

  function Assemble(p: Parts): string {
    p.client + (" " + (Separator + (p.timestamp + RenderTail(p.tail))))
  }

  /** The pattern reads `line` as `p`. */
  predicate Fits(line: string, p: Parts) {
    WellFormed(p) && line == Assemble(p)
  }

  function RecordOf(p: Parts): Record {
    Record(p.timestamp, p.tail.status, p.tail.numberOfRequest, Describe(p.tail.status))
  }

  /** The fields of a record parse_log_line can return. */
  predicate WellFormedRecord(r: Record) {
    && |r.timestamp| > 0 && NoNewline(r.timestamp, 0, |r.timestamp|)
    && |r.status| > 0 && Digits(r.status)
    && |r.numberOfRequest| > 0 && Digits(r.numberOfRequest)
    && r.statusDescription == Describe(r.status)
  }

  // ---------------------------------------------------------------------------
  // The pieces of the matcher

  /** A piece of the pattern matched at the front of a string: what it read and what is left. */
  datatype Cut = Cut(token: string, remainder: string)

  /**
   * `\S+ `: the run of non-space characters at the front of s, which must be
   * non-empty and followed by a space. A shorter run would leave a non-space
   * where the pattern wants the space, so backtracking finds nothing else.
   */
  function Word(s: string): (r: Option<Cut>)
    ensures r.Some? ==> |r.value.token| > 0 && NonSpace(r.value.token)
    ensures r.Some? ==> s == r.value.token + (" " + r.value.remainder)
  {
    var j := SpanNonSpace(s, 0);
    if j == 0 || j == |s| || s[j] != ' ' then None
    else
      assert s == s[..j] + (" " + s[j + 1..]) by {
        assert s[j..] == " " + s[j + 1..];
      }
      Some(Cut(s[..j], s[j + 1..]))
  }

  /**
   * `\S+" `: a run of non-space characters that ends in a quote and is
   * followed by a space; the token is the run without its quote.
   */
  function QuotedWord(s: string): (r: Option<Cut>)
    ensures r.Some? ==> |r.value.token| > 0 && NonSpace(r.value.token)
    ensures r.Some? ==> s == r.value.token + ("\" " + r.value.remainder)
  {
    var j := SpanNonSpace(s, 0);
    if j < 2 || j == |s| || s[j - 1] != '"' || s[j] != ' ' then None
    else
      assert s == s[..j - 1] + ("\" " + s[j + 1..]) by {
        assert s[j - 1..] == "\" " + s[j + 1..];
      }
      Some(Cut(s[..j - 1], s[j + 1..]))
  }

  /** `\d+ `: the run of digits at the front of s, non-empty and followed by a space. */
  function Number(s: string): (r: Option<Cut>)
    ensures r.Some? ==> |r.value.token| > 0 && Digits(r.value.token)
    ensures r.Some? ==> s == r.value.token + (" " + r.value.remainder)
  {
    var j := SpanDigits(s, 0);
    if j == 0 || j == |s| || s[j] != ' ' then None
    else
      assert s == s[..j] + (" " + s[j + 1..]) by {
        assert s[j..] == " " + s[j + 1..];
      }
      Some(Cut(s[..j], s[j + 1..]))
  }

  /** `\d+` at the end of the pattern: the whole run of digits at the front of s, non-empty. */
  function LastNumber(s: string): (r: Option<Cut>)
    ensures r.Some? ==> |r.value.token| > 0 && Digits(r.value.token)
    ensures r.Some? ==> s == r.value.token + r.value.remainder
    ensures r.Some? ==> r.value.remainder == [] || !IsDigit(r.value.remainder[0])
  {
    var j := SpanDigits(s, 0);
    if j == 0 then None else Some(Cut(s[..j], s[j..]))
  }

  /** s begins with w. */
  predicate StartsWith(s: string, w: string) {
    |w| <= |s| && s[..|w|] == w
  }

  lemma StartsWithSplit(s: string, w: string)
    requires StartsWith(s, w)
    ensures s == w + s[|w|..]
  {
  }

  /** `\] "\S+ \S+ \S+" \d+ \d+` at the front of s: everything after the timestamp. */
  function MatchTail(s: string): (r: Option<Tail>)
    ensures r.Some? ==> WellFormedTail(r.value) && s == RenderTail(r.value)
  {
    if !StartsWith(s, RequestOpen) then None
    else
      var httpMethod :- Word(s[|RequestOpen|..]);
      var path :- Word(httpMethod.remainder);
      var protocol :- QuotedWord(path.remainder);
      var status :- Number(protocol.remainder);
      var count :- LastNumber(status.remainder);
      assert s == RequestOpen + s[|RequestOpen|..];
      Some(Tail(httpMethod.token, path.token, protocol.token, status.token, count.token, count.remainder))
  }

  // ---------------------------------------------------------------------------
  // Each piece reads exactly what the grammar puts in front of it

  lemma WordOf(w: string, rest: string)
    requires |w| > 0 && NonSpace(w)
    ensures Word(w + (" " + rest)) == Some(Cut(w, rest))
  {
    var s := w + (" " + rest);
    assert s[..|w|] == w;
    assert s[|w|] == ' ';
    SpanNonSpaceIs(s, 0, |w|);
    assert s[|w| + 1..] == rest;
  }

  lemma QuotedWordOf(w: string, rest: string)
    requires |w| > 0 && NonSpace(w)
    ensures QuotedWord(w + ("\" " + rest)) == Some(Cut(w, rest))
  {
    var s := w + ("\" " + rest);
    assert s[..|w| + 1] == w + "\"";
    assert s[|w|] == '"' && s[|w| + 1] == ' ';
    assert NonSpace(w + "\"") by {
      forall k | 0 <= k < |w| + 1 ensures !IsSpace((w + "\"")[k]) {
        if k < |w| {
          assert (w + "\"")[k] == w[k];
        }
      }
    }
    SpanNonSpaceIs(s, 0, |w| + 1);
    assert s[..|w|] == w;
    assert s[|w| + 2..] == rest;
  }

  lemma NumberOf(w: string, rest: string)
    requires |w| > 0 && Digits(w)
    ensures Number(w + (" " + rest)) == Some(Cut(w, rest))
  {
    var s := w + (" " + rest);
    assert s[..|w|] == w;
    assert s[|w|] == ' ';
    SpanDigitsIs(s, 0, |w|);
    assert s[|w| + 1..] == rest;
  }

  lemma LastNumberOf(w: string, rest: string)
    requires |w| > 0 && Digits(w)
    requires rest == [] || !IsDigit(rest[0])
    ensures LastNumber(w + rest) == Some(Cut(w, rest))
  {
    var s := w + rest;
    assert s[..|w|] == w;
    SpanDigitsIs(s, 0, |w|);
    assert s[|w|..] == rest;
  }

  /** The tail matcher reads back every well-formed tail. */
  lemma MatchTailOf(t: Tail)
    requires WellFormedTail(t)
    ensures MatchTail(RenderTail(t)) == Some(t)
  {
    var r9 := t.numberOfRequest + t.rest;
    var r7 := t.status + (" " + r9);
    var r5 := t.protocol + ("\" " + r7);
    var r3 := t.path + (" " + r5);
    var r1 := t.httpMethod + (" " + r3);
    var s := RenderTail(t);
    assert s == RequestOpen + r1;
    assert StartsWith(s, RequestOpen);
    assert s[|RequestOpen|..] == r1;
    WordOf(t.httpMethod, r3);
    WordOf(t.path, r5);
    QuotedWordOf(t.protocol, r7);
    NumberOf(t.status, r9);
    LastNumberOf(t.numberOfRequest, t.rest);
  }

  // ---------------------------------------------------------------------------
  // The matcher

  /** No index in [a, b) of body starts a match of the tail. */
  predicate NoTailIn(body: string, a: nat, b: nat)
    requires b <= |body| + 1
    decreases b - a
  {
    a >= b || (MatchTail(body[a..]).None? && NoTailIn(body, a + 1, b))
  }

  /**
   * The lazy `.+?` over body, the text after the timestamp's bracket: the
   * length of the shortest timestamp body[..e], e >= k, after which the tail
   * matches. The search gives up at a line feed, which `.` does not match,
   * and at the end of the text.
   */
  function TimestampEnd(body: string, k: nat): (r: Option<nat>)
    requires 1 <= k <= |body| + 1
    requires NoNewline(body, 0, k - 1)
    ensures r.Some? ==>
      && k <= r.value <= |body|
      && NoNewline(body, 0, r.value)
      && MatchTail(body[r.value..]).Some?
      && NoTailIn(body, k, r.value)
    ensures r.None? ==> NoTailIn(body, k, LineEnd(body, 0) + 1)
    decreases |body| + 1 - k
  {
    if k > |body| || body[k - 1] == '\n' then None
    else
      assert NoNewline(body, 0, k) by {
        assert forall j :: 0 <= j < k - 1 ==> body[j] != '\n';
      }
      if MatchTail(body[k..]).Some? then Some(k)
      else TimestampEnd(body, k + 1)
  }

  /** The record built when the timestamp is body[..e] and the tail matches after it. */
  function RecordAt(body: string, e: nat): Record
    requires e <= |body| && MatchTail(body[e..]).Some?
  {
    var t := MatchTail(body[e..]).value;
    Record(body[..e], t.status, t.numberOfRequest, Describe(t.status))
  }

  /** parse_log_line: the record of a matching line, None for any other line. */
  function Parse(line: string): (r: Option<Record>)
    ensures r.Some? ==> WellFormedRecord(r.value)
  {
    match Word(line)
    case None => None
    case Some(client) =>
      if !StartsWith(client.remainder, Separator) then None
      else
        var body := client.remainder[|Separator|..];
        match TimestampEnd(body, 1)
        case None => None
        case Some(e) => Some(RecordAt(body, e))
  }

  lemma {:induction false} NoTailInAt(body: string, a: nat, b: nat, x: nat)
    requires b <= |body| + 1 && NoTailIn(body, a, b) && a <= x < b
    ensures MatchTail(body[x..]).None?
    decreases x - a
  {
    if a < x {
      NoTailInAt(body, a + 1, b, x);
    }
  }

  /** What a line the grammar accepts looks like to the matcher. */
  lemma FitsLayout(line: string, p: Parts)
    requires Fits(line, p)
    ensures Word(line).Some?
    ensures StartsWith(Word(line).value.remainder, Separator)
    ensures Word(line).value.token == p.client
    ensures var body := Word(line).value.remainder[|Separator|..];
      && |p.timestamp| <= |body|
      && body[..|p.timestamp|] == p.timestamp
      && NoNewline(body, 0, |p.timestamp|)
      && MatchTail(body[|p.timestamp|..]) == Some(p.tail)
  {
    var body := p.timestamp + RenderTail(p.tail);
    var after := Separator + body;
    WordOf(p.client, after);
    assert after[..|Separator|] == Separator;
    assert after[|Separator|..] == body;
    assert body[..|p.timestamp|] == p.timestamp;
    assert body[|p.timestamp|..] == RenderTail(p.tail);
    MatchTailOf(p.tail);
    forall k | 0 <= k < |p.timestamp| ensures body[k] != '\n' {
      assert body[k] == p.timestamp[k];
    }
  }

  lemma TailOpensWithBracket(s: string)
    requires MatchTail(s).Some?
    ensures |s| > 0 && s[0] == ']'
  {
    assert s[..|RequestOpen|] == RequestOpen;
  }

  /** The pieces the matcher cut off, put back together, are a reading of the line. */
  lemma Reassemble(line: string, client: Cut, body: string, e: nat, t: Tail)
    requires line == client.token + (" " + client.remainder)
    requires |client.token| > 0 && NonSpace(client.token)
    requires client.remainder == Separator + body
    requires 0 < e <= |body| && NoNewline(body, 0, e)
    requires body[e..] == RenderTail(t) && WellFormedTail(t)
    ensures Fits(line, Parts(client.token, body[..e], t))
  {
  }

  /** Every record Parse returns is read off a reading of the line by the grammar. */
  lemma ParseSound(line: string)
    requires Parse(line).Some?
    ensures exists p :: Fits(line, p) && RecordOf(p) == Parse(line).value
  {
    var client := Word(line).value;
    StartsWithSplit(client.remainder, Separator);
    var body := client.remainder[|Separator|..];
    var e := TimestampEnd(body, 1).value;
    var t := MatchTail(body[e..]).value;
    Reassemble(line, client, body, e, t);
    assert RecordOf(Parts(client.token, body[..e], t)) == Parse(line).value;
  }

  /** The lazy search succeeds when some timestamp can be followed by the tail ... */
  lemma SearchSucceeds(body: string, e: nat)
    requires 0 < e <= |body| && NoNewline(body, 0, e)
    requires MatchTail(body[e..]).Some?
    ensures TimestampEnd(body, 1).Some?
  {
    LineEndBeyond(body, e);
    if TimestampEnd(body, 1).None? {
      SearchFailed(body, e);
    }
  }

  lemma LineEndBeyond(body: string, e: nat)
    requires e <= |body| && NoNewline(body, 0, e)
    ensures e <= LineEnd(body, 0)
  {
  }

  /** When the search fails, no position up to the first line feed starts a tail. */
  lemma SearchFailed(body: string, x: nat)
    requires 0 < x <= LineEnd(body, 0) && TimestampEnd(body, 1).None?
    ensures MatchTail(body[x..]).None?
  {
    NoTailInAt(body, 1, LineEnd(body, 0) + 1, x);
  }

  /** ... and what it finds is no longer than that timestamp. */
  lemma SearchShortest(body: string, e: nat)
    requires 0 < e <= |body| && MatchTail(body[e..]).Some?
    requires TimestampEnd(body, 1).Some?
    ensures TimestampEnd(body, 1).value <= e
  {
    var e' := TimestampEnd(body, 1).value;
    if e < e' {
      NoTailInAt(body, 1, e', e);
    }
  }

  /**
   * Every line the grammar accepts is parsed, and the timestamp Parse picks is
   * no longer than that of any reading; a reading with a timestamp just as
   * long is the one Parse returns.
   */
  lemma ParseComplete(line: string, p: Parts)
    requires Fits(line, p)
    ensures Parse(line).Some?
    ensures |Parse(line).value.timestamp| <= |p.timestamp|
    ensures |Parse(line).value.timestamp| == |p.timestamp| ==> Parse(line).value == RecordOf(p)
  {
    FitsLayout(line, p);
    var body := Word(line).value.remainder[|Separator|..];
    SearchSucceeds(body, |p.timestamp|);
    SearchShortest(body, |p.timestamp|);
  }

  /** A line gives None exactly when the pattern cannot read it. */
  lemma ParseNoneIff(line: string)
    ensures Parse(line).None? <==> forall p :: !Fits(line, p)
  {
    if Parse(line).Some? {
      ParseSound(line);
    } else {
      forall p | Fits(line, p) ensures false {
        ParseComplete(line, p);
      }
    }
  }

  /**
   * When the timestamp of a reading holds no `]`, no shorter timestamp can
   * be followed by the tail, which opens with `]`, so that reading is the match.
   */
  lemma ParseUnbracketed(line: string, p: Parts)
    requires Fits(line, p) && ']' !in p.timestamp
    ensures Parse(line) == Some(RecordOf(p))
  {
    ParseComplete(line, p);
    FitsLayout(line, p);
    var body := Word(line).value.remainder[|Separator|..];
    var e := |p.timestamp|;
    var e' := TimestampEnd(body, 1).value;
    if e' < e {
      TailOpensWithBracket(body[e'..]);
      assert false;
    }
  }

  // ---------------------------------------------------------------------------
  // Lines the pattern rejects

  /** Where the client and the separator sit in an assembled line. */
  lemma SeparatorLayout(p: Parts)
    requires WellFormed(p)
    ensures Assemble(p)[0] == p.client[0]
    ensures StartsWith(Assemble(p)[|p.client|..], " - - [")
  {
  }

  /** The status follows the quote that closes the request and a space. */
  lemma StatusLayout(p: Parts) returns (q: nat)
    requires WellFormed(p)
    ensures q + 2 < |Assemble(p)|
    ensures Assemble(p)[q] == '"' && Assemble(p)[q + 1] == ' ' && Assemble(p)[q + 2] == p.tail.status[0]
  {
    var t := p.tail;
    var r5 := t.protocol + ("\" " + (t.status + (" " + (t.numberOfRequest + t.rest))));
    var s := Assemble(p);
    var o := |p.client| + 1 + |Separator| + |p.timestamp| + |RequestOpen| + |t.httpMethod| + 1 + |t.path| + 1;
    assert s[o..] == r5;
    q := o + |t.protocol|;
    assert r5[|t.protocol|] == '"' && r5[|t.protocol| + 1] == ' ' && r5[|t.protocol| + 2] == t.status[0];
  }

  /** A line that starts with white space has no client field. */
  lemma ParseRejectsLeadingSpace(line: string)
    requires |line| > 0 && IsSpace(line[0])
    ensures Parse(line).None?
  {
  }

  /** A line without " - - [" has no identity fields before the timestamp. */
  lemma ParseRejectsMissingSeparator(line: string)
    requires forall i :: 0 <= i <= |line| ==> !StartsWith(line[i..], " - - [")
    ensures Parse(line).None?
  {
    if Parse(line).Some? {
      ParseSound(line);
      var p :| Fits(line, p) && RecordOf(p) == Parse(line).value;
      SeparatorLayout(p);
    }
  }

  /** A line without a quote has no quoted request. */
  lemma ParseRejectsUnquoted(line: string)
    requires '"' !in line
    ensures Parse(line).None?
  {
    if Parse(line).Some? {
      ParseSound(line);
    }
  }

  /** A line where no quote and space are followed by a digit has no status code. */
  lemma ParseRejectsMissingStatus(line: string)
    requires forall i :: 0 <= i < |line| - 2 && line[i] == '"' && line[i + 1] == ' ' ==> !IsDigit(line[i + 2])
    ensures Parse(line).None?
  {
    if Parse(line).Some? {
      ParseSound(line);
      var p :| Fits(line, p) && RecordOf(p) == Parse(line).value;
      var q := StatusLayout(p);
    }
  }

  // ---------------------------------------------------------------------------
  // The match is anchored only at the start: text after a line feed is never read

  /** The same cut, with t appended to what is left. */
  function Grow(r: Option<Cut>, t: string): (g: Option<Cut>)
    ensures g.Some? <==> r.Some?
  {
    match r
    case None => None
    case Some(c) => Some(Cut(c.token, c.remainder + t))
  }

  lemma SpanNonSpaceExtended(s: string, t: string, i: nat)
    requires |t| > 0 && t[0] == '\n' && i <= |s|
    ensures SpanNonSpace(s + t, i) == SpanNonSpace(s, i)
  {
    var j := SpanNonSpace(s, i);
    assert (s + t)[|s|] == '\n';
    assert NonSpace((s + t)[i..j]) by {
      forall k | 0 <= k < j - i ensures !IsSpace((s + t)[i..j][k]) {
        assert (s + t)[i..j][k] == s[i + k];
      }
    }
    SpanNonSpaceIs(s + t, i, j);
  }

  lemma SpanDigitsExtended(s: string, t: string, i: nat)
    requires |t| > 0 && t[0] == '\n' && i <= |s|
    ensures SpanDigits(s + t, i) == SpanDigits(s, i)
  {
    var j := SpanDigits(s, i);
    assert (s + t)[|s|] == '\n';
    assert Digits((s + t)[i..j]) by {
      forall k | 0 <= k < j - i ensures IsDigit((s + t)[i..j][k]) {
        assert (s + t)[i..j][k] == s[i + k];
      }
    }
    SpanDigitsIs(s + t, i, j);
  }

  lemma WordExtended(s: string, t: string)
    requires |t| > 0 && t[0] == '\n'
    ensures Word(s + t) == Grow(Word(s), t)
  {
    SpanNonSpaceExtended(s, t, 0);
    var j := SpanNonSpace(s, 0);
    assert (s + t)[|s|] == '\n';
    if j < |s| {
      assert (s + t)[..j] == s[..j];
      assert (s + t)[j + 1..] == s[j + 1..] + t;
    }
  }

  lemma QuotedWordExtended(s: string, t: string)
    requires |t| > 0 && t[0] == '\n'
    ensures QuotedWord(s + t) == Grow(QuotedWord(s), t)
  {
    SpanNonSpaceExtended(s, t, 0);
    var j := SpanNonSpace(s, 0);
    assert (s + t)[|s|] == '\n';
    if 0 < j < |s| {
      assert (s + t)[j - 1] == s[j - 1];
      assert (s + t)[..j - 1] == s[..j - 1];
      assert (s + t)[j + 1..] == s[j + 1..] + t;
    }
  }

  lemma NumberExtended(s: string, t: string)
    requires |t| > 0 && t[0] == '\n'
    ensures Number(s + t) == Grow(Number(s), t)
  {
    SpanDigitsExtended(s, t, 0);
    var j := SpanDigits(s, 0);
    assert (s + t)[|s|] == '\n';
    if j < |s| {
      assert (s + t)[..j] == s[..j];
      assert (s + t)[j + 1..] == s[j + 1..] + t;
    }
  }

  lemma LastNumberExtended(s: string, t: string)
    requires |t| > 0 && t[0] == '\n'
    ensures LastNumber(s + t) == Grow(LastNumber(s), t)
  {
    SpanDigitsExtended(s, t, 0);
    var j := SpanDigits(s, 0);
    assert (s + t)[..j] == s[..j];
    assert (s + t)[j..] == s[j..] + t;
  }

  /** A prefix without a line feed is seen in s + t exactly when it is seen in s. */
  lemma StartsWithExtended(s: string, t: string, w: string)
    requires |t| > 0 && t[0] == '\n' && NoNewline(w, 0, |w|)
    ensures StartsWith(s + t, w) == StartsWith(s, w)
    ensures StartsWith(s, w) ==> (s + t)[|w|..] == s[|w|..] + t
  {
    if |w| <= |s| {
      assert (s + t)[..|w|] == s[..|w|];
      assert (s + t)[|w|..] == s[|w|..] + t;
    } else if |w| <= |s + t| {
      assert (s + t)[..|w|][|s|] == '\n';
      assert w[|s|] != '\n';
    }
  }

  lemma MatchTailExtended(s: string, t: string)
    requires |t| > 0 && t[0] == '\n'
    ensures MatchTail(s).None? ==> MatchTail(s + t).None?
    ensures MatchTail(s).Some? ==>
      MatchTail(s + t) == Some(MatchTail(s).value.(rest := MatchTail(s).value.rest + t))
  {
    StartsWithExtended(s, t, RequestOpen);
    if StartsWith(s, RequestOpen) {
      var s0 := s[|RequestOpen|..];
      WordExtended(s0, t);
      if Word(s0).Some? {
        var s1 := Word(s0).value.remainder;
        WordExtended(s1, t);
        if Word(s1).Some? {
          var s2 := Word(s1).value.remainder;
          QuotedWordExtended(s2, t);
          if QuotedWord(s2).Some? {
            var s3 := QuotedWord(s2).value.remainder;
            NumberExtended(s3, t);
            if Number(s3).Some? {
              LastNumberExtended(Number(s3).value.remainder, t);
            }
          }
        }
      }
    }
  }

  lemma {:induction false} TimestampEndExtended(body: string, t: string, k: nat)
    requires |t| > 0 && t[0] == '\n'
    requires 1 <= k <= |body| + 1 && NoNewline(body, 0, k - 1)
    ensures NoNewline(body + t, 0, k - 1)
    ensures TimestampEnd(body + t, k) == TimestampEnd(body, k)
    decreases |body| + 1 - k
  {
    var bt := body + t;
    assert NoNewline(bt, 0, k - 1) by {
      forall j | 0 <= j < k - 1 ensures bt[j] != '\n' {
        assert bt[j] == body[j];
      }
    }
    if k > |body| {
      assert bt[k - 1] == '\n';
    } else if body[k - 1] != '\n' {
      assert bt[k..] == body[k..] + t;
      MatchTailExtended(body[k..], t);
      if MatchTail(body[k..]).None? {
        TimestampEndExtended(body, t, k + 1);
      }
    }
  }

  lemma RecordAtExtended(body: string, t: string, e: nat)
    requires |t| > 0 && t[0] == '\n'
    requires e <= |body| && MatchTail(body[e..]).Some?
    ensures MatchTail((body + t)[e..]).Some?
    ensures RecordAt(body + t, e) == RecordAt(body, e)
  {
    MatchTailExtended(body[e..], t);
    SliceAppend(body, t, e);
  }

  /** Whatever follows a line feed does not change the parse. */
  lemma ParseExtended(line: string, t: string)
    requires |t| > 0 && t[0] == '\n'
    ensures Parse(line + t) == Parse(line)
  {
    WordExtended(line, t);
    if Word(line).Some? {
      var after := Word(line).value.remainder;
      StartsWithExtended(after, t, Separator);
      if StartsWith(after, Separator) {
        var body := after[|Separator|..];
        TimestampEndExtended(body, t, 1);
        if TimestampEnd(body, 1).Some? {
          RecordAtExtended(body, t, TimestampEnd(body, 1).value);
        }
      }
    }
  }

  /** A line read from the file with its terminator parses as the bare line. */
  lemma ParseTerminated(line: string)
    ensures Parse(line + "\n") == Parse(line)
  {
    ParseExtended(line, "\n");
  }
}
