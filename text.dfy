/**
 * Character classes, maximal runs and decimal numerals, as the access-log
 * pattern and the integer conversions of the ingester use them.
 *
 * Only ASCII is modelled: `IsSpace` is the class `\s` and `IsDigit` the class
 * `\d` of a pattern compiled in ASCII mode.
 */
module Text {

  datatype Option<+T> = None | Some(value: T) {
    predicate IsFailure() {
      None?
    }

    function PropagateFailure<U>(): Option<U>
      requires None?
    {
      None
    }

    function Extract(): T
      requires Some?
    {
      value
    }
  }

  /** Space, tab, line feed, carriage return, vertical tab and form feed. */
  predicate IsSpace(c: char) {
    c == ' ' || c == '\t' || c == '\n' || c == '\r' || c == '\U{0B}' || c == '\U{0C}'
  }

  predicate IsDigit(c: char) {
    '0' <= c <= '9'
  }

  predicate NonSpace(s: string) {
    forall k :: 0 <= k < |s| ==> !IsSpace(s[k])
  }

  predicate Digits(s: string) {
    forall k :: 0 <= k < |s| ==> IsDigit(s[k])
  }

  /** No line feed among s[a..b]. */
  predicate NoNewline(s: string, a: nat, b: nat)
    requires a <= b <= |s|
  {
    forall k :: a <= k < b ==> s[k] != '\n'
  }

  /** The end of the longest run of non-space characters of s that starts at i. */
  function SpanNonSpace(s: string, i: nat): (j: nat)
    requires i <= |s|
    ensures i <= j <= |s|
    ensures forall k :: i <= k < j ==> !IsSpace(s[k])
    ensures j == |s| || IsSpace(s[j])
    decreases |s| - i
  {
    if i == |s| || IsSpace(s[i]) then i else SpanNonSpace(s, i + 1)
  }

  /** The end of the longest run of digits of s that starts at i. */
  function SpanDigits(s: string, i: nat): (j: nat)
    requires i <= |s|
    ensures i <= j <= |s|
    ensures forall k :: i <= k < j ==> IsDigit(s[k])
    ensures j == |s| || !IsDigit(s[j])
    decreases |s| - i
  {
    if i == |s| || !IsDigit(s[i]) then i else SpanDigits(s, i + 1)
  }

  /** A run that stops where the span stops is the span. */
  lemma SpanNonSpaceIs(s: string, i: nat, j: nat)
    requires i <= j <= |s|
    requires NonSpace(s[i..j])
    requires j == |s| || IsSpace(s[j])
    ensures SpanNonSpace(s, i) == j
  {
  }

  lemma SpanDigitsIs(s: string, i: nat, j: nat)
    requires i <= j <= |s|
    requires Digits(s[i..j])
    requires j == |s| || !IsDigit(s[j])
    ensures SpanDigits(s, i) == j
  {
  }

  lemma Associate<T>(a: seq<T>, b: seq<T>, c: seq<T>)
    ensures (a + b) + c == a + (b + c)
  {
  }

  /** Slicing a string that has grown at its end. */
  lemma SliceAppend<T>(s: seq<T>, t: seq<T>, e: nat)
    requires e <= |s|
    ensures (s + t)[e..] == s[e..] + t && (s + t)[..e] == s[..e]
  {
  }

  function DigitValue(c: char): (v: nat)
    requires IsDigit(c)
    ensures v < 10
  {
    (c as int) - ('0' as int)
  }

  function DigitChar(v: nat): (c: char)
    requires v < 10
    ensures IsDigit(c) && DigitValue(c) == v
  {
    (('0' as int) + v) as char
  }

  /** The number a string of decimal digits denotes, most significant digit first. */
  function DecimalValue(s: string): nat
    requires Digits(s)
  {
    if s == [] then 0 else 10 * DecimalValue(s[..|s| - 1]) + DigitValue(s[|s| - 1])
  }

  /** The decimal numeral of n without leading zeros, as Python's str(n) writes it. */
  function DecimalString(n: nat): (s: string)
    ensures |s| > 0 && Digits(s)
    ensures DecimalValue(s) == n
    ensures |s| > 1 ==> s[0] != '0'
  {
    if n < 10 then [DigitChar(n)]
    else
      var s := DecimalString(n / 10) + [DigitChar(n % 10)];
      assert s[..|s| - 1] == DecimalString(n / 10);
      s
  }

  /**
   * Python's int() applied to a string, restricted to its ASCII form: a
   * non-empty string of digits converts, anything else raises (None).
   */
  function ParseInt(s: string): (r: Option<nat>)
    ensures r.Some? <==> |s| > 0 && Digits(s)
  {
    if |s| > 0 && Digits(s) then Some(DecimalValue(s)) else None
  }

  /** int(str(n)) == n. */
  lemma ParseIntOfDecimal(n: nat)
    ensures ParseInt(DecimalString(n)) == Some(n)
  {
  }

  /** The index of the first line feed of s at or after i, or |s|. */
  function LineEnd(s: string, i: nat): (n: nat)
    requires i <= |s|
    ensures i <= n <= |s| && NoNewline(s, i, n)
    ensures n == |s| || s[n] == '\n'
    decreases |s| - i
  {
    if i == |s| || s[i] == '\n' then i else LineEnd(s, i + 1)
  }

  /** The strings of ls one after another. */
  function Concat(ls: seq<string>): string {
    if ls == [] then [] else ls[0] + Concat(ls[1..])
  }

  lemma {:induction false} ConcatAppend(ls: seq<string>, x: string)
    ensures Concat(ls + [x]) == Concat(ls) + x
  {
    if ls != [] {
      assert (ls + [x])[1..] == ls[1..] + [x];
      ConcatAppend(ls[1..], x);
    }
  }

  /** A line as a file iterator yields it: the text up to and including a line feed, with no line feed before it. */
  predicate TerminatedLine(l: string) {
    |l| > 0 && l[|l| - 1] == '\n' && NoNewline(l, 0, |l| - 1)
  }

  /**
   * The lines of a text as iterating over a file opened for reading yields
   * them: each ends with its line feed, and the last may have none.
   */
  function Lines(s: string): (ls: seq<string>)
    ensures Concat(ls) == s
    ensures forall k :: 0 <= k < |ls| - 1 ==> TerminatedLine(ls[k])
    ensures forall k :: 0 <= k < |ls| ==> |ls[k]| > 0 && NoNewline(ls[k], 0, |ls[k]| - 1)
    decreases |s|
  {
    if s == [] then []
    else
      var n := LineEnd(s, 0);
      if n == |s| then
        assert [s][1..] == [];
        [s]
      else
        var l := s[..n + 1];
        var ls := [l] + Lines(s[n + 1..]);
        assert ls[1..] == Lines(s[n + 1..]);
        assert TerminatedLine(l) by {
          assert forall k :: 0 <= k < n ==> l[k] == s[k];
        }
        assert s == l + s[n + 1..];
        ls
  }

  /** Text made of terminated lines splits back into those lines. */
  lemma {:induction false} LinesOfConcat(ls: seq<string>)
    requires forall k :: 0 <= k < |ls| ==> TerminatedLine(ls[k])
    ensures Lines(Concat(ls)) == ls
    decreases |ls|
  {
    if ls != [] {
      var l := ls[0];
      var s := Concat(ls);
      assert s == l + Concat(ls[1..]);
      assert s[..|l|] == l;
      var n := |l| - 1;
      assert forall k :: 0 <= k < n ==> s[k] == l[k];
      assert s[n] == '\n';
      assert LineEnd(s, 0) == n by {
        LineEndIs(s, 0, n);
      }
      assert s[n + 1..] == Concat(ls[1..]);
      LinesOfConcat(ls[1..]);
    }
  }

  lemma LineEndIs(s: string, i: nat, n: nat)
    requires i <= n < |s| && NoNewline(s, i, n) && s[n] == '\n'
    ensures LineEnd(s, i) == n
    decreases n - i
  {
  }
}
