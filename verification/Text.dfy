/** Newline-terminated text and decimal numbers, as the diff printer, the manifest and the event log use them. */
module Text {

  datatype Option<+T> = None | Some(value: T)

  predicate OneLine(s: string) {
    '\n' !in s
  }

  /** Every line followed by a newline. */
  function Unlines(lines: seq<string>): string {
    if lines == [] then "" else lines[0] + "\n" + Unlines(lines[1..])
  }

  /** The newline-terminated lines of s, and what follows the last newline. */
  function SplitLines(s: string): (r: (seq<string>, string)) {
    if s == "" then ([], "")
    else
      var (lines, tail) := SplitLines(s[1..]);
      if s[0] == '\n' then ([""] + lines, tail)
      else if lines == [] then ([], [s[0]] + tail)
      else ([[s[0]] + lines[0]] + lines[1..], tail)
  }

  lemma {:induction false} SplitAfterLine(line: string, rest: string)
    requires OneLine(line)
    ensures SplitLines(line + "\n" + rest) == ([line] + SplitLines(rest).0, SplitLines(rest).1)
  {
    var s := line + "\n" + rest;
    if line == "" {
      assert s[1..] == rest;
    } else {
      assert s[1..] == line[1..] + "\n" + rest;
      SplitAfterLine(line[1..], rest);
      assert [s[0]] + line[1..] == line;
    }
  }

  /** Lines without newlines survive being joined and split again. */
  lemma {:induction false} SplitUnlines(lines: seq<string>, tail: string)
    requires forall l :: l in lines ==> OneLine(l)
    requires OneLine(tail)
    ensures SplitLines(Unlines(lines) + tail) == (lines, tail)
  {
    if lines == [] {
      assert Unlines(lines) + tail == tail;
      SplitOneLine(tail);
    } else {
      SplitUnlines(lines[1..], tail);
      assert Unlines(lines) + tail == lines[0] + "\n" + (Unlines(lines[1..]) + tail);
      SplitAfterLine(lines[0], Unlines(lines[1..]) + tail);
      assert [lines[0]] + lines[1..] == lines;
    }
  }

  lemma {:induction false} SplitOneLine(s: string)
    requires OneLine(s)
    ensures SplitLines(s) == ([], s)
  {
    if s != "" {
      SplitOneLine(s[1..]);
      assert [s[0]] + s[1..] == s;
    }
  }

  lemma {:induction false} UnlinesAppend(xs: seq<string>, ys: seq<string>)
    ensures Unlines(xs + ys) == Unlines(xs) + Unlines(ys)
  {
    if xs == [] {
      assert xs + ys == ys;
    } else {
      assert (xs + ys)[1..] == xs[1..] + ys;
      UnlinesAppend(xs[1..], ys);
    }
  }

  // ----- strings.Join -----

  function Join(parts: seq<string>, sep: char): string {
    if parts == [] then ""
    else if |parts| == 1 then parts[0]
    else parts[0] + [sep] + Join(parts[1..], sep)
  }

  predicate Free(parts: seq<string>, sep: char) {
    forall i :: 0 <= i < |parts| ==> sep !in parts[i]
  }

  lemma FirstOccurrence(a: string, c: char, rest: string)
    requires c !in a && (rest == "" || rest[0] == c)
    ensures IndexOf(a + rest, c) == |a|
  {
    var s := a + rest;
    assert forall k :: 0 <= k < |a| ==> s[k] == a[k] && a[k] in a;
    assert rest != "" ==> s[|a|] == c;
  }

  /** The first part ends at the first separator; the rest is the join of the other parts. */
  lemma JoinHead(parts: seq<string>, sep: char)
    requires parts != [] && sep !in parts[0]
    ensures var j, n := Join(parts, sep), |parts[0]|;
      && IndexOf(j, sep) == n
      && n <= |j| && j[..n] == parts[0]
      && (|parts| == 1 <==> n == |j|)
      && (|parts| > 1 ==> j[n + 1..] == Join(parts[1..], sep))
  {
    var rest := if |parts| == 1 then "" else [sep] + Join(parts[1..], sep);
    assert Join(parts, sep) == parts[0] + rest;
    FirstOccurrence(parts[0], sep, rest);
  }

  /** Separator-free parts can be told from their join. */
  lemma {:induction false} JoinInjective(xs: seq<string>, ys: seq<string>, sep: char)
    requires xs != [] && ys != [] && Free(xs, sep) && Free(ys, sep)
    requires Join(xs, sep) == Join(ys, sep)
    ensures xs == ys
  {
    JoinHead(xs, sep);
    JoinHead(ys, sep);
    assert xs[0] == ys[0];
    if |xs| > 1 {
      JoinInjective(xs[1..], ys[1..], sep);
      assert xs == [xs[0]] + xs[1..] && ys == [ys[0]] + ys[1..];
    }
  }

  // ----- Decimal numbers -----

  predicate IsDigit(c: char) {
    '0' <= c <= '9'
  }

  function Decimal(n: nat): (s: string)
    ensures s != "" && forall c :: c in s ==> IsDigit(c)
  {
    (if n < 10 then "" else Decimal(n / 10)) + [(n % 10) as char + '0']
  }

  function DigitsValue(s: string): nat {
    if s == "" then 0
    else
      var last := s[|s| - 1];
      10 * DigitsValue(s[..|s| - 1]) + if IsDigit(last) then (last - '0') as nat else 0
  }

  /** Most significant digit first, and no leading zero. */
  lemma DecimalDigits(n: nat)
    ensures n < 10 ==> Decimal(n) == ["0123456789"[n]]
    ensures n >= 10 ==> Decimal(n) == Decimal(n / 10) + ["0123456789"[n % 10]]
  {
    DigitIs(n % 10);
  }

  lemma DigitIs(d: nat)
    requires d < 10
    ensures d as char + '0' == "0123456789"[d]
  {
  }

  lemma {:induction false} NoLeadingZero(n: nat)
    requires n > 0
    ensures Decimal(n)[0] != '0'
  {
    if n >= 10 {
      NoLeadingZero(n / 10);
    }
  }

  lemma {:induction false} DecimalRoundTrip(n: nat)
    ensures DigitsValue(Decimal(n)) == n
  {
    var s := Decimal(n);
    if n >= 10 {
      DecimalRoundTrip(n / 10);
      assert s[..|s| - 1] == Decimal(n / 10);
    } else {
      assert s[..|s| - 1] == "";
    }
  }

  /** The number before the first stop character, and the text after it. */
  function ReadNumber(s: string, stop: char): Option<(nat, string)> {
    var at := IndexOf(s, stop);
    if at == |s| || (exists k :: 0 <= k < at && !IsDigit(s[k])) then None
    else Some((DigitsValue(s[..at]), s[at + 1..]))
  }

  function IndexOf(s: string, c: char): (i: nat)
    ensures i <= |s|
    ensures i < |s| ==> s[i] == c
    ensures forall k :: 0 <= k < i ==> s[k] != c
  {
    if s == "" || s[0] == c then 0 else 1 + IndexOf(s[1..], c)
  }

  lemma ReadDecimal(n: nat, stop: char, rest: string)
    requires !IsDigit(stop)
    ensures ReadNumber(Decimal(n) + [stop] + rest, stop) == Some((n, rest))
  {
    var d := Decimal(n);
    var s := d + [stop] + rest;
    assert s[|d|] == stop;
    assert forall k :: 0 <= k < |d| ==> s[k] == d[k] && d[k] in d;
    var at := IndexOf(s, stop);
    assert at == |d|;
    assert s[..at] == d && s[at + 1..] == rest;
    DecimalRoundTrip(n);
  }
}
