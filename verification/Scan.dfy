/** Reading lines with a limit on their length, as bufio.Scanner does. */
module Scan {
  import opened Text

  function DropCr(s: string): string {
    if s != "" && s[|s| - 1] == '\r' then s[..|s| - 1] else s
  }

  /** The lines up to the first that is too long: a line with its newline, or a last part without one, must fit. */
  function Tokens(rest: string, max: nat): seq<string> {
    var at := IndexOf(rest, '\n');
    if rest == "" || at + 1 > max then []
    else if at == |rest| then [DropCr(rest)]
    else [DropCr(rest[..at])] + Tokens(rest[at + 1..], max)
  }

  predicate TooLong(rest: string, max: nat) {
    var at := IndexOf(rest, '\n');
    if rest == "" then false
    else if at + 1 > max then true
    else at < |rest| && TooLong(rest[at + 1..], max)
  }

  /** The end of the first line, with its newline if it has one. */
  function LineEnd(rest: string): (n: nat)
    ensures n <= |rest| && (rest != "" ==> n > 0)
  {
    var at := IndexOf(rest, '\n');
    if at < |rest| then at + 1 else at
  }

  lemma FirstToken(rest: string, max: nat)
    requires rest != "" && IndexOf(rest, '\n') + 1 <= max
    ensures Tokens(rest, max) == [DropCr(rest[..IndexOf(rest, '\n')])] + Tokens(rest[LineEnd(rest)..], max)
    ensures TooLong(rest, max) == TooLong(rest[LineEnd(rest)..], max)
  {
    var at := IndexOf(rest, '\n');
    if at == |rest| {
      assert rest[..at] == rest && rest[at..] == "";
    }
  }

  /** A line is taken if it is shorter than the limit, with its newline or as the last part without one; of its ending only
      the newline and one carriage return before it are dropped. */
  lemma LimitIsExact(line: string, rest: string, max: nat)
    requires '\n' !in line
    ensures Tokens(line + "\n" + rest, max) == if |line| < max then [DropCr(line)] + Tokens(rest, max) else []
    ensures TooLong(line + "\n" + rest, max) <==> |line| >= max || TooLong(rest, max)
    ensures line != "" ==> Tokens(line, max) == if |line| < max then [DropCr(line)] else []
    ensures line != "" ==> (TooLong(line, max) <==> |line| >= max)
    ensures DropCr(line + "\r") == line && (line == "" || line[|line| - 1] != '\r' ==> DropCr(line) == line)
  {
    var s := line + "\n" + rest;
    assert s == line + ("\n" + rest);
    FirstOccurrence(line, '\n', "\n" + rest);
    assert s[..|line|] == line && s[|line| + 1..] == rest;
    FirstOccurrence(line, '\n', "");
    assert line + "" == line;
  }

  class Scanner {
    const data: string
    const max: nat
    var pos: nat

    ghost predicate Valid()
      reads this
    {
      pos <= |data|
    }

    constructor (data: string, max: nat)
      ensures Valid() && pos == 0 && this.data == data && this.max == max
    {
      this.data, this.max := data, max;
      pos := 0;
    }

    ghost function Rest(): string
      reads this
      requires Valid()
    {
      data[pos..]
    }

    /** Whether scanning stopped, or will stop, at a line that is too long. */
    predicate ErrTooLong()
      reads this
      requires Valid()
    {
      TooLong(data[pos..], max)
    }

    /** The next line, or the end: of the data, or because the next line is too long. */
    method Scan() returns (token: Option<string>)
      requires Valid()
      modifies this
      ensures Valid() && old(pos) <= pos
      ensures Tokens(old(Rest()), max) == if token.Some? then [token.value] + Tokens(Rest(), max) else []
      ensures TooLong(old(Rest()), max) == TooLong(Rest(), max)
      ensures if token.None? then pos == old(pos) else pos > old(pos)
    {
      var rest := data[pos..];
      var at := IndexOf(rest, '\n');
      if rest == "" || at + 1 > max {
        token := None;
      } else {
        FirstToken(rest, max);
        token := Some(DropCr(rest[..at]));
        pos := pos + LineEnd(rest);
        assert Rest() == rest[LineEnd(rest)..];
      }
    }
  }

  // ----- Texts of whole lines -----

  predicate WholeLines(lines: seq<string>) {
    forall k :: 0 <= k < |lines| ==> OneLine(lines[k]) && DropCr(lines[k]) == lines[k]
  }

  predicate Fits(line: string, max: nat) {
    |line| + 1 <= max
  }

  predicate AllFit(lines: seq<string>, max: nat) {
    forall k :: 0 <= k < |lines| ==> Fits(lines[k], max)
  }

  lemma FirstLine(line: string, rest: string, max: nat)
    requires OneLine(line) && DropCr(line) == line
    ensures Tokens(line + "\n" + rest, max) == if Fits(line, max) then [line] + Tokens(rest, max) else []
    ensures TooLong(line + "\n" + rest, max) == (!Fits(line, max) || TooLong(rest, max))
  {
    var s := line + "\n" + rest;
    assert s == line + ("\n" + rest);
    FirstOccurrence(line, '\n', "\n" + rest);
    assert s[..|line|] == line && s[|line| + 1..] == rest;
  }

  lemma {:induction false} TokensOfFitting(fits: seq<string>, rest: string, max: nat)
    requires WholeLines(fits) && AllFit(fits, max)
    ensures Tokens(Unlines(fits) + rest, max) == fits + Tokens(rest, max)
    ensures TooLong(Unlines(fits) + rest, max) == TooLong(rest, max)
  {
    if fits == [] {
      assert Unlines(fits) + rest == rest;
    } else {
      TokensOfFitting(fits[1..], rest, max);
      FirstLine(fits[0], Unlines(fits[1..]) + rest, max);
      RestOfLines(fits[0], Unlines(fits[1..]), rest);
      HeadAndTail(fits, Tokens(rest, max));
    }
  }

  lemma RestOfLines(line: string, more: string, rest: string)
    ensures line + "\n" + more + rest == line + "\n" + (more + rest)
  {
  }

  lemma HeadAndTail(lines: seq<string>, more: seq<string>)
    requires lines != []
    ensures [lines[0]] + (lines[1..] + more) == lines + more
  {
  }
}
