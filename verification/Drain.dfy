/** Reading a step's output line by line without ever stopping (internal/executor/drain.go). */
module Drain {
  import opened Text

  // ----- What the handler should be given -----

  function Smaller(a: nat, b: nat): nat {
    if a < b then a else b
  }

  /** How many bytes of a segment fit into the limit. */
  function Fitting(segment: string, limit: nat): (n: nat)
    ensures n <= |segment| && n <= limit
  {
    Smaller(|segment|, limit)
  }

  /** The text handed over of a segment: what fits, without an LF and then without a CR at the end of that. */
  function TextOf(segment: string, limit: nat): (text: string)
    ensures text <= segment
  {
    var n := Fitting(segment, limit);
    var m := if n > 0 && segment[n - 1] == '\n' then n - 1 else n;
    segment[..if m > 0 && segment[m - 1] == '\r' then m - 1 else m]
  }

  function Notice(text: string, dropped: nat): string {
    text + " [daggle: line too long, " + Decimal(dropped) + " further bytes dropped]"
  }

  /** The string the handler is given for a segment; the notice counts the bytes that did not fit. */
  function Handled(segment: string, limit: nat): string {
    if |segment| <= limit then TextOf(segment, limit) else Notice(TextOf(segment, limit), |segment| - limit)
  }

  /** The newline-terminated lines with their newline, and what follows the last one if anything does. */
  function Segments(s: string): seq<string> {
    var (lines, tail) := SplitLines(s);
    seq(|lines|, k requires 0 <= k < |lines| => lines[k] + "\n") + if tail == "" then [] else [tail]
  }

  function HandledAll(segments: seq<string>, limit: nat): seq<string> {
    seq(|segments|, k requires 0 <= k < |segments| => Handled(segments[k], limit))
  }

  // ----- What becomes of every byte -----

  /** A non-empty part of the stream with an LF at most at its end. */
  predicate Segment(s: string) {
    s != "" && OneLine(s[..|s| - 1])
  }

  /** How long the line ending is: an LF with the CR before it, if there is one. */
  function EndingLength(segment: string): (n: nat)
    ensures n <= |segment|
  {
    if segment == "" || segment[|segment| - 1] != '\n' then 0
    else if |segment| > 1 && segment[|segment| - 2] == '\r' then 2
    else 1
  }

  predicate HandedOver(segment: string, limit: nat, i: int) {
    i < |TextOf(segment, limit)|
  }

  predicate Counted(segment: string, limit: nat, i: int) {
    Fitting(segment, limit) <= i
  }

  predicate InEnding(segment: string, i: int) {
    |segment| - EndingLength(segment) <= i
  }

  /** A byte that is neither handed over nor counted in the notice nor part of the line ending. */
  predicate Lost(segment: string, limit: nat, i: int) {
    0 <= i < |segment| && !HandedOver(segment, limit, i) && !Counted(segment, limit, i) && !InEnding(segment, i)
  }

  /** The last byte that fits is a CR, and what follows is not just the newline. */
  predicate CutAfterCr(segment: string, limit: nat) {
    var n := Fitting(segment, limit);
    n > 0 && segment[n - 1] == '\r' && segment[n..] != "\n"
  }

  /** Nothing but that CR is ever lost. */
  lemma LostIff(segment: string, limit: nat, i: int)
    requires Segment(segment)
    ensures Lost(segment, limit, i) <==> CutAfterCr(segment, limit) && i == Fitting(segment, limit) - 1
  {
    var n, k := Fitting(segment, limit), |segment|;
    assert forall j :: 0 <= j < k - 1 ==> segment[j] in segment[..k - 1];
    if n == k - 1 {
      assert segment[n..] == [segment[n]];
    }
  }

  /** So every byte of a segment is accounted for if and only if it is not cut right after a CR. */
  lemma AccountedIff(segment: string, limit: nat)
    requires Segment(segment)
    ensures (forall i :: !Lost(segment, limit, i)) <==> !CutAfterCr(segment, limit)
  {
    forall i
      ensures Lost(segment, limit, i) <==> CutAfterCr(segment, limit) && i == Fitting(segment, limit) - 1
    {
      LostIff(segment, limit, i);
    }
    assert CutAfterCr(segment, limit) ==> Lost(segment, limit, Fitting(segment, limit) - 1);
  }

  /** The failing input: a CR as the last byte that fits, as in a progress line without newlines, is dropped without
      being counted, and so is one that ends the stream. */
  lemma CrLost(text: string, more: string, limit: nat)
    requires |text| + 1 == limit && OneLine(text)
    ensures more != "" ==> Handled(text + "\r" + more, limit) == Notice(text, |more|)
    ensures Handled(text + "\r", limit) == text
    ensures more != "" && more != "\n" ==> CutAfterCr(text + "\r" + more, limit)
    ensures CutAfterCr(text + "\r", limit)
  {
    CrTrimmed(text, "", limit);
    CrTrimmed(text, more, limit);
    assert text + "\r" + "" == text + "\r";
    assert (text + "\r" + more)[limit..] == more;
  }

  lemma CrTrimmed(text: string, more: string, limit: nat)
    requires |text| + 1 == limit
    ensures TextOf(text + "\r" + more, limit) == text
  {
    var s := text + "\r" + more;
    assert s[|text|] == '\r' && s[..|text|] == text;
  }

  // The same for a whole stream.

  function HandedBytes(segments: seq<string>, limit: nat): nat {
    if segments == [] then 0 else |TextOf(segments[0], limit)| + HandedBytes(segments[1..], limit)
  }

  function CountedBytes(segments: seq<string>, limit: nat): nat {
    if segments == [] then 0 else |segments[0]| - Fitting(segments[0], limit) + CountedBytes(segments[1..], limit)
  }

  /** The bytes of line endings that are not in the count of a notice. */
  function EndingBytes(segments: seq<string>, limit: nat): nat {
    if segments == [] then 0
    else
      var dropped, ending := |segments[0]| - Fitting(segments[0], limit), EndingLength(segments[0]);
      ending - Smaller(ending, dropped) + EndingBytes(segments[1..], limit)
  }

  function LostBytes(segments: seq<string>, limit: nat): nat {
    if segments == [] then 0 else (if CutAfterCr(segments[0], limit) then 1 else 0) + LostBytes(segments[1..], limit)
  }

  lemma SegmentBytes(segment: string, limit: nat)
    requires Segment(segment)
    ensures var dropped, ending := |segment| - Fitting(segment, limit), EndingLength(segment);
      |TextOf(segment, limit)| + dropped + (ending - Smaller(ending, dropped)) +
        (if CutAfterCr(segment, limit) then 1 else 0) == |segment|
  {
    var n, k := Fitting(segment, limit), |segment|;
    assert forall j :: 0 <= j < k - 1 ==> segment[j] in segment[..k - 1];
    if n == k - 1 {
      assert segment[n..] == [segment[n]];
    }
  }

  function TotalLength(segments: seq<string>): nat {
    if segments == [] then 0 else |segments[0]| + TotalLength(segments[1..])
  }

  lemma {:induction false} SegmentsBytes(all: seq<string>, limit: nat)
    requires forall i :: 0 <= i < |all| ==> Segment(all[i])
    ensures HandedBytes(all, limit) + CountedBytes(all, limit) + EndingBytes(all, limit) + LostBytes(all, limit) ==
      TotalLength(all)
  {
    if all != [] {
      SegmentBytes(all[0], limit);
      SegmentsBytes(all[1..], limit);
    }
  }

  lemma {:induction false} SegmentsCover(s: string)
    ensures forall i :: 0 <= i < |Segments(s)| ==> Segment(Segments(s)[i])
    ensures TotalLength(Segments(s)) == |s|
    decreases |s|
  {
    var at := IndexOf(s, '\n');
    if at == |s| {
      SegmentsOfTail(s);
    } else {
      var line, rest := s[..at], s[at + 1..];
      assert s == line + "\n" + rest;
      SegmentsAfterLine(line, rest);
      SegmentsCover(rest);
      OneMoreSegment(line, Segments(rest), Segments(s));
    }
  }

  lemma OneMoreSegment(line: string, more: seq<string>, all: seq<string>)
    requires OneLine(line) && all == [line + "\n"] + more && forall i :: 0 <= i < |more| ==> Segment(more[i])
    ensures forall i :: 0 <= i < |all| ==> Segment(all[i])
    ensures TotalLength(all) == |line| + 1 + TotalLength(more)
  {
    assert all[1..] == more;
    assert (line + "\n")[..|line|] == line;
  }

  /** Every byte of a stream is handed over, counted or part of a line ending, except one CR for each segment that is cut
      right after it. */
  lemma EveryByte(s: string, limit: nat)
    ensures var all := Segments(s);
      HandedBytes(all, limit) + CountedBytes(all, limit) + EndingBytes(all, limit) + LostBytes(all, limit) == |s|
  {
    SegmentsCover(s);
    SegmentsBytes(Segments(s), limit);
  }

  // ----- Facts about the specification -----

  lemma SegmentsAfterLine(line: string, rest: string)
    requires OneLine(line)
    ensures Segments(line + "\n" + rest) == [line + "\n"] + Segments(rest)
  {
    SplitAfterLine(line, rest);
  }

  lemma SegmentsOfTail(tail: string)
    requires OneLine(tail)
    ensures Segments(tail) == if tail == "" then [] else [tail]
  {
    SplitOneLine(tail);
  }

  function WithoutCr(line: string): string {
    if line != "" && line[|line| - 1] == '\r' then line[..|line| - 1] else line
  }

  /** A line that fits with its newline is handed over whole, without its line ending. */
  lemma ShortLineWhole(line: string, limit: nat)
    requires OneLine(line) && |line| < limit
    ensures Handled(line + "\n", limit) == WithoutCr(line)
  {
    assert (line + "\n")[..|line|] == line;
  }

  /** A line of exactly the limit is kept whole, but its newline is reported as one dropped byte. */
  lemma LineOfLimitLength(line: string, limit: nat)
    requires OneLine(line) && |line| == limit
    ensures Handled(line + "\n", limit) == Notice(WithoutCr(line), 1)
  {
    TextOfWholeLine(line, "\n", limit);
  }

  lemma TextOfWholeLine(line: string, rest: string, limit: nat)
    requires OneLine(line) && |line| == limit
    ensures TextOf(line + rest, limit) == WithoutCr(line)
  {
    var s := line + rest;
    assert s[..limit] == line;
    assert limit > 0 ==> s[limit - 1] == line[limit - 1] && line[limit - 1] in line;
  }

  /** The number in the notice of a cut line reads back as the bytes beyond the limit; these are all bytes not handed
      over, unless the last one that fits is a CR. */
  lemma NoticeIsExact(segment: string, limit: nat)
    requires Segment(segment) && |segment| > limit
    ensures ReadNotice(Handled(segment, limit), TextOf(segment, limit)) == Some(|segment| - limit)
    ensures |segment| - limit == |segment| - |TextOf(segment, limit)| <==> limit == 0 || segment[limit - 1] != '\r'
  {
    CutIsNoticed(segment, limit, TextOf(segment, limit), |segment| - limit);
    TextOfCut(segment, limit);
  }

  lemma CutIsNoticed(segment: string, limit: nat, text: string, dropped: nat)
    requires text == TextOf(segment, limit) && |segment| == limit + dropped && dropped > 0
    ensures ReadNotice(Handled(segment, limit), text) == Some(dropped)
  {
    NoticeReads(text, dropped);
    assert Handled(segment, limit) == Notice(text, dropped);
  }

  lemma TextOfCut(segment: string, limit: nat)
    requires Segment(segment) && |segment| > limit
    ensures |TextOf(segment, limit)| == if limit > 0 && segment[limit - 1] == '\r' then limit - 1 else limit
  {
    assert limit > 0 ==> segment[limit - 1] in segment[..|segment| - 1];
  }

  function ReadNotice(s: string, text: string): Option<nat> {
    var prefix := text + " [daggle: line too long, ";
    if !(prefix <= s) then None
    else
      match ReadNumber(s[|prefix|..], ' ')
      case Some((n, rest)) => if rest == "further bytes dropped]" then Some(n) else None
      case None => None
  }

  lemma NoticeReads(text: string, dropped: nat)
    ensures ReadNotice(Notice(text, dropped), text) == Some(dropped)
  {
    var prefix := text + " [daggle: line too long, ";
    var rest := Decimal(dropped) + [' '] + "further bytes dropped]";
    assert Decimal(dropped) + " further bytes dropped]" == rest;
    assert Notice(text, dropped) == prefix + rest;
    assert (prefix + rest)[|prefix|..] == rest;
    ReadDecimal(dropped, ' ', "further bytes dropped]");
  }

  // ----- The reader -----

  /** How a read ended: at a newline, with the buffer full, or with the stream at its end or broken. */
  datatype ReadResult = Complete | BufferFull | Ended

  class Reader {
    /** What the stream delivers before its end or its first error. */
    const input: string
    var pos: nat

    ghost predicate Valid()
      reads this
    {
      pos <= |input|
    }

    constructor (input: string)
      ensures Valid() && pos == 0 && this.input == input
    {
      this.input := input;
      pos := 0;
    }

    /** Up to and including the next newline; when the buffer fills first, an arbitrary non-empty part of that. */
    method ReadSlice() returns (chunk: string, result: ReadResult)
      requires Valid()
      modifies this
      ensures old(pos) <= pos <= |input| && chunk == input[old(pos)..pos]
      ensures result.Complete? ==> chunk != "" && chunk[|chunk| - 1] == '\n' && OneLine(chunk[..|chunk| - 1])
      ensures result.BufferFull? ==> chunk != "" && OneLine(chunk)
      ensures result.Ended? ==> pos == |input| && OneLine(chunk)
    {
      var rest := input[pos..];
      var at := IndexOf(rest, '\n');
      var length: nat :| length <= at;
      var full: bool :| full ==> length > 0;
      if full {
        chunk, result := rest[..length], BufferFull;
      } else if at < |rest| {
        chunk, result := rest[..at + 1], Complete;
        assert chunk[..at] == rest[..at];
      } else {
        chunk, result := rest, Ended;
      }
      pos := pos + |chunk|;
      assert chunk == input[old(pos)..pos];
    }
  }

  // ----- The loop -----

  function TrimSuffix(s: string, c: char): string {
    if s != "" && s[|s| - 1] == c then s[..|s| - 1] else s
  }

  function AssembleLine(line: string, dropped: nat): string {
    var text := TrimSuffix(TrimSuffix(line, '\n'), '\r');
    if dropped == 0 then text else Notice(text, dropped)
  }

  function Kept(segment: string, limit: nat): string {
    segment[..Fitting(segment, limit)]
  }

  function Dropped(segment: string, limit: nat): nat {
    |segment| - Fitting(segment, limit)
  }

  lemma AssembledIsHandled(segment: string, limit: nat)
    ensures AssembleLine(Kept(segment, limit), Dropped(segment, limit)) == Handled(segment, limit)
  {
    var kept := Kept(segment, limit);
    var line := TrimSuffix(kept, '\n');
    assert line == segment[..|line|];
    assert TrimSuffix(line, '\r') == TextOf(segment, limit);
  }


  /** The lines handed over so far, and those of the segment in progress and the unread rest, are all of them. */
  ghost predicate InProgress(input: string, pos: nat, limit: nat, current: string, line: string, dropped: nat,
      handled: seq<string>)
  {
    && pos <= |input|
    && OneLine(current)
    && line == Kept(current, limit) && dropped == Dropped(current, limit)
    && HandledAll(Segments(input), limit) == handled + HandledAll(Segments(current + input[pos..]), limit)
  }

  /** What is kept of a line while the rest of it is being read: never more than the limit. */
  class LineBuffer {
    const limit: nat
    var bytes: string

    ghost predicate Valid()
      reads this
    {
      |bytes| <= limit
    }

    constructor (limit: nat)
      ensures Valid() && this.limit == limit && bytes == ""
    {
      this.limit := limit;
      bytes := "";
    }

    /** Appends what there is room for, and counts the rest. */
    method Retain(chunk: string, dropped0: nat, ghost current: string) returns (dropped: nat)
      requires Valid() && bytes == Kept(current, limit) && dropped0 == Dropped(current, limit)
      modifies this
      ensures Valid() && bytes == Kept(current + chunk, limit) && dropped == Dropped(current + chunk, limit)
    {
      dropped := dropped0;
      var room := limit - |bytes|;
      if |chunk| <= room {
        bytes := bytes + chunk;
      } else {
        bytes := bytes + chunk[..room];
        dropped := dropped + |chunk| - room;
      }
      assert (current + chunk)[..|bytes|] == bytes;
    }

    method Clear()
      modifies this
      ensures Valid() && bytes == ""
    {
      bytes := "";
    }
  }

  lemma Restart(current: string, chunk: string, rest: string, limit: nat)
    requires OneLine(current) && chunk != "" && chunk[|chunk| - 1] == '\n' && OneLine(chunk[..|chunk| - 1])
    ensures HandledAll(Segments(current + (chunk + rest)), limit) ==
      [Handled(current + chunk, limit)] + HandledAll(Segments(rest), limit)
  {
    var line := current + chunk[..|chunk| - 1];
    assert line + "\n" == current + chunk;
    assert current + (chunk + rest) == line + "\n" + rest;
    SegmentsAfterLine(line, rest);
  }

  lemma LastSegment(current: string, chunk: string, limit: nat)
    requires OneLine(current) && OneLine(chunk)
    ensures HandledAll(Segments(current + chunk), limit) ==
      if current + chunk == "" then [] else [Handled(current + chunk, limit)]
  {
    SegmentsOfTail(current + chunk);
  }

  lemma Longer(input: string, current: string, chunk: string, pos: nat, next: nat)
    requires pos <= next <= |input| && chunk == input[pos..next]
    ensures current + input[pos..] == (current + chunk) + input[next..]
    ensures current + input[pos..] == current + (chunk + input[next..])
  {
  }

  lemma PartRead(input: string, pos: nat, limit: nat, current: string, line0: string, dropped0: nat, handled: seq<string>,
      chunk: string, next: nat, line: string, dropped: nat)
    requires InProgress(input, pos, limit, current, line0, dropped0, handled)
    requires pos <= next <= |input| && chunk == input[pos..next] && OneLine(chunk)
    requires line == Kept(current + chunk, limit) && dropped == Dropped(current + chunk, limit)
    ensures InProgress(input, next, limit, current + chunk, line, dropped, handled)
  {
    Longer(input, current, chunk, pos, next);
  }

  lemma LineRead(input: string, pos: nat, limit: nat, current: string, line0: string, dropped0: nat, handled: seq<string>,
      chunk: string, next: nat)
    requires InProgress(input, pos, limit, current, line0, dropped0, handled)
    requires pos <= next <= |input| && chunk == input[pos..next]
    requires chunk != "" && chunk[|chunk| - 1] == '\n' && OneLine(chunk[..|chunk| - 1])
    ensures InProgress(input, next, limit, "", "", 0, handled + [Handled(current + chunk, limit)])
  {
    Longer(input, current, chunk, pos, next);
    Restart(current, chunk, input[next..], limit);
    assert "" + input[next..] == input[next..];
  }

  lemma RestRead(input: string, pos: nat, limit: nat, current: string, line0: string, dropped0: nat, handled: seq<string>,
      chunk: string)
    requires InProgress(input, pos, limit, current, line0, dropped0, handled)
    requires chunk == input[pos..] && OneLine(chunk)
    ensures HandledAll(Segments(input), limit) ==
      handled + if current + chunk == "" then [] else [Handled(current + chunk, limit)]
  {
    LastSegment(current, chunk, limit);
  }

  /** One handler call per segment, whatever the sizes of the reads; of the line being read no more than the limit is
      ever retained. */
  method DrainLines(r: Reader, line: LineBuffer) returns (handled: seq<string>)
    requires r.Valid() && r.pos == 0 && line.Valid() && line.bytes == ""
    modifies r, line
    ensures handled == HandledAll(Segments(r.input), line.limit)
    ensures line.Valid() && r.pos == |r.input|
  {
    var dropped := 0;
    ghost var current := "";
    handled := [];
    assert "" + r.input[0..] == r.input;
    while true
      invariant r.Valid() && line.Valid()
      invariant InProgress(r.input, r.pos, line.limit, current, line.bytes, dropped, handled)
      decreases |r.input| - r.pos
    {
      ghost var pos, line0, dropped0 := r.pos, line.bytes, dropped;
      var chunk, result := r.ReadSlice();
      dropped := line.Retain(chunk, dropped, current);
      if result.BufferFull? {
        PartRead(r.input, pos, line.limit, current, line0, dropped0, handled, chunk, r.pos, line.bytes, dropped);
        current := current + chunk;
        continue;
      }
      if result.Complete? {
        LineRead(r.input, pos, line.limit, current, line0, dropped0, handled, chunk, r.pos);
      } else {
        RestRead(r.input, pos, line.limit, current, line0, dropped0, handled, chunk);
      }
      if result.Complete? || |line.bytes| > 0 || dropped > 0 {
        AssembledIsHandled(current + chunk, line.limit);
        handled := handled + [AssembleLine(line.bytes, dropped)];
        line.Clear();
        dropped, current := 0, "";
      }
      if !result.Complete? {
        return;
      }
    }
  }
}
