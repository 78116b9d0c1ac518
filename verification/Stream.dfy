/** Following an event log over repeated polls (api/stream.go). */
module Stream {
  import opened Scan
  import opened Text

  /** What the client is sent: a line, or a note that one was too long. */
  datatype Sent = Line(text: string) | Truncated(bytes: int)

  /** How events are recognised and redacted; max is the longest line the scanner accepts. */
  datatype Settings = Settings(max: nat, redact: string -> string, terminal: string -> bool)

  /** The connection: every write is tried, and takes says which of them the client gets. */
  class Client {
    const takes: nat -> bool
    var tried: seq<Sent>

    constructor (takes: nat -> bool)
      ensures this.takes == takes && tried == []
    {
      this.takes := takes;
      tried := [];
    }

    method Write(e: Sent) returns (ok: bool)
      modifies this
      ensures tried == old(tried) + [e] && ok == takes(old(|tried|))
    {
      ok := takes(|tried|);
      tried := tried + [e];
    }
  }

  /** What the client has got of the writes tried. */
  function Received(tried: seq<Sent>, takes: nat -> bool): seq<Sent> {
    if tried == [] then []
    else
      var last := |tried| - 1;
      Received(tried[..last], takes) + if takes(last) then [tried[last]] else []
  }

  /** None of the n writes from number `from` on fails. */
  ghost predicate NoneRefused(takes: nat -> bool, from: nat, n: nat) {
    forall k :: from <= k < from + n ==> takes(k)
  }

  /** How many of n planned writes are made, when the first that fails is the last. */
  function Tries(n: nat, takes: nat -> bool, from: nat): (made: nat)
    ensures made <= n && (n > 0 ==> made > 0)
    ensures NoneRefused(takes, from, n) <==> made == 0 || (made == n && takes(from + made - 1))
  {
    if n == 0 then 0 else if !takes(from) then 1 else 1 + Tries(n - 1, takes, from + 1)
  }

  lemma {:induction false} TriesUntil(n: nat, takes: nat -> bool, from: nat, k: nat)
    requires k < n && NoneRefused(takes, from, k) && !takes(from + k)
    ensures Tries(n, takes, from) == k + 1
  {
    if k > 0 {
      assert takes(from);
      TriesUntil(n - 1, takes, from + 1, k - 1);
    }
  }

  lemma {:induction false} TriesAll(n: nat, takes: nat -> bool, from: nat, k: nat)
    requires k <= n && NoneRefused(takes, from, k)
    ensures Tries(n, takes, from) == k + Tries(n - k, takes, from + k)
  {
    if k > 0 {
      assert takes(from);
      TriesAll(n - 1, takes, from + 1, k - 1);
    }
  }

  // ----- One poll -----

  function Consumed(tokens: seq<string>): nat {
    if tokens == [] then 0 else Consumed(tokens[..|tokens| - 1]) + |tokens[|tokens| - 1]| + 1
  }

  function Lines(tokens: seq<string>, redact: string -> string): seq<Sent> {
    seq(|tokens|, k requires 0 <= k < |tokens| => Line(redact(tokens[k])))
  }

  predicate SomeTerminal(tokens: seq<string>, terminal: string -> bool) {
    exists k :: 0 <= k < |tokens| && terminal(tokens[k])
  }

  function After(log: string, offset: nat): string {
    if offset <= |log| then log[offset..] else ""
  }

  /** Just after the next newline, or the end of the log. */
  function NextLine(log: string, start: nat): (next: nat)
    ensures next >= start
  {
    var at := IndexOf(After(log, start), '\n');
    start + at + if at < |After(log, start)| then 1 else 0
  }

  /** In other words: behind the first newline from start on, or, without one, at the end of the log. */
  lemma NextLineIs(log: string, start: nat)
    ensures var next := NextLine(log, start);
      && (forall k :: start <= k < next - 1 && k < |log| ==> log[k] != '\n')
      && ((exists k :: start <= k < |log| && log[k] == '\n') ==> start < next <= |log| && log[next - 1] == '\n')
      && ((forall k :: start <= k < |log| ==> log[k] != '\n') ==> next == if start <= |log| then |log| else start)
  {
    var rest := After(log, start);
    assert forall k :: start <= k < |log| ==> log[k] == rest[k - start];
  }

  method SkipToNextLine(log: string, start: nat) returns (pos: nat)
    ensures pos == NextLine(log, start)
  {
    pos := start;
    while pos < |log|
      invariant start <= pos && (start <= |log| ==> pos <= |log|) && (start > |log| ==> pos == start)
      invariant forall k :: start <= k < pos && k < |log| ==> log[k] != '\n'
    {
      pos := pos + 1;
      if log[pos - 1] == '\n' {
        return;
      }
    }
  }

  /** The note for a line that is too long, which the scanner stopped before. */
  function Note(log: string, here: nat): Sent {
    Truncated(NextLine(log, here) - here - 1)
  }

  function WithNote(lines: seq<Sent>, long: bool, note: Sent): seq<Sent> {
    if long then lines + [note] else lines
  }

  /** All writes of a poll, if none fails. */
  function Planned(log: string, offset: nat, s: Settings): seq<Sent> {
    var tokens := Tokens(After(log, offset), s.max);
    WithNote(Lines(tokens, s.redact), TooLong(After(log, offset), s.max), Note(log, offset + Consumed(tokens)))
  }

  /** The offset after the first `made` writes of a poll: behind the lines they stand for. */
  function Behind(log: string, offset: nat, s: Settings, made: nat): nat {
    BehindWrites(log, offset, Tokens(After(log, offset), s.max), made)
  }

  function BehindWrites(log: string, offset: nat, tokens: seq<string>, made: nat): nat {
    if made <= |tokens| then offset + Consumed(tokens[..made]) else NextLine(log, offset + Consumed(tokens))
  }

  /** What a poll of an existing log writes and returns. */
  ghost predicate Polled(log: string, offset: nat, s: Settings, takes: nat -> bool, before: seq<Sent>, tried: seq<Sent>,
      newOffset: nat, done: bool)
  {
    var planned := Planned(log, offset, s);
    var made := Tries(|planned|, takes, |before|);
    && tried == before + planned[..made]
    && newOffset == Behind(log, offset, s, made)
    && (done <==>
        && !TooLong(After(log, offset), s.max)
        && SomeTerminal(Tokens(After(log, offset), s.max), s.terminal)
        && NoneRefused(takes, |before|, made))
  }

  /** What became of the writes of these tokens: all made, or the last one made has failed. */
  ghost predicate SentTokens(tokens: seq<string>, s: Settings, offset: nat, takes: nat -> bool, before: seq<Sent>,
      tried: seq<Sent>, ok: bool, consumed: nat, terminal: bool)
  {
    var made := Tries(|tokens|, takes, |before|);
    && tried == before + Lines(tokens[..made], s.redact)
    && consumed == offset + Consumed(tokens[..made])
    && (ok <==> NoneRefused(takes, |before|, |tokens|))
    && (ok ==> (terminal <==> SomeTerminal(tokens, s.terminal)))
  }

  /** A poll at the end of the log, or behind it, finds nothing. */
  lemma NothingBehindEnd(log: string, offset: nat, s: Settings, takes: nat -> bool, before: seq<Sent>, tried: seq<Sent>,
      newOffset: nat, done: bool)
    requires offset >= |log| && Polled(log, offset, s, takes, before, tried, newOffset, done)
    ensures tried == before && newOffset == offset && !done
  {
  }

  /** Every line read so far has been written, and no write has failed. */
  ghost predicate Scanning(all: seq<string>, past: seq<string>, left: seq<string>, s: Settings, offset: nat,
      takes: nat -> bool, before: seq<Sent>, tried: seq<Sent>, consumed: nat, terminal: bool)
  {
    && all == past + left
    && consumed == offset + Consumed(past)
    && (terminal <==> SomeTerminal(past, s.terminal))
    && tried == before + Lines(past, s.redact)
    && NoneRefused(takes, |before|, |past|)
  }

  lemma TerminalSoFar(past: seq<string>, token: string, s: Settings)
    ensures SomeTerminal(past + [token], s.terminal) <==> SomeTerminal(past, s.terminal) || s.terminal(token)
  {
    assert (past + [token])[|past|] == token;
    if k :| 0 <= k < |past| && s.terminal(past[k]) {
      assert (past + [token])[k] == past[k];
    }
  }

  lemma OneMore(past: seq<string>, token: string, s: Settings)
    ensures Consumed(past + [token]) == Consumed(past) + |token| + 1
    ensures Lines(past + [token], s.redact) == Lines(past, s.redact) + [Line(s.redact(token))]
  {
    assert (past + [token])[..|past|] == past;
  }

  /** The write of the next line: it is taken and the scan goes on, or it is the last of the poll. */
  lemma ScannedOne(all: seq<string>, past: seq<string>, left: seq<string>, s: Settings, offset: nat, takes: nat -> bool,
      before: seq<Sent>, tried: seq<Sent>, consumed: nat, terminal: bool, token: string, left': seq<string>)
    requires Scanning(all, past, left, s, offset, takes, before, tried, consumed, terminal) && left == [token] + left'
    ensures takes(|tried|) ==>
      Scanning(all, past + [token], left', s, offset, takes, before, tried + [Line(s.redact(token))],
        consumed + |token| + 1, terminal || s.terminal(token))
    ensures !takes(|tried|) ==>
      SentTokens(all, s, offset, takes, before, tried + [Line(s.redact(token))], false, consumed + |token| + 1,
        terminal || s.terminal(token))
  {
    OneMore(past, token, s);
    TerminalSoFar(past, token, s);
    assert all == past + [token] + left';
    if !takes(|tried|) {
      assert all[..|past| + 1] == past + [token];
      TriesUntil(|all|, takes, |before|, |past|);
    }
  }

  /** The scanner is at its end and no write has failed. */
  lemma SentAll(all: seq<string>, past: seq<string>, s: Settings, offset: nat, takes: nat -> bool, before: seq<Sent>,
      tried: seq<Sent>, consumed: nat, terminal: bool)
    requires Scanning(all, past, [], s, offset, takes, before, tried, consumed, terminal)
    ensures SentTokens(all, s, offset, takes, before, tried, true, consumed, terminal)
  {
    assert past == all == all[..|all|];
    TriesAll(|all|, takes, |before|, |all|);
  }

  method SendLines(scanner: Scanner, offset: nat, s: Settings, client: Client)
      returns (ok: bool, consumed: nat, terminal: bool)
    requires scanner.Valid() && scanner.max == s.max
    modifies client, scanner
    ensures SentTokens(old(Tokens(scanner.Rest(), s.max)), s, offset, client.takes, old(client.tried), client.tried,
        ok, consumed, terminal)
    ensures scanner.Valid() && scanner.ErrTooLong() == old(scanner.ErrTooLong())
  {
    ghost var before := client.tried;
    ghost var all := Tokens(scanner.Rest(), s.max);
    ghost var past: seq<string>, left := [], all;
    ok, consumed, terminal := true, offset, false;
    var token := scanner.Scan();
    while token.Some?
      invariant ok && scanner.Valid() && scanner.ErrTooLong() == old(scanner.ErrTooLong())
      invariant Scanning(all, past, left, s, offset, client.takes, before, client.tried, consumed, terminal)
      invariant left == if token.Some? then [token.value] + Tokens(scanner.Rest(), s.max) else []
      decreases |left|
    {
      ghost var left' := Tokens(scanner.Rest(), s.max);
      ScannedOne(all, past, left, s, offset, client.takes, before, client.tried, consumed, terminal, token.value, left');
      terminal := terminal || s.terminal(token.value);
      consumed := consumed + |token.value| + 1;
      ok := client.Write(Line(s.redact(token.value)));
      if !ok {
        return;
      }
      past, left := past + [token.value], left';
      token := scanner.Scan();
    }
    SentAll(all, past, s, offset, client.takes, before, client.tried, consumed, terminal);
  }

  /** Opens the log at the offset and sends its lines; long tells that the scanner stopped at one that is too long. */
  method ScanLines(log: string, offset: nat, s: Settings, client: Client)
      returns (ok: bool, consumed: nat, terminal: bool, long: bool)
    modifies client
    ensures SentTokens(Tokens(After(log, offset), s.max), s, offset, client.takes, old(client.tried), client.tried,
        ok, consumed, terminal)
    ensures long == TooLong(After(log, offset), s.max)
  {
    var scanner := new Scanner(After(log, offset), s.max);
    assert scanner.Rest() == After(log, offset);
    ok, consumed, terminal := SendLines(scanner, offset, s, client);
    long := scanner.ErrTooLong();
  }

  /** A poll that stops at a failed write of a line. */
  lemma PollStops(log: string, offset: nat, s: Settings, takes: nat -> bool, before: seq<Sent>, tried: seq<Sent>,
      consumed: nat, terminal: bool)
    requires SentTokens(Tokens(After(log, offset), s.max), s, offset, takes, before, tried, false, consumed, terminal)
    ensures Polled(log, offset, s, takes, before, tried, consumed, false)
  {
    var tokens, planned := Tokens(After(log, offset), s.max), Planned(log, offset, s);
    var made := Tries(|tokens|, takes, |before|);
    TriesMore(|tokens|, |planned|, takes, |before|);
    assert planned[..made] == Lines(tokens[..made], s.redact);
  }

  lemma {:induction false} TriesMore(n: nat, m: nat, takes: nat -> bool, from: nat)
    requires n <= m && !NoneRefused(takes, from, n)
    ensures Tries(m, takes, from) == Tries(n, takes, from)
    ensures !NoneRefused(takes, from, Tries(n, takes, from))
  {
    if takes(from) {
      TriesMore(n - 1, m - 1, takes, from + 1);
    }
  }

  lemma PollEnds(log: string, offset: nat, s: Settings, takes: nat -> bool, before: seq<Sent>, tried: seq<Sent>,
      consumed: nat, terminal: bool)
    requires SentTokens(Tokens(After(log, offset), s.max), s, offset, takes, before, tried, true, consumed, terminal)
    requires !TooLong(After(log, offset), s.max)
    ensures Polled(log, offset, s, takes, before, tried, consumed, terminal)
  {
    var tokens := Tokens(After(log, offset), s.max);
    TriesAll(|tokens|, takes, |before|, |tokens|);
    assert tokens[..|tokens|] == tokens;
    assert Lines(tokens, s.redact)[..|tokens|] == Lines(tokens, s.redact);
  }

  lemma PollSkips(log: string, offset: nat, s: Settings, takes: nat -> bool, before: seq<Sent>, tried: seq<Sent>,
      consumed: nat, terminal: bool)
    requires SentTokens(Tokens(After(log, offset), s.max), s, offset, takes, before, tried, true, consumed, terminal)
    requires TooLong(After(log, offset), s.max)
    ensures Polled(log, offset, s, takes, before, tried + [Note(log, consumed)], NextLine(log, consumed), false)
  {
    var tokens, planned := Tokens(After(log, offset), s.max), Planned(log, offset, s);
    AllSentOf(tokens, s, offset, takes, before, tried, consumed, terminal);
    PlannedNote(log, offset, s, tokens, consumed);
    BehindNote(log, offset, s, tokens, consumed, |planned|);
    NoteIsLast(Lines(tokens, s.redact), planned, Note(log, consumed), takes, before, tried);
    PolledWhole(log, offset, s, takes, before, tried + [Note(log, consumed)]);
  }

  lemma PlannedNote(log: string, offset: nat, s: Settings, tokens: seq<string>, here: nat)
    requires tokens == Tokens(After(log, offset), s.max) && TooLong(After(log, offset), s.max)
    requires here == offset + Consumed(tokens)
    ensures Planned(log, offset, s) == Lines(tokens, s.redact) + [Note(log, here)]
  {
    var planned := WithNote(Lines(tokens, s.redact), true, Note(log, here));
    assert Planned(log, offset, s) == planned;
  }

  lemma BehindNote(log: string, offset: nat, s: Settings, tokens: seq<string>, here: nat, made: nat)
    requires tokens == Tokens(After(log, offset), s.max) && made == |tokens| + 1
    requires here == offset + Consumed(tokens)
    ensures Behind(log, offset, s, made) == NextLine(log, here)
  {
    assert Behind(log, offset, s, made) == BehindWrites(log, offset, tokens, made);
  }

  lemma PolledWhole(log: string, offset: nat, s: Settings, takes: nat -> bool, before: seq<Sent>, tried: seq<Sent>)
    requires TooLong(After(log, offset), s.max)
    requires var planned := Planned(log, offset, s);
      Tries(|planned|, takes, |before|) == |planned| && tried == before + planned[..|planned|]
    ensures Polled(log, offset, s, takes, before, tried, Behind(log, offset, s, |Planned(log, offset, s)|), false)
  {
  }

  lemma AllSentOf(tokens: seq<string>, s: Settings, offset: nat, takes: nat -> bool, before: seq<Sent>, tried: seq<Sent>,
      consumed: nat, terminal: bool)
    requires SentTokens(tokens, s, offset, takes, before, tried, true, consumed, terminal)
    ensures tried == before + Lines(tokens, s.redact) && consumed == offset + Consumed(tokens)
    ensures NoneRefused(takes, |before|, |tokens|)
  {
    TriesAll(|tokens|, takes, |before|, |tokens|);
    assert tokens[..|tokens|] == tokens;
  }

  lemma NoteIsLast(lines: seq<Sent>, planned: seq<Sent>, note: Sent, takes: nat -> bool, before: seq<Sent>,
      tried: seq<Sent>)
    requires planned == lines + [note] && tried == before + lines && NoneRefused(takes, |before|, |lines|)
    ensures Tries(|planned|, takes, |before|) == |planned| && tried + [note] == before + planned[..|planned|]
  {
    TriesAll(|planned|, takes, |before|, |lines|);
  }

  /** Steps behind a line that is too long and tells the client. */
  method SkipLongLine(log: string, consumed: nat, client: Client) returns (next: nat)
    modifies client
    ensures next == NextLine(log, consumed) && client.tried == old(client.tried) + [Note(log, consumed)]
  {
    next := SkipToNextLine(log, consumed);
    var _ := client.Write(Truncated(next - consumed - 1));
  }

  method PollLog(log: string, offset: nat, s: Settings, client: Client) returns (newOffset: nat, done: bool)
    modifies client
    ensures Polled(log, offset, s, client.takes, old(client.tried), client.tried, newOffset, done)
  {
    ghost var before := client.tried;
    var ok, consumed, terminal, long := ScanLines(log, offset, s, client);
    if !ok {
      PollStops(log, offset, s, client.takes, before, client.tried, consumed, terminal);
      return consumed, false;
    }
    if long {
      PollSkips(log, offset, s, client.takes, before, client.tried, consumed, terminal);
      newOffset := SkipLongLine(log, consumed, client);
      return newOffset, false;
    }
    PollEnds(log, offset, s, client.takes, before, client.tried, consumed, terminal);
    return consumed, terminal;
  }

  method StreamNewLines(log: Option<string>, offset: nat, s: Settings, client: Client)
      returns (newOffset: nat, done: bool)
    modifies client
    ensures log.None? ==> newOffset == offset && !done && client.tried == old(client.tried)
    ensures log.Some? ==>
      Polled(log.value, offset, s, client.takes, old(client.tried), client.tried, newOffset, done)
  {
    if log.None? {
      return offset, false;
    }
    newOffset, done := PollLog(log.value, offset, s, client);
  }

  // ----- Logs of whole lines -----

  lemma {:induction false} ConsumedIsLength(lines: seq<string>)
    ensures Consumed(lines) == |Unlines(lines)|
  {
    if lines != [] {
      var init, last := lines[..|lines| - 1], lines[|lines| - 1];
      ConsumedIsLength(init);
      UnlinesAppend(init, [last]);
      assert init + [last] == lines;
      assert Unlines([last]) == last + "\n";
    }
  }

  lemma AfterPassed(passed: seq<string>, tail: seq<string>)
    ensures Unlines(passed + tail) == Unlines(passed) + Unlines(tail)
    ensures After(Unlines(passed + tail), |Unlines(passed)|) == Unlines(tail)
  {
    UnlinesAppend(passed, tail);
  }

  lemma NextLineAfter(log: string, a: string, tail: string, b: string, line: string, rest: string, here: nat)
    requires OneLine(line) && log == a + tail && tail == b + (line + "\n" + rest) && here == |a| + |b|
    ensures NextLine(log, here) == here + |line| + 1
  {
    assert log[here..] == line + ("\n" + rest);
    FirstOccurrence(line, '\n', "\n" + rest);
  }

  /** The tail starts with lines that fit, and then one that does not. */
  ghost predicate MeetsLong(tail: seq<string>, fits: seq<string>, long: string, rest: seq<string>, max: nat) {
    && tail == fits + [long] + rest
    && WholeLines(fits) && AllFit(fits, max)
    && OneLine(long) && DropCr(long) == long && !Fits(long, max)
  }

  lemma TokensBeforeLong(tail: seq<string>, fits: seq<string>, long: string, rest: seq<string>, max: nat)
    requires MeetsLong(tail, fits, long, rest, max)
    ensures Tokens(Unlines(tail), max) == fits && TooLong(Unlines(tail), max)
    ensures Unlines(tail) == Unlines(fits) + (long + "\n" + Unlines(rest))
  {
    UnlinesAppend(fits, [long] + rest);
    assert ([long] + rest)[1..] == rest;
    assert tail == fits + ([long] + rest);
    FirstLine(long, Unlines(rest), max);
    TokensOfFitting(fits, long + "\n" + Unlines(rest), max);
  }

  lemma TailWithLong(passed: seq<string>, tail: seq<string>, fits: seq<string>, long: string, rest: seq<string>, max: nat,
      offset: nat, here: nat)
    requires MeetsLong(tail, fits, long, rest, max)
    requires offset == |Unlines(passed)| && here == offset + Consumed(fits)
    ensures Tokens(After(Unlines(passed + tail), offset), max) == fits
    ensures TooLong(After(Unlines(passed + tail), offset), max)
    ensures NextLine(Unlines(passed + tail), here) == here + |long| + 1
  {
    AfterPassed(passed, tail);
    ConsumedIsLength(fits);
    TokensBeforeLong(tail, fits, long, rest, max);
    NextLineAfter(Unlines(passed + tail), Unlines(passed), Unlines(tail), Unlines(fits), long, Unlines(rest), here);
  }

  lemma TailThatFits(passed: seq<string>, fits: seq<string>, max: nat, offset: nat)
    requires WholeLines(fits) && AllFit(fits, max) && offset == |Unlines(passed)|
    ensures Tokens(After(Unlines(passed + fits), offset), max) == fits
    ensures !TooLong(After(Unlines(passed + fits), offset), max)
  {
    AfterPassed(passed, fits);
    TokensOfFitting(fits, "", max);
    assert Unlines(fits) + "" == Unlines(fits) && fits + [] == fits;
  }

  // ----- What a poll writes of a log of whole lines -----

  function SentFor(line: string, s: Settings): Sent {
    if Fits(line, s.max) then Line(s.redact(line)) else Truncated(|line|)
  }

  function Delivered(lines: seq<string>, s: Settings): seq<Sent> {
    seq(|lines|, k requires 0 <= k < |lines| => SentFor(lines[k], s))
  }

  /** How many lines come before the first one that is too long. */
  function Reach(lines: seq<string>, max: nat): (n: nat)
    ensures n <= |lines| && AllFit(lines[..n], max)
    ensures n < |lines| ==> !Fits(lines[n], max)
  {
    if lines == [] || !Fits(lines[0], max) then 0
    else
      assert lines[..1 + Reach(lines[1..], max)] == [lines[0]] + lines[1..][..Reach(lines[1..], max)];
      1 + Reach(lines[1..], max)
  }

  /** Lines a poll sets out to write: all that are left, or those up to and including the next long one. */
  function Passes(tail: seq<string>, max: nat): (n: nat)
    ensures n <= |tail|
    ensures tail != [] ==> n > 0
  {
    var n := Reach(tail, max);
    if n < |tail| then n + 1 else n
  }

  lemma SplitAtLong(tail: seq<string>, n: nat, max: nat)
    requires WholeLines(tail) && n < |tail| && n == Reach(tail, max)
    ensures MeetsLong(tail, tail[..n], tail[n], tail[n + 1..], max)
    ensures tail[..n] + [tail[n]] == tail[..n + 1]
  {
  }

  lemma PlanThatFits(log: string, offset: nat, s: Settings, fits: seq<string>)
    requires Tokens(After(log, offset), s.max) == fits && !TooLong(After(log, offset), s.max) && AllFit(fits, s.max)
    ensures Planned(log, offset, s) == Delivered(fits, s)
  {
  }

  lemma PlanWithLong(log: string, offset: nat, s: Settings, fits: seq<string>, long: string, here: nat)
    requires Tokens(After(log, offset), s.max) == fits && TooLong(After(log, offset), s.max) && AllFit(fits, s.max)
    requires here == offset + Consumed(fits) && NextLine(log, here) == here + |long| + 1 && !Fits(long, s.max)
    ensures Planned(log, offset, s) == Delivered(fits + [long], s)
  {
    PlannedNote(log, offset, s, fits, here);
    LinesAndNote(fits, long, s);
  }

  lemma LinesAndNote(fits: seq<string>, long: string, s: Settings)
    requires AllFit(fits, s.max) && !Fits(long, s.max)
    ensures Lines(fits, s.redact) + [Truncated(|long|)] == Delivered(fits + [long], s)
  {
  }

  /** The writes a poll plans are the entries of the lines it sets out to pass, one each. */
  lemma PlannedIsDelivered(passed: seq<string>, tail: seq<string>, s: Settings, offset: nat)
    requires WholeLines(tail) && offset == |Unlines(passed)|
    ensures Planned(Unlines(passed + tail), offset, s) == Delivered(tail[..Passes(tail, s.max)], s)
    ensures TooLong(After(Unlines(passed + tail), offset), s.max) <==> !AllFit(tail, s.max)
    ensures AllFit(tail, s.max) ==> Tokens(After(Unlines(passed + tail), offset), s.max) == tail
  {
    var n := Reach(tail, s.max);
    if n < |tail| {
      PlannedUpToLong(passed, tail, tail[..n], tail[n], tail[n + 1..], s, offset, n);
    } else {
      assert tail[..n] == tail;
      TailThatFits(passed, tail, s.max, offset);
      PlanThatFits(Unlines(passed + tail), offset, s, tail);
    }
  }

  lemma PlannedUpToLong(passed: seq<string>, tail: seq<string>, fits: seq<string>, long: string, rest: seq<string>,
      s: Settings, offset: nat, n: nat)
    requires WholeLines(tail) && offset == |Unlines(passed)| && n == Reach(tail, s.max) < |tail|
    requires fits == tail[..n] && long == tail[n] && rest == tail[n + 1..]
    ensures Planned(Unlines(passed + tail), offset, s) == Delivered(tail[..n + 1], s)
    ensures TooLong(After(Unlines(passed + tail), offset), s.max)
  {
    var here := offset + Consumed(fits);
    SplitAtLong(tail, n, s.max);
    TailWithLong(passed, tail, fits, long, rest, s.max, offset, here);
    PlanWithLong(Unlines(passed + tail), offset, s, fits, long, here);
  }

  lemma BehindFits(passed: seq<string>, fits: seq<string>, made: nat, here: nat)
    requires made <= |fits| && here == |Unlines(passed)| + Consumed(fits[..made])
    ensures here == |Unlines(passed + fits[..made])|
  {
    ConsumedIsLength(fits[..made]);
    AfterPassed(passed, fits[..made]);
  }

  lemma BehindLong(passed: seq<string>, fits: seq<string>, long: string, here: nat)
    requires here == |Unlines(passed)| + Consumed(fits)
    ensures here + |long| + 1 == |Unlines(passed + (fits + [long]))|
  {
    ConsumedIsLength(fits);
    AfterPassed(passed, fits + [long]);
    UnlinesAppend(fits, [long]);
    assert Unlines([long]) == long + "\n";
  }

  /** Whatever the number of writes made, the offset is right behind the lines they stand for. */
  lemma BehindIsBoundary(passed: seq<string>, tail: seq<string>, s: Settings, offset: nat, made: nat)
    requires WholeLines(tail) && offset == |Unlines(passed)| && made <= Passes(tail, s.max)
    ensures Behind(Unlines(passed + tail), offset, s, made) == |Unlines(passed + tail[..made])|
  {
    var n := Reach(tail, s.max);
    if n < |tail| {
      SplitAtLong(tail, n, s.max);
      BehindUpToLong(passed, tail, tail[..n], tail[n], tail[n + 1..], s, offset, offset + Consumed(tail[..n]), made);
    } else {
      assert tail[..n] == tail;
      TailThatFits(passed, tail, s.max, offset);
      BehindFits(passed, tail, made, offset + Consumed(tail[..made]));
    }
  }

  lemma BehindOf(log: string, offset: nat, s: Settings, tokens: seq<string>, made: nat, here: nat)
    requires tokens == Tokens(After(log, offset), s.max)
    requires here == offset + Consumed(if made <= |tokens| then tokens[..made] else tokens)
    ensures Behind(log, offset, s, made) == if made <= |tokens| then here else NextLine(log, here)
  {
  }

  lemma BehindUpToLong(passed: seq<string>, tail: seq<string>, fits: seq<string>, long: string, rest: seq<string>,
      s: Settings, offset: nat, here: nat, made: nat)
    requires MeetsLong(tail, fits, long, rest, s.max) && offset == |Unlines(passed)| && here == offset + Consumed(fits)
    requires made <= |fits| + 1
    ensures Behind(Unlines(passed + tail), offset, s, made) == |Unlines(passed + tail[..made])|
  {
    TailWithLong(passed, tail, fits, long, rest, s.max, offset, here);
    TakeOfLong(tail, fits, long, rest, made);
    if made <= |fits| {
      BehindOf(Unlines(passed + tail), offset, s, fits, made, offset + Consumed(fits[..made]));
      BehindFits(passed, fits, made, offset + Consumed(fits[..made]));
    } else {
      BehindOf(Unlines(passed + tail), offset, s, fits, made, here);
      BehindLong(passed, fits, long, here);
    }
  }

  lemma TakeOfLong(tail: seq<string>, fits: seq<string>, long: string, rest: seq<string>, made: nat)
    requires tail == fits + [long] + rest && made <= |fits| + 1
    ensures tail[..made] == if made <= |fits| then fits[..made] else fits + [long]
  {
  }

  // ----- Sessions -----

  /** The first |tried| lines have been tried, each once and in order, and the offset is right behind them. */
  ghost predicate InSync(lines: seq<string>, s: Settings, offset: nat, tried: seq<Sent>) {
    && |tried| <= |lines|
    && tried == Delivered(lines[..|tried|], s)
    && offset == |Unlines(lines[..|tried|])|
  }

  lemma DeliveredAppend(a: seq<string>, b: seq<string>, s: Settings)
    ensures Delivered(a + b, s) == Delivered(a, s) + Delivered(b, s)
  {
  }

  lemma DeliveredTake(lines: seq<string>, n: nat, m: nat, s: Settings)
    requires n <= m <= |lines|
    ensures Delivered(lines[..m], s)[..n] == Delivered(lines[..n], s)
  {
  }

  lemma StillInSync(passed: seq<string>, tail: seq<string>, s: Settings, made: nat, offset: nat, tried: seq<Sent>)
    requires made <= |tail| && offset == |Unlines(passed + tail[..made])|
    requires tried == Delivered(passed, s) + Delivered(tail[..made], s)
    ensures InSync(passed + tail, s, offset, tried)
  {
    assert (passed + tail)[..|passed| + made] == passed + tail[..made];
    DeliveredAppend(passed, tail[..made], s);
  }

  /** These lines, the next ones, are all read and written, and one of them is terminal. */
  ghost predicate EndSeen(tail: seq<string>, s: Settings, takes: nat -> bool, from: nat) {
    AllFit(tail, s.max) && SomeTerminal(tail, s.terminal) && NoneRefused(takes, from, |tail|)
  }

  /** A poll in sync tries the next lines up to a failed write or a long line, each once and in order, and stays in
      sync. */
  lemma PollKeepsSync(lines: seq<string>, s: Settings, takes: nat -> bool, offset: nat, before: seq<Sent>,
      tried: seq<Sent>, newOffset: nat, done: bool)
    requires WholeLines(lines) && InSync(lines, s, offset, before)
    requires Polled(Unlines(lines), offset, s, takes, before, tried, newOffset, done)
    ensures InSync(lines, s, newOffset, tried)
    ensures |tried| == |before| + Tries(Passes(lines[|before|..], s.max), takes, |before|)
  {
    var passed, tail := lines[..|before|], lines[|before|..];
    var made := Tries(Passes(tail, s.max), takes, |before|);
    SplitAt(lines, |before|);
    PollOfTail(passed, tail, s, takes, offset, before, tried, newOffset, done, made);
    StillInSync(passed, tail, s, made, newOffset, tried);
  }

  lemma SplitAt(lines: seq<string>, n: nat)
    requires n <= |lines|
    ensures lines[..n] + lines[n..] == lines
    ensures WholeLines(lines) ==> WholeLines(lines[n..])
  {
  }

  lemma PollOfTail(passed: seq<string>, tail: seq<string>, s: Settings, takes: nat -> bool, offset: nat,
      before: seq<Sent>, tried: seq<Sent>, newOffset: nat, done: bool, made: nat)
    requires WholeLines(tail) && offset == |Unlines(passed)|
    requires Polled(Unlines(passed + tail), offset, s, takes, before, tried, newOffset, done)
    requires made == Tries(Passes(tail, s.max), takes, |before|)
    ensures tried == before + Delivered(tail[..made], s) && newOffset == |Unlines(passed + tail[..made])|
  {
    PlannedIsDelivered(passed, tail, s, offset);
    BehindIsBoundary(passed, tail, s, offset, made);
    DeliveredTake(tail, made, Passes(tail, s.max), s);
  }

  /** It reports the end exactly when it has read everything, nothing failed, and one of the lines was terminal. */
  lemma PollReportsEnd(lines: seq<string>, s: Settings, takes: nat -> bool, offset: nat, before: seq<Sent>,
      tried: seq<Sent>, newOffset: nat, done: bool)
    requires WholeLines(lines) && InSync(lines, s, offset, before)
    requires Polled(Unlines(lines), offset, s, takes, before, tried, newOffset, done)
    ensures done <==> EndSeen(lines[|before|..], s, takes, |before|)
  {
    var passed, tail := lines[..|before|], lines[|before|..];
    assert passed + tail == lines;
    PlannedIsDelivered(passed, tail, s, offset);
    if AllFit(tail, s.max) {
      NoneRefusedIff(takes, |before|, Passes(tail, s.max));
    }
  }

  lemma NoneRefusedIff(takes: nat -> bool, from: nat, n: nat)
    ensures NoneRefused(takes, from, Tries(n, takes, from)) <==> NoneRefused(takes, from, n)
  {
    if NoneRefused(takes, from, n) {
      TriesAll(n, takes, from, n);
    } else {
      TriesMore(n, n, takes, from);
    }
  }

  /** So a terminal event that ends the log is reported by the poll that gets past it, unless it is itself too long. */
  lemma EndIsReported(lines: seq<string>, s: Settings, takes: nat -> bool, from: nat, tail: seq<string>)
    requires from < |lines| && tail == lines[from..] && Tries(Passes(tail, s.max), takes, from) == |tail|
    requires takes(|lines| - 1) && s.terminal(lines[|lines| - 1]) && Fits(lines[|lines| - 1], s.max)
    ensures EndSeen(tail, s, takes, from)
  {
    LastOfTail(lines, from, tail);
    EndIsSeen(tail, lines[|lines| - 1], s, takes, from, |lines| - 1);
  }

  lemma LastOfTail(lines: seq<string>, n: nat, tail: seq<string>)
    requires n < |lines| && tail == lines[n..]
    ensures tail != [] && tail[|tail| - 1] == lines[|lines| - 1]
  {
  }

  lemma EndIsSeen(tail: seq<string>, end: string, s: Settings, takes: nat -> bool, from: nat, last: nat)
    requires tail != [] && Tries(Passes(tail, s.max), takes, from) == |tail| && last == from + |tail| - 1 && takes(last)
    requires tail[|tail| - 1] == end && s.terminal(end) && Fits(end, s.max)
    ensures EndSeen(tail, s, takes, from)
  {
    ReachesEnd(tail, s.max);
    AllTaken(|tail|, takes, from, last);
  }

  lemma AllTaken(n: nat, takes: nat -> bool, from: nat, last: nat)
    requires n > 0 && Tries(n, takes, from) == n && last == from + n - 1 && takes(last)
    ensures NoneRefused(takes, from, n)
  {
  }

  lemma ReachesEnd(tail: seq<string>, max: nat)
    requires tail != [] && Passes(tail, max) == |tail| && Fits(tail[|tail| - 1], max)
    ensures AllFit(tail, max)
  {
    assert tail[..|tail|] == tail;
  }

  datatype Action = Append(lines: seq<string>) | Poll

  function Appended(actions: seq<Action>): seq<string> {
    if actions == [] then []
    else
      var last := actions[|actions| - 1];
      Appended(actions[..|actions| - 1]) + if last.Append? then last.lines else []
  }

  lemma {:induction false} AppendedSoFar(actions: seq<Action>, i: nat)
    requires i <= |actions| && WholeLines(Appended(actions))
    ensures WholeLines(Appended(actions[..i]))
    decreases |actions|
  {
    if i < |actions| {
      var init := actions[..|actions| - 1];
      assert forall j :: 0 <= j < |Appended(init)| ==> Appended(actions)[j] == Appended(init)[j];
      AppendedSoFar(init, i);
      assert init[..i] == actions[..i];
    } else {
      assert actions[..i] == actions;
    }
  }

  /** How many lines have been passed after these actions, for a client that takes these writes. */
  function PassedAfter(actions: seq<Action>, max: nat, takes: nat -> bool): (n: nat)
    ensures n <= |Appended(actions)|
  {
    if actions == [] then 0
    else
      var init := actions[..|actions| - 1];
      var n := PassedAfter(init, max, takes);
      if actions[|actions| - 1].Append? then n else n + Tries(Passes(Appended(init)[n..], max), takes, n)
  }

  lemma AppendStep(actions: seq<Action>, more: seq<string>, max: nat, takes: nat -> bool)
    ensures Appended(actions + [Append(more)]) == Appended(actions) + more
    ensures PassedAfter(actions + [Append(more)], max, takes) == PassedAfter(actions, max, takes)
  {
    assert (actions + [Append(more)])[..|actions|] == actions;
  }

  lemma PollStep(actions: seq<Action>, max: nat, takes: nat -> bool)
    ensures Appended(actions + [Poll]) == Appended(actions)
    ensures var n := PassedAfter(actions, max, takes);
      PassedAfter(actions + [Poll], max, takes) == n + Tries(Passes(Appended(actions)[n..], max), takes, n)
  {
    assert (actions + [Poll])[..|actions|] == actions;
  }

  /** The session has gone through these actions. */
  ghost predicate Followed(actions: seq<Action>, s: Settings, takes: nat -> bool, log: string, offset: nat,
      tried: seq<Sent>)
  {
    && log == Unlines(Appended(actions))
    && InSync(Appended(actions), s, offset, tried)
    && |tried| == PassedAfter(actions, s.max, takes)
  }

  lemma FollowedAppend(actions: seq<Action>, more: seq<string>, s: Settings, takes: nat -> bool, log: string,
      offset: nat, tried: seq<Sent>)
    requires Followed(actions, s, takes, log, offset, tried)
    ensures Followed(actions + [Append(more)], s, takes, log + Unlines(more), offset, tried)
  {
    AppendStep(actions, more, s.max, takes);
    UnlinesAppend(Appended(actions), more);
    assert (Appended(actions) + more)[..|tried|] == Appended(actions)[..|tried|];
  }

  lemma FollowedPoll(actions: seq<Action>, s: Settings, takes: nat -> bool, log: string, offset: nat, before: seq<Sent>,
      tried: seq<Sent>, newOffset: nat, done: bool)
    requires WholeLines(Appended(actions)) && Followed(actions, s, takes, log, offset, before)
    requires Polled(log, offset, s, takes, before, tried, newOffset, done)
    ensures Followed(actions + [Poll], s, takes, log, newOffset, tried)
  {
    PollStep(actions, s.max, takes);
    PollKeepsSync(Appended(actions), s, takes, offset, before, tried, newOffset, done);
  }

  /** Over any interleaving of appends and polls, and whichever writes fail: no line is tried twice or out of order,
      the offset is a line boundary, and the polls get as far as PassedAfter says. */
  method Follow(actions: seq<Action>, s: Settings, client: Client) returns (offset: nat)
    requires client.tried == [] && WholeLines(Appended(actions))
    modifies client
    ensures InSync(Appended(actions), s, offset, client.tried)
    ensures |client.tried| == PassedAfter(actions, s.max, client.takes)
  {
    var log := "";
    offset := 0;
    for i := 0 to |actions|
      invariant Followed(actions[..i], s, client.takes, log, offset, client.tried)
    {
      assert actions[..i + 1] == actions[..i] + [actions[i]];
      match actions[i]
      case Append(more) =>
        FollowedAppend(actions[..i], more, s, client.takes, log, offset, client.tried);
        log := log + Unlines(more);
      case Poll =>
        AppendedSoFar(actions, i);
        ghost var before, was := client.tried, offset;
        var done;
        offset, done := StreamNewLines(Some(log), offset, s, client);
        FollowedPoll(actions[..i], s, client.takes, log, was, before, client.tried, offset, done);
    }
    assert actions[..|actions|] == actions;
  }

  // ----- Everything arrives -----

  function Polls(k: nat): seq<Action> {
    if k == 0 then [] else Polls(k - 1) + [Poll]
  }

  function LongLines(lines: seq<string>, max: nat): nat {
    if lines == [] then 0 else LongLines(lines[1..], max) + if Fits(lines[0], max) then 0 else 1
  }

  /** How many of these lines k further polls have passed, from n on. */
  function PassedBy(lines: seq<string>, n: nat, k: nat, max: nat, takes: nat -> bool): (m: nat)
    requires n <= |lines|
    ensures n <= m <= |lines| && (m == |lines| || m >= n + k)
    decreases k
  {
    if k == 0 then n else PassedBy(lines, n + Tries(Passes(lines[n..], max), takes, n), k - 1, max, takes)
  }

  lemma PassedByFirst(lines: seq<string>, n: nat, m: nat, k: nat, max: nat, takes: nat -> bool)
    requires n <= |lines| && k > 0 && m == n + Tries(Passes(lines[n..], max), takes, n)
    ensures PassedBy(lines, n, k, max, takes) == PassedBy(lines, m, k - 1, max, takes)
  {
  }

  /** Without further appends the session goes on as PassedBy says: a poll passes one line at least, so with as many
      polls as lines are left, all are passed, even if writes fail. */
  lemma {:induction false} FurtherPolls(actions: seq<Action>, k: nat, all: seq<Action>, max: nat, takes: nat -> bool)
    requires all == actions + Polls(k)
    ensures Appended(all) == Appended(actions)
    ensures PassedAfter(all, max, takes) == PassedBy(Appended(actions), PassedAfter(actions, max, takes), k, max, takes)
    decreases k
  {
    if k == 0 {
      assert all == actions;
    } else {
      var next := actions + [Poll];
      PollStep(actions, max, takes);
      PollsFirst(actions, k);
      FurtherPolls(next, k - 1, all, max, takes);
      PassedByFirst(Appended(actions), PassedAfter(actions, max, takes), PassedAfter(next, max, takes), k, max, takes);
    }
  }

  lemma {:induction false} LongLinesAppend(a: seq<string>, b: seq<string>, max: nat)
    ensures LongLines(a + b, max) == LongLines(a, max) + LongLines(b, max)
  {
    if a == [] {
      assert a + b == b;
    } else {
      assert (a + b)[1..] == a[1..] + b;
      LongLinesAppend(a[1..], b, max);
    }
  }

  /** A poll passes what is left, or else a long line. */
  lemma PassesLong(tail: seq<string>, max: nat)
    ensures Passes(tail, max) == |tail| || LongLines(tail[Passes(tail, max)..], max) < LongLines(tail, max)
  {
    var n := Passes(tail, max);
    if n < |tail| {
      assert tail == tail[..n - 1] + ([tail[n - 1]] + tail[n..]);
      LongLinesAppend(tail[..n - 1], [tail[n - 1]] + tail[n..], max);
      LongLinesAppend([tail[n - 1]], tail[n..], max);
    }
  }

  /** A poll without a failed write leaves nothing, or fewer long lines. */
  lemma OnePoll(lines: seq<string>, n: nat, max: nat, takes: nat -> bool, tail: seq<string>, next: nat)
    requires n <= |lines| && tail == lines[n..] && NoneRefused(takes, n, |tail|)
    requires next == n + Tries(Passes(tail, max), takes, n)
    ensures next <= |lines|
    ensures next == |lines| || LongLines(lines[next..], max) < LongLines(tail, max)
    ensures NoneRefused(takes, next, |lines[next..]|)
  {
    var m := Passes(tail, max);
    TriesAll(m, takes, n, m);
    PassesLong(tail, max);
    assert tail[m..] == lines[next..];
  }

  /** If no write fails, one poll per unread long line and one more pass everything. */
  lemma {:induction false} EverythingArrives(lines: seq<string>, n: nat, k: nat, max: nat, takes: nat -> bool,
      tail: seq<string>)
    requires n <= |lines| && tail == lines[n..] && NoneRefused(takes, n, |tail|) && k > LongLines(tail, max)
    ensures PassedBy(lines, n, k, max, takes) == |lines|
    decreases k
  {
    var next := n + Tries(Passes(tail, max), takes, n);
    PassedByFirst(lines, n, next, k, max, takes);
    OnePoll(lines, n, max, takes, tail, next);
    if next < |lines| {
      EverythingArrives(lines, next, k - 1, max, takes, lines[next..]);
    }
  }

  lemma Regroup(a: seq<Action>, b: seq<Action>, c: seq<Action>)
    ensures a + (b + c) == a + b + c
  {
  }

  lemma {:induction false} PollsFirst(actions: seq<Action>, k: nat)
    requires k > 0
    ensures actions + Polls(k) == actions + [Poll] + Polls(k - 1)
  {
    Regroup(actions, Polls(k - 1), [Poll]);
    if k > 1 {
      PollsFirst(actions, k - 1);
      Regroup(actions + [Poll], Polls(k - 2), [Poll]);
    } else {
      assert actions + [] + [Poll] == actions + [Poll] + [];
    }
  }

  /** A client that takes every write has got exactly what was tried; so with the above, every line once, in order. */
  lemma {:induction false} TakenIsReceived(tried: seq<Sent>, takes: nat -> bool)
    requires NoneRefused(takes, 0, |tried|)
    ensures Received(tried, takes) == tried
  {
    if tried != [] {
      var last := |tried| - 1;
      TakenIsReceived(tried[..last], takes);
      assert takes(last) && tried == tried[..last] + [tried[last]];
    }
  }

  /** Exactly once: when the log has stopped growing and one poll more than there are unread long lines has gone by
      without a failed write, the client has got every line of the log once, in order. */
  lemma ExactlyOnce(actions: seq<Action>, k: nat, all: seq<Action>, s: Settings, takes: nat -> bool, offset: nat,
      tried: seq<Sent>)
    requires all == actions + Polls(k) && forall n :: takes(n)
    requires k > LongLines(Appended(actions)[PassedAfter(actions, s.max, takes)..], s.max)
    requires InSync(Appended(all), s, offset, tried) && |tried| == PassedAfter(all, s.max, takes)
    ensures Received(tried, takes) == Delivered(Appended(actions), s) && offset == |Unlines(Appended(actions))|
  {
    var lines, n := Appended(actions), PassedAfter(actions, s.max, takes);
    FurtherPolls(actions, k, all, s.max, takes);
    EverythingArrives(lines, n, k, s.max, takes, lines[n..]);
    assert lines[..|lines|] == lines;
    TakenIsReceived(tried, takes);
  }
}
