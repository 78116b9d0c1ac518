/** The archive manifest: written by Create, read back and checked by Verify (internal/archive). */
module Manifest {
  import opened Scan
  import opened SortedKeys
  import opened Text
  import Sorting
  import TopoSort

  const MANIFEST_NAME := ".manifest.sha256"

  datatype FileHash = FileHash(rel: string, sum: string)

  // ----- Writing -----

  function ManifestLine(h: FileHash): string {
    h.sum + "  " + h.rel
  }

  function ManifestLines(hashes: seq<FileHash>): seq<string> {
    seq(|hashes|, k requires 0 <= k < |hashes| => ManifestLine(hashes[k]))
  }

  method BuildManifest(hashes: seq<FileHash>) returns (text: string)
    ensures text == Unlines(ManifestLines(hashes))
  {
    text := "";
    for k := 0 to |hashes|
      invariant text == Unlines(ManifestLines(hashes)[..k])
    {
      var line := hashes[k].sum + "  " + hashes[k].rel;
      UnlinesAppend(ManifestLines(hashes)[..k], [line]);
      assert ManifestLines(hashes)[..k + 1] == ManifestLines(hashes)[..k] + [line];
      assert Unlines([line]) == line + "\n";
      text := text + line + "\n";
    }
    assert ManifestLines(hashes)[..|hashes|] == ManifestLines(hashes);
  }

  // ----- Reading -----

  datatype Parse = Parsed(sums: map<string, string>) | MalformedLine(line: string) | BadHash(sum: string) | LineTooLong

  function StripCrLf(s: string): (r: string)
    ensures r <= s
    ensures r != "" ==> r[|r| - 1] != '\r' && r[|r| - 1] != '\n'
  {
    if s != "" && (s[|s| - 1] == '\r' || s[|s| - 1] == '\n') then StripCrLf(s[..|s| - 1]) else s
  }

  predicate IsHexDigit(c: char) {
    '0' <= c <= '9' || 'a' <= c <= 'f' || 'A' <= c <= 'F'
  }

  predicate IsHex(s: string) {
    forall i :: 0 <= i < |s| ==> IsHexDigit(s[i])
  }

  function AddLine(sums: map<string, string>, raw: string): Parse {
    var line := StripCrLf(raw);
    if line == "" then Parsed(sums)
    else if |line| < 66 || line[64] != ' ' || line[65] != ' ' then MalformedLine(line)
    else if !IsHex(line[..64]) then BadHash(line[..64])
    else Parsed(sums[line[66..] := line[..64]])
  }

  /** The first bad line decides. */
  function ParseLines(lines: seq<string>): Parse {
    if lines == [] then Parsed(map[])
    else
      match ParseLines(lines[..|lines| - 1])
      case Parsed(sums) => AddLine(sums, lines[|lines| - 1])
      case MalformedLine(line) => MalformedLine(line)
      case BadHash(sum) => BadHash(sum)
      case LineTooLong => LineTooLong
  }

  function ParseText(data: string, max: nat): Parse {
    var p := ParseLines(Tokens(data, max));
    if p.Parsed? && TooLong(data, max) then LineTooLong else p
  }

  lemma {:induction false} ParseStops(lines: seq<string>, k: nat)
    requires k <= |lines| && !ParseLines(lines[..k]).Parsed?
    ensures ParseLines(lines) == ParseLines(lines[..k])
    decreases |lines|
  {
    if k < |lines| {
      assert lines[..|lines| - 1][..k] == lines[..k];
      ParseStops(lines[..|lines| - 1], k);
    } else {
      assert lines[..k] == lines;
    }
  }

  ghost predicate Reading(all: seq<string>, done: seq<string>, left: seq<string>, sums: map<string, string>) {
    all == done + left && ParseLines(done) == Parsed(sums)
  }

  lemma ReadOne(all: seq<string>, done: seq<string>, left: seq<string>, sums: map<string, string>,
      token: string, left': seq<string>)
    requires Reading(all, done, left, sums) && left == [token] + left'
    ensures AddLine(sums, token).Parsed? ==> Reading(all, done + [token], left', AddLine(sums, token).sums)
    ensures !AddLine(sums, token).Parsed? ==> ParseLines(all) == AddLine(sums, token)
  {
    var next := done + [token];
    assert next[..|done|] == done && all == next + left';
    assert all[..|next|] == next;
    if !AddLine(sums, token).Parsed? {
      ParseStops(all, |next|);
    }
  }

  method ParseManifest(data: string, max: nat) returns (r: Parse)
    ensures r == ParseText(data, max)
  {
    var sums: map<string, string> := map[];
    var scanner := new Scanner(data, max);
    assert scanner.Rest() == data;
    ghost var all, done: seq<string>, left := Tokens(data, max), [], Tokens(data, max);
    var token := scanner.Scan();
    while token.Some?
      invariant scanner.Valid() && scanner.max == max && scanner.ErrTooLong() == TooLong(data, max)
      invariant Reading(all, done, left, sums)
      invariant left == if token.Some? then [token.value] + Tokens(scanner.Rest(), max) else []
      decreases |left|
    {
      ghost var left' := Tokens(scanner.Rest(), max);
      ReadOne(all, done, left, sums, token.value, left');
      r := AddLine(sums, token.value);
      if !r.Parsed? {
        return;
      }
      sums := r.sums;
      done, left := done + [token.value], left';
      token := scanner.Scan();
    }
    assert all == done;
    r := if scanner.ErrTooLong() then LineTooLong else Parsed(sums);
  }

  // ----- Which manifests are accepted -----

  /** Blank but for its line ending, or a sum of 64 hexadecimal digits, two spaces and a path. */
  ghost predicate GoodLine(raw: string) {
    StripCrLf(raw) == "" || exists sum, path :: EntryLine(StripCrLf(raw), sum, path)
  }

  predicate EntryLine(line: string, sum: string, path: string) {
    line == sum + "  " + path && |sum| == 64 && forall i :: 0 <= i < 64 ==> sum[i] in "0123456789abcdefABCDEF"
  }

  lemma HexDigits(c: char)
    ensures IsHexDigit(c) <==> c in "0123456789abcdefABCDEF"
  {
    var digits := "0123456789abcdefABCDEF";
    assert digits[0] == '0' && digits[1] == '1' && digits[2] == '2' && digits[3] == '3' && digits[4] == '4';
    assert digits[5] == '5' && digits[6] == '6' && digits[7] == '7' && digits[8] == '8' && digits[9] == '9';
    assert digits[10] == 'a' && digits[11] == 'b' && digits[12] == 'c' && digits[13] == 'd' && digits[14] == 'e';
    assert digits[15] == 'f' && digits[16] == 'A' && digits[17] == 'B' && digits[18] == 'C' && digits[19] == 'D';
    assert digits[20] == 'E' && digits[21] == 'F';
  }

  lemma EntryIff(line: string, sum: string, path: string)
    ensures EntryLine(line, sum, path) <==>
      |line| >= 66 && line[64] == ' ' && line[65] == ' ' && IsHex(line[..64]) && sum == line[..64] && path == line[66..]
  {
    forall c
      ensures IsHexDigit(c) <==> c in "0123456789abcdefABCDEF"
    {
      HexDigits(c);
    }
    if EntryLine(line, sum, path) {
      assert line[..64] == sum && line[66..] == path;
    }
    if |line| >= 66 && line[64] == ' ' && line[65] == ' ' {
      assert line == line[..64] + "  " + line[66..];
    }
  }

  /** What one line does: an entry is added, a blank line ignored, and of the others one of the wrong shape is malformed,
      and one with the shape of an entry has a bad hash. */
  lemma LineDecides(sums: map<string, string>, raw: string)
    ensures AddLine(sums, raw).Parsed? <==> GoodLine(raw)
    ensures forall sum, path :: EntryLine(StripCrLf(raw), sum, path) ==> AddLine(sums, raw) == Parsed(sums[path := sum])
    ensures StripCrLf(raw) == "" ==> AddLine(sums, raw) == Parsed(sums)
    ensures !GoodLine(raw) ==>
      var line := StripCrLf(raw);
      AddLine(sums, raw) ==
        if |line| >= 66 && line[64..66] == "  " then BadHash(line[..64]) else MalformedLine(line)
  {
    var line := StripCrLf(raw);
    forall sum, path
      ensures EntryLine(line, sum, path) <==>
        |line| >= 66 && line[64] == ' ' && line[65] == ' ' && IsHex(line[..64]) && sum == line[..64] && path == line[66..]
    {
      EntryIff(line, sum, path);
    }
    if |line| >= 66 {
      assert EntryLine(line, line[..64], line[66..]) <==> line[64] == ' ' && line[65] == ' ' && IsHex(line[..64]);
      assert line[64..66] == [line[64], line[65]];
    }
  }

  ghost predicate AllGood(lines: seq<string>) {
    forall k :: 0 <= k < |lines| ==> GoodLine(lines[k])
  }

  /** A manifest is read exactly if all its lines are good. */
  lemma {:induction false} ParsedIff(lines: seq<string>)
    ensures ParseLines(lines).Parsed? <==> AllGood(lines)
  {
    if lines != [] {
      var init, last := lines[..|lines| - 1], lines[|lines| - 1];
      ParsedIff(init);
      if ParseLines(init).Parsed? {
        LineDecides(ParseLines(init).sums, last);
        assert lines == init + [last];
      }
    }
  }

  /** Else the first bad one is reported. */
  lemma FirstBadIsReported(lines: seq<string>, k: nat)
    requires k < |lines| && !GoodLine(lines[k]) && AllGood(lines[..k])
    ensures ParseLines(lines) == AddLine(map[], lines[k]) && !ParseLines(lines).Parsed?
  {
    ParsedIff(lines[..k]);
    LineDecides(ParseLines(lines[..k]).sums, lines[k]);
    LineDecides(map[], lines[k]);
    assert lines[..k + 1][..k] == lines[..k];
    ParseStops(lines, k + 1);
  }

  /** Carriage returns and newlines at the end of a line do not count, and nothing else is taken off. */
  lemma {:induction false} StripsLineEnd(s: string)
    ensures StripCrLf(s) <= s
    ensures forall i :: |StripCrLf(s)| <= i < |s| ==> s[i] in {'\r', '\n'}
    ensures StripCrLf(s) != "" ==> StripCrLf(s)[|StripCrLf(s)| - 1] !in {'\r', '\n'}
  {
    if s != "" && (s[|s| - 1] == '\r' || s[|s| - 1] == '\n') {
      StripsLineEnd(s[..|s| - 1]);
    }
  }

  // ----- Round trip -----

  /** A path the manifest can hold: no newline in it and no carriage return at its end. */
  predicate PlainPath(rel: string) {
    OneLine(rel) && DropCr(rel) == rel
  }

  predicate IsSum(sum: string) {
    |sum| == 64 && IsHex(sum)
  }

  predicate PlainHashes(hashes: seq<FileHash>) {
    forall k :: 0 <= k < |hashes| ==> IsSum(hashes[k].sum) && PlainPath(hashes[k].rel)
  }

  predicate DistinctPaths(hashes: seq<FileHash>) {
    forall i, j :: 0 <= i < j < |hashes| ==> hashes[i].rel != hashes[j].rel
  }

  function SumsOf(hashes: seq<FileHash>): map<string, string> {
    if hashes == [] then map[] else SumsOf(hashes[..|hashes| - 1])[hashes[|hashes| - 1].rel := hashes[|hashes| - 1].sum]
  }

  lemma PlainLine(h: FileHash)
    requires IsSum(h.sum) && PlainPath(h.rel)
    ensures OneLine(ManifestLine(h)) && DropCr(ManifestLine(h)) == ManifestLine(h)
    ensures StripCrLf(ManifestLine(h)) == ManifestLine(h)
  {
    var line := ManifestLine(h);
    assert line[|line| - 1] == if h.rel == "" then ' ' else h.rel[|h.rel| - 1];
  }

  lemma AddPlainLine(sums: map<string, string>, h: FileHash)
    requires IsSum(h.sum) && PlainPath(h.rel)
    ensures AddLine(sums, ManifestLine(h)) == Parsed(sums[h.rel := h.sum])
  {
    PlainLine(h);
    var line := ManifestLine(h);
    assert line[..64] == h.sum && line[66..] == h.rel;
  }

  lemma {:induction false} ParsePlainLines(hashes: seq<FileHash>)
    requires PlainHashes(hashes)
    ensures ParseLines(ManifestLines(hashes)) == Parsed(SumsOf(hashes))
  {
    if hashes != [] {
      var n := |hashes| - 1;
      ParsePlainLines(hashes[..n]);
      assert ManifestLines(hashes)[..n] == ManifestLines(hashes[..n]);
      AddPlainLine(SumsOf(hashes[..n]), hashes[n]);
    }
  }

  lemma {:induction false} TooLongIffUnfit(lines: seq<string>, max: nat)
    requires WholeLines(lines)
    ensures TooLong(Unlines(lines), max) <==> !AllFit(lines, max)
  {
    if lines != [] {
      FirstLine(lines[0], Unlines(lines[1..]), max);
      TooLongIffUnfit(lines[1..], max);
      assert forall k :: 0 < k < |lines| ==> lines[k] == lines[1..][k - 1];
    }
  }

  /** A manifest of plain paths reads back as exactly its sums, if every line fits; otherwise it is not read at all. */
  lemma ManifestRoundTrip(hashes: seq<FileHash>, max: nat)
    requires PlainHashes(hashes)
    ensures AllFit(ManifestLines(hashes), max) ==> ParseText(Unlines(ManifestLines(hashes)), max) == Parsed(SumsOf(hashes))
    ensures !AllFit(ManifestLines(hashes), max) ==> !ParseText(Unlines(ManifestLines(hashes)), max).Parsed?
  {
    var lines := ManifestLines(hashes);
    TooLongIffUnfit(lines, max);
    if AllFit(lines, max) {
      TokensOfFitting(lines, "", max);
      assert Unlines(lines) + "" == Unlines(lines) && lines + [] == lines;
      ParsePlainLines(hashes);
    }
  }

  /** With distinct paths, the sums are those of the list: one entry per file. */
  lemma {:induction false} SumsOfDistinct(hashes: seq<FileHash>, rel: string)
    requires DistinctPaths(hashes)
    ensures forall k :: 0 <= k < |hashes| ==> hashes[k].rel in SumsOf(hashes) && SumsOf(hashes)[hashes[k].rel] == hashes[k].sum
    ensures rel in SumsOf(hashes) ==> exists k :: 0 <= k < |hashes| && hashes[k].rel == rel
  {
    if hashes != [] {
      SumsOfDistinct(hashes[..|hashes| - 1], rel);
    }
  }

  // ----- What a parsed manifest cannot contain -----

  lemma {:induction false} TokensAreLines(s: string, max: nat)
    ensures forall k :: 0 <= k < |Tokens(s, max)| ==> OneLine(Tokens(s, max)[k])
    decreases |s|
  {
    var at := IndexOf(s, '\n');
    if s != "" && at + 1 <= max && at < |s| {
      TokensAreLines(s[at + 1..], max);
    }
  }

  lemma {:induction false} ParsedPathsPlain(lines: seq<string>)
    requires forall k :: 0 <= k < |lines| ==> OneLine(lines[k])
    ensures ParseLines(lines).Parsed? ==> forall rel :: rel in ParseLines(lines).sums ==> PlainPath(rel)
  {
    if lines != [] {
      var n := |lines| - 1;
      ParsedPathsPlain(lines[..n]);
      var line := StripCrLf(lines[n]);
      if |line| >= 66 {
        assert line[66..] != "" ==> line[66..][|line| - 67] == line[|line| - 1];
      }
    }
  }

  /** Only plain paths come out of a manifest, whatever it holds. */
  lemma OnlyPlainPaths(data: string, max: nat, rel: string)
    requires ParseText(data, max).Parsed? && rel in ParseText(data, max).sums
    ensures PlainPath(rel)
  {
    TokensAreLines(data, max);
    ParsedPathsPlain(Tokens(data, max));
  }

  // ----- Verify -----

  datatype Entry = Entry(name: string, regular: bool, content: string)

  datatype Report = Report(files: nat, mismatched: seq<string>, missing: seq<string>, extra: seq<string>)
  {
    predicate OK() {
      |mismatched| == 0 && |missing| == 0 && |extra| == 0
    }
  }

  datatype Checked = Checked(report: Report) | NoEntry | WrongFirst(name: string) | BadManifest(parse: Parse)

  /** The names of the regular entries that pass a test, one for each, repetitions included. */
  function NamesWhere(entries: seq<Entry>, test: Entry -> bool): seq<string> {
    if entries == [] then []
    else
      var last := entries[|entries| - 1];
      NamesWhere(entries[..|entries| - 1], test) + if last.regular && test(last) then [last.name] else []
  }

  function Unlisted(sums: map<string, string>): Entry -> bool {
    (e: Entry) => e.name !in sums
  }

  function Listed(sums: map<string, string>): Entry -> bool {
    (e: Entry) => e.name in sums
  }

  function Wrong(sums: map<string, string>, sha: string -> string): Entry -> bool {
    (e: Entry) => e.name in sums && sha(e.content) != sums[e.name]
  }

  lemma {:induction false} InNamesWhere(entries: seq<Entry>, test: Entry -> bool, name: string)
    ensures name in NamesWhere(entries, test) <==>
      exists k :: 0 <= k < |entries| && entries[k].regular && test(entries[k]) && entries[k].name == name
  {
    if entries != [] {
      InNamesWhere(entries[..|entries| - 1], test, name);
    }
  }

  /** What the report says of the entries behind the manifest. */
  ghost predicate Accounts(entries: seq<Entry>, sums: map<string, string>, sha: string -> string, r: Report) {
    && r.files == |NamesWhere(entries, Listed(sums))|
    && r.extra == Sorting.Sort(NamesWhere(entries, Unlisted(sums)))
    && r.mismatched == Sorting.Sort(NamesWhere(entries, Wrong(sums, sha)))
    && TopoSort.NoDuplicates(r.missing) && Sorting.Sorted(r.missing)
    && forall name :: name in r.missing <==> name in sums && name !in NamesWhere(entries, Listed(sums))
  }

  ghost predicate Counted(entries: seq<Entry>, sums: map<string, string>, sha: string -> string, files: nat,
      seen: set<string>, extra: seq<string>, mismatched: seq<string>)
  {
    && files == |NamesWhere(entries, Listed(sums))|
    && seen == TopoSort.Elements(NamesWhere(entries, Listed(sums)))
    && extra == NamesWhere(entries, Unlisted(sums))
    && mismatched == NamesWhere(entries, Wrong(sums, sha))
  }

  lemma WhereSnoc(entries: seq<Entry>, k: nat, test: Entry -> bool)
    requires k < |entries|
    ensures NamesWhere(entries[..k + 1], test) ==
      NamesWhere(entries[..k], test) + if entries[k].regular && test(entries[k]) then [entries[k].name] else []
  {
    assert entries[..k + 1][..k] == entries[..k];
  }

  method CountEntries(entries: seq<Entry>, sums: map<string, string>, sha: string -> string)
      returns (files: nat, seen: set<string>, extra: seq<string>, mismatched: seq<string>)
    ensures Counted(entries, sums, sha, files, seen, extra, mismatched)
  {
    files, seen, extra, mismatched := 0, {}, [], [];
    for k := 0 to |entries|
      invariant Counted(entries[..k], sums, sha, files, seen, extra, mismatched)
    {
      var e := entries[k];
      WhereSnoc(entries, k, Listed(sums));
      WhereSnoc(entries, k, Unlisted(sums));
      WhereSnoc(entries, k, Wrong(sums, sha));
      if !e.regular {
        continue;
      }
      if e.name !in sums {
        extra := extra + [e.name];
        continue;
      }
      seen := seen + {e.name};
      files := files + 1;
      if sha(e.content) != sums[e.name] {
        mismatched := mismatched + [e.name];
      }
    }
    assert entries[..|entries|] == entries;
  }

  method MissingNames(sums: map<string, string>, seen: set<string>) returns (missing: seq<string>)
    ensures TopoSort.NoDuplicates(missing) && TopoSort.Elements(missing) == sums.Keys - seen
  {
    missing := [];
    var left := sums.Keys;
    while left != {}
      invariant left <= sums.Keys && TopoSort.NoDuplicates(missing)
      invariant TopoSort.Elements(missing) == sums.Keys - seen - left
      decreases |left|
    {
      var name :| name in left;
      if name !in seen {
        assert name !in TopoSort.Elements(missing);
        assert TopoSort.Elements(missing + [name]) == TopoSort.Elements(missing) + {name};
        missing := missing + [name];
      }
      left := left - {name};
    }
  }

  method Verify(entries: seq<Entry>, sha: string -> string, max: nat) returns (r: Checked)
    ensures entries == [] ==> r == NoEntry
    ensures entries != [] && entries[0].name != ".manifest.sha256" ==> r == WrongFirst(entries[0].name)
    ensures entries != [] && entries[0].name == ".manifest.sha256" ==>
      match ParseText(entries[0].content, max)
      case Parsed(sums) => r.Checked? && Accounts(entries[1..], sums, sha, r.report)
      case bad => r == BadManifest(bad)
    ensures r.Checked? && r.report.OK() <==> Passes(entries, sha, max)
  {
    if entries == [] {
      return NoEntry;
    }
    if entries[0].name != MANIFEST_NAME {
      return WrongFirst(entries[0].name);
    }
    var parse := ParseManifest(entries[0].content, max);
    if !parse.Parsed? {
      return BadManifest(parse);
    }
    var files, seen, extra, mismatched := CountEntries(entries[1..], parse.sums, sha);
    var missing := MissingNames(parse.sums, seen);
    SortKeepsDistinct(missing);
    Sorting.SortSorts(missing);
    var report := Report(files, Sorting.Sort(mismatched), Sorting.Sort(missing), Sorting.Sort(extra));
    forall name
      ensures name in report.missing <==> name in parse.sums && name !in NamesWhere(entries[1..], Listed(parse.sums))
    {
      assert name in report.missing <==> name in TopoSort.Elements(report.missing);
      assert name in seen <==> name in NamesWhere(entries[1..], Listed(parse.sums));
    }
    OkMeansMatch(entries[1..], parse.sums, sha, report);
    r := Checked(report);
  }

  // ----- What OK means -----

  ghost predicate Present(entries: seq<Entry>, name: string) {
    exists k :: 0 <= k < |entries| && entries[k].regular && entries[k].name == name
  }

  ghost predicate Genuine(e: Entry, sums: map<string, string>, sha: string -> string) {
    e.regular ==> e.name in sums && sha(e.content) == sums[e.name]
  }

  /** The regular entries are the files of the manifest, with the contents it was made of. */
  ghost predicate Matches(entries: seq<Entry>, sums: map<string, string>, sha: string -> string) {
    && (forall k :: 0 <= k < |entries| ==> Genuine(entries[k], sums, sha))
    && (forall name :: name in sums ==> Present(entries, name))
  }

  lemma SortEmpty(s: seq<string>)
    ensures Sorting.Sort(s) == [] <==> s == []
  {
    assert |multiset(Sorting.Sort(s))| == |Sorting.Sort(s)| && |multiset(s)| == |s|;
  }

  lemma {:induction false} NothingWrong(entries: seq<Entry>, sums: map<string, string>, sha: string -> string)
    ensures NamesWhere(entries, Unlisted(sums)) == [] && NamesWhere(entries, Wrong(sums, sha)) == [] <==>
      forall k :: 0 <= k < |entries| ==> Genuine(entries[k], sums, sha)
  {
    if entries != [] {
      NothingWrong(entries[..|entries| - 1], sums, sha);
    }
  }

  lemma NothingMissing(entries: seq<Entry>, sums: map<string, string>, missing: seq<string>)
    requires forall name :: name in missing <==> name in sums && name !in NamesWhere(entries, Listed(sums))
    ensures missing == [] <==> forall name :: name in sums ==> Present(entries, name)
  {
    forall name
      ensures name in missing <==> name in sums && !Present(entries, name)
    {
      InNamesWhere(entries, Listed(sums), name);
    }
    if missing != [] {
      assert missing[0] in missing;
    }
  }

  /** A report is OK exactly when names and hashes agree, however entries repeat. */
  lemma OkMeansMatch(entries: seq<Entry>, sums: map<string, string>, sha: string -> string, r: Report)
    requires Accounts(entries, sums, sha, r)
    ensures r.OK() <==> Matches(entries, sums, sha)
  {
    SortEmpty(NamesWhere(entries, Unlisted(sums)));
    SortEmpty(NamesWhere(entries, Wrong(sums, sha)));
    NothingWrong(entries, sums, sha);
    NothingMissing(entries, sums, r.missing);
  }

  // ----- Create, then Verify -----

  function HashesOf(files: map<string, string>, order: seq<string>, sha: string -> string): seq<FileHash> {
    seq(|order|, k requires 0 <= k < |order| => FileHash(order[k], sha(if order[k] in files then files[order[k]] else "")))
  }

  function FileEntries(files: map<string, string>, order: seq<string>): seq<Entry> {
    seq(|order|, k requires 0 <= k < |order| => Entry(order[k], true, if order[k] in files then files[order[k]] else ""))
  }

  function ManifestOf(files: map<string, string>, order: seq<string>, sha: string -> string): Entry {
    Entry(MANIFEST_NAME, true, Unlines(ManifestLines(HashesOf(files, order, sha))))
  }

  method HashFiles(files: map<string, string>, order: seq<string>, sha: string -> string) returns (hashes: seq<FileHash>)
    requires forall k :: 0 <= k < |order| ==> order[k] in files
    ensures hashes == HashesOf(files, order, sha)
  {
    hashes := [];
    for k := 0 to |order|
      invariant hashes == HashesOf(files, order, sha)[..k]
    {
      hashes := hashes + [FileHash(order[k], sha(files[order[k]]))];
    }
  }

  method AddFiles(first: Entry, files: map<string, string>, order: seq<string>) returns (entries: seq<Entry>)
    requires forall k :: 0 <= k < |order| ==> order[k] in files
    ensures entries == [first] + FileEntries(files, order)
  {
    entries := [first];
    for k := 0 to |order|
      invariant entries == [first] + FileEntries(files, order)[..k]
    {
      entries := entries + [Entry(order[k], true, files[order[k]])];
    }
  }

  /** The manifest first, then the files, both in sorted order of the paths. */
  ghost predicate ArchiveOf(files: map<string, string>, order: seq<string>, sha: string -> string, entries: seq<Entry>) {
    KeyOrder(files, order) && entries == [ManifestOf(files, order, sha)] + FileEntries(files, order)
  }

  method Create(files: map<string, string>, sha: string -> string) returns (entries: seq<Entry>)
    ensures exists order :: ArchiveOf(files, order, sha, entries)
  {
    var rels := KeysSorted(files);
    var hashes := HashFiles(files, rels, sha);
    var manifest := BuildManifest(hashes);
    entries := AddFiles(Entry(MANIFEST_NAME, true, manifest), files, rels);
    assert ArchiveOf(files, rels, sha, entries);
  }

  /** The archive in full: an entry of its own for the manifest, whose lines are sum, two spaces and path, and then every
      file under its path with its content, in sorted order. */
  lemma ArchiveInFull(files: map<string, string>, order: seq<string>, sha: string -> string, entries: seq<Entry>)
    requires ArchiveOf(files, order, sha, entries)
    ensures Sorting.Sorted(order) && (forall rel :: rel in files <==> rel in order)
    ensures |entries| == |order| + 1 && forall k :: 0 <= k < |order| ==> entries[k + 1] == Entry(order[k], true, files[order[k]])
    ensures exists lines :: entries[0] == Entry(".manifest.sha256", true, Unlines(lines)) && SumLines(files, order, sha, lines)
  {
    forall rel
      ensures rel in files <==> rel in order
    {
      assert rel in order <==> rel in TopoSort.Elements(order);
    }
    var lines := ManifestLines(HashesOf(files, order, sha));
    LinesOfHashes(files, order, sha, lines);
    assert entries[0] == ManifestOf(files, order, sha) == Entry(".manifest.sha256", true, Unlines(lines));
    FilesInOrder(files, order);
  }

  lemma LinesOfHashes(files: map<string, string>, order: seq<string>, sha: string -> string, lines: seq<string>)
    requires lines == ManifestLines(HashesOf(files, order, sha)) && forall rel :: rel in order ==> rel in files
    ensures SumLines(files, order, sha, lines)
  {
  }

  lemma FilesInOrder(files: map<string, string>, order: seq<string>)
    requires forall rel :: rel in order ==> rel in files
    ensures |FileEntries(files, order)| == |order|
    ensures forall k :: 0 <= k < |order| ==> FileEntries(files, order)[k] == Entry(order[k], true, files[order[k]])
  {
  }

  ghost predicate SumLines(files: map<string, string>, order: seq<string>, sha: string -> string, lines: seq<string>) {
    && |lines| == |order|
    && forall k :: 0 <= k < |order| ==> order[k] in files && lines[k] == sha(files[order[k]]) + "  " + order[k]
  }

  /** SHA-256 in hexadecimal, as far as it matters here. */
  ghost predicate HexDigest(sha: string -> string) {
    forall c :: IsSum(sha(c))
  }

  /** What Verify finds OK. */
  ghost predicate Passes(entries: seq<Entry>, sha: string -> string, max: nat) {
    && entries != [] && entries[0].name == MANIFEST_NAME
    && ParseText(entries[0].content, max).Parsed?
    && Matches(entries[1..], ParseText(entries[0].content, max).sums, sha)
  }

  /** A path the archive can carry: plain, and short enough for its manifest line to be read. */
  predicate Archivable(rel: string, max: nat) {
    PlainPath(rel) && 66 + |rel| + 1 <= max
  }

  lemma OwnSums(files: map<string, string>, order: seq<string>, sha: string -> string)
    requires KeyOrder(files, order) && HexDigest(sha)
    ensures SumsOf(HashesOf(files, order, sha)).Keys == files.Keys
    ensures forall rel :: rel in files ==>
      rel in SumsOf(HashesOf(files, order, sha)) && SumsOf(HashesOf(files, order, sha))[rel] == sha(files[rel])
  {
    var hashes := HashesOf(files, order, sha);
    assert DistinctPaths(hashes);
    forall rel
      ensures rel in files ==> rel in SumsOf(hashes) && SumsOf(hashes)[rel] == sha(files[rel])
      ensures rel in SumsOf(hashes) ==> rel in files
    {
      SumsOfDistinct(hashes, rel);
      if rel in files {
        var k :| 0 <= k < |order| && order[k] == rel;
        assert hashes[k] == FileHash(rel, sha(files[rel]));
      }
    }
  }

  lemma OwnEntriesMatch(files: map<string, string>, order: seq<string>, sums: map<string, string>, sha: string -> string)
    requires KeyOrder(files, order) && sums.Keys == files.Keys && forall rel :: rel in files ==> sums[rel] == sha(files[rel])
    ensures Matches(FileEntries(files, order), sums, sha)
  {
    var entries := FileEntries(files, order);
    forall name | name in sums
      ensures Present(entries, name)
    {
      var k :| 0 <= k < |order| && order[k] == name;
      assert entries[k].name == name;
    }
  }

  lemma OwnLinesFit(files: map<string, string>, order: seq<string>, sha: string -> string, max: nat)
    requires KeyOrder(files, order) && HexDigest(sha)
    ensures AllFit(ManifestLines(HashesOf(files, order, sha)), max) <==> forall rel :: rel in files ==> 66 + |rel| + 1 <= max
  {
    var hashes := HashesOf(files, order, sha);
    var lines := ManifestLines(hashes);
    forall k | 0 <= k < |order|
      ensures |lines[k]| == 66 + |order[k]|
    {
      assert IsSum(hashes[k].sum);
    }
    if AllFit(lines, max) {
      forall rel | rel in files
        ensures 66 + |rel| + 1 <= max
      {
        var k :| 0 <= k < |order| && order[k] == rel;
        assert Fits(lines[k], max);
      }
    }
  }

  predicate AllPlain(files: map<string, string>) {
    forall rel :: rel in files ==> PlainPath(rel)
  }

  lemma PlainArchivePasses(files: map<string, string>, order: seq<string>, sha: string -> string, max: nat, entries: seq<Entry>)
    requires HexDigest(sha) && ArchiveOf(files, order, sha, entries) && AllPlain(files)
    ensures Passes(entries, sha, max) <==> forall rel :: rel in files ==> 66 + |rel| + 1 <= max
  {
    var hashes := HashesOf(files, order, sha);
    assert entries[1..] == FileEntries(files, order);
    assert PlainHashes(hashes);
    ManifestRoundTrip(hashes, max);
    OwnLinesFit(files, order, sha, max);
    OwnSums(files, order, sha);
    OwnEntriesMatch(files, order, SumsOf(hashes), sha);
  }

  lemma OtherArchiveFails(files: map<string, string>, order: seq<string>, sha: string -> string, max: nat, entries: seq<Entry>)
    requires ArchiveOf(files, order, sha, entries) && !AllPlain(files)
    ensures !Passes(entries, sha, max)
  {
    var rel :| rel in files && !PlainPath(rel);
    assert entries[1..] == FileEntries(files, order);
    NotPlainFails(files, order, sha, entries[0].content, max, rel);
  }

  /** Verify accepts what Create wrote exactly when every path is one the manifest can carry. */
  lemma CreatedArchivePasses(files: map<string, string>, sha: string -> string, max: nat, entries: seq<Entry>)
    requires HexDigest(sha) && exists order :: ArchiveOf(files, order, sha, entries)
    ensures Passes(entries, sha, max) <==> forall rel :: rel in files ==> Archivable(rel, max)
  {
    var order :| ArchiveOf(files, order, sha, entries);
    if AllPlain(files) {
      PlainArchivePasses(files, order, sha, max, entries);
    } else {
      OtherArchiveFails(files, order, sha, max, entries);
    }
  }

  lemma NotPlainFails(files: map<string, string>, order: seq<string>, sha: string -> string, text: string, max: nat, rel: string)
    requires KeyOrder(files, order) && rel in files && !PlainPath(rel)
    ensures ParseText(text, max).Parsed? ==> !Matches(FileEntries(files, order), ParseText(text, max).sums, sha)
  {
    var k :| 0 <= k < |order| && order[k] == rel;
    assert FileEntries(files, order)[k].name == rel;
    if ParseText(text, max).Parsed? && rel in ParseText(text, max).sums {
      OnlyPlainPaths(text, max, rel);
    } else if ParseText(text, max).Parsed? {
      assert !Genuine(FileEntries(files, order)[k], ParseText(text, max).sums, sha);
    }
  }
}
