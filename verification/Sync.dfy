/** Incremental registration of DAG files against a full rescan (scheduler/sync.go). */
module Sync {
  import opened Text
  import TopoSort

  /** DAG names are never empty; validation rejects a file without one. */
  type Name = n: string | n != "" witness "a"

  datatype Parsed = Unparseable | NoTrigger(name: Name) | Trigger(name: Name)
  {
    function CachedName(): string {
      if Unparseable? then "" else name
    }
  }

  /** Parsing takes the path too: a file that states no name is called after its path. */
  datatype Reader = Reader(parse: (string, string) -> Parsed, hash: string -> string)

  datatype File = File(mtime: int, content: string)

  /** The YAML files of the source directories at one moment. */
  type Files = map<string, File>

  datatype CacheEntry = CacheEntry(mtime: int, dagName: string)

  type Registered = map<string, string>

  /** What one sync works on: the hash registered for each name, the mtime cache, and the names seen so far. */
  datatype Pass = Pass(registered: Registered, cache: map<string, CacheEntry>, seen: set<string>)

  // ----- What a rescan would find -----

  ghost predicate TriggerAt(r: Reader, files: Files, path: string, name: string) {
    path in files && r.parse(path, files[path].content).Trigger? && r.parse(path, files[path].content).name == name
  }

  ghost predicate NamedAt(r: Reader, files: Files, path: string, name: string) {
    path in files && name != "" && !r.parse(path, files[path].content).Unparseable? &&
      r.parse(path, files[path].content).name == name
  }

  ghost predicate UniqueNames(r: Reader, files: Files) {
    forall p, q, n :: NamedAt(r, files, p, n) && NamedAt(r, files, q, n) ==> p == q
  }

  /** The names and hashes registered are exactly those of the files that parse and have a trigger. */
  ghost predicate Rescanned(r: Reader, files: Files, registered: Registered) {
    && (forall p, n :: TriggerAt(r, files, p, n) ==> n in registered && registered[n] == r.hash(files[p].content))
    && (forall n :: n in registered ==> exists p :: TriggerAt(r, files, p, n))
  }

  function EntryOf(r: Reader, path: string, f: File): CacheEntry {
    CacheEntry(f.mtime, r.parse(path, f.content).CachedName())
  }

  function CacheOf(r: Reader, files: Files): map<string, CacheEntry> {
    map p | p in files :: EntryOf(r, p, files[p])
  }

  /** A file whose mtime is the same has the same content. */
  ghost predicate Faithful(before: Files, now: Files) {
    forall p :: p in before && p in now && before[p].mtime == now[p].mtime ==> before[p].content == now[p].content
  }

  // ----- One sync -----

  function Visit(r: Reader, s: Pass, path: string, f: File): Pass {
    if path in s.cache && s.cache[path].mtime == f.mtime then
      if s.cache[path].dagName != "" then s.(seen := s.seen + {s.cache[path].dagName}) else s
    else
      var cached := s.(cache := s.cache[path := EntryOf(r, path, f)]);
      var parsed := r.parse(path, f.content);
      if !parsed.Trigger? then cached
      else cached.(registered := s.registered[parsed.name := r.hash(f.content)], seen := s.seen + {parsed.name})
  }

  function VisitAll(r: Reader, s: Pass, files: Files, order: seq<string>): Pass {
    if order == [] then s
    else
      var path := order[|order| - 1];
      var before := VisitAll(r, s, files, order[..|order| - 1]);
      if path in files then Visit(r, before, path, files[path]) else before
  }

  function Pruned(s: Pass, files: Files): Pass {
    Pass(map n | n in s.registered && n in s.seen :: s.registered[n], map p | p in s.cache && p in files :: s.cache[p], s.seen)
  }

  // ----- What a sync does to any state, whatever the names and the cache -----

  /** The file is not read: its mtime is the one in the cache. */
  predicate Skipped(cache: map<string, CacheEntry>, files: Files, path: string) {
    path in cache && path in files && cache[path].mtime == files[path].mtime
  }

  /** The file is read and has a trigger for this name. */
  ghost predicate ReadTrigger(r: Reader, cache: map<string, CacheEntry>, files: Files, path: string, name: string) {
    TriggerAt(r, files, path, name) && !Skipped(cache, files, path)
  }

  /** The last file on the way that is read and has a trigger for this name. */
  ghost function LastReader(r: Reader, cache: map<string, CacheEntry>, files: Files, order: seq<string>, name: string):
      (q: Option<string>)
    ensures q.Some? ==> q.value in order && ReadTrigger(r, cache, files, q.value, name)
    ensures q.None? ==> forall p :: p in order ==> !ReadTrigger(r, cache, files, p, name)
  {
    if order == [] then None
    else if ReadTrigger(r, cache, files, order[|order| - 1], name) then Some(order[|order| - 1])
    else LastReader(r, cache, files, order[..|order| - 1], name)
  }

  /** A file on the way is skipped, and known by this name. */
  ghost predicate SkippedCalled(cache: map<string, CacheEntry>, files: Files, order: seq<string>, name: string) {
    name != "" && exists p :: p in order && Skipped(cache, files, p) && cache[p].dagName == name
  }

  /** A name is registered with the hash of its last reader, or else as before. */
  ghost predicate RegisteredAfter(r: Reader, start: Pass, files: Files, order: seq<string>, registered: Registered) {
    forall n :: match LastReader(r, start.cache, files, order, n)
      case Some(q) => n in registered && registered[n] == r.hash(files[q].content)
      case None => (n in registered <==> n in start.registered) && (n in registered ==> registered[n] == start.registered[n])
  }

  ghost predicate SeenAfter(r: Reader, start: Pass, files: Files, order: seq<string>, seen: set<string>) {
    forall n :: n in seen <==>
      LastReader(r, start.cache, files, order, n).Some? || SkippedCalled(start.cache, files, order, n)
  }

  ghost predicate CacheAfter(r: Reader, start: Pass, files: Files, order: seq<string>, cache: map<string, CacheEntry>) {
    forall p ::
      if p in order && p in files && !Skipped(start.cache, files, p) then p in cache && cache[p] == EntryOf(r, p, files[p])
      else (p in cache <==> p in start.cache) && (p in cache ==> cache[p] == start.cache[p])
  }

  ghost predicate After(r: Reader, start: Pass, files: Files, order: seq<string>, s: Pass) {
    && RegisteredAfter(r, start, files, order, s.registered)
    && SeenAfter(r, start, files, order, s.seen)
    && CacheAfter(r, start, files, order, s.cache)
  }

  lemma LastReaderSnoc(r: Reader, cache: map<string, CacheEntry>, files: Files, done: seq<string>, path: string,
      n: string)
    ensures LastReader(r, cache, files, done + [path], n) ==
      if ReadTrigger(r, cache, files, path, n) then Some(path) else LastReader(r, cache, files, done, n)
  {
    assert (done + [path])[..|done|] == done;
  }

  lemma SkippedCalledSnoc(cache: map<string, CacheEntry>, files: Files, done: seq<string>, path: string, n: string)
    ensures SkippedCalled(cache, files, done + [path], n) <==>
      SkippedCalled(cache, files, done, n) || (n != "" && Skipped(cache, files, path) && cache[path].dagName == n)
  {
    if SkippedCalled(cache, files, done, n) {
      var p :| p in done && Skipped(cache, files, p) && cache[p].dagName == n;
      assert p in done + [path];
    }
    assert path in done + [path];
  }

  lemma VisitRegistered(r: Reader, start: Pass, files: Files, done: seq<string>, s: Pass, path: string)
    requires path in files && path !in done && After(r, start, files, done, s)
    ensures RegisteredAfter(r, start, files, done + [path], Visit(r, s, path, files[path]).registered)
  {
    assert Skipped(s.cache, files, path) <==> Skipped(start.cache, files, path);
    forall n
      ensures LastReader(r, start.cache, files, done + [path], n) ==
        if ReadTrigger(r, start.cache, files, path, n) then Some(path) else LastReader(r, start.cache, files, done, n)
    {
      LastReaderSnoc(r, start.cache, files, done, path, n);
    }
  }

  lemma VisitSeen(r: Reader, start: Pass, files: Files, done: seq<string>, s: Pass, path: string)
    requires path in files && path !in done && After(r, start, files, done, s)
    ensures SeenAfter(r, start, files, done + [path], Visit(r, s, path, files[path]).seen)
  {
    assert Skipped(s.cache, files, path) <==> Skipped(start.cache, files, path);
    forall n
      ensures n in Visit(r, s, path, files[path]).seen <==>
        LastReader(r, start.cache, files, done + [path], n).Some? || SkippedCalled(start.cache, files, done + [path], n)
    {
      LastReaderSnoc(r, start.cache, files, done, path, n);
      SkippedCalledSnoc(start.cache, files, done, path, n);
    }
  }

  lemma VisitCache(r: Reader, start: Pass, files: Files, done: seq<string>, s: Pass, path: string)
    requires path in files && path !in done && CacheAfter(r, start, files, done, s.cache)
    ensures CacheAfter(r, start, files, done + [path], Visit(r, s, path, files[path]).cache)
  {
  }

  /** Every file is visited once, so none is influenced by what an earlier one has put into the cache. */
  lemma {:induction false} VisitAllResult(r: Reader, start: Pass, files: Files, order: seq<string>)
    requires start.seen == {} && TopoSort.NoDuplicates(order) && forall p :: p in order ==> p in files
    ensures After(r, start, files, order, VisitAll(r, start, files, order))
  {
    if order != [] {
      var done, path := order[..|order| - 1], order[|order| - 1];
      var s := VisitAll(r, start, files, done);
      VisitAllResult(r, start, files, done);
      VisitRegistered(r, start, files, done, s, path);
      VisitSeen(r, start, files, done, s, path);
      VisitCache(r, start, files, done, s, path);
      assert done + [path] == order;
    }
  }

  // ----- Incremental sync agrees with a full rescan -----

  datatype State = State(registered: Registered, cache: map<string, CacheEntry>)

  function Synced(r: Reader, s: State, files: Files, order: seq<string>): State {
    var pass := Pruned(VisitAll(r, Pass(s.registered, s.cache, {}), files, order), files);
    State(pass.registered, pass.cache)
  }

  ghost predicate InStep(r: Reader, files: Files, s: State) {
    Rescanned(r, files, s.registered) && s.cache == CacheOf(r, files)
  }

  /** The files are listed once each, in any order. */
  predicate Listing(files: Files, order: seq<string>) {
    TopoSort.NoDuplicates(order) && TopoSort.Elements(order) == files.Keys
  }

  /** A registration lives through a sync when no file read has a trigger of its name, and a skipped one is known by it. */
  ghost predicate LivesOn(r: Reader, s: State, files: Files, n: string, h: string) {
    && n in s.registered && s.registered[n] == h
    && (forall p :: !ReadTrigger(r, s.cache, files, p, n))
    && exists p :: Skipped(s.cache, files, p) && n != "" && s.cache[p].dagName == n
  }

  /** What a sync leaves, for any state and any files: the last file read decides on a name, else the registration
      that lives on. */
  lemma SyncResult(r: Reader, s: State, files: Files, order: seq<string>, n: string)
    requires Listing(files, order)
    ensures var after := Synced(r, s, files, order).registered;
      match LastReader(r, s.cache, files, order, n)
      case Some(q) => n in after && after[n] == r.hash(files[q].content)
      case None =>
        && (n in after <==> n in s.registered && LivesOn(r, s, files, n, s.registered[n]))
        && (n in after ==> after[n] == s.registered[n])
  {
    var start := Pass(s.registered, s.cache, {});
    assert forall p :: p in order <==> p in TopoSort.Elements(order);
    VisitAllResult(r, start, files, order);
    var pass := VisitAll(r, start, files, order);
    assert n in pass.seen <==> LastReader(r, s.cache, files, order, n).Some? || SkippedCalled(s.cache, files, order, n);
    assert SkippedCalled(s.cache, files, order, n) <==>
      exists p :: Skipped(s.cache, files, p) && n != "" && s.cache[p].dagName == n;
  }

  lemma SyncedCache(r: Reader, s: State, files: Files, order: seq<string>, p: string)
    requires Listing(files, order)
    ensures p in Synced(r, s, files, order).cache <==> p in files
    ensures p in files ==>
      Synced(r, s, files, order).cache[p] == if Skipped(s.cache, files, p) then s.cache[p] else EntryOf(r, p, files[p])
    ensures p in files && !Skipped(s.cache, files, p) ==>
      var entry, parsed := Synced(r, s, files, order).cache[p], r.parse(p, files[p].content);
      entry.mtime == files[p].mtime && entry.dagName == if parsed.Unparseable? then "" else parsed.name
  {
    var start := Pass(s.registered, s.cache, {});
    assert forall p :: p in order <==> p in TopoSort.Elements(order);
    VisitAllResult(r, start, files, order);
  }

  /** A skipped file has a trigger for this name, and this hash. */
  ghost predicate SkippedTrigger(r: Reader, s: State, files: Files, n: string, h: string) {
    exists p :: Skipped(s.cache, files, p) && TriggerAt(r, files, p, n) && r.hash(files[p].content) == h
  }

  ghost predicate NothingStale(r: Reader, s: State, files: Files) {
    forall n, h :: SkippedTrigger(r, s, files, n, h) <==> LivesOn(r, s, files, n, h)
  }

  /** From any state, and for files with unique names: the sync leaves what a rescan would register if and only if the
      registrations that live on are those of the triggers in the files it skips. */
  lemma SyncAgreesIff(r: Reader, s: State, files: Files, order: seq<string>)
    requires UniqueNames(r, files) && Listing(files, order)
    ensures Rescanned(r, files, Synced(r, s, files, order).registered) <==> NothingStale(r, s, files)
  {
    var after := Synced(r, s, files, order).registered;
    if NothingStale(r, s, files) {
      forall p, n | TriggerAt(r, files, p, n)
        ensures n in after && after[n] == r.hash(files[p].content)
      {
        TriggerKept(r, s, files, order, p, n);
      }
      forall n | n in after
        ensures exists p :: TriggerAt(r, files, p, n)
      {
        KeptHasTrigger(r, s, files, order, n);
      }
    }
    if Rescanned(r, files, after) {
      forall n, h
        ensures SkippedTrigger(r, s, files, n, h) <==> LivesOn(r, s, files, n, h)
      {
        RescannedIsNotStale(r, s, files, order, n, h);
      }
    }
  }

  lemma OnlyReader(r: Reader, cache: map<string, CacheEntry>, files: Files, order: seq<string>, p: string, n: string)
    requires UniqueNames(r, files) && Listing(files, order) && TriggerAt(r, files, p, n)
    ensures LastReader(r, cache, files, order, n) == if Skipped(cache, files, p) then None else Some(p)
    ensures forall q :: ReadTrigger(r, cache, files, q, n) ==> q == p && !Skipped(cache, files, p)
  {
    assert p in TopoSort.Elements(order);
    assert NamedAt(r, files, p, n);
    forall q | TriggerAt(r, files, q, n)
      ensures q == p
    {
      assert NamedAt(r, files, q, n);
    }
  }

  lemma TriggerKept(r: Reader, s: State, files: Files, order: seq<string>, p: string, n: string)
    requires UniqueNames(r, files) && Listing(files, order) && NothingStale(r, s, files) && TriggerAt(r, files, p, n)
    ensures var after := Synced(r, s, files, order).registered;
      n in after && after[n] == r.hash(files[p].content)
  {
    OnlyReader(r, s.cache, files, order, p, n);
    SyncResult(r, s, files, order, n);
    if Skipped(s.cache, files, p) {
      assert SkippedTrigger(r, s, files, n, r.hash(files[p].content));
      assert LivesOn(r, s, files, n, r.hash(files[p].content));
    }
  }

  lemma KeptHasTrigger(r: Reader, s: State, files: Files, order: seq<string>, n: string)
    requires Listing(files, order) && NothingStale(r, s, files) && n in Synced(r, s, files, order).registered
    ensures exists p :: TriggerAt(r, files, p, n)
  {
    SyncResult(r, s, files, order, n);
    if LastReader(r, s.cache, files, order, n).None? {
      assert SkippedTrigger(r, s, files, n, s.registered[n]);
    }
  }

  lemma RescannedIsNotStale(r: Reader, s: State, files: Files, order: seq<string>, n: string, h: string)
    requires UniqueNames(r, files) && Listing(files, order)
    requires Rescanned(r, files, Synced(r, s, files, order).registered)
    ensures SkippedTrigger(r, s, files, n, h) <==> LivesOn(r, s, files, n, h)
  {
    SyncResult(r, s, files, order, n);
    if SkippedTrigger(r, s, files, n, h) {
      var p :| Skipped(s.cache, files, p) && TriggerAt(r, files, p, n) && r.hash(files[p].content) == h;
      OnlyReader(r, s.cache, files, order, p, n);
    }
    if LivesOn(r, s, files, n, h) {
      LivingHasTrigger(r, s, files, order, n, h);
    }
  }

  lemma LivingHasTrigger(r: Reader, s: State, files: Files, order: seq<string>, n: string, h: string)
    requires Listing(files, order) && Rescanned(r, files, Synced(r, s, files, order).registered)
    requires LivesOn(r, s, files, n, h)
    ensures SkippedTrigger(r, s, files, n, h)
  {
    SyncResult(r, s, files, order, n);
    assert LastReader(r, s.cache, files, order, n).None?;
    var p :| TriggerAt(r, files, p, n);
    assert !ReadTrigger(r, s.cache, files, p, n);
  }

  // ----- From a state in step -----

  /** In step with files of unique names, and files that change their mtime with their content: nothing is stale. */
  lemma FaithfulIsNotStale(r: Reader, before: Files, now: Files, s: State)
    requires UniqueNames(r, before) && UniqueNames(r, now) && Faithful(before, now) && InStep(r, before, s)
    ensures NothingStale(r, s, now)
  {
    forall n, h
      ensures SkippedTrigger(r, s, now, n, h) <==> LivesOn(r, s, now, n, h)
    {
      if SkippedTrigger(r, s, now, n, h) {
        SkippedLivesOn(r, before, now, s, n, h);
      }
      if LivesOn(r, s, now, n, h) {
        LivingWasSkipped(r, before, now, s, n, h);
      }
    }
  }

  lemma SkippedLivesOn(r: Reader, before: Files, now: Files, s: State, n: string, h: string)
    requires UniqueNames(r, now) && Faithful(before, now) && InStep(r, before, s) && SkippedTrigger(r, s, now, n, h)
    ensures LivesOn(r, s, now, n, h)
  {
    var p :| Skipped(s.cache, now, p) && TriggerAt(r, now, p, n) && r.hash(now[p].content) == h;
    assert TriggerAt(r, before, p, n);
    assert NamedAt(r, now, p, n);
    forall q
      ensures !ReadTrigger(r, s.cache, now, q, n)
    {
      if TriggerAt(r, now, q, n) {
        assert NamedAt(r, now, q, n);
      }
    }
  }

  lemma LivingWasSkipped(r: Reader, before: Files, now: Files, s: State, n: string, h: string)
    requires UniqueNames(r, before) && Faithful(before, now) && InStep(r, before, s) && LivesOn(r, s, now, n, h)
    ensures SkippedTrigger(r, s, now, n, h)
  {
    var p :| Skipped(s.cache, now, p) && n != "" && s.cache[p].dagName == n;
    var q :| TriggerAt(r, before, q, n);
    assert NamedAt(r, before, p, n) && NamedAt(r, before, q, n);
    assert TriggerAt(r, now, p, n);
  }

  lemma SyncAgreesWithRescan(r: Reader, before: Files, now: Files, s: State, order: seq<string>)
    requires UniqueNames(r, before) && UniqueNames(r, now) && Faithful(before, now)
    requires InStep(r, before, s) && Listing(now, order)
    ensures InStep(r, now, Synced(r, s, now, order))
  {
    FaithfulIsNotStale(r, before, now, s);
    SyncAgreesIff(r, s, now, order);
    var cache := Synced(r, s, now, order).cache;
    forall p
      ensures p in cache <==> p in now
      ensures p in now ==> cache[p] == EntryOf(r, p, now[p])
    {
      SyncedCache(r, s, now, order, p);
    }
    assert cache == CacheOf(r, now);
  }

  // ----- Runs of syncs -----

  function StateAfter(r: Reader, snapshots: seq<Files>, orders: seq<seq<string>>): State
    requires |orders| == |snapshots|
  {
    if snapshots == [] then State(map[], map[])
    else
      var n := |snapshots| - 1;
      Synced(r, StateAfter(r, snapshots[..n], orders[..n]), snapshots[n], orders[n])
  }

  /** Every snapshot has unique names, and from one to the next the mtime changes whenever the content does. */
  ghost predicate History(r: Reader, snapshots: seq<Files>) {
    && (forall k :: 0 <= k < |snapshots| ==> UniqueNames(r, snapshots[k]))
    && (forall k :: 0 < k < |snapshots| ==> Faithful(snapshots[k - 1], snapshots[k]))
  }

  /** Starting from nothing, every sync leaves what a full rescan of the files of that moment would register. */
  lemma {:induction false} EverySyncAgrees(r: Reader, snapshots: seq<Files>, orders: seq<seq<string>>)
    requires snapshots != [] && |orders| == |snapshots| && History(r, snapshots)
    requires forall k :: 0 <= k < |snapshots| ==> Listing(snapshots[k], orders[k])
    ensures InStep(r, snapshots[|snapshots| - 1], StateAfter(r, snapshots, orders))
  {
    var n := |snapshots| - 1;
    if n == 0 {
      assert StateAfter(r, snapshots[..0], orders[..0]) == State(map[], map[]);
      EmptyInStep(r);
      SyncAgreesWithRescan(r, map[], snapshots[0], State(map[], map[]), orders[0]);
    } else {
      EverySyncAgrees(r, snapshots[..n], orders[..n]);
      SyncAgreesWithRescan(r, snapshots[n - 1], snapshots[n], StateAfter(r, snapshots[..n], orders[..n]), orders[n]);
    }
  }

  lemma EmptyInStep(r: Reader)
    ensures InStep(r, map[], State(map[], map[])) && UniqueNames(r, map[])
  {
  }

  // ----- How a sync goes stale -----

  /** A skipped file whose trigger is registered with another hash, or not at all, stays wrong as long as no file with
      a trigger of its name is read. */
  lemma StaleStaysStale(r: Reader, s: State, files: Files, order: seq<string>, p: string, n: string)
    requires Listing(files, order) && TriggerAt(r, files, p, n) && LastReader(r, s.cache, files, order, n).None?
    requires n in s.registered ==> s.registered[n] != r.hash(files[p].content)
    ensures !Rescanned(r, files, Synced(r, s, files, order).registered)
  {
    SyncResult(r, s, files, order, n);
  }

  /** Two files of one name: the last one read takes the name, and when it is gone, the other is not registered again
      for as long as neither it nor another file of that name changes. */
  lemma DuplicateNameGoesStale(r: Reader, s: State, both: Files, order: seq<string>, p: string, q: string, n: string,
      later: Files, laterOrder: seq<string>)
    requires Listing(both, order) && LastReader(r, s.cache, both, order, n) == Some(q)
    requires Listing(later, laterOrder) && TriggerAt(r, later, p, n)
    requires r.hash(later[p].content) != r.hash(both[q].content)
    requires LastReader(r, Synced(r, s, both, order).cache, later, laterOrder, n).None?
    ensures !Rescanned(r, later, Synced(r, Synced(r, s, both, order), later, laterOrder).registered)
  {
    SyncResult(r, s, both, order, n);
    StaleStaysStale(r, Synced(r, s, both, order), later, laterOrder, p, n);
  }

  /** A file that has been registered and is rewritten with its old mtime: the new content goes unnoticed. */
  lemma KeptMtimeGoesStale(r: Reader, before: Files, now: Files, s: State, order: seq<string>, p: string, n: string)
    requires InStep(r, before, s) && UniqueNames(r, now) && Listing(now, order)
    requires TriggerAt(r, before, p, n) && p in now && now[p].mtime == before[p].mtime
    requires TriggerAt(r, now, p, n) && r.hash(now[p].content) != r.hash(before[p].content)
    ensures !Rescanned(r, now, Synced(r, s, now, order).registered)
  {
    OnlyReader(r, s.cache, now, order, p, n);
    StaleStaysStale(r, s, now, order, p, n);
  }

  /** It can happen: two files called "d", read in this order, then the second is deleted. */
  lemma DuplicateNameExample(r: Reader, both: Files, one: Files)
    requires r.parse("a.yaml", "1") == Trigger("d") && r.parse("b.yaml", "2") == Trigger("d")
    requires r.hash("1") != r.hash("2")
    requires both == map["a.yaml" := File(1, "1"), "b.yaml" := File(1, "2")] && one == map["a.yaml" := File(1, "1")]
    ensures Listing(both, ["a.yaml", "b.yaml"]) && Listing(one, ["a.yaml"])
    ensures UniqueNames(r, one) && Faithful(both, one)
    ensures var after := Synced(r, State(map[], map[]), both, ["a.yaml", "b.yaml"]);
      !Rescanned(r, one, Synced(r, after, one, ["a.yaml"]).registered)
  {
    assert both.Keys == {"a.yaml", "b.yaml"} && one.Keys == {"a.yaml"};
    var empty := State(map[], map[]);
    var order := ["a.yaml", "b.yaml"];
    assert ReadTrigger(r, map[], both, order[1], "d");
    SyncedCache(r, empty, both, order, "a.yaml");
    var cache := Synced(r, empty, both, order).cache;
    assert Skipped(cache, one, "a.yaml");
    DuplicateNameGoesStale(r, empty, both, order, "a.yaml", "b.yaml", "d", one, ["a.yaml"]);
  }

  // ----- The scheduler's registration state -----

  class Registry {
    const reader: Reader
    var registered: Registered
    var syncCache: map<string, CacheEntry>

    constructor (reader: Reader)
      ensures this.reader == reader && View() == State(map[], map[])
    {
      this.reader := reader;
      registered, syncCache := map[], map[];
    }

    ghost function View(): State
      reads this
    {
      State(registered, syncCache)
    }

    method VisitFile(path: string, f: File, seen0: set<string>) returns (seen: set<string>)
      modifies this
      ensures Pass(registered, syncCache, seen) == Visit(reader, Pass(old(registered), old(syncCache), seen0), path, f)
    {
      seen := seen0;
      if path in syncCache && syncCache[path].mtime == f.mtime {
        if syncCache[path].dagName != "" {
          seen := seen + {syncCache[path].dagName};
        }
        return;
      }
      var hash := reader.hash(f.content);
      var d := reader.parse(path, f.content);
      if d.Unparseable? {
        syncCache := syncCache[path := CacheEntry(f.mtime, "")];
        return;
      }
      if d.NoTrigger? {
        syncCache := syncCache[path := CacheEntry(f.mtime, d.name)];
        return;
      }
      seen := seen + {d.name};
      syncCache := syncCache[path := CacheEntry(f.mtime, d.name)];
      if d.name in registered && registered[d.name] == hash {
        assert registered[d.name := hash] == registered;
        return;
      }
      if d.name in registered {
        registered := registered - {d.name};
      }
      registered := registered[d.name := hash];
      assert registered == old(registered)[d.name := hash];
    }

    method PruneUnregistered(files: Files, seen: set<string>)
      modifies this
      ensures Pass(registered, syncCache, seen) == Pruned(Pass(old(registered), old(syncCache), seen), files)
    {
      registered := map n | n in registered && n in seen :: registered[n];
      syncCache := map p | p in syncCache && p in files :: syncCache[p];
    }

    method SyncDAGs(files: Files, order: seq<string>)
      requires Listing(files, order)
      modifies this
      ensures View() == Synced(reader, old(View()), files, order)
    {
      var seen := {};
      ghost var start := Pass(registered, syncCache, {});
      for k := 0 to |order|
        invariant Pass(registered, syncCache, seen) == VisitAll(reader, start, files, order[..k])
      {
        assert order[k] in TopoSort.Elements(order);
        assert order[..k + 1][..k] == order[..k];
        seen := VisitFile(order[k], files[order[k]], seen);
      }
      assert order[..|order|] == order;
      PruneUnregistered(files, seen);
    }
  }
}
