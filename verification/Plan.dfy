/** The two plan passes against reachability (api/dags.go, internal/cli/plan.go). */
module Plan {
  import opened Dag
  import TopoSort

  datatype Status = NoCache | Cached | Outdated

  datatype PlanEntry = PlanEntry(stepId: string, status: Status, reason: string)

  /** Whether the step's own cache lookup hits; environment and store are fixed during a plan. */
  type Lookup = Step -> bool

  // ----- Which steps are stale -----

  ghost predicate CachedStep(steps: seq<Step>, id: string) {
    exists s :: s in steps && s.id == id && s.cache
  }

  ghost predicate Misses(steps: seq<Step>, hit: Lookup, id: string) {
    exists s :: s in steps && s.id == id && !hit(s)
  }

  /** A dependency path through steps with caching enabled that ends in a step whose own lookup misses. */
  ghost predicate MissPath(steps: seq<Step>, hit: Lookup, p: seq<string>) {
    && p != []
    && (forall k :: 0 <= k < |p| ==> CachedStep(steps, p[k]))
    && (forall k :: 0 <= k < |p| - 1 ==> Edge(steps, p[k], p[k + 1]))
    && Misses(steps, hit, p[|p| - 1])
  }

  ghost predicate Stale(steps: seq<Step>, hit: Lookup, id: string) {
    exists p :: MissPath(steps, hit, p) && p[0] == id
  }

  ghost predicate SomeStale(steps: seq<Step>, hit: Lookup, ids: seq<string>) {
    exists d :: d in ids && Stale(steps, hit, d)
  }

  lemma OneStepPerId(steps: seq<Step>, s: Step, t: Step)
    requires UniqueIds(steps) && s in steps && t in steps && s.id == t.id
    ensures s == t
  {
    var i :| 0 <= i < |steps| && steps[i] == s;
    var j :| 0 <= j < |steps| && steps[j] == t;
  }

  lemma StalePath(steps: seq<Step>, hit: Lookup, s: Step, p: seq<string>)
    requires UniqueIds(steps) && s in steps && MissPath(steps, hit, p) && p[0] == s.id
    ensures s.cache && (!hit(s) || SomeStale(steps, hit, s.depends))
  {
    assert CachedStep(steps, p[0]);
    var c :| c in steps && c.id == s.id && c.cache;
    OneStepPerId(steps, s, c);
    if |p| == 1 {
      var m :| m in steps && m.id == s.id && !hit(m);
      OneStepPerId(steps, s, m);
    } else {
      assert Edge(steps, p[0], p[1]);
      var u :| u in steps && u.id == p[0] && p[1] in u.depends;
      OneStepPerId(steps, s, u);
      assert MissPath(steps, hit, p[1..]);
      assert p[1..][0] == p[1];
    }
  }

  lemma ExtendPath(steps: seq<Step>, hit: Lookup, s: Step, d: string)
    requires s in steps && s.cache && d in s.depends && Stale(steps, hit, d)
    ensures Stale(steps, hit, s.id)
  {
    var p :| MissPath(steps, hit, p) && p[0] == d;
    var q := [s.id] + p;
    assert CachedStep(steps, s.id) && Edge(steps, s.id, d);
    forall k | 0 <= k < |q| - 1
      ensures Edge(steps, q[k], q[k + 1])
    {
      if k > 0 {
        assert Edge(steps, p[k - 1], p[k]);
      }
    }
    assert MissPath(steps, hit, q) && q[0] == s.id;
  }

  lemma StaleStep(steps: seq<Step>, hit: Lookup, s: Step)
    requires UniqueIds(steps) && s in steps
    ensures Stale(steps, hit, s.id) <==> s.cache && (!hit(s) || SomeStale(steps, hit, s.depends))
  {
    if Stale(steps, hit, s.id) {
      var p :| MissPath(steps, hit, p) && p[0] == s.id;
      StalePath(steps, hit, s, p);
    }
    if s.cache && !hit(s) {
      assert CachedStep(steps, s.id) && Misses(steps, hit, s.id);
      assert MissPath(steps, hit, [s.id]);
      assert [s.id][0] == s.id;
    }
    if s.cache && SomeStale(steps, hit, s.depends) {
      var d :| d in s.depends && Stale(steps, hit, d);
      ExtendPath(steps, hit, s, d);
    }
  }

  // ----- Topological order -----

  ghost predicate Before(steps: seq<Step>, i: int, d: string) {
    exists j :: 0 <= j < i && j < |steps| && steps[j].id == d
  }

  ghost predicate TopologicalOrder(steps: seq<Step>) {
    UniqueIds(steps) && forall i, d :: 0 <= i < |steps| && d in steps[i].depends ==> Before(steps, i, d)
  }

  function Flatten(tiers: seq<seq<Step>>): seq<Step> {
    if tiers == [] then [] else Flatten(tiers[..|tiers| - 1]) + tiers[|tiers| - 1]
  }

  method FlattenTiers(tiers: seq<seq<Step>>) returns (steps: seq<Step>)
    ensures steps == Flatten(tiers)
  {
    steps := [];
    for t := 0 to |tiers|
      invariant steps == Flatten(tiers[..t])
    {
      assert tiers[..t + 1][..t] == tiers[..t];
      steps := steps + tiers[t];
    }
    assert tiers[..|tiers|] == tiers;
  }

  lemma {:induction false} InFlatten(tiers: seq<seq<Step>>, s: Step)
    ensures s in Flatten(tiers) <==> exists t :: 0 <= t < |tiers| && s in tiers[t]
  {
    if tiers != [] {
      InFlatten(tiers[..|tiers| - 1], s);
    }
  }

  ghost predicate ByTier(tiers: seq<seq<Step>>, tierOf: map<string, nat>) {
    forall t, s :: 0 <= t < |tiers| && s in tiers[t] ==> s.id in tierOf && tierOf[s.id] == t
  }

  lemma InEarlierTier(tiers: seq<seq<Step>>, tierOf: map<string, nat>, s: Step)
    requires ByTier(tiers, tierOf) && s in Flatten(tiers)
    ensures s.id in tierOf && tierOf[s.id] < |tiers|
  {
    InFlatten(tiers, s);
  }

  lemma JoinUnique(a: seq<Step>, b: seq<Step>)
    requires UniqueIds(a) && UniqueIds(b) && forall s, t :: s in a && t in b ==> s.id != t.id
    ensures UniqueIds(a + b)
  {
  }

  lemma {:induction false} FlattenUnique(tiers: seq<seq<Step>>, tierOf: map<string, nat>)
    requires ByTier(tiers, tierOf) && forall t :: 0 <= t < |tiers| ==> UniqueIds(tiers[t])
    ensures UniqueIds(Flatten(tiers))
  {
    if tiers != [] {
      var n := |tiers| - 1;
      FlattenUnique(tiers[..n], tierOf);
      forall s, t | s in Flatten(tiers[..n]) && t in tiers[n]
        ensures s.id != t.id
      {
        InEarlierTier(tiers[..n], tierOf, s);
      }
      JoinUnique(Flatten(tiers[..n]), tiers[n]);
    }
  }

  /** A step of an earlier tier stands before every step of a later one. */
  lemma {:induction false} EarlierTierFirst(tiers: seq<seq<Step>>, tierOf: map<string, nat>, d: Step, i: nat)
    requires ByTier(tiers, tierOf) && d in Flatten(tiers) && i < |Flatten(tiers)|
    requires d.id in tierOf && Flatten(tiers)[i].id in tierOf && tierOf[d.id] < tierOf[Flatten(tiers)[i].id]
    ensures Before(Flatten(tiers), i, d.id)
  {
    var n := |tiers| - 1;
    var init := Flatten(tiers[..n]);
    InFlatten(tiers, d);
    InFlatten(tiers[..n], d);
    var t :| 0 <= t < |tiers| && d in tiers[t];
    if i < |init| {
      InEarlierTier(tiers[..n], tierOf, init[i]);
      assert tiers[..n][t] == tiers[t];
      EarlierTierFirst(tiers[..n], tierOf, d, i);
      var j :| 0 <= j < i && j < |init| && init[j].id == d.id;
      assert Flatten(tiers)[j].id == d.id;
    } else {
      assert Flatten(tiers)[i] in tiers[n];
      assert tiers[..n][t] == tiers[t];
      var j :| 0 <= j < |init| && init[j] == d;
      assert Flatten(tiers)[j].id == d.id;
    }
  }

  /** The tiers a topological sort returns, laid end to end, are in topological order and hold all steps. */
  lemma TiersAreOrdered(steps: seq<Step>, tiers: seq<seq<Step>>, tierOf: map<string, nat>)
    requires TopoSort.Layering(steps, tiers, tierOf)
    ensures TopologicalOrder(Flatten(tiers))
    ensures forall s :: s in Flatten(tiers) <==> s in steps
  {
    FlattenUnique(tiers, tierOf);
    forall s
      ensures s in Flatten(tiers) <==> s in steps
    {
      InFlatten(tiers, s);
    }
    var flat := Flatten(tiers);
    forall i, d | 0 <= i < |flat| && d in flat[i].depends
      ensures Before(flat, i, d)
    {
      assert flat[i] in flat;
      var e :| e in steps && e.id == d;
      EarlierTierFirst(tiers, tierOf, e, i);
    }
  }

  // ----- The passes -----

  ghost function StatusOf(steps: seq<Step>, hit: Lookup, s: Step): Status {
    if !s.cache then NoCache else if Stale(steps, hit, s.id) then Outdated else Cached
  }

  ghost function FirstStale(steps: seq<Step>, hit: Lookup, ids: seq<string>): string {
    if ids == [] then "" else if Stale(steps, hit, ids[0]) then ids[0] else FirstStale(steps, hit, ids[1..])
  }

  /** The reason names the first stale dependency; a step without one is outdated for its own reason. */
  ghost function ReasonOf(steps: seq<Step>, hit: Lookup, s: Step, own: string): string {
    if !s.cache then "caching not enabled"
    else if SomeStale(steps, hit, s.depends) then "upstream " + FirstStale(steps, hit, s.depends) + " changed"
    else if hit(s) then ""
    else own
  }

  ghost predicate NonEmptyIds(steps: seq<Step>) {
    forall s :: s in steps ==> s.id != ""
  }

  /** The outdated steps found among the first n are the stale ones. */
  ghost predicate Marks(steps: seq<Step>, hit: Lookup, n: nat, outdated: set<string>) {
    forall id :: id in outdated <==> Before(steps, n, id) && Stale(steps, hit, id)
  }

  lemma MarksDeps(steps: seq<Step>, hit: Lookup, n: nat, outdated: set<string>, d: string)
    requires TopologicalOrder(steps) && n < |steps| && Marks(steps, hit, n, outdated) && d in steps[n].depends
    ensures d in outdated <==> Stale(steps, hit, d)
    ensures NonEmptyIds(steps) ==> d != ""
  {
    assert Before(steps, n, d);
    var j :| 0 <= j < n && steps[j].id == d;
    assert steps[j] in steps;
  }

  lemma MarkNext(steps: seq<Step>, hit: Lookup, n: nat, outdated: set<string>)
    requires TopologicalOrder(steps) && n < |steps| && Marks(steps, hit, n, outdated)
    ensures Marks(steps, hit, n + 1, if Stale(steps, hit, steps[n].id) then outdated + {steps[n].id} else outdated)
  {
    forall id
      ensures Before(steps, n + 1, id) <==> Before(steps, n, id) || id == steps[n].id
    {
      if Before(steps, n, id) {
        var j :| 0 <= j < n && steps[j].id == id;
      }
      assert 0 <= n < n + 1;
    }
  }

  method UpstreamOutdated(ghost steps: seq<Step>, ghost hit: Lookup, ghost n: nat, depends: seq<string>, outdated: set<string>)
      returns (upstream: string)
    requires TopologicalOrder(steps) && NonEmptyIds(steps) && n < |steps| && depends == steps[n].depends
    requires Marks(steps, hit, n, outdated)
    ensures upstream != "" <==> SomeStale(steps, hit, depends)
    ensures upstream != "" ==> upstream == FirstStale(steps, hit, depends)
  {
    upstream := "";
    for k := 0 to |depends|
      invariant forall m :: 0 <= m < k ==> !Stale(steps, hit, depends[m])
      invariant FirstStale(steps, hit, depends) == FirstStale(steps, hit, depends[k..])
    {
      MarksDeps(steps, hit, n, outdated, depends[k]);
      if depends[k] in outdated {
        return depends[k];
      }
    }
  }

  ghost predicate Planned(steps: seq<Step>, hit: Lookup, n: nat, entries: seq<PlanEntry>, own: Step -> string) {
    && |entries| == n <= |steps|
    && forall i :: 0 <= i < n ==> EntryFits(steps, hit, steps[i], entries[i], own(steps[i]))
  }

  ghost predicate EntryFits(steps: seq<Step>, hit: Lookup, s: Step, e: PlanEntry, own: string) {
    e == PlanEntry(s.id, StatusOf(steps, hit, s), ReasonOf(steps, hit, s, own))
  }

  function ApiReason(s: Step): string {
    if s.script != "" then "script " + s.script + " changed" else "inputs changed"
  }

  function ReasonForOutdated(s: Step): string {
    if s.script != "" then "script " + s.script + " changed"
    else if s.rExpr != "" then "r_expr changed"
    else if s.command != "" then "command changed"
    else "inputs changed"
  }

  lemma PlanGrows(steps: seq<Step>, hit: Lookup, n: nat, entries: seq<PlanEntry>, own: Step -> string, e: PlanEntry)
    requires n < |steps| && Planned(steps, hit, n, entries, own)
    requires EntryFits(steps, hit, steps[n], e, own(steps[n]))
    ensures Planned(steps, hit, n + 1, entries + [e], own)
  {
  }

  method BuildPlanEntries(steps: seq<Step>, hit: Lookup) returns (entries: seq<PlanEntry>)
    requires TopologicalOrder(steps) && NonEmptyIds(steps)
    ensures Planned(steps, hit, |steps|, entries, ApiReason)
  {
    entries := [];
    var outdated: set<string> := {};
    for n := 0 to |steps|
      invariant Planned(steps, hit, n, entries, ApiReason) && Marks(steps, hit, n, outdated)
    {
      var step := steps[n];
      var entry;
      StaleStep(steps, hit, step);
      MarkNext(steps, hit, n, outdated);
      if !step.cache {
        entry := PlanEntry(step.id, NoCache, "caching not enabled");
      } else {
        var upstream := UpstreamOutdated(steps, hit, n, step.depends, outdated);
        if upstream != "" {
          outdated := outdated + {step.id};
          entry := PlanEntry(step.id, Outdated, "upstream " + upstream + " changed");
        } else if hit(step) {
          entry := PlanEntry(step.id, Cached, "");
        } else {
          outdated := outdated + {step.id};
          if step.script != "" {
            entry := PlanEntry(step.id, Outdated, "script " + step.script + " changed");
          } else {
            entry := PlanEntry(step.id, Outdated, "inputs changed");
          }
        }
      }
      PlanGrows(steps, hit, n, entries, ApiReason, entry);
      entries := entries + [entry];
    }
  }

  method ComputePlan(steps: seq<Step>, hit: Lookup) returns (entries: seq<PlanEntry>)
    requires TopologicalOrder(steps) && NonEmptyIds(steps)
    ensures Planned(steps, hit, |steps|, entries, ReasonForOutdated)
  {
    entries := [];
    var outdated: set<string> := {};
    for n := 0 to |steps|
      invariant Planned(steps, hit, n, entries, ReasonForOutdated) && Marks(steps, hit, n, outdated)
    {
      var step := steps[n];
      var entry;
      StaleStep(steps, hit, step);
      MarkNext(steps, hit, n, outdated);
      if !step.cache {
        entry := PlanEntry(step.id, NoCache, "caching not enabled");
      } else {
        var upstream := UpstreamOutdated(steps, hit, n, step.depends, outdated);
        if upstream != "" {
          outdated := outdated + {step.id};
          entry := PlanEntry(step.id, Outdated, "upstream " + upstream + " changed");
        } else if hit(step) {
          entry := PlanEntry(step.id, Cached, "");
        } else {
          outdated := outdated + {step.id};
          entry := PlanEntry(step.id, Outdated, ReasonForOutdated(step));
        }
      }
      PlanGrows(steps, hit, n, entries, ReasonForOutdated, entry);
      entries := entries + [entry];
    }
  }

  ghost predicate FirstStaleIs(steps: seq<Step>, hit: Lookup, ids: seq<string>, m: int) {
    0 <= m < |ids| && Stale(steps, hit, ids[m]) && forall j :: 0 <= j < m ==> !Stale(steps, hit, ids[j])
  }

  /** The reasons in words. A step is told the first of its dependencies that is outdated; an outdated step without one is
      told what it runs itself, which the two passes spell differently for steps that are not scripts. */
  lemma ReasonsInWords(steps: seq<Step>, hit: Lookup, api: seq<PlanEntry>, cli: seq<PlanEntry>, i: nat)
    requires TopologicalOrder(steps) && i < |steps|
    requires Planned(steps, hit, |steps|, api, ApiReason) && Planned(steps, hit, |steps|, cli, ReasonForOutdated)
    ensures api[i].status == NoCache ==> api[i].reason == cli[i].reason == "caching not enabled"
    ensures api[i].status == Cached ==> api[i].reason == cli[i].reason == ""
    ensures forall m :: steps[i].cache && FirstStaleIs(steps, hit, steps[i].depends, m) ==>
      api[i].status == Outdated && api[i].reason == cli[i].reason == "upstream " + steps[i].depends[m] + " changed"
    ensures api[i].status == Outdated && !SomeStale(steps, hit, steps[i].depends) ==>
      OwnReason(steps[i], api[i].reason, cli[i].reason)
  {
    var s := steps[i];
    StaleStep(steps, hit, s);
    assert EntryFits(steps, hit, s, api[i], ApiReason(s));
    assert EntryFits(steps, hit, s, cli[i], ReasonForOutdated(s));
    forall m | FirstStaleIs(steps, hit, s.depends, m)
      ensures FirstStale(steps, hit, s.depends) == s.depends[m]
    {
      FirstStaleAt(steps, hit, s.depends, m);
    }
    OwnReasons(s);
  }

  predicate OwnReason(s: Step, api: string, cli: string) {
    && (s.script != "" ==> api == cli == "script " + s.script + " changed")
    && (s.script == "" ==> api == "inputs changed")
    && (s.script == "" && s.rExpr != "" ==> cli == "r_expr changed")
    && (s.script == "" && s.rExpr == "" && s.command != "" ==> cli == "command changed")
    && (s.script == "" && s.rExpr == "" && s.command == "" ==> cli == "inputs changed")
  }

  lemma OwnReasons(s: Step)
    ensures OwnReason(s, ApiReason(s), ReasonForOutdated(s))
  {
  }

  lemma {:induction false} FirstStaleAt(steps: seq<Step>, hit: Lookup, ids: seq<string>, m: int)
    decreases |ids|
    requires FirstStaleIs(steps, hit, ids, m)
    ensures FirstStale(steps, hit, ids) == ids[m]
  {
    if m > 0 {
      FirstStaleAt(steps, hit, ids[1..], m - 1);
    }
  }

  /** Both passes call a step outdated exactly when a path through cached steps leads from it to a miss. */
  lemma PassesAgree(steps: seq<Step>, hit: Lookup, api: seq<PlanEntry>, cli: seq<PlanEntry>, i: nat)
    requires TopologicalOrder(steps) && i < |steps|
    requires Planned(steps, hit, |steps|, api, ApiReason) && Planned(steps, hit, |steps|, cli, ReasonForOutdated)
    ensures api[i].stepId == cli[i].stepId == steps[i].id
    ensures api[i].status == cli[i].status
    ensures api[i].status == Outdated <==> exists p :: MissPath(steps, hit, p) && p[0] == steps[i].id
    ensures api[i].status == NoCache <==> !steps[i].cache
  {
    assert steps[i] in steps;
    StaleStep(steps, hit, steps[i]);
    assert EntryFits(steps, hit, steps[i], api[i], ApiReason(steps[i]));
    assert EntryFits(steps, hit, steps[i], cli[i], ReasonForOutdated(steps[i]));
  }
}
