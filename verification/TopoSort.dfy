/** Kahn's algorithm, tier by tier (dag/toposort.go). */
module TopoSort {
  import opened Dag

  datatype Result = Tiers(tiers: seq<seq<Step>>) | CycleDetected(unscheduled: int)

  // ----- What a layering is -----

  predicate AllPlaced(deps: seq<string>, tierOf: map<string, nat>) {
    forall d :: d in deps ==> d in tierOf
  }

  /** Tier t is the earliest a step with these dependencies can have: they are all placed earlier,
      one of them in the tier just before. */
  predicate Fits(deps: seq<string>, tierOf: map<string, nat>, t: nat) {
    && (forall d :: d in deps ==> d in tierOf && tierOf[d] < t)
    && (t > 0 ==> exists d :: d in deps && d in tierOf && tierOf[d] == t - 1)
  }

  /** tierOf gives every step that can be placed at all the tier it fits in, and no other step a tier. */
  ghost predicate Ranked(steps: seq<Step>, tierOf: map<string, nat>) {
    && tierOf.Keys <= Ids(steps)
    && (forall s :: s in steps ==> (s.id in tierOf <==> AllPlaced(s.depends, tierOf)))
    && (forall s :: s in steps && s.id in tierOf ==> Fits(s.depends, tierOf, tierOf[s.id]))
  }

  /** The tiers hold exactly the placed steps, each once, and no tier is empty. */
  ghost predicate Holds(steps: seq<Step>, tiers: seq<seq<Step>>, tierOf: map<string, nat>) {
    && (forall s :: s in steps && s.id in tierOf ==> tierOf[s.id] < |tiers| && s in tiers[tierOf[s.id]])
    && (forall t, s :: 0 <= t < |tiers| && s in tiers[t] ==> s in steps && s.id in tierOf && tierOf[s.id] == t)
    && (forall t :: 0 <= t < |tiers| ==> tiers[t] != [] && UniqueIds(tiers[t]))
  }

  ghost predicate Layering(steps: seq<Step>, tiers: seq<seq<Step>>, tierOf: map<string, nat>) {
    Ranked(steps, tierOf) && Holds(steps, tiers, tierOf) && tierOf.Keys == Ids(steps)
  }

  predicate NoDuplicates(q: seq<string>) {
    forall i, j :: 0 <= i < j < |q| ==> q[i] != q[j]
  }

  function Elements(q: seq<string>): set<string> {
    set id | id in q
  }

  // ----- What tiers mean for the graph -----

  lemma {:induction false} WalkDescends(steps: seq<Step>, tierOf: map<string, nat>, p: seq<string>)
    requires Ranked(steps, tierOf) && Walk(steps, p) && p[0] in tierOf
    ensures p[|p| - 1] in tierOf && tierOf[p[|p| - 1]] + |p| - 1 <= tierOf[p[0]]
  {
    if |p| > 1 {
      var q := p[..|p| - 1];
      WalkDescends(steps, tierOf, q);
    }
  }

  lemma {:induction false} WalkAttainsTier(steps: seq<Step>, tierOf: map<string, nat>, id: string)
      returns (p: seq<string>)
    requires Ranked(steps, tierOf) && id in tierOf
    ensures Walk(steps, p) && p[0] == id && |p| - 1 == tierOf[id]
    decreases tierOf[id]
  {
    if tierOf[id] == 0 {
      p := [id];
    } else {
      var s :| s in steps && s.id == id;
      var d :| d in s.depends && d in tierOf && tierOf[d] == tierOf[id] - 1;
      var q := WalkAttainsTier(steps, tierOf, d);
      p := [id] + q;
      assert Edge(steps, id, d);
      assert forall k :: 0 < k < |p| ==> p[k] == q[k - 1];
    }
  }

  ghost predicate WalkFrom(steps: seq<Step>, id: string, edges: nat, p: seq<string>) {
    Walk(steps, p) && p[0] == id && |p| - 1 == edges
  }

  /** The tier of a placed step is the length of the longest dependency path that starts at it. */
  lemma TierIsDepth(steps: seq<Step>, tierOf: map<string, nat>, id: string)
    requires Ranked(steps, tierOf) && id in tierOf
    ensures exists p :: WalkFrom(steps, id, tierOf[id], p)
    ensures forall p, n :: WalkFrom(steps, id, n, p) ==> n <= tierOf[id]
  {
    var p := WalkAttainsTier(steps, tierOf, id);
    assert WalkFrom(steps, id, tierOf[id], p);
    forall q, n | WalkFrom(steps, id, n, q)
      ensures n <= tierOf[id]
    {
      WalkDescends(steps, tierOf, q);
    }
  }

  lemma {:induction false} DistinctCount(q: seq<string>)
    requires NoDuplicates(q)
    ensures |Elements(q)| == |q|
  {
    if q != [] {
      DistinctCount(q[1..]);
      assert Elements(q) == {q[0]} + Elements(q[1..]);
    }
  }

  lemma PartSize<T>(all: set<T>, part: set<T>)
    requires part <= all
    ensures |all| == |part| + |all - part|
    ensures |part| == |all| ==> part == all
  {
    assert all == part + (all - part);
    assert all - part == {} ==> part == all;
  }

  /** A path that follows next. */
  predicate Follows(p: seq<string>, next: map<string, string>) {
    forall k :: 0 <= k < |p| - 1 ==> p[k] in next && p[k + 1] == next[p[k]]
  }

  /** Following successors inside a finite set must close a cycle. */
  lemma {:induction false} FindCycle(next: map<string, string>, p: seq<string>) returns (c: seq<string>)
    requires next.Values <= next.Keys
    requires p != [] && Follows(p, next) && NoDuplicates(p) && Elements(p) <= next.Keys
    ensures |c| >= 2 && c[0] == c[|c| - 1] && Follows(c, next) && Elements(c) <= next.Keys
    decreases |next.Keys| - |p|
  {
    var last := p[|p| - 1];
    assert last in Elements(p);
    var q := p + [next[last]];
    assert next[last] in next.Values;
    if next[last] in p {
      var k :| 0 <= k < |p| && p[k] == next[last];
      c := q[k..];
    } else {
      DistinctCount(q);
      PartSize(next.Keys, Elements(q));
      c := FindCycle(next, q);
    }
  }

  /** Only an unknown dependency or another unplaced step can keep a step unplaced. */
  lemma BlockedBy(steps: seq<Step>, tierOf: map<string, nat>, u: string) returns (d: string)
    requires Ranked(steps, tierOf) && u in Ids(steps) && u !in tierOf
    ensures Edge(steps, u, d) && d !in tierOf
  {
    var s :| s in steps && s.id == u;
    d :| d in s.depends && d !in tierOf;
  }

  ghost predicate Blocks(steps: seq<Step>, tierOf: map<string, nat>, u: string, d: string) {
    Edge(steps, u, d) && d !in tierOf
  }

  lemma ChooseBlockers(steps: seq<Step>, tierOf: map<string, nat>) returns (next: map<string, string>)
    requires Ranked(steps, tierOf)
    ensures next.Keys == Ids(steps) - tierOf.Keys
    ensures forall u :: u in next ==> Blocks(steps, tierOf, u, next[u])
  {
    var stuck := Ids(steps) - tierOf.Keys;
    forall u | u in stuck ensures exists d :: Blocks(steps, tierOf, u, d) {
      var d := BlockedBy(steps, tierOf, u);
      assert Blocks(steps, tierOf, u, d);
    }
    next := map u | u in stuck :: var d :| Blocks(steps, tierOf, u, d); d;
  }

  ghost predicate WaitsForUnknown(steps: seq<Step>, tierOf: map<string, nat>) {
    exists u, d :: Blocks(steps, tierOf, u, d) && u !in tierOf && d !in Ids(steps)
  }

  ghost predicate UnplacedCycle(steps: seq<Step>, tierOf: map<string, nat>, c: seq<string>) {
    Cycle(steps, c) && Elements(c) <= Ids(steps) - tierOf.Keys
  }

  lemma SuccessorCycle(steps: seq<Step>, tierOf: map<string, nat>, next: map<string, string>) returns (c: seq<string>)
    requires next != map[] && next.Values <= next.Keys
    requires next.Keys <= Ids(steps) - tierOf.Keys
    requires forall u :: u in next ==> Blocks(steps, tierOf, u, next[u])
    ensures UnplacedCycle(steps, tierOf, c)
  {
    var u :| u in next;
    c := FindCycle(next, [u]);
    CycleOfNext(steps, tierOf, next, c);
  }

  /** What is left over when not everything can be placed: a step waiting for an unknown one, or a cycle. */
  lemma UnplacedHaveReason(steps: seq<Step>, tierOf: map<string, nat>)
    requires Ranked(steps, tierOf) && tierOf.Keys != Ids(steps)
    ensures WaitsForUnknown(steps, tierOf) || exists c :: UnplacedCycle(steps, tierOf, c)
  {
    var next := ChooseBlockers(steps, tierOf);
    if !WaitsForUnknown(steps, tierOf) {
      BlockersAreBlocked(steps, tierOf, next);
      SomeUnplaced(Ids(steps), tierOf.Keys);
      var c := SuccessorCycle(steps, tierOf, next);
    }
  }

  lemma SomeUnplaced(all: set<string>, placed: set<string>)
    requires placed <= all && placed != all
    ensures all - placed != {}
  {
    assert all == placed + (all - placed);
  }

  lemma BlockersAreBlocked(steps: seq<Step>, tierOf: map<string, nat>, next: map<string, string>)
    requires !WaitsForUnknown(steps, tierOf) && next.Keys == Ids(steps) - tierOf.Keys
    requires forall u :: u in next ==> Blocks(steps, tierOf, u, next[u])
    ensures next.Values <= next.Keys
  {
    forall d | d in next.Values
      ensures d in next.Keys
    {
      var u :| u in next && next[u] == d;
      assert Blocks(steps, tierOf, u, d);
    }
  }

  lemma CycleOfNext(steps: seq<Step>, tierOf: map<string, nat>, next: map<string, string>, c: seq<string>)
    requires next.Keys <= Ids(steps)
    requires forall u :: u in next ==> Blocks(steps, tierOf, u, next[u])
    requires |c| >= 2 && c[0] == c[|c| - 1] && Follows(c, next)
    ensures Cycle(steps, c)
  {
    forall k | 0 <= k < |c| - 1
      ensures Edge(steps, c[k], c[k + 1])
    {
      assert Blocks(steps, tierOf, c[k], next[c[k]]);
    }
  }

  /** Everything can be placed exactly when all dependencies are known and there is no cycle. */
  lemma PlacedIffAcyclic(steps: seq<Step>, tierOf: map<string, nat>)
    requires Ranked(steps, tierOf)
    ensures tierOf.Keys == Ids(steps) <==> KnownDepends(steps) && Acyclic(steps)
  {
    if tierOf.Keys == Ids(steps) {
      forall s, d | s in steps && d in s.depends
        ensures d in Ids(steps)
      {
        assert s.id in tierOf;
      }
      forall p
        ensures !Cycle(steps, p)
      {
        if Cycle(steps, p) {
          WalkDescends(steps, tierOf, p);
        }
      }
    } else {
      UnplacedHaveReason(steps, tierOf);
      if WaitsForUnknown(steps, tierOf) {
        var u, d :| Blocks(steps, tierOf, u, d) && d !in Ids(steps);
        assert !KnownDepends(steps);
      } else {
        var c :| UnplacedCycle(steps, tierOf, c);
        assert Cycle(steps, c);
      }
    }
  }

  // ----- Unfinished dependencies -----

  /** How many entries of deps are not done, counting repeated entries. */
  function Pending(deps: seq<string>, done: set<string>): nat {
    if deps == [] then 0 else (if deps[0] in done then 0 else 1) + Pending(deps[1..], done)
  }

  lemma {:induction false} PendingNone(deps: seq<string>)
    ensures Pending(deps, {}) == |deps|
  {
    if deps != [] {
      PendingNone(deps[1..]);
    }
  }

  lemma {:induction false} PendingZero(deps: seq<string>, done: set<string>)
    ensures Pending(deps, done) == 0 <==> forall d :: d in deps ==> d in done
  {
    if deps != [] {
      PendingZero(deps[1..], done);
      assert forall d :: d in deps <==> d == deps[0] || d in deps[1..];
    }
  }

  lemma {:induction false} PendingAdd(deps: seq<string>, done: set<string>, x: string)
    requires x !in done
    ensures Pending(deps, done + {x}) == Pending(deps, done) - multiset(deps)[x]
  {
    if deps != [] {
      PendingAdd(deps[1..], done, x);
      assert deps == [deps[0]] + deps[1..];
    }
  }

  // ----- The adjacency the code builds -----

  function DependentsOf(dependents: map<string, seq<string>>, d: string): seq<string> {
    if d in dependents then dependents[d] else []
  }

  /** id is listed under d once per entry d of its own depends. */
  ghost predicate ListedOften(byId: map<string, Step>, dependents: map<string, seq<string>>, d: string, id: string)
    requires id in byId
  {
    multiset(DependentsOf(dependents, d))[id] == multiset(byId[id].depends)[d]
  }

  ghost predicate Indexes(steps: seq<Step>, byId: map<string, Step>) {
    && (forall s :: s in steps ==> s.id in byId && byId[s.id] == s)
    && (forall id :: id in byId ==> byId[id] in steps && byId[id].id == id)
  }

  /** byId indexes the steps; dependents lists a step under d once per entry d of its depends. */
  ghost predicate Graph(steps: seq<Step>, byId: map<string, Step>, dependents: map<string, seq<string>>) {
    && Indexes(steps, byId)
    && (forall d, id :: id in DependentsOf(dependents, d) ==> id in byId)
    && (forall d, id :: id in byId ==> ListedOften(byId, dependents, d, id))
  }

  function Repeat(x: string, n: nat): seq<string> {
    if n == 0 then [] else Repeat(x, n - 1) + [x]
  }

  lemma {:induction false} RepeatCounts(x: string, n: nat, y: string)
    ensures multiset(Repeat(x, n))[y] == if y == x then n else 0
  {
    if n > 0 {
      RepeatCounts(x, n - 1, y);
    }
  }

  /** now is before with id appended under every d as often as d occurs in deps. */
  ghost predicate Extended(before: map<string, seq<string>>, now: map<string, seq<string>>, id: string, deps: multiset<string>) {
    forall d {:trigger DependentsOf(now, d)} ::
      DependentsOf(now, d) == DependentsOf(before, d) + Repeat(id, deps[d])
  }

  lemma ExtendedByOne(before: map<string, seq<string>>, mid: map<string, seq<string>>, id: string,
                      deps: multiset<string>, d: string)
    requires Extended(before, mid, id, deps)
    ensures Extended(before, mid[d := DependentsOf(mid, d) + [id]], id, deps + multiset{d})
  {
    var now := mid[d := DependentsOf(mid, d) + [id]];
    forall e
      ensures DependentsOf(now, e) == DependentsOf(before, e) + Repeat(id, (deps + multiset{d})[e])
    {
      assert DependentsOf(mid, e) == DependentsOf(before, e) + Repeat(id, deps[e]);
      assert (deps + multiset{d})[e] == deps[e] + if e == d then 1 else 0;
      AppendRepeat(DependentsOf(before, d), id, deps[d]);
    }
  }

  lemma AppendRepeat(p: seq<string>, x: string, n: nat)
    ensures p + Repeat(x, n) + [x] == p + Repeat(x, n + 1)
  {
  }

  /** Appends s.ID to the dependents of every entry of s.Depends. */
  method AddEntries(s: Step, dependents0: map<string, seq<string>>) returns (dependents: map<string, seq<string>>)
    ensures Extended(dependents0, dependents, s.id, multiset(s.depends))
  {
    dependents := dependents0;
    for j := 0 to |s.depends|
      invariant Extended(dependents0, dependents, s.id, multiset(s.depends[..j]))
    {
      var d := s.depends[j];
      ExtendedByOne(dependents0, dependents, s.id, multiset(s.depends[..j]), d);
      assert s.depends[..j + 1] == s.depends[..j] + [d];
      dependents := dependents[d := DependentsOf(dependents, d) + [s.id]];
    }
    assert s.depends[..|s.depends|] == s.depends;
  }

  lemma ExtendedCounts(before: map<string, seq<string>>, now: map<string, seq<string>>, x: string,
                       deps: multiset<string>, d: string, id: string)
    requires Extended(before, now, x, deps)
    ensures multiset(DependentsOf(now, d))[id] == multiset(DependentsOf(before, d))[id] + if id == x then deps[d] else 0
    ensures id in DependentsOf(now, d) ==> id in DependentsOf(before, d) || id == x
  {
    RepeatCounts(x, deps[d], id);
    assert id in Repeat(x, deps[d]) ==> multiset(Repeat(x, deps[d]))[id] > 0;
  }

  lemma GraphGrows(steps: seq<Step>, s: Step, byId: map<string, Step>,
                   before: map<string, seq<string>>, now: map<string, seq<string>>)
    requires Graph(steps, byId, before) && s.id !in byId
    requires Extended(before, now, s.id, multiset(s.depends))
    ensures Graph(steps + [s], byId[s.id := s], now)
  {
    var byId' := byId[s.id := s];
    forall d, id | id in DependentsOf(now, d)
      ensures id in byId'
    {
      ExtendedCounts(before, now, s.id, multiset(s.depends), d, id);
    }
    forall d, id | id in byId'
      ensures ListedOften(byId', now, d, id)
    {
      ExtendedCounts(before, now, s.id, multiset(s.depends), d, id);
      if id == s.id {
        assert id !in DependentsOf(before, d);
      } else {
        assert ListedOften(byId, before, d, id);
      }
    }
  }

  /** Whatever is listed as a dependent has an in-degree; this holds for repeated IDs too. */
  ghost predicate Closed(inDegree: map<string, int>, dependents: map<string, seq<string>>) {
    forall d, id :: id in DependentsOf(dependents, d) ==> id in inDegree
  }

  lemma ClosedGrows(inDegree: map<string, int>, before: map<string, seq<string>>, now: map<string, seq<string>>,
                    x: string, deps: multiset<string>, n: int)
    requires Closed(inDegree, before) && Extended(before, now, x, deps)
    ensures Closed(inDegree[x := n], now)
  {
    forall d, id | id in DependentsOf(now, d)
      ensures id in inDegree[x := n]
    {
      ExtendedCounts(before, now, x, deps, d, id);
    }
  }

  ghost predicate Degrees(byId: map<string, Step>, inDegree: map<string, int>) {
    inDegree.Keys == byId.Keys && forall id :: id in byId ==> inDegree[id] == |byId[id].depends|
  }

  method BuildGraph(steps: seq<Step>)
      returns (byId: map<string, Step>, inDegree: map<string, int>, dependents: map<string, seq<string>>)
    ensures UniqueIds(steps) ==> Graph(steps, byId, dependents)
    ensures byId.Keys == Ids(steps) && Degrees(byId, inDegree) && Closed(inDegree, dependents)
  {
    byId, inDegree, dependents := map[], map[], map[];
    for i := 0 to |steps|
      invariant UniqueIds(steps) ==> Graph(steps[..i], byId, dependents)
      invariant byId.Keys == Ids(steps[..i]) && Degrees(byId, inDegree) && Closed(inDegree, dependents)
    {
      var s := steps[i];
      ghost var before := dependents;
      assert steps[..i + 1] == steps[..i] + [s];
      dependents := AddEntries(s, dependents);
      ClosedGrows(inDegree, before, dependents, s.id, multiset(s.depends), |s.depends|);
      if UniqueIds(steps) {
        GraphGrows(steps[..i], s, byId, before, dependents);
      }
      byId := byId[s.id := s];
      inDegree := inDegree[s.id := |s.depends|];
    }
    assert steps[..|steps|] == steps;
  }

  // ----- One round: everything queued becomes done -----

  /** The queue of the next round holds, once each, the steps whose in-degree has dropped to zero. */
  ghost predicate Dropped(nextQueue: seq<string>, before: map<string, int>, now: map<string, int>) {
    && now.Keys == before.Keys
    && NoDuplicates(nextQueue)
    && (forall id :: id in now ==> now[id] <= before[id])
    && (forall id :: id in nextQueue <==> id in now && now[id] <= 0 < before[id])
  }

  lemma OneEntryMore(dependents: seq<string>, j: nat)
    requires j < |dependents|
    ensures dependents[j] in Elements(dependents)
    ensures multiset(dependents[..j + 1]) == multiset(dependents[..j]) + multiset{dependents[j]}
  {
    assert dependents[..j + 1] == dependents[..j] + [dependents[j]];
  }

  lemma DropOne(before: map<string, int>, now: map<string, int>, nextQueue: seq<string>, id: string)
    requires Dropped(nextQueue, before, now) && id in now
    ensures Dropped(if now[id] == 1 then nextQueue + [id] else nextQueue, before, now[id := now[id] - 1])
  {
  }

  /** One finished step: each of its dependents loses one in-degree per entry. */
  method Release(ghost before: map<string, int>, dependents: seq<string>,
                 inDegree0: map<string, int>, nextQueue0: seq<string>)
      returns (inDegree: map<string, int>, nextQueue: seq<string>)
    requires Elements(dependents) <= inDegree0.Keys
    requires Dropped(nextQueue0, before, inDegree0)
    ensures Dropped(nextQueue, before, inDegree)
    ensures forall id :: id in inDegree ==> inDegree[id] == inDegree0[id] - multiset(dependents)[id]
  {
    inDegree, nextQueue := inDegree0, nextQueue0;
    for j := 0 to |dependents|
      invariant Dropped(nextQueue, before, inDegree)
      invariant forall id :: id in inDegree ==> inDegree[id] == inDegree0[id] - multiset(dependents[..j])[id]
    {
      var id := dependents[j];
      OneEntryMore(dependents, j);
      DropOne(before, inDegree, nextQueue, id);
      inDegree := inDegree[id := inDegree[id] - 1];
      if inDegree[id] == 0 {
        nextQueue := nextQueue + [id];
      }
    }
    assert dependents[..|dependents|] == dependents;
  }

  ghost predicate CountsPending(byId: map<string, Step>, inDegree: map<string, int>, done: set<string>) {
    && inDegree.Keys == byId.Keys
    && forall id :: id in byId ==> inDegree[id] == Pending(byId[id].depends, done)
  }

  lemma ReleaseCounts(steps: seq<Step>, byId: map<string, Step>, dependents: map<string, seq<string>>,
                      before: map<string, int>, done: set<string>, x: string)
    requires Graph(steps, byId, dependents) && CountsPending(byId, before, done) && x !in done
    ensures forall id :: id in byId ==>
      Pending(byId[id].depends, done + {x}) == before[id] - multiset(DependentsOf(dependents, x))[id]
  {
    forall id | id in byId
      ensures Pending(byId[id].depends, done + {x}) == before[id] - multiset(DependentsOf(dependents, x))[id]
    {
      PendingAdd(byId[id].depends, done, x);
      assert ListedOften(byId, dependents, x, id);
    }
  }

  lemma ReleasedCounts(steps: seq<Step>, byId: map<string, Step>, dependents: map<string, seq<string>>,
                       before: map<string, int>, after: map<string, int>, done: set<string>, x: string)
    requires Graph(steps, byId, dependents) && CountsPending(byId, before, done) && x !in done
    requires after.Keys == before.Keys
    requires forall id :: id in after ==> after[id] == before[id] - multiset(DependentsOf(dependents, x))[id]
    ensures CountsPending(byId, after, done + {x})
  {
    ReleaseCounts(steps, byId, dependents, before, done, x);
  }

  lemma NextOfQueue(done: set<string>, queue: seq<string>, k: nat)
    requires NoDuplicates(queue) && Elements(queue) !! done && k < |queue|
    ensures queue[k] !in done + Elements(queue[..k])
    ensures done + Elements(queue[..k + 1]) == done + Elements(queue[..k]) + {queue[k]}
  {
    assert queue[..k + 1] == queue[..k] + [queue[k]];
    assert queue[k] in Elements(queue);
  }

  /** What the counts of a sound round rest on. */
  ghost predicate Sound(steps: seq<Step>, byId: map<string, Step>, dependents: map<string, seq<string>>,
                        inDegree: map<string, int>, done: set<string>, queue: seq<string>) {
    && Graph(steps, byId, dependents)
    && NoDuplicates(queue) && Elements(queue) !! done
    && CountsPending(byId, inDegree, done)
  }

  method ProcessQueue(ghost steps: seq<Step>, ghost byId: map<string, Step>, ghost done: set<string>,
                      queue: seq<string>, inDegree0: map<string, int>, dependents: map<string, seq<string>>)
      returns (inDegree: map<string, int>, nextQueue: seq<string>)
    requires Closed(inDegree0, dependents)
    ensures Dropped(nextQueue, inDegree0, inDegree)
    ensures Sound(steps, byId, dependents, inDegree0, done, queue) ==>
      CountsPending(byId, inDegree, done + Elements(queue))
  {
    inDegree, nextQueue := inDegree0, [];
    assert done + Elements(queue[..0]) == done;
    for k := 0 to |queue|
      invariant Dropped(nextQueue, inDegree0, inDegree)
      invariant Sound(steps, byId, dependents, inDegree0, done, queue) ==>
          CountsPending(byId, inDegree, done + Elements(queue[..k]))
    {
      var x := queue[k];
      ghost var D, degrees := done + Elements(queue[..k]), inDegree;
      inDegree, nextQueue := Release(inDegree0, DependentsOf(dependents, x), inDegree, nextQueue);
      if Sound(steps, byId, dependents, inDegree0, done, queue) {
        NextOfQueue(done, queue, k);
        ReleasedCounts(steps, byId, dependents, degrees, inDegree, D, x);
      }
    }
    assert queue[..|queue|] == queue;
  }

  // ----- All rounds -----

  function TierMap(tierOf: map<string, nat>, queue: seq<string>, t: nat): (r: map<string, nat>)
    ensures r.Keys == tierOf.Keys + Elements(queue)
  {
    map id | id in tierOf.Keys + Elements(queue) :: if id in queue then t else tierOf[id]
  }

  /** What holds between two rounds: the queue is exactly what has become ready and is not placed. */
  ghost predicate BetweenRounds(byId: map<string, Step>, tierOf: map<string, nat>, round: nat, queue: seq<string>) {
    && tierOf.Keys <= byId.Keys
    && NoDuplicates(queue)
    && (forall id :: id in queue ==> id in byId && id !in tierOf)
    && (forall id :: id in byId ==> (id in tierOf || id in queue <==> AllPlaced(byId[id].depends, tierOf)))
    && (forall id :: id in tierOf ==> tierOf[id] < round && Fits(byId[id].depends, tierOf, tierOf[id]))
    && (forall id :: id in queue ==> Fits(byId[id].depends, tierOf, round))
  }

  lemma ReadyIffZero(byId: map<string, Step>, inDegree: map<string, int>, tierOf: map<string, nat>)
    requires CountsPending(byId, inDegree, tierOf.Keys)
    ensures forall id :: id in byId ==> (inDegree[id] == 0 <==> AllPlaced(byId[id].depends, tierOf)) && inDegree[id] >= 0
  {
    forall id | id in byId
      ensures inDegree[id] == 0 <==> AllPlaced(byId[id].depends, tierOf)
    {
      PendingZero(byId[id].depends, tierOf.Keys);
    }
  }

  lemma FitsNext(deps: seq<string>, tierOf: map<string, nat>, queue: seq<string>, round: nat)
    requires AllPlaced(deps, TierMap(tierOf, queue, round)) && !AllPlaced(deps, tierOf)
    requires forall id :: id in tierOf ==> tierOf[id] < round
    ensures Fits(deps, TierMap(tierOf, queue, round), round + 1)
  {
    var d :| d in deps && d !in tierOf;
    assert TierMap(tierOf, queue, round)[d] == round;
  }

  lemma NextRound(byId: map<string, Step>, before: map<string, int>, now: map<string, int>,
                  tierOf: map<string, nat>, round: nat, queue: seq<string>, nextQueue: seq<string>)
    requires BetweenRounds(byId, tierOf, round, queue)
    requires CountsPending(byId, before, tierOf.Keys)
    requires CountsPending(byId, now, tierOf.Keys + Elements(queue))
    requires Dropped(nextQueue, before, now)
    ensures BetweenRounds(byId, TierMap(tierOf, queue, round), round + 1, nextQueue)
  {
    var tierOf' := TierMap(tierOf, queue, round);
    ReadyIffZero(byId, before, tierOf);
    ReadyIffZero(byId, now, tierOf');
    PlacedStillFit(byId, tierOf, round, queue);
    forall id | id in nextQueue
      ensures Fits(byId[id].depends, tierOf', round + 1)
    {
      FitsNext(byId[id].depends, tierOf, queue, round);
    }
  }

  lemma PlacedStillFit(byId: map<string, Step>, tierOf: map<string, nat>, round: nat, queue: seq<string>)
    requires BetweenRounds(byId, tierOf, round, queue)
    ensures forall id :: id in TierMap(tierOf, queue, round) ==>
      && TierMap(tierOf, queue, round)[id] < round + 1
      && Fits(byId[id].depends, TierMap(tierOf, queue, round), TierMap(tierOf, queue, round)[id])
  {
  }

  /** Turns the queue into a tier. */
  method TierOfQueue(byId: map<string, Step>, queue: seq<string>) returns (tier: seq<Step>)
    requires forall id :: id in queue ==> id in byId
    ensures |tier| == |queue| && forall k :: 0 <= k < |queue| ==> tier[k] == byId[queue[k]]
  {
    tier := [];
    for k := 0 to |queue|
      invariant |tier| == k && forall l :: 0 <= l < k ==> tier[l] == byId[queue[l]]
    {
      tier := tier + [byId[queue[k]]];
    }
  }

  ghost predicate IsTierOf(tier: seq<Step>, steps: seq<Step>, queue: seq<string>) {
    && (forall s :: s in tier <==> s in steps && s.id in queue)
    && tier != [] && UniqueIds(tier)
  }

  lemma QueueIsTier(steps: seq<Step>, byId: map<string, Step>, queue: seq<string>, tier: seq<Step>)
    requires Indexes(steps, byId)
    requires queue != [] && NoDuplicates(queue) && forall id :: id in queue ==> id in byId
    requires |tier| == |queue| && forall k :: 0 <= k < |queue| ==> tier[k] == byId[queue[k]]
    ensures IsTierOf(tier, steps, queue)
  {
    forall s | s in steps && s.id in queue
      ensures s in tier
    {
      var k :| 0 <= k < |queue| && queue[k] == s.id;
      assert tier[k] == s;
    }
  }

  lemma TierAdded(steps: seq<Step>, tierOf: map<string, nat>, tiers: seq<seq<Step>>,
                  queue: seq<string>, tier: seq<Step>)
    requires Holds(steps, tiers, tierOf) && IsTierOf(tier, steps, queue) && Elements(queue) !! tierOf.Keys
    ensures Holds(steps, tiers + [tier], TierMap(tierOf, queue, |tiers|))
  {
  }

  /** The steps without dependencies. */
  method Seed(steps: seq<Step>, inDegree: map<string, int>) returns (queue: seq<string>)
    requires forall s :: s in steps ==> s.id in inDegree
    ensures forall id :: id in queue <==> id in Ids(steps) && inDegree[id] == 0
    ensures UniqueIds(steps) ==> NoDuplicates(queue)
  {
    queue := [];
    for i := 0 to |steps|
      invariant forall id :: id in queue <==> id in Ids(steps[..i]) && inDegree[id] == 0
      invariant UniqueIds(steps) ==> NoDuplicates(queue)
    {
      assert steps[..i + 1] == steps[..i] + [steps[i]];
      assert UniqueIds(steps) ==> steps[i].id !in Ids(steps[..i]);
      if inDegree[steps[i].id] == 0 {
        queue := queue + [steps[i].id];
      }
    }
    assert steps[..|steps|] == steps;
  }

  lemma StepCount(steps: seq<Step>)
    requires UniqueIds(steps)
    ensures |Ids(steps)| == |steps|
  {
    if steps != [] {
      StepCount(steps[1..]);
      assert Ids(steps) == {steps[0].id} + Ids(steps[1..]);
    }
  }

  lemma FirstRound(byId: map<string, Step>, inDegree: map<string, int>, queue: seq<string>)
    requires inDegree.Keys == byId.Keys && forall id :: id in byId ==> inDegree[id] == |byId[id].depends|
    requires NoDuplicates(queue) && forall id :: id in queue <==> id in byId && inDegree[id] == 0
    ensures CountsPending(byId, inDegree, {})
    ensures BetweenRounds(byId, map[], 0, queue)
  {
    var none: map<string, nat> := map[];
    assert none.Keys == {};
    forall id | id in byId ensures Pending(byId[id].depends, {}) == |byId[id].depends| {
      PendingNone(byId[id].depends);
    }
    ReadyIffZero(byId, inDegree, none);
  }

  lemma AllRoundsDone(steps: seq<Step>, byId: map<string, Step>, tierOf: map<string, nat>, round: nat)
    requires UniqueIds(steps) && Indexes(steps, byId) && BetweenRounds(byId, tierOf, round, [])
    ensures Ranked(steps, tierOf)
    ensures |Ids(steps) - tierOf.Keys| == |steps| - |tierOf.Keys|
    ensures |tierOf.Keys| == |steps| ==> tierOf.Keys == Ids(steps)
  {
    assert byId.Keys == Ids(steps);
    StepCount(steps);
    PartSize(Ids(steps), tierOf.Keys);
  }

  ghost predicate LoopInvariant(steps: seq<Step>, byId: map<string, Step>, inDegree: map<string, int>,
                                tierOf: map<string, nat>, tiers: seq<seq<Step>>, queue: seq<string>) {
    && CountsPending(byId, inDegree, tierOf.Keys)
    && BetweenRounds(byId, tierOf, |tiers|, queue)
    && Holds(steps, tiers, tierOf)
  }

  lemma RoundKeepsInvariant(steps: seq<Step>, byId: map<string, Step>, before: map<string, int>, now: map<string, int>,
                            tierOf: map<string, nat>, tiers: seq<seq<Step>>,
                            queue: seq<string>, tier: seq<Step>, nextQueue: seq<string>)
    requires LoopInvariant(steps, byId, before, tierOf, tiers, queue) && Indexes(steps, byId) && queue != []
    requires |tier| == |queue| && forall k :: 0 <= k < |queue| ==> queue[k] in byId && tier[k] == byId[queue[k]]
    requires CountsPending(byId, now, tierOf.Keys + Elements(queue)) && Dropped(nextQueue, before, now)
    ensures LoopInvariant(steps, byId, now, TierMap(tierOf, queue, |tiers|), tiers + [tier], nextQueue)
  {
    NextRound(byId, before, now, tierOf, |tiers|, queue, nextQueue);
    QueueIsTier(steps, byId, queue, tier);
    TierAdded(steps, tierOf, tiers, queue, tier);
  }

  /** What every round needs and keeps, also when IDs repeat. */
  ghost predicate Safe(byId: map<string, Step>, dependents: map<string, seq<string>>, inDegree: map<string, int>,
                       queue: seq<string>) {
    inDegree.Keys == byId.Keys && Closed(inDegree, dependents) && forall id :: id in queue ==> id in byId
  }

  /** The loop body: the queue becomes a tier, and its steps are released. */
  method RunRound(ghost steps: seq<Step>, byId: map<string, Step>, dependents: map<string, seq<string>>,
                  inDegree0: map<string, int>, ghost tierOf: map<string, nat>, tiers: seq<seq<Step>>, queue: seq<string>)
      returns (inDegree: map<string, int>, tier: seq<Step>, nextQueue: seq<string>)
    requires queue != [] && Safe(byId, dependents, inDegree0, queue)
    ensures Dropped(nextQueue, inDegree0, inDegree)
    ensures Graph(steps, byId, dependents) && LoopInvariant(steps, byId, inDegree0, tierOf, tiers, queue) ==>
      LoopInvariant(steps, byId, inDegree, TierMap(tierOf, queue, |tiers|), tiers + [tier], nextQueue)
  {
    tier := TierOfQueue(byId, queue);
    inDegree, nextQueue := ProcessQueue(steps, byId, tierOf.Keys, queue, inDegree0, dependents);
    if Graph(steps, byId, dependents) && LoopInvariant(steps, byId, inDegree0, tierOf, tiers, queue) {
      SoundRound(steps, byId, dependents, inDegree0, tierOf, tiers, queue);
      RoundKeepsInvariant(steps, byId, inDegree0, inDegree, tierOf, tiers, queue, tier, nextQueue);
    }
  }

  lemma SoundRound(steps: seq<Step>, byId: map<string, Step>, dependents: map<string, seq<string>>,
                   inDegree: map<string, int>, tierOf: map<string, nat>, tiers: seq<seq<Step>>, queue: seq<string>)
    requires Graph(steps, byId, dependents) && LoopInvariant(steps, byId, inDegree, tierOf, tiers, queue)
    ensures Sound(steps, byId, dependents, inDegree, tierOf.Keys, queue)
  {
  }

  lemma RoundProgress(steps: seq<Step>, byId: map<string, Step>, inDegree: map<string, int>,
                      tierOf: map<string, nat>, tiers: seq<seq<Step>>, queue: seq<string>)
    requires queue != [] && LoopInvariant(steps, byId, inDegree, tierOf, tiers, queue)
    ensures |TierMap(tierOf, queue, |tiers|).Keys| == |tierOf.Keys| + |queue|
  {
    DistinctCount(queue);
    AddDisjoint(tierOf.Keys, Elements(queue));
    assert TierMap(tierOf, queue, |tiers|).Keys == tierOf.Keys + Elements(queue);
  }

  lemma AddDisjoint<T>(placed: set<T>, q: set<T>)
    requires q !! placed
    ensures |placed + q| == |placed| + |q|
  {
  }

  /** The steps still waiting for something; every round that queues a step leaves fewer of them. */
  ghost function Waiting(inDegree: map<string, int>): set<string> {
    set id | id in inDegree && inDegree[id] > 0
  }

  lemma FewerWaiting(before: map<string, int>, now: map<string, int>, nextQueue: seq<string>)
    requires Dropped(nextQueue, before, now)
    ensures |Waiting(now)| <= |Waiting(before)|
    ensures nextQueue != [] ==> |Waiting(now)| < |Waiting(before)|
  {
    assert Waiting(now) <= Waiting(before);
    PartSize(Waiting(before), Waiting(now));
    if nextQueue != [] {
      var id := nextQueue[0];
      assert id in nextQueue;
      assert id in Waiting(before) && id !in Waiting(now);
      assert id in Waiting(before) - Waiting(now);
    }
  }

  lemma NoMoreRounds(steps: seq<Step>, byId: map<string, Step>, inDegree: map<string, int>,
                     tierOf: map<string, nat>, tiers: seq<seq<Step>>)
    requires UniqueIds(steps) && Indexes(steps, byId) && LoopInvariant(steps, byId, inDegree, tierOf, tiers, [])
    ensures Ranked(steps, tierOf)
    ensures |tierOf.Keys| == |steps| <==> KnownDepends(steps) && Acyclic(steps)
    ensures |tierOf.Keys| == |steps| ==> Layering(steps, tiers, tierOf)
    ensures |tierOf.Keys| != |steps| ==> 0 < |steps| - |tierOf.Keys| == |Ids(steps) - tierOf.Keys|
  {
    AllRoundsDone(steps, byId, tierOf, |tiers|);
    PlacedIffAcyclic(steps, tierOf);
    if tierOf.Keys == Ids(steps) {
      StepCount(steps);
    }
  }

  lemma StartInvariant(steps: seq<Step>, byId: map<string, Step>, inDegree: map<string, int>, queue: seq<string>)
    requires inDegree.Keys == byId.Keys && forall id :: id in byId ==> inDegree[id] == |byId[id].depends|
    requires NoDuplicates(queue) && forall id :: id in queue <==> id in byId && inDegree[id] == 0
    ensures LoopInvariant(steps, byId, inDegree, map[], [], queue)
  {
    var none: map<string, nat> := map[];
    FirstRound(byId, inDegree, queue);
    assert none.Keys == {};
    assert Holds(steps, [], none);
  }

  /** Tier by tier, until no step is ready. */
  method RunRounds(ghost steps: seq<Step>, byId: map<string, Step>, dependents: map<string, seq<string>>,
                   inDegree0: map<string, int>, queue0: seq<string>)
      returns (tiers: seq<seq<Step>>, processed: nat, ghost inDegree: map<string, int>, ghost tierOf: map<string, nat>)
    requires Safe(byId, dependents, inDegree0, queue0)
    ensures Graph(steps, byId, dependents) && LoopInvariant(steps, byId, inDegree0, map[], [], queue0) ==>
      LoopInvariant(steps, byId, inDegree, tierOf, tiers, []) && processed == |tierOf.Keys|
  {
    var degrees, queue := inDegree0, queue0;
    ghost var sound := Graph(steps, byId, dependents) && LoopInvariant(steps, byId, inDegree0, map[], [], queue0);
    tiers, processed, tierOf := [], 0, map[];
    while |queue| > 0
      invariant Safe(byId, dependents, degrees, queue)
      invariant sound ==> LoopInvariant(steps, byId, degrees, tierOf, tiers, queue) && processed == |tierOf.Keys|
      decreases |Waiting(degrees)|, if queue == [] then 0 else 1
    {
      ghost var before := degrees;
      var tier, nextQueue;
      if sound {
        RoundProgress(steps, byId, degrees, tierOf, tiers, queue);
      }
      degrees, tier, nextQueue := RunRound(steps, byId, dependents, degrees, tierOf, tiers, queue);
      FewerWaiting(before, degrees, nextQueue);
      tierOf := TierMap(tierOf, queue, |tiers|);
      tiers := tiers + [tier];
      processed := processed + |queue|;
      queue := nextQueue;
    }
    assert queue == [];
    inDegree := degrees;
  }

  /** The contract is for unique IDs, which validation asks for; repeated ones are sorted too, but nothing is promised. */
  method TopoSort(steps: seq<Step>) returns (r: Result, ghost tierOf: map<string, nat>)
    ensures UniqueIds(steps) ==> (r.Tiers? <==> KnownDepends(steps) && Acyclic(steps))
    ensures UniqueIds(steps) && r.Tiers? ==> Layering(steps, r.tiers, tierOf)
    ensures UniqueIds(steps) ==> Ranked(steps, tierOf)
    ensures UniqueIds(steps) && r.CycleDetected? ==> 0 < r.unscheduled == |Ids(steps) - tierOf.Keys|
  {
    var byId, inDegree, dependents := BuildGraph(steps);
    var queue := Seed(steps, inDegree);
    var tiers, processed;
    ghost var left;
    tiers, processed, left, tierOf := RunRounds(steps, byId, dependents, inDegree, queue);
    if UniqueIds(steps) {
      StartInvariant(steps, byId, inDegree, queue);
      NoMoreRounds(steps, byId, left, tierOf, tiers);
    }
    if processed != |steps| {
      r := CycleDetected(|steps| - processed);
    } else {
      r := Tiers(tiers);
    }
  }
}
