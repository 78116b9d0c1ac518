/** From a validated DAG to its run: expansion, sorting and the engine together (internal/engine/engine.go). */
module Pipeline {
  import opened Dag
  import opened Expansion
  import opened InstanceIds
  import Engine
  import EngineSafety
  import Retry
  import TopoSort

  /** The start of a run. What validation accepted is sorted, so the run is not given up before its first tier, if the
      expanded IDs are distinct; for legible matrices they are, whatever the iteration order, unless a value is
      repeated or an instance takes the ID of another step. */
  method Prepare(steps: seq<Step>) returns (r: TopoSort.Result, ghost names: Names, ghost tierOf: map<string, nat>)
    requires UniqueIds(steps) && KnownDepends(steps) && Acyclic(steps)
    ensures Named(steps, names)
    ensures UniqueIds(Expanded(steps, names)) ==>
      r.Tiers? && TopoSort.Layering(Expanded(steps, names), r.tiers, tierOf)
    ensures LegibleSteps(steps) && NoRepeats(steps) && NoShadows(steps) ==> UniqueIds(Expanded(steps, names))
  {
    var expanded := ExpandMatrix(steps);
    names :| ExpandedAs(steps, names, expanded);
    r, tierOf := TopoSort.TopoSort(expanded);
    if UniqueIds(expanded) {
      ExpansionKeepsGraph(steps, names);
    }
    if LegibleSteps(steps) {
      FreshNamesIff(steps);
    }
  }

  function ById(steps: seq<Step>): map<string, Step> {
    if steps == [] then map[] else ById(steps[1..])[steps[0].id := steps[0]]
  }

  lemma {:induction false} ByIdIndexes(steps: seq<Step>)
    requires UniqueIds(steps)
    ensures forall id :: id in ById(steps) ==> ById(steps)[id] in steps && ById(steps)[id].id == id
    ensures forall s :: s in steps ==> s.id in ById(steps) && ById(steps)[s.id] == s
  {
    if steps != [] {
      ByIdIndexes(steps[1..]);
    }
  }

  /** Whatever TopoSort returns for steps with unique IDs is a valid start for the engine. */
  lemma SortedIsValid(steps: seq<Step>, r: TopoSort.Result, tierOf: map<string, nat>, maxParallel: int, channelsKnown: bool)
    requires UniqueIds(steps)
    requires r.Tiers? ==> TopoSort.Layering(steps, r.tiers, tierOf)
    ensures Engine.Config(ById(steps), r, tierOf, maxParallel, channelsKnown).Valid()
  {
    ByIdIndexes(steps);
  }

  /** In every interleaving, no instance of a step is entered before every instance of each step it depends on
      has returned nil. */
  lemma InstancesWaitForInstances(steps: seq<Step>, names: Names, r: TopoSort.Result, tierOf: map<string, nat>,
      maxParallel: int, channelsKnown: bool, s: Engine.State, i: nat, k: nat, x: string, y: string)
    requires Named(steps, names) && UniqueIds(steps) && KnownDepends(steps) && UniqueIds(Expanded(steps, names))
    requires r.Tiers? && TopoSort.Layering(Expanded(steps, names), r.tiers, tierOf)
    requires Engine.Reached(Engine.Config(ById(Expanded(steps, names)), r, tierOf, maxParallel, channelsKnown), s)
    requires i < |steps| && k < |steps| && steps[k].id in steps[i].depends && HasName(names, i, x) && HasName(names, k, y)
    requires x in s.phases && s.phases[x].Entered()
    ensures y in s.phases && s.phases[y] == Retry.Joined(true)
  {
    var expanded := Expanded(steps, names);
    var c := Engine.Config(ById(expanded), r, tierOf, maxParallel, channelsKnown);
    SortedIsValid(expanded, r, tierOf, maxParallel, channelsKnown);
    var e := InstanceOf(steps, names, i, k, x, y);
    ByIdIndexes(expanded);
    assert c.steps[x] == e;
    EngineSafety.DependenciesFirst(c, s, x, y);
  }

  lemma InstanceOf(steps: seq<Step>, names: Names, i: nat, k: nat, x: string, y: string) returns (e: Step)
    requires Named(steps, names) && UniqueIds(steps) && KnownDepends(steps) && UniqueIds(Expanded(steps, names))
    requires i < |steps| && k < |steps| && steps[k].id in steps[i].depends && HasName(names, i, x) && HasName(names, k, y)
    ensures e in Expanded(steps, names) && e.id == x && y in e.depends
  {
    e := InstanceEntry(steps, names, i, x);
    assert DependsOnAll(steps, names, i, k, y);
  }
}
