/** Bounded parallelism, and why every run ends (internal/engine/engine.go, internal/engine/retry.go). */
module EngineProgress {
  import opened Dag
  import opened Events
  import opened Retry
  import opened Engine
  import EngineSafety
  import TopoSort

  // ----- Bounded parallelism, progress, termination -----

  /** At most maxParallel steps are inside runStep. */
  lemma ParallelismBounded(c: Config, s: State)
    requires c.Valid() && Reached(c, s) && c.maxParallel > 0
    ensures |set id | id in s.phases && s.phases[id].InRunStep()| <= c.maxParallel
  {
    ReachedSlots(c, s);
    var inside := set id | id in s.phases && s.phases[id].InRunStep();
    assert inside <= Holders(s);
    TopoSort.PartSize(Holders(s), inside);
  }

  /** No slot stays unused: a step that waits can enter runStep as long as fewer than maxParallel steps hold a slot, and
      always if there is no positive limit. */
  lemma FreeSlotIsGiven(c: Config, s: State, id: string)
    requires c.Valid() && Reached(c, s) && id in s.phases && s.phases[id] == Waiting
    requires c.maxParallel > 0 ==> |set h | h in s.phases && s.phases[h].HoldsSlot()| < c.maxParallel
    ensures exists a :: Enabled(c, s, a) && Apply(c, s, a).phases == s.phases[id := Guards]
  {
    ReachedSlots(c, s);
    SlotIsGiven(c, s, id);
  }

  lemma SlotIsGiven(c: Config, s: State, id: string)
    requires SlotsCount(c, s) && id in s.phases && s.phases[id] == Waiting
    requires c.maxParallel > 0 ==> |Holders(s)| < c.maxParallel
    ensures Enabled(c, s, Acquire(id)) && Apply(c, s, Acquire(id)).phases == s.phases[id := Guards]
  {
  }

  lemma HolderMoves(c: Config, s: State, id: string) returns (a: Action)
    requires Inv(c, s) && id in s.phases && s.phases[id].HoldsSlot()
    ensures a != RequestCancel && Enabled(c, s, a)
  {
    if s.phases[id].Returned? {
      a := Release(id);
    } else {
      assert id in c.steps;
      var choice := CanAdvance(c.steps[id], s.phases[id], Project(s.log, id));
      a := Move(id, choice);
    }
  }

  /** The engine cannot get stuck: unless the run is over, some transition of its own is enabled. */
  lemma NeverStuck(c: Config, s: State) returns (a: Action)
    requires c.Valid() && Reached(c, s) && !s.stage.Final?
    ensures a != RequestCancel && Enabled(c, s, a)
  {
    ReachedInv(c, s);
    match s.stage
    case Start => a := Begin;
    case Preparing => a := Prepare;
    case Between => a := StartTier;
    case Inside =>
      if AllJoined(c, s) {
        a := JoinTier;
      } else if h :| h in Holders(s) {
        a := HolderMoves(c, s, h);
      } else {
        var id :| id in s.phases && id in c.tierOf && c.tierOf[id] == s.tier && !s.phases[id].Joined?;
        assert PhaseFits(c, s, id, s.phases[id]);
        assert id !in Holders(s);
        assert s.phases[id] == Waiting;
        assert Holders(s) == {};
        a := Acquire(id);
      }
  }

  /** The work left in all steps listed by ids. */
  function TotalWork(c: Config, ids: seq<string>, phases: map<string, Phase>): int
    requires forall id :: id in ids ==> id in c.steps && id in phases
  {
    if ids == [] then 0 else Work(c.steps[ids[0]], phases[ids[0]]) + TotalWork(c, ids[1..], phases)
  }

  function StageWork(c: Config, s: State): int {
    match s.stage
    case Start => 2 * c.TierCount() + 4
    case Preparing => 2 * c.TierCount() + 3
    case Between => 2 * (c.TierCount() - s.tier) + 2
    case Inside => 2 * (c.TierCount() - s.tier) + 1
    case Final(_) => 0
  }

  /** ids lists the steps of the DAG once each. */
  predicate Lists(c: Config, ids: seq<string>) {
    TopoSort.NoDuplicates(ids) && TopoSort.Elements(ids) == c.steps.Keys
  }

  function Measure(c: Config, s: State, ids: seq<string>): int
    requires Lists(c, ids) && s.phases.Keys == c.steps.Keys
  {
    TotalWork(c, ids, s.phases) + StageWork(c, s) + if s.cancelRequested then 0 else 1
  }

  lemma {:induction false} WorkNotMore(c: Config, ids: seq<string>, before: map<string, Phase>, after: map<string, Phase>)
    requires forall id :: id in ids ==> id in c.steps && id in before && id in after
    requires forall id :: id in ids ==> Work(c.steps[id], after[id]) <= Work(c.steps[id], before[id])
    ensures TotalWork(c, ids, after) <= TotalWork(c, ids, before)
    ensures forall id :: id in ids && Work(c.steps[id], after[id]) < Work(c.steps[id], before[id]) ==>
      TotalWork(c, ids, after) < TotalWork(c, ids, before)
  {
    if ids != [] {
      WorkNotMore(c, ids[1..], before, after);
    }
  }

  lemma {:induction false} WorkNatural(c: Config, ids: seq<string>, phases: map<string, Phase>)
    requires forall id :: id in ids ==> id in c.steps && id in phases && Work(c.steps[id], phases[id]) >= 0
    ensures TotalWork(c, ids, phases) >= 0
  {
    if ids != [] {
      WorkNatural(c, ids[1..], phases);
    }
  }

  lemma OwnWorkShrinks(c: Config, s: State, a: Action, id: string)
    requires Enabled(c, s, a) && MovesStep(a) && a.id == id && id in s.phases && id in c.steps
    requires Consistent(c.steps[id], s.phases[id], Project(s.log, id))
    ensures id in Apply(c, s, a).phases
    ensures 0 <= Work(c.steps[id], Apply(c, s, a).phases[id]) < Work(c.steps[id], s.phases[id])
  {
    if a.Move? {
      AdvanceWorks(c.steps[id], s.phases[id], a.choice, Project(s.log, id));
    }
  }

  lemma OtherWorkStays(c: Config, s: State, a: Action, id: string)
    requires Enabled(c, s, a) && !(MovesStep(a) && a.id == id) && id in s.phases && id in c.steps
    requires PhaseFits(c, s, id, s.phases[id]) && Consistent(c.steps[id], s.phases[id], Project(s.log, id))
    ensures id in Apply(c, s, a).phases
    ensures 0 <= Work(c.steps[id], Apply(c, s, a).phases[id]) <= Work(c.steps[id], s.phases[id])
  {
    OthersPhase(c, s, a, id);
  }

  lemma StepWorkShrinks(c: Config, s: State, a: Action, id: string)
    requires Inv(c, s) && Enabled(c, s, a) && id in s.phases && id in c.steps
    ensures id in Apply(c, s, a).phases
    ensures 0 <= Work(c.steps[id], Apply(c, s, a).phases[id]) <= Work(c.steps[id], s.phases[id])
    ensures MovesStep(a) && a.id == id ==>
      Work(c.steps[id], Apply(c, s, a).phases[id]) < Work(c.steps[id], s.phases[id])
  {
    assert Consistent(c.steps[id], s.phases[id], Project(s.log, id));
    assert PhaseFits(c, s, id, s.phases[id]);
    if MovesStep(a) && a.id == id {
      OwnWorkShrinks(c, s, a, id);
    } else {
      OtherWorkStays(c, s, a, id);
    }
  }

  lemma KeysStay(c: Config, s: State, a: Action)
    requires Enabled(c, s, a)
    ensures Apply(c, s, a).phases.Keys == s.phases.Keys
  {
  }

  lemma TotalWorkShrinks(c: Config, s: State, a: Action, ids: seq<string>)
    requires Inv(c, s) && Enabled(c, s, a) && Lists(c, ids)
    ensures Apply(c, s, a).phases.Keys == c.steps.Keys
    ensures forall id :: id in ids ==> id in c.steps
    ensures 0 <= TotalWork(c, ids, Apply(c, s, a).phases) <= TotalWork(c, ids, s.phases)
    ensures MovesStep(a) ==> TotalWork(c, ids, Apply(c, s, a).phases) < TotalWork(c, ids, s.phases)
  {
    var after := Apply(c, s, a).phases;
    KeysStay(c, s, a);
    forall id | id in ids
      ensures 0 <= Work(c.steps[id], after[id]) <= Work(c.steps[id], s.phases[id])
    {
      StepWorkShrinks(c, s, a, id);
    }
    WorkNotMore(c, ids, s.phases, after);
    WorkNatural(c, ids, after);
    if MovesStep(a) {
      assert a.id in TopoSort.Elements(ids);
      StepWorkShrinks(c, s, a, a.id);
    }
  }

  lemma MeasureShrinks(c: Config, s: State, a: Action, ids: seq<string>)
    requires Inv(c, s) && Enabled(c, s, a) && Lists(c, ids)
    ensures Apply(c, s, a).phases.Keys == c.steps.Keys
    ensures 0 <= Measure(c, Apply(c, s, a), ids) < Measure(c, s, ids)
  {
    StageKept(c, s, a);
    TotalWorkShrinks(c, s, a, ids);
  }

  lemma MeasureNatural(c: Config, s: State, ids: seq<string>)
    requires Inv(c, s) && Lists(c, ids)
    ensures Measure(c, s, ids) >= 0
  {
    forall id | id in ids
      ensures id in c.steps && Work(c.steps[id], s.phases[id]) >= 0
    {
      assert id in TopoSort.Elements(ids);
      assert Consistent(c.steps[id], s.phases[id], Project(s.log, id));
    }
    WorkNatural(c, ids, s.phases);
  }

  /** No run is longer than the measure of its first state. */
  lemma {:induction false} RunsAreBounded(c: Config, s: State, actions: seq<Action>, ids: seq<string>)
    requires c.Valid() && Inv(c, s) && CanRun(c, s, actions) && Lists(c, ids)
    ensures RunFrom(c, s, actions).phases.Keys == c.steps.Keys
    ensures |actions| <= Measure(c, s, ids) - Measure(c, RunFrom(c, s, actions), ids)
    ensures Measure(c, RunFrom(c, s, actions), ids) >= 0
    decreases |actions|
  {
    if actions == [] {
      MeasureNatural(c, s, ids);
    } else {
      MeasureShrinks(c, s, actions[0], ids);
      InvKept(c, s, actions[0]);
      RunsAreBounded(c, Apply(c, s, actions[0]), actions[1..], ids);
    }
  }

  /** Nothing is left for the engine to do: at most a cancel request can still arrive. */
  ghost predicate Maximal(c: Config, s: State) {
    forall a :: Enabled(c, s, a) ==> a == RequestCancel
  }

  /** A run ends only with its verdict: a run that the engine cannot go on with is over, and no run from its start is
      longer than the measure. */
  lemma MaximalRunsAreOver(c: Config, actions: seq<Action>, ids: seq<string>)
    requires c.Valid() && CanRun(c, Initial(c), actions) && Lists(c, ids)
    ensures Maximal(c, RunFrom(c, Initial(c), actions)) <==> RunFrom(c, Initial(c), actions).stage.Final?
    ensures |actions| <= Measure(c, Initial(c), ids)
  {
    var end := RunFrom(c, Initial(c), actions);
    InitialInv(c);
    RunsAreBounded(c, Initial(c), actions, ids);
    assert Reached(c, end);
    ReachedInv(c, end);
    if end.stage.Final? {
      forall a | Enabled(c, end, a)
        ensures a == RequestCancel
      {
        EngineSafety.FinalStays(c, end, a);
      }
    } else {
      var a := NeverStuck(c, end);
    }
  }
}
