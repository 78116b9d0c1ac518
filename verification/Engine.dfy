/** The run of a DAG as interleavings of the tier loop and the step goroutines (internal/engine/engine.go).

    A state holds what the goroutines share: their phases, the semaphore, the errors of the current
    tier, the event log and the cancel request. Which goroutine moves next, and what executors, guards
    and the file system answer, is left open. */
module Engine {
  import opened Text
  import opened Dag
  import opened Events
  import opened Retry
  import TopoSort

  /** The expanded steps by ID, what TopoSort made of them, and the limits the run starts with. */
  datatype Config = Config(
    steps: map<string, Step>,
    sorted: TopoSort.Result,
    tierOf: map<string, nat>,
    maxParallel: int,
    channelsKnown: bool)
  {
    predicate Runnable() {
      channelsKnown && sorted.Tiers?
    }

    function TierCount(): nat {
      if sorted.Tiers? then |sorted.tiers| else 0
    }

    predicate Bounded() {
      maxParallel > 0
    }

    /** A sorted DAG gives every step a tier, and dependencies earlier ones. */
    predicate Valid() {
      sorted.Tiers? ==>
        && (forall id :: id in steps ==> id in tierOf && tierOf[id] < TierCount())
        && (forall id, d :: id in steps && d in steps[id].depends ==> d in steps && d in tierOf && tierOf[d] < tierOf[id])
    }
  }

  datatype Stage = Start | Preparing | Between | Inside | Final(completed: bool)

  datatype State = State(
    stage: Stage,
    tier: nat,
    phases: map<string, Phase>,
    slots: int,
    errs: seq<string>,
    log: seq<Event>,
    cancelRequested: bool,
    sawCancel: bool)

  datatype Action =
    | RequestCancel
    | Begin
    | Prepare
    | StartTier
    | JoinTier
    | Acquire(id: string)
    | Move(id: string, choice: Choice)
    | Release(id: string)

  function InitialPhases(c: Config): map<string, Phase> {
    map id | id in c.steps :: Idle
  }

  function Initial(c: Config): State {
    State(Start, 0, InitialPhases(c), 0, [], [], false, false)
  }

  // ----- Transitions -----

  predicate AllJoined(c: Config, s: State) {
    forall id :: id in s.phases && id in c.tierOf && c.tierOf[id] == s.tier ==> s.phases[id].Joined?
  }

  predicate Enabled(c: Config, s: State, a: Action) {
    match a
    case RequestCancel => !s.cancelRequested
    case Begin => s.stage == Start
    case Prepare => s.stage == Preparing
    case StartTier => s.stage == Between
    case JoinTier => s.stage == Inside && AllJoined(c, s)
    case Acquire(id) => id in s.phases && s.phases[id] == Waiting && (c.Bounded() ==> s.slots < c.maxParallel)
    case Move(id, choice) => id in s.phases && id in c.steps && Allowed(c.steps[id], s.phases[id], choice)
    case Release(id) => id in s.phases && s.phases[id].Returned?
  }

  function Fail(s: State): State {
    s.(stage := Final(false), log := s.log + [RunFailed])
  }

  function Spawn(c: Config, s: State): map<string, Phase> {
    map id | id in s.phases ::
      if id in c.tierOf && c.tierOf[id] == s.tier then Waiting else s.phases[id]
  }

  function MoveStep(c: Config, s: State, id: string, choice: Choice): State
    requires Enabled(c, s, Move(id, choice))
  {
    var (ph, ev) := Advance(c.steps[id], s.phases[id], choice);
    s.(phases := s.phases[id := ph],
       log := match ev case None => s.log case Some(k) => s.log + [StepEvent(id, k)],
       errs := if ph.Errored() then s.errs + [id] else s.errs)
  }

  function Apply(c: Config, s: State, a: Action): State
    requires Enabled(c, s, a)
  {
    match a
    case RequestCancel => s.(cancelRequested := true)
    case Begin => s.(stage := Preparing, log := s.log + [RunStarted])
    case Prepare => if c.Runnable() then s.(stage := Between, tier := 0) else Fail(s)
    case StartTier =>
      if s.tier == c.TierCount() then s.(stage := Final(true), log := s.log + [RunCompleted])
      else if s.cancelRequested then Fail(s).(sawCancel := true)
      else s.(stage := Inside, phases := Spawn(c, s), errs := [])
    case JoinTier => if s.errs != [] then Fail(s) else s.(stage := Between, tier := s.tier + 1)
    case Acquire(id) => s.(phases := s.phases[id := Guards], slots := if c.Bounded() then s.slots + 1 else s.slots)
    case Move(id, choice) => MoveStep(c, s, id, choice)
    case Release(id) =>
      s.(phases := s.phases[id := Joined(s.phases[id].ok)], slots := if c.Bounded() then s.slots - 1 else s.slots)
  }

  // ----- Invariants -----

  ghost predicate PhaseFits(c: Config, s: State, id: string, ph: Phase) {
    match s.stage
    case Start => ph == Idle
    case Preparing => ph == Idle
    case Between => id in c.tierOf && if c.tierOf[id] < s.tier then ph == Joined(true) else ph == Idle
    case Inside =>
      id in c.tierOf && if c.tierOf[id] < s.tier then ph == Joined(true)
      else if c.tierOf[id] > s.tier then ph == Idle else ph != Idle
    case Final(completed) =>
      if completed then ph == Joined(true)
      else if !c.Runnable() then ph == Idle
      else id in c.tierOf && if c.tierOf[id] < s.tier then ph == Joined(true)
      else if c.tierOf[id] > s.tier || s.sawCancel then ph == Idle else ph.Joined?
  }

  ghost predicate PhasesFit(c: Config, s: State) {
    && s.phases.Keys == c.steps.Keys
    && (forall id :: id in s.phases ==> PhaseFits(c, s, id, s.phases[id]))
  }

  ghost predicate StageFits(c: Config, s: State) {
    match s.stage
    case Start => !s.sawCancel
    case Preparing => !s.sawCancel
    case Between => c.Runnable() && s.tier <= c.TierCount() && !s.sawCancel
    case Inside => c.Runnable() && s.tier < c.TierCount() && !s.sawCancel
    case Final(completed) =>
      if completed then c.Runnable() && !s.sawCancel
      else if !c.Runnable() then !s.sawCancel
      else s.tier < c.TierCount() && (s.sawCancel || s.errs != [])
  }

  function Holders(s: State): set<string> {
    set id | id in s.phases && s.phases[id].HoldsSlot()
  }

  ghost predicate SlotsCount(c: Config, s: State) {
    c.Bounded() ==> s.slots == |Holders(s)| <= c.maxParallel
  }

  /** While a tier is running or has failed, errs lists exactly its steps whose runStep returned an error. */
  ghost predicate ErrsListed(c: Config, s: State) {
    s.stage == Inside || (s.stage == Final(false) && c.Runnable() && !s.sawCancel) ==>
      forall id :: id in s.errs <==> id in s.phases && s.phases[id].Errored()
  }

  /** The log opens with run_started and has at most one run-level verdict, in last place. */
  ghost predicate LogFramed(s: State) {
    && (s.stage == Start <==> s.log == [])
    && (s.log != [] ==> s.log[0] == RunStarted)
    && (forall k :: 0 < k < |s.log| ==> s.log[k] != RunStarted)
    && (forall k :: 0 <= k < |s.log| && s.log[k].Terminal() ==> k == |s.log| - 1 && s.stage.Final?)
    && (s.stage.Final? ==> |s.log| >= 2 && s.log[|s.log| - 1] == if s.stage.completed then RunCompleted else RunFailed)
  }

  ghost predicate StepsLogged(c: Config, s: State) {
    forall id :: id in s.phases && id in c.steps ==> Consistent(c.steps[id], s.phases[id], Project(s.log, id))
  }

  ghost predicate Inv(c: Config, s: State) {
    && PhasesFit(c, s)
    && StageFits(c, s)
    && SlotsCount(c, s)
    && ErrsListed(c, s)
    && LogFramed(s)
    && StepsLogged(c, s)
  }

  lemma InitialInv(c: Config)
    ensures Inv(c, Initial(c))
  {
    assert Holders(Initial(c)) == {};
  }

  // Each action keeps each invariant.

  lemma PhaseKept(c: Config, s: State, a: Action, id: string)
    requires c.Valid() && Enabled(c, s, a) && StageFits(c, s)
    requires id in s.phases && id in c.steps && PhaseFits(c, s, id, s.phases[id])
    requires a.JoinTier? && s.errs == [] ==> !s.phases[id].Errored()
    ensures id in Apply(c, s, a).phases && PhaseFits(c, Apply(c, s, a), id, Apply(c, s, a).phases[id])
  {
    if !MovesStep(a) || a.id != id {
      OthersPhase(c, s, a, id);
    }
  }

  lemma PhasesKept(c: Config, s: State, a: Action)
    requires c.Valid() && Enabled(c, s, a)
    requires PhasesFit(c, s) && StageFits(c, s) && ErrsListed(c, s)
    ensures PhasesFit(c, Apply(c, s, a))
  {
    assert Apply(c, s, a).phases.Keys == s.phases.Keys;
    forall id | id in s.phases
      ensures PhaseFits(c, Apply(c, s, a), id, Apply(c, s, a).phases[id])
    {
      if a.JoinTier? && s.errs == [] {
        assert id !in s.errs;
      }
      PhaseKept(c, s, a, id);
    }
  }

  lemma StageKept(c: Config, s: State, a: Action)
    requires Enabled(c, s, a) && StageFits(c, s)
    ensures StageFits(c, Apply(c, s, a))
  {
  }

  function HoldersAfter(s: State, a: Action): set<string> {
    if a.Acquire? then Holders(s) + {a.id}
    else if a.Release? then Holders(s) - {a.id}
    else Holders(s)
  }

  predicate MovesStep(a: Action) {
    a.Acquire? || a.Move? || a.Release?
  }

  /** A step whose goroutine does not move keeps its phase, unless its tier is started. */
  lemma OthersPhase(c: Config, s: State, a: Action, id: string)
    requires Enabled(c, s, a) && id in s.phases && !(MovesStep(a) && a.id == id)
    ensures id in Apply(c, s, a).phases
    ensures Apply(c, s, a).phases[id] == s.phases[id] ||
      (a.StartTier? && id in c.tierOf && c.tierOf[id] == s.tier && Apply(c, s, a).phases[id] == Waiting)
  {
  }

  lemma HoldsAfter(c: Config, s: State, a: Action, id: string)
    requires Enabled(c, s, a) && PhasesFit(c, s) && id in s.phases
    ensures id in Apply(c, s, a).phases
    ensures Apply(c, s, a).phases[id].HoldsSlot() <==> id in HoldersAfter(s, a)
  {
    assert PhaseFits(c, s, id, s.phases[id]);
    if !(MovesStep(a) && a.id == id) {
      OthersPhase(c, s, a, id);
    }
  }

  lemma HoldersKept(c: Config, s: State, a: Action)
    requires Enabled(c, s, a) && PhasesFit(c, s)
    ensures Holders(Apply(c, s, a)) == HoldersAfter(s, a)
  {
    var s' := Apply(c, s, a);
    assert s'.phases.Keys == s.phases.Keys;
    forall id
      ensures id in Holders(s') <==> id in HoldersAfter(s, a)
    {
      if id in s.phases {
        HoldsAfter(c, s, a, id);
      }
    }
  }

  lemma SlotsKept(c: Config, s: State, a: Action)
    requires Enabled(c, s, a) && SlotsCount(c, s) && PhasesFit(c, s)
    ensures SlotsCount(c, Apply(c, s, a))
  {
    HoldersKept(c, s, a);
    var before, after := Holders(s), HoldersAfter(s, a);
    if a.Acquire? {
      assert a.id !in before;
      assert |after| == |before| + 1;
    } else if a.Release? {
      assert a.id in before;
      assert |after| == |before| - 1;
    } else {
      assert Apply(c, s, a).slots == s.slots;
    }
  }

  lemma ErrsKept(c: Config, s: State, a: Action)
    requires Enabled(c, s, a) && ErrsListed(c, s) && PhasesFit(c, s) && StageFits(c, s)
    ensures ErrsListed(c, Apply(c, s, a))
  {
    var s' := Apply(c, s, a);
    if a.StartTier? {
      forall id | id in s'.phases
        ensures !s'.phases[id].Errored() || s'.stage != Inside
      {
        assert PhaseFits(c, s, id, s.phases[id]);
      }
    } else if a.Move? || a.Acquire? || a.Release? {
      assert PhaseFits(c, s, a.id, s.phases[a.id]);
    }
  }

  lemma FrameAppend(s: State, s': State, e: Event)
    requires LogFramed(s) && s'.log == s.log + [e]
    requires !s.stage.Final? && s'.stage != Start
    requires e == RunStarted <==> s.stage == Start
    requires s'.stage.Final? <==> e.Terminal()
    requires s'.stage.Final? ==> e == if s'.stage.completed then RunCompleted else RunFailed
    ensures LogFramed(s')
  {
    var n := |s.log|;
    assert s'.log[n] == e;
    assert forall k :: 0 <= k < n ==> s'.log[k] == s.log[k];
  }

  lemma FrameSame(s: State, s': State)
    requires LogFramed(s) && s'.log == s.log
    requires s'.stage == s.stage || (s.stage != Start && s'.stage != Start && !s.stage.Final? && !s'.stage.Final?)
    ensures LogFramed(s')
  {
  }

  lemma LogKept(c: Config, s: State, a: Action)
    requires Enabled(c, s, a) && LogFramed(s) && PhasesFit(c, s)
    ensures LogFramed(Apply(c, s, a))
  {
    var s' := Apply(c, s, a);
    if a.Move? {
      assert PhaseFits(c, s, a.id, s.phases[a.id]);
      assert s.stage == Inside;
    }
    if |s'.log| > |s.log| {
      FrameAppend(s, s', s'.log[|s.log|]);
    } else {
      FrameSame(s, s');
    }
  }

  /** An action appends at most one event; a step's event only when that step's goroutine moves. */
  lemma LogGrows(c: Config, s: State, a: Action)
    requires Enabled(c, s, a)
    ensures s.log <= Apply(c, s, a).log && |Apply(c, s, a).log| <= |s.log| + 1
    ensures |s.log| < |Apply(c, s, a).log| && Apply(c, s, a).log[|s.log|].StepEvent? ==>
      a.Move? && a.id == Apply(c, s, a).log[|s.log|].id
  {
  }

  /** An event of another step, or a run event, leaves the projection alone. */
  lemma OthersUntouched(c: Config, s: State, a: Action, id: string)
    requires Enabled(c, s, a) && !(a.Move? && a.id == id)
    ensures Project(Apply(c, s, a).log, id) == Project(s.log, id)
  {
    LogGrows(c, s, a);
    var log := Apply(c, s, a).log;
    if |s.log| < |log| {
      assert log == s.log + [log[|s.log|]];
      ProjectAppend(s.log, log[|s.log|], id);
    } else {
      assert log == s.log;
    }
  }

  /** The log of the step that moves, by what one step of its goroutine does to it. */
  lemma MoverLogged(c: Config, s: State, id: string, choice: Choice)
    requires Enabled(c, s, Move(id, choice)) && Consistent(c.steps[id], s.phases[id], Project(s.log, id))
    ensures Consistent(c.steps[id], Apply(c, s, Move(id, choice)).phases[id], Project(Apply(c, s, Move(id, choice)).log, id))
  {
    var p := Project(s.log, id);
    AdvanceConsistent(c.steps[id], s.phases[id], choice, p);
    assert p + [] == p;
    var ev := Advance(c.steps[id], s.phases[id], choice).1;
    if ev.Some? {
      ProjectAppend(s.log, StepEvent(id, ev.value), id);
    }
  }

  /** Starting a tier, taking a slot and giving it back log nothing for a step. */
  lemma PhaseStillLogged(c: Config, s: State, a: Action, id: string)
    requires Enabled(c, s, a) && !(a.Move? && a.id == id) && id in s.phases && PhaseFits(c, s, id, s.phases[id])
    ensures id in Apply(c, s, a).phases
    ensures var before, after := s.phases[id], Apply(c, s, a).phases[id];
      || after == before
      || (before in {Idle, Waiting} && after in {Waiting, Guards})
      || (before.Returned? && after == Joined(before.ok))
  {
    if !(MovesStep(a) && a.id == id) {
      OthersPhase(c, s, a, id);
    }
  }

  lemma StepsLoggedKept(c: Config, s: State, a: Action)
    requires Enabled(c, s, a) && StepsLogged(c, s) && PhasesFit(c, s)
    ensures StepsLogged(c, Apply(c, s, a))
  {
    var s' := Apply(c, s, a);
    forall id | id in s'.phases && id in c.steps
      ensures Consistent(c.steps[id], s'.phases[id], Project(s'.log, id))
    {
      assert PhaseFits(c, s, id, s.phases[id]);
      if a.Move? && a.id == id {
        MoverLogged(c, s, id, a.choice);
      } else {
        OthersUntouched(c, s, a, id);
        PhaseStillLogged(c, s, a, id);
      }
    }
  }

  lemma InvKept(c: Config, s: State, a: Action)
    requires c.Valid() && Inv(c, s) && Enabled(c, s, a)
    ensures Inv(c, Apply(c, s, a))
  {
    PhasesKept(c, s, a);
    StageKept(c, s, a);
    SlotsKept(c, s, a);
    ErrsKept(c, s, a);
    LogKept(c, s, a);
    StepsLoggedKept(c, s, a);
  }

  // ----- Runs -----

  predicate CanRun(c: Config, s: State, actions: seq<Action>)
    decreases |actions|
  {
    actions == [] || (Enabled(c, s, actions[0]) && CanRun(c, Apply(c, s, actions[0]), actions[1..]))
  }

  function RunFrom(c: Config, s: State, actions: seq<Action>): State
    requires CanRun(c, s, actions)
    decreases |actions|
  {
    if actions == [] then s else RunFrom(c, Apply(c, s, actions[0]), actions[1..])
  }

  /** s is reached by some interleaving. */
  ghost predicate Reached(c: Config, s: State) {
    exists actions :: CanRun(c, Initial(c), actions) && RunFrom(c, Initial(c), actions) == s
  }

  lemma {:induction false} RunKeepsInv(c: Config, s: State, actions: seq<Action>)
    requires c.Valid() && Inv(c, s) && CanRun(c, s, actions)
    ensures Inv(c, RunFrom(c, s, actions))
    decreases |actions|
  {
    if actions != [] {
      InvKept(c, s, actions[0]);
      RunKeepsInv(c, Apply(c, s, actions[0]), actions[1..]);
    }
  }

  lemma ReachedInv(c: Config, s: State)
    requires c.Valid() && Reached(c, s)
    ensures Inv(c, s)
  {
    var actions :| CanRun(c, Initial(c), actions) && RunFrom(c, Initial(c), actions) == s;
    InitialInv(c);
    RunKeepsInv(c, Initial(c), actions);
  }

  // Its parts, for the lemmas that need no more.

  lemma ReachedPhase(c: Config, s: State, id: string)
    requires c.Valid() && Reached(c, s) && (id in s.phases || id in c.steps)
    ensures id in s.phases && id in c.steps && PhaseFits(c, s, id, s.phases[id])
  {
    ReachedInv(c, s);
  }

  lemma ReachedStage(c: Config, s: State)
    requires c.Valid() && Reached(c, s)
    ensures StageFits(c, s)
  {
    ReachedInv(c, s);
  }

  lemma ReachedFrame(c: Config, s: State)
    requires c.Valid() && Reached(c, s)
    ensures LogFramed(s)
  {
    ReachedInv(c, s);
  }

  lemma ReachedSlots(c: Config, s: State)
    requires c.Valid() && Reached(c, s)
    ensures SlotsCount(c, s)
  {
    ReachedInv(c, s);
  }

  lemma ReachedLog(c: Config, s: State, id: string)
    requires c.Valid() && Reached(c, s) && id in c.steps && id in s.phases
    ensures Consistent(c.steps[id], s.phases[id], Project(s.log, id))
  {
    ReachedInv(c, s);
  }
}
