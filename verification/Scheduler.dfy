/** Admission of DAG runs (scheduler/scheduler.go, triggerRunWithParams).

    Trigger goroutines and run goroutines share the running map and its counter under one mutex; a
    trigger may give the mutex up to wait for a cancelled run. Each critical section is one atomic
    action, and any interleaving of actions is a run of the system. */
module Scheduler {

  // ----- State -----

  /** A run goroutine: registered, then out of the map, then its done channel closed. */
  datatype RunPhase = Active | Unregistered | Closed

  datatype Run = Run(name: string, phase: RunPhase, cancelled: bool)

  datatype TriggerPhase =
    | Arrived                      // before the first critical section
    | AwaitingDone(run: nat)       // mutex released, waiting for the run's done channel or the timer
    | Admitted(run: nat)
    | SkippedActive
    | SkippedRace
    | SkippedFull

  datatype Trigger = Trigger(name: string, cancelOverlap: bool, phase: TriggerPhase)

  datatype State = State(
    running: map<string, nat>,
    runningCount: int,
    maxConcurrent: int,
    runs: seq<Run>,
    triggers: seq<Trigger>)

  function Initial(maxConcurrent: int): State {
    State(map[], 0, maxConcurrent, [], [])
  }

  // ----- Actions -----

  datatype Action =
    | Arrive(name: string, cancelOverlap: bool)
    | Enter(t: nat)
    | Resume(t: nat, timedOut: bool)
    | Unregister(r: nat)
    | CloseDone(r: nat)

  predicate Enabled(s: State, a: Action) {
    match a
    case Arrive(_, _) => true
    case Enter(t) => t < |s.triggers| && s.triggers[t].phase.Arrived?
    case Resume(t, timedOut) =>
      && t < |s.triggers| && s.triggers[t].phase.AwaitingDone?
      && (timedOut || (s.triggers[t].phase.run < |s.runs| && s.runs[s.triggers[t].phase.run].phase.Closed?))
    case Unregister(r) => r < |s.runs| && s.runs[r].phase.Active?
    case CloseDone(r) => r < |s.runs| && s.runs[r].phase.Unregistered?
  }

  function SetTrigger(s: State, t: nat, phase: TriggerPhase): State
    requires t < |s.triggers|
  {
    s.(triggers := s.triggers[t := s.triggers[t].(phase := phase)])
  }

  /** The end of both critical sections: refuse when full, else register a new run. */
  function Admit(s: State, t: nat): State
    requires t < |s.triggers|
  {
    if s.runningCount >= s.maxConcurrent then SetTrigger(s, t, SkippedFull)
    else
      var name := s.triggers[t].name;
      SetTrigger(s, t, Admitted(|s.runs|)).(
        running := s.running[name := |s.runs|],
        runningCount := s.runningCount + 1,
        runs := s.runs + [Run(name, Active, false)])
  }

  function Cancel(runs: seq<Run>, r: nat): seq<Run> {
    if r < |runs| then runs[r := runs[r].(cancelled := true)] else runs
  }

  function Apply(s: State, a: Action): State
    requires Enabled(s, a)
  {
    match a
    case Arrive(name, cancelOverlap) => s.(triggers := s.triggers + [Trigger(name, cancelOverlap, Arrived)])
    case Enter(t) =>
      var name := s.triggers[t].name;
      if name in s.running then
        if s.triggers[t].cancelOverlap
        then SetTrigger(s, t, AwaitingDone(s.running[name])).(runs := Cancel(s.runs, s.running[name]))
        else SetTrigger(s, t, SkippedActive)
      else Admit(s, t)
    case Resume(t, _) =>
      if s.triggers[t].name in s.running then SetTrigger(s, t, SkippedRace) else Admit(s, t)
    case Unregister(r) =>
      s.(running := s.running - {s.runs[r].name},
         runningCount := s.runningCount - 1,
         runs := s.runs[r := s.runs[r].(phase := Unregistered)])
    case CloseDone(r) => s.(runs := s.runs[r := s.runs[r].(phase := Closed)])
  }

  // ----- Invariant -----

  ghost predicate Counted(s: State) {
    s.runningCount == |s.running| && s.runningCount <= s.maxConcurrent
  }

  /** The map and the active runs are the same thing seen from two sides. */
  ghost predicate MapIsActive(s: State) {
    && (forall name :: name in s.running ==>
          s.running[name] < |s.runs| && s.runs[s.running[name]].name == name && s.runs[s.running[name]].phase.Active?)
    && (forall r :: 0 <= r < |s.runs| && s.runs[r].phase.Active? ==>
          s.runs[r].name in s.running && s.running[s.runs[r].name] == r)
  }

  /** A trigger waits only for a run of its own DAG that it has cancelled, and each run was admitted
      for the trigger that records it. */
  ghost predicate TriggersFit(s: State) {
    forall t :: 0 <= t < |s.triggers| ==> TriggerFits(s, s.triggers[t])
  }

  ghost predicate TriggerFits(s: State, t: Trigger) {
    match t.phase
    case AwaitingDone(r) => r < |s.runs| && s.runs[r].name == t.name && s.runs[r].cancelled && t.cancelOverlap
    case Admitted(r) => r < |s.runs| && s.runs[r].name == t.name
    case _ => true
  }

  ghost predicate AdmittedBy(s: State, r: nat, t: nat) {
    t < |s.triggers| && s.triggers[t].phase == Admitted(r)
  }

  ghost predicate HasTrigger(s: State, r: nat) {
    exists t :: AdmittedBy(s, r, t)
  }

  /** No run without a trigger. */
  ghost predicate RunsHaveTriggers(s: State) {
    forall r: nat :: r < |s.runs| ==> HasTrigger(s, r)
  }

  /** No run admitted twice. */
  ghost predicate TriggersHaveOwnRuns(s: State) {
    forall r, t, u :: AdmittedBy(s, r, t) && AdmittedBy(s, r, u) ==> t == u
  }

  ghost predicate Inv(s: State) {
    Counted(s) && MapIsActive(s) && TriggersFit(s) && RunsHaveTriggers(s) && TriggersHaveOwnRuns(s)
  }

  lemma CountedKept(s: State, a: Action)
    requires Enabled(s, a) && Counted(s) && MapIsActive(s)
    ensures Counted(Apply(s, a))
  {
    if a.Unregister? {
      var name := s.runs[a.r].name;
      assert s.running.Keys == (s.running - {name}).Keys + {name};
      assert |s.running| == |s.running.Keys| && |s.running - {name}| == |(s.running - {name}).Keys|;
    }
  }

  lemma AdmitKeepsMap(s: State, t: nat)
    requires MapIsActive(s) && t < |s.triggers| && s.triggers[t].name !in s.running
    ensures MapIsActive(Admit(s, t))
  {
    var s' := Admit(s, t);
    forall r | 0 <= r < |s'.runs| && s'.runs[r].phase.Active?
      ensures s'.runs[r].name in s'.running && s'.running[s'.runs[r].name] == r
    {
      if r < |s.runs| {
        assert s'.runs[r] == s.runs[r];
      }
    }
  }

  lemma MapIsActiveKept(s: State, a: Action)
    requires Enabled(s, a) && MapIsActive(s)
    ensures MapIsActive(Apply(s, a))
  {
    if (a.Enter? || a.Resume?) && s.triggers[a.t].name !in s.running {
      AdmitKeepsMap(s, a.t);
    } else {
      var s' := Apply(s, a);
      forall r | 0 <= r < |s'.runs| && s'.runs[r].phase.Active?
        ensures s'.runs[r].name in s'.running && s'.running[s'.runs[r].name] == r
      {
        assert s.runs[r].phase.Active? && s'.runs[r].name == s.runs[r].name;
      }
    }
  }

  lemma TriggersFitKept(s: State, a: Action)
    requires Enabled(s, a) && MapIsActive(s) && TriggersFit(s)
    ensures TriggersFit(Apply(s, a))
  {
    var s' := Apply(s, a);
    assert |s'.triggers| >= |s.triggers| && |s'.runs| >= |s.runs|;
    forall t | 0 <= t < |s'.triggers|
      ensures TriggerFits(s', s'.triggers[t])
    {
      if t < |s.triggers| && !((a.Enter? || a.Resume?) && a.t == t) {
        OtherTriggerFits(s, a, t);
      } else {
      }
    }
  }

  lemma OtherTriggerFits(s: State, a: Action, t: nat)
    requires Enabled(s, a) && t < |s.triggers| && !((a.Enter? || a.Resume?) && a.t == t) && TriggerFits(s, s.triggers[t])
    ensures t < |Apply(s, a).triggers| && TriggerFits(Apply(s, a), Apply(s, a).triggers[t])
  {
    assert Apply(s, a).triggers[t] == s.triggers[t];
  }

  /** Who admitted what changes only by the admission an action performs. */
  lemma AdmittedByChanges(s: State, a: Action, r: nat, t: nat)
    requires Enabled(s, a)
    ensures AdmittedBy(Apply(s, a), r, t) <==>
      AdmittedBy(s, r, t) || ((a.Enter? || a.Resume?) && a.t == t && Apply(s, a).triggers[t].phase == Admitted(r))
    ensures (a.Enter? || a.Resume?) && Apply(s, a).triggers[a.t].phase.Admitted? ==>
      Apply(s, a).triggers[a.t].phase.run == |s.runs| && |Apply(s, a).runs| == |s.runs| + 1
    ensures |Apply(s, a).runs| > |s.runs| ==> (a.Enter? || a.Resume?) && Apply(s, a).triggers[a.t].phase == Admitted(|s.runs|)
  {
  }

  lemma RunsHaveTriggersKept(s: State, a: Action)
    requires Enabled(s, a) && RunsHaveTriggers(s)
    ensures RunsHaveTriggers(Apply(s, a))
  {
    forall r: nat | r < |Apply(s, a).runs|
      ensures HasTrigger(Apply(s, a), r)
    {
      if r < |s.runs| {
        assert HasTrigger(s, r);
        var t :| AdmittedBy(s, r, t);
        AdmittedByChanges(s, a, r, t);
      } else {
        AdmittedByChanges(s, a, r, 0);
        AdmittedByChanges(s, a, r, a.t);
      }
    }
  }

  lemma TriggersHaveOwnRunsKept(s: State, a: Action)
    requires Enabled(s, a) && TriggersFit(s) && TriggersHaveOwnRuns(s)
    ensures TriggersHaveOwnRuns(Apply(s, a))
  {
    forall r, t, u | AdmittedBy(Apply(s, a), r, t) && AdmittedBy(Apply(s, a), r, u)
      ensures t == u
    {
      AdmittedByChanges(s, a, r, t);
      AdmittedByChanges(s, a, r, u);
    }
  }

  lemma InvKept(s: State, a: Action)
    requires Inv(s) && Enabled(s, a)
    ensures Inv(Apply(s, a))
  {
    CountedKept(s, a);
    MapIsActiveKept(s, a);
    TriggersFitKept(s, a);
    RunsHaveTriggersKept(s, a);
    TriggersHaveOwnRunsKept(s, a);
  }

  // ----- All interleavings -----

  predicate CanRun(s: State, actions: seq<Action>)
    decreases |actions|
  {
    actions == [] || (Enabled(s, actions[0]) && CanRun(Apply(s, actions[0]), actions[1..]))
  }

  function RunFrom(s: State, actions: seq<Action>): State
    requires CanRun(s, actions)
    decreases |actions|
  {
    if actions == [] then s else RunFrom(Apply(s, actions[0]), actions[1..])
  }

  ghost predicate Reached(maxConcurrent: int, s: State) {
    exists actions :: CanRun(Initial(maxConcurrent), actions) && RunFrom(Initial(maxConcurrent), actions) == s
  }

  lemma {:induction false} RunKeepsInv(s: State, actions: seq<Action>)
    requires Inv(s) && CanRun(s, actions)
    ensures Inv(RunFrom(s, actions)) && RunFrom(s, actions).maxConcurrent == s.maxConcurrent
    decreases |actions|
  {
    if actions != [] {
      InvKept(s, actions[0]);
      RunKeepsInv(Apply(s, actions[0]), actions[1..]);
    }
  }

  /** In every state any interleaving can reach: the counter is the size of the map and within the
      limit; a DAG has at most one registered run and it is the one in the map; a run whose done
      channel is closed is not in the map; every run was admitted by exactly one trigger. */
  lemma AdmissionSafe(maxConcurrent: int, s: State)
    requires maxConcurrent > 0 && Reached(maxConcurrent, s)
    ensures s.runningCount == |s.running| <= maxConcurrent == s.maxConcurrent
    ensures forall q, r ::
      && 0 <= q < |s.runs| && 0 <= r < |s.runs| && s.runs[q].phase.Active? && s.runs[r].phase.Active?
      && s.runs[q].name == s.runs[r].name
      ==> q == r
    ensures forall r :: 0 <= r < |s.runs| ==>
      (s.runs[r].phase.Active? <==> s.runs[r].name in s.running && s.running[s.runs[r].name] == r)
    ensures forall name :: name in s.running ==> s.running[name] < |s.runs| && !s.runs[s.running[name]].phase.Closed?
    ensures RunsHaveTriggers(s) && TriggersHaveOwnRuns(s)
  {
    ReachedInv(maxConcurrent, s);
  }

  lemma ReachedInv(maxConcurrent: int, s: State)
    requires maxConcurrent > 0 && Reached(maxConcurrent, s)
    ensures Inv(s) && s.maxConcurrent == maxConcurrent
  {
    var actions :| CanRun(Initial(maxConcurrent), actions) && RunFrom(Initial(maxConcurrent), actions) == s;
    RunKeepsInv(Initial(maxConcurrent), actions);
  }

  /** No entry is ever overwritten or dropped: it stays as it is until its own run unregisters. */
  lemma EntriesLastUntilUnregistered(maxConcurrent: int, s: State, a: Action, name: string)
    requires maxConcurrent > 0 && Reached(maxConcurrent, s) && Enabled(s, a)
    requires name in s.running
    ensures if a == Unregister(s.running[name]) then name !in Apply(s, a).running
            else name in Apply(s, a).running && Apply(s, a).running[name] == s.running[name]
  {
    ReachedInv(maxConcurrent, s);
  }

  /** Once every run goroutine has unregistered, nothing is left behind. */
  lemma AllEndedMeansEmpty(maxConcurrent: int, s: State)
    requires maxConcurrent > 0 && Reached(maxConcurrent, s)
    requires forall r :: 0 <= r < |s.runs| ==> !s.runs[r].phase.Active?
    ensures s.running == map[] && s.runningCount == 0
  {
    ReachedInv(maxConcurrent, s);
    assert s.running.Keys == {};
  }

  // ----- Nobody waits forever -----

  predicate Settled(s: State) {
    && (forall t :: 0 <= t < |s.triggers| ==> !s.triggers[t].phase.Arrived? && !s.triggers[t].phase.AwaitingDone?)
    && (forall r :: 0 <= r < |s.runs| ==> s.runs[r].phase.Closed?)
  }

  /** While a trigger is undecided or a run has not closed its channel, some goroutine can move. */
  lemma SomebodyMoves(s: State) returns (a: Action)
    requires !Settled(s)
    ensures Enabled(s, a) && !a.Arrive?
  {
    if t :| 0 <= t < |s.triggers| && (s.triggers[t].phase.Arrived? || s.triggers[t].phase.AwaitingDone?) {
      a := if s.triggers[t].phase.Arrived? then Enter(t) else Resume(t, true);
    } else {
      var r :| 0 <= r < |s.runs| && !s.runs[r].phase.Closed?;
      a := if s.runs[r].phase.Active? then Unregister(r) else CloseDone(r);
    }
  }

  function TriggerWeight(phase: TriggerPhase): nat {
    match phase
    case Arrived => 4
    case AwaitingDone(_) => 3
    case _ => 0
  }

  function RunWeight(phase: RunPhase): nat {
    match phase
    case Active => 2
    case Unregistered => 1
    case Closed => 0
  }

  function TriggerWork(ts: seq<Trigger>): nat {
    if ts == [] then 0 else TriggerWork(ts[..|ts| - 1]) + TriggerWeight(ts[|ts| - 1].phase)
  }

  function RunWork(rs: seq<Run>): nat {
    if rs == [] then 0 else RunWork(rs[..|rs| - 1]) + RunWeight(rs[|rs| - 1].phase)
  }

  lemma {:induction false} TriggerWorkAt(ts: seq<Trigger>, t: nat, phase: TriggerPhase)
    requires t < |ts|
    ensures TriggerWork(ts[t := ts[t].(phase := phase)]) ==
      TriggerWork(ts) - TriggerWeight(ts[t].phase) + TriggerWeight(phase)
  {
    var us := ts[t := ts[t].(phase := phase)];
    if t == |ts| - 1 {
      assert us[..t] == ts[..t];
    } else {
      TriggerWorkAt(ts[..|ts| - 1], t, phase);
      assert us[..|ts| - 1] == ts[..|ts| - 1][t := ts[t].(phase := phase)];
    }
  }

  lemma {:induction false} RunWorkAt(rs: seq<Run>, r: nat, run: Run)
    requires r < |rs|
    ensures RunWork(rs[r := run]) == RunWork(rs) - RunWeight(rs[r].phase) + RunWeight(run.phase)
  {
    var us := rs[r := run];
    if r == |rs| - 1 {
      assert us[..r] == rs[..r];
    } else {
      RunWorkAt(rs[..|rs| - 1], r, run);
      assert us[..|rs| - 1] == rs[..|rs| - 1][r := run];
    }
  }

  lemma AdmitWork(s: State, t: nat)
    requires t < |s.triggers|
    ensures TriggerWork(Admit(s, t).triggers) == TriggerWork(s.triggers) - TriggerWeight(s.triggers[t].phase)
    ensures RunWork(Admit(s, t).runs) <= RunWork(s.runs) + 2
  {
    TriggerWorkAt(s.triggers, t, Admit(s, t).triggers[t].phase);
    assert (s.runs + [Run(s.triggers[t].name, Active, false)])[..|s.runs|] == s.runs;
  }

  function TotalWork(s: State): nat {
    TriggerWork(s.triggers) + RunWork(s.runs)
  }

  /** Every action except a new arrival uses up work, so finitely many triggers settle in finitely many steps. */
  lemma WorkShrinks(s: State, a: Action)
    requires MapIsActive(s) && Enabled(s, a)
    ensures a.Arrive? ==> TotalWork(Apply(s, a)) == TotalWork(s) + 4
    ensures !a.Arrive? ==> TotalWork(Apply(s, a)) < TotalWork(s)
  {
    match a {
      case Arrive(name, cancelOverlap) =>
        assert Apply(s, a).triggers[..|s.triggers|] == s.triggers;
      case Enter(t) =>
        if s.triggers[t].name in s.running {
          var r := s.running[s.triggers[t].name];
          TriggerWorkAt(s.triggers, t, Apply(s, a).triggers[t].phase);
          RunWorkAt(s.runs, r, s.runs[r].(cancelled := true));
        } else {
          AdmitWork(s, t);
        }
      case Resume(t, _) =>
        TriggerWorkAt(s.triggers, t, SkippedRace);
        AdmitWork(s, t);
      case Unregister(r) => RunWorkAt(s.runs, r, s.runs[r].(phase := Unregistered));
      case CloseDone(r) => RunWorkAt(s.runs, r, s.runs[r].(phase := Closed));
    }
  }

  function Arrivals(actions: seq<Action>): nat {
    if actions == [] then 0 else (if actions[0].Arrive? then 1 else 0) + Arrivals(actions[1..])
  }

  /** At most five actions per trigger, its arrival included, on top of the work already in progress. */
  lemma {:induction false} RunsAreBounded(s: State, actions: seq<Action>)
    requires Inv(s) && CanRun(s, actions)
    ensures |actions| <= TotalWork(s) + 5 * Arrivals(actions)
    decreases |actions|
  {
    if actions != [] {
      InvKept(s, actions[0]);
      WorkShrinks(s, actions[0]);
      RunsAreBounded(Apply(s, actions[0]), actions[1..]);
    }
  }

  // ----- What a critical section decides -----

  /** The trigger gets a new run of its DAG, which is in the map and counted; all else is as before. */
  ghost predicate Started(s: State, s': State, t: nat) {
    && t < |s.triggers| && |s'.runs| == |s.runs| + 1 && s'.maxConcurrent == s.maxConcurrent
    && s'.triggers == s.triggers[t := Trigger(s.triggers[t].name, s.triggers[t].cancelOverlap, Admitted(|s.runs|))]
    && s'.runs[|s.runs|] == Run(s.triggers[t].name, Active, false) && s.runs <= s'.runs
    && s'.running == s.running[s.triggers[t].name := |s.runs|]
    && |s'.running| == |s.running| + 1 && s'.runningCount == s.runningCount + 1
  }

  /** The trigger ends in this phase, and no run, map entry or count changes. */
  ghost predicate Turned(s: State, s': State, t: nat, phase: TriggerPhase) {
    && t < |s.triggers|
    && s'.triggers == s.triggers[t := Trigger(s.triggers[t].name, s.triggers[t].cancelOverlap, phase)]
    && s'.runs == s.runs && s'.running == s.running && s'.runningCount == s.runningCount
    && s'.maxConcurrent == s.maxConcurrent
  }

  /** The first critical section, from any state the invariant allows, so from every reachable one. A DAG that is not
      running is started exactly if fewer than the limit are; one that is running is left alone, or its run, and no
      other, is cancelled and waited for. */
  lemma EnterDecides(s: State, t: nat)
    requires Inv(s) && t < |s.triggers| && s.triggers[t].phase == Arrived
    ensures Enabled(s, Enter(t))
    ensures var name, s' := s.triggers[t].name, Apply(s, Enter(t));
      && (name !in s.running && |s.running| < s.maxConcurrent ==> Started(s, s', t))
      && (name !in s.running && |s.running| >= s.maxConcurrent ==> Turned(s, s', t, SkippedFull))
      && (name in s.running && !s.triggers[t].cancelOverlap ==> Turned(s, s', t, SkippedActive))
      && (name in s.running && s.triggers[t].cancelOverlap ==>
            var r := s.running[name];
            && r < |s.runs| && s'.runs == s.runs[r := Run(name, Active, true)]
            && s'.triggers == s.triggers[t := Trigger(name, true, AwaitingDone(r))]
            && s'.running == s.running && s'.runningCount == s.runningCount && s'.maxConcurrent == s.maxConcurrent)
  {
  }

  /** A trigger that waits gets on when the run it waits for has closed its channel, or its patience is over; the second
      critical section decides like the first, but no longer cancels anything. */
  lemma ResumeDecides(s: State, t: nat, timedOut: bool)
    requires Inv(s) && t < |s.triggers| && s.triggers[t].phase.AwaitingDone?
    ensures s.triggers[t].phase.run < |s.runs|
    ensures Enabled(s, Resume(t, timedOut)) <==> timedOut || s.runs[s.triggers[t].phase.run].phase == Closed
    ensures Enabled(s, Resume(t, timedOut)) ==>
      var name, s' := s.triggers[t].name, Apply(s, Resume(t, timedOut));
      && (name !in s.running && |s.running| < s.maxConcurrent ==> Started(s, s', t))
      && (name !in s.running && |s.running| >= s.maxConcurrent ==> Turned(s, s', t, SkippedFull))
      && (name in s.running ==> Turned(s, s', t, SkippedRace))
  {
    assert TriggerFits(s, s.triggers[t]);
  }

  /** A trigger can always arrive, and then waits for the mutex with the name and policy it came with. */
  lemma ArriveDecides(s: State, name: string, cancelOverlap: bool)
    ensures Enabled(s, Arrive(name, cancelOverlap))
    ensures var s' := Apply(s, Arrive(name, cancelOverlap));
      && s'.triggers == s.triggers + [Trigger(name, cancelOverlap, Arrived)]
      && s'.runs == s.runs && s'.running == s.running && s'.runningCount == s.runningCount
  {
  }

  /** A run that ends takes its own entry out of the map, and no other, and only then closes its channel. */
  lemma EndDecides(s: State, r: nat)
    requires Inv(s) && r < |s.runs|
    ensures Enabled(s, Unregister(r)) <==> s.runs[r].phase == Active
    ensures Enabled(s, CloseDone(r)) <==> s.runs[r].phase == Unregistered
    ensures s.runs[r].phase == Active ==>
      var s' := Apply(s, Unregister(r));
      && s.runs[r].name in s.running && s.running[s.runs[r].name] == r
      && s'.running == s.running - {s.runs[r].name} && s'.runningCount == s.runningCount - 1
      && s'.runs == s.runs[r := Run(s.runs[r].name, Unregistered, s.runs[r].cancelled)] && s'.triggers == s.triggers
    ensures s.runs[r].phase == Unregistered ==>
      var s' := Apply(s, CloseDone(r));
      && s'.runs == s.runs[r := Run(s.runs[r].name, Closed, s.runs[r].cancelled)]
      && s'.running == s.running && s'.runningCount == s.runningCount && s'.triggers == s.triggers
  {
  }

  // ----- The code of the critical sections -----

  class SchedulerState {
    var running: map<string, nat>
    var runningCount: int
    const maxConcurrent: int
    var runs: seq<Run>
    var triggers: seq<Trigger>

    ghost function View(): State
      reads this
    {
      State(running, runningCount, maxConcurrent, runs, triggers)
    }

    ghost predicate Valid()
      reads this
    {
      Inv(View())
    }

    constructor (maxConc: int)
      requires maxConc > 0
      ensures Valid() && View() == Initial(maxConc)
    {
      running, runningCount, maxConcurrent := map[], 0, maxConc;
      runs, triggers := [], [];
      new;
      assert View() == Initial(maxConc);
    }

    method NewTrigger(name: string, cancelOverlap: bool) returns (t: nat)
      requires Valid()
      modifies this
      ensures Valid() && View() == Apply(old(View()), Arrive(name, cancelOverlap))
      ensures t == |old(triggers)|
    {
      InvKept(View(), Arrive(name, cancelOverlap));
      t := |triggers|;
      triggers := triggers + [Trigger(name, cancelOverlap, Arrived)];
    }

    method Decide(t: nat, phase: TriggerPhase)
      requires t < |triggers|
      modifies this`triggers
      ensures triggers == old(triggers)[t := old(triggers)[t].(phase := phase)]
    {
      triggers := triggers[t := triggers[t].(phase := phase)];
    }

    /** The end of triggerRunWithParams under the mutex. */
    method AdmitOrRefuse(t: nat)
      requires t < |triggers|
      modifies this
      ensures View() == Admit(old(View()), t)
    {
      if runningCount >= maxConcurrent {
        Decide(t, SkippedFull);
        return;
      }
      var done := |runs|;
      runs := runs + [Run(triggers[t].name, Active, false)];
      running := running[triggers[t].name := done];
      runningCount := runningCount + 1;
      Decide(t, Admitted(done));
    }

    method EnterTrigger(t: nat)
      requires Valid() && Enabled(View(), Enter(t))
      modifies this
      ensures Valid() && View() == Apply(old(View()), Enter(t))
    {
      InvKept(View(), Enter(t));
      var name := triggers[t].name;
      if name in running {
        var previous := running[name];
        if triggers[t].cancelOverlap {
          runs := runs[previous := runs[previous].(cancelled := true)];
          Decide(t, AwaitingDone(previous));
        } else {
          Decide(t, SkippedActive);
        }
        return;
      }
      AdmitOrRefuse(t);
    }

    method ResumeTrigger(t: nat, timedOut: bool)
      requires Valid() && Enabled(View(), Resume(t, timedOut))
      modifies this
      ensures Valid() && View() == Apply(old(View()), Resume(t, timedOut))
    {
      InvKept(View(), Resume(t, timedOut));
      if triggers[t].name in running {
        Decide(t, SkippedRace);
        return;
      }
      AdmitOrRefuse(t);
    }

    method UnregisterRun(r: nat)
      requires Valid() && Enabled(View(), Unregister(r))
      modifies this
      ensures Valid() && View() == Apply(old(View()), Unregister(r))
    {
      InvKept(View(), Unregister(r));
      running := running - {runs[r].name};
      runningCount := runningCount - 1;
      runs := runs[r := runs[r].(phase := Unregistered)];
    }

    method CloseRun(r: nat)
      requires Valid() && Enabled(View(), CloseDone(r))
      modifies this
      ensures Valid() && View() == Apply(old(View()), CloseDone(r))
    {
      InvKept(View(), CloseDone(r));
      runs := runs[r := runs[r].(phase := Closed)];
    }
  }
}
