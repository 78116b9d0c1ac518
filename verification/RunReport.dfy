/** From the choices of a step's goroutine to what the summaries of the run's log show, and back
    (internal/engine/engine.go, internal/engine/retry.go, state/summary.go). */
module RunReport {
  import opened Text
  import opened Dag
  import opened Events
  import opened Retry
  import opened Engine
  import EngineSafety
  import Summary

  // ----- Every interleaving runs each goroutine along one of its paths -----

  /** The events p of a step in phase ph were written along a path of its goroutine. */
  ghost predicate OnPath(step: Step, ph: Phase, p: seq<Kind>) {
    match ph
    case Idle => p == []
    case Waiting => p == []
    case Joined(ok) => PathTo(step, Returned(ok), p)
    case _ => PathTo(step, ph, p)
  }

  ghost predicate StepsOnPath(c: Config, s: State) {
    forall id :: id in s.phases && id in c.steps ==> OnPath(c.steps[id], s.phases[id], Project(s.log, id))
  }

  /** What a move of a goroutine does to its phase and to its projection of the log. */
  lemma MoveEffect(c: Config, s: State, id: string, choice: Choice)
    requires Enabled(c, s, Move(id, choice))
    ensures var next := Advance(c.steps[id], s.phases[id], choice);
      && Apply(c, s, Move(id, choice)).phases == s.phases[id := next.0]
      && Project(Apply(c, s, Move(id, choice)).log, id) == Project(s.log, id) + Written(next.1)
  {
    var next := Advance(c.steps[id], s.phases[id], choice);
    if next.1.Some? {
      ProjectAppend(s.log, StepEvent(id, next.1.value), id);
    }
  }

  lemma MoverOnPath(c: Config, s: State, id: string, choice: Choice)
    requires Enabled(c, s, Move(id, choice)) && OnPath(c.steps[id], s.phases[id], Project(s.log, id))
    ensures var s' := Apply(c, s, Move(id, choice));
      id in s'.phases && OnPath(c.steps[id], s'.phases[id], Project(s'.log, id))
  {
    MoveEffect(c, s, id, choice);
    var (step, ph, p) := (c.steps[id], s.phases[id], Project(s.log, id));
    NeverJoins(step, ph, choice);
    PathGrows(step, ph, p, choice);
  }

  lemma NeverJoins(step: Step, ph: Phase, c: Choice)
    requires Allowed(step, ph, c)
    ensures ph.InRunStep() && (Advance(step, ph, c).0.InRunStep() || Advance(step, ph, c).0.Returned?)
  {
  }

  lemma StayOnPath(step: Step, before: Phase, after: Phase, p: seq<Kind>)
    requires OnPath(step, before, p)
    requires
      || after == before
      || (before in {Idle, Waiting} && after in {Waiting, Guards})
      || (before.Returned? && after == Joined(before.ok))
    ensures OnPath(step, after, p)
  {
    PathStarts(step);
  }

  lemma StepsStayOnPath(c: Config, s: State, a: Action)
    requires Enabled(c, s, a) && StepsOnPath(c, s) && PhasesFit(c, s)
    ensures StepsOnPath(c, Apply(c, s, a))
  {
    var s' := Apply(c, s, a);
    assert s'.phases.Keys == s.phases.Keys;
    forall id | id in s'.phases && id in c.steps
      ensures OnPath(c.steps[id], s'.phases[id], Project(s'.log, id))
    {
      assert PhaseFits(c, s, id, s.phases[id]);
      if a.Move? && a.id == id {
        MoverOnPath(c, s, id, a.choice);
      } else {
        OthersUntouched(c, s, a, id);
        PhaseStillLogged(c, s, a, id);
        StayOnPath(c.steps[id], s.phases[id], s'.phases[id], Project(s.log, id));
      }
    }
  }

  lemma {:induction false} RunStaysOnPath(c: Config, s: State, actions: seq<Action>)
    requires c.Valid() && Inv(c, s) && StepsOnPath(c, s) && CanRun(c, s, actions)
    ensures StepsOnPath(c, RunFrom(c, s, actions))
    decreases |actions|
  {
    if actions != [] {
      InvKept(c, s, actions[0]);
      StepsStayOnPath(c, s, actions[0]);
      RunStaysOnPath(c, Apply(c, s, actions[0]), actions[1..]);
    }
  }

  /** At every moment of every interleaving, a step stands where one path of its goroutine leads, and its events in
      the log are the events of that path. */
  lemma EveryStepOnPath(c: Config, s: State, id: string)
    requires c.Valid() && Reached(c, s) && id in c.steps
    ensures id in s.phases && OnPath(c.steps[id], s.phases[id], Project(s.log, id))
  {
    var actions :| CanRun(c, Initial(c), actions) && RunFrom(c, Initial(c), actions) == s;
    InitialInv(c);
    RunStaysOnPath(c, Initial(c), actions);
    ReachedInv(c, s);
  }

  /** What the summaries of the run's log show for a step that has returned tells, of the last thing that happened to
      it: failed after the last failing attempt or a failed validation, completed after an artifact error as after
      success, nothing after a guard error. */
  lemma ReportedByLastChoice(c: Config, s: State, id: string, ok: bool) returns (choices: seq<Choice>)
    requires c.Valid() && Reached(c, s) && id in c.steps
    requires id in s.phases && s.phases[id] in {Returned(ok), Joined(ok)}
    ensures Path(c.steps[id], choices) == Some((Returned(ok), Project(s.log, id)))
    ensures choices != [] && ok == !Summary.Fails(choices[|choices| - 1])
    ensures Summary.Entry(c.steps[id].id, Project(s.log, id)).status == Summary.StatusAfter(choices[|choices| - 1])
  {
    EveryStepOnPath(c, s, id);
    choices :| Path(c.steps[id], choices) == Some((Returned(ok), Project(s.log, id)));
    Summary.ReturnedEntry(c.steps[id], choices, ok, Project(s.log, id));
  }

  /** In every interleaving, by the step's retry block: no step is started more often than its limit and once more, and one
      that is given up after a failed attempt has been started exactly so often. */
  lemma AttemptsInRun(c: Config, s: State, id: string)
    requires c.Valid() && Reached(c, s) && id in c.steps
    ensures id in s.phases
    ensures var retry, p := c.steps[id].retry, Project(s.log, id);
      CountStarted(p) <= if retry.Some? && retry.value.limit > 0 then retry.value.limit + 1 else 1
    ensures Enabled(c, s, Move(id, ExecutorError)) && Apply(c, s, Move(id, ExecutorError)).phases[id].Returned? ==>
      var retry, p := c.steps[id].retry, Project(s.log, id);
      CountStarted(p) == if retry.Some? && retry.value.limit > 0 then retry.value.limit + 1 else 1
  {
    ReachedInv(c, s);
    var step, ph, p := c.steps[id], s.phases[id], Project(s.log, id);
    AttemptsWithinLimit(step, ph, p);
    if Enabled(c, s, Move(id, ExecutorError)) && Apply(c, s, Move(id, ExecutorError)).phases[id].Returned? {
      MoveEffect(c, s, id, ExecutorError);
      GivesUpAtLimit(step, ph, p);
    }
  }

  // ----- Every path of a goroutine is run by some interleaving -----

  /** A DAG of one step, sorted and with known channels. */
  predicate OneStep(c: Config, id: string) {
    c.Runnable() && c.TierCount() == 1 && c.steps.Keys == {id} && c.tierOf == map[id := 0] && c.steps[id].depends == []
  }

  lemma ReachedNext(c: Config, s: State, a: Action)
    requires Reached(c, s) && Enabled(c, s, a)
    ensures Reached(c, Apply(c, s, a))
  {
    assert [a][1..] == [];
    assert CanRun(c, s, [a]) && RunFrom(c, s, [a]) == Apply(c, s, a);
    EngineSafety.ReachedLater(c, s, [a]);
  }

  /** The step is running and has got to ph with p written. */
  ghost predicate RunsAt(c: Config, s: State, id: string, ph: Phase, p: seq<Kind>) {
    Reached(c, s) && s.stage == Inside && s.tier == 0 && s.phases == map[id := ph] && Project(s.log, id) == p
  }

  lemma StepEnters(c: Config, id: string) returns (s: State)
    requires OneStep(c, id)
    ensures RunsAt(c, s, id, Guards, [])
  {
    s := Initial(c);
    assert CanRun(c, s, []) && RunFrom(c, s, []) == s;
    ReachedNext(c, s, Begin);
    s := Apply(c, s, Begin);
    ReachedNext(c, s, Prepare);
    s := Apply(c, s, Prepare);
    ReachedNext(c, s, StartTier);
    s := Apply(c, s, StartTier);
    assert s.phases == map[id := Waiting];
    ReachedNext(c, s, Acquire(id));
    s := Apply(c, s, Acquire(id));
    assert s.phases == map[id := Guards];
    assert [RunStarted][..0] == [];
    assert Project([RunStarted], id) == Project([], id);
  }

  lemma StepMoves(c: Config, s: State, id: string, ph: Phase, p: seq<Kind>, choice: Choice)
    requires OneStep(c, id) && RunsAt(c, s, id, ph, p) && Allowed(c.steps[id], ph, choice)
    ensures Enabled(c, s, Move(id, choice))
    ensures var next := Advance(c.steps[id], ph, choice);
      RunsAt(c, Apply(c, s, Move(id, choice)), id, next.0, p + Written(next.1))
  {
    ReachedNext(c, s, Move(id, choice));
    MoveEffect(c, s, id, choice);
  }

  lemma {:induction false} PathRuns(c: Config, id: string, choices: seq<Choice>, ph: Phase, p: seq<Kind>)
      returns (s: State)
    requires OneStep(c, id) && Path(c.steps[id], choices) == Some((ph, p))
    ensures RunsAt(c, s, id, ph, p)
  {
    if choices == [] {
      s := StepEnters(c, id);
    } else {
      var (ph0, p0) := Path(c.steps[id], choices[..|choices| - 1]).value;
      var choice := choices[|choices| - 1];
      s := PathRuns(c, id, choices[..|choices| - 1], ph0, p0);
      StepMoves(c, s, id, ph0, p0, choice);
      s := Apply(c, s, Move(id, choice));
    }
  }

  lemma StepLeaves(c: Config, s: State, id: string, ok: bool, p: seq<Kind>) returns (end: State)
    requires c.Valid() && OneStep(c, id) && RunsAt(c, s, id, Returned(ok), p)
    ensures RunsAt(c, end, id, Joined(ok), p)
  {
    ReachedNext(c, s, Release(id));
    OthersUntouched(c, s, Release(id), id);
    end := Apply(c, s, Release(id));
  }

  lemma ErrsOfOne(c: Config, s: State, id: string, ok: bool, p: seq<Kind>)
    requires c.Valid() && RunsAt(c, s, id, Joined(ok), p)
    ensures s.errs == [] <==> ok
  {
    ReachedInv(c, s);
    assert ErrsListed(c, s);
    assert id in s.errs <==> !ok;
    if s.errs != [] {
      assert s.errs[0] in s.errs;
    }
  }

  /** A one-step DAG has a run for every path of the goroutine to its end, and that run's verdict and log are those of
      the path. */
  lemma EveryPathIsRun(c: Config, id: string, choices: seq<Choice>, ok: bool, p: seq<Kind>) returns (end: State)
    requires c.Valid() && OneStep(c, id) && Path(c.steps[id], choices) == Some((Returned(ok), p))
    ensures Reached(c, end) && end.stage == Final(ok)
    ensures end.phases == map[id := Joined(ok)] && Project(end.log, id) == p
  {
    var s := PathRuns(c, id, choices, Returned(ok), p);
    s := StepLeaves(c, s, id, ok, p);
    ErrsOfOne(c, s, id, ok, p);
    ReachedNext(c, s, JoinTier);
    OthersUntouched(c, s, JoinTier, id);
    end := Apply(c, s, JoinTier);
    if ok {
      s := end;
      ReachedNext(c, s, StartTier);
      OthersUntouched(c, s, StartTier, id);
      end := Apply(c, s, StartTier);
    }
  }

  lemma PathThen(step: Step, choices: seq<Choice>, c: Choice, ph: Phase, p: seq<Kind>, next: Phase, k: Option<Kind>)
    requires Path(step, choices) == Some((ph, p)) && Allowed(step, ph, c) && Advance(step, ph, c) == (next, k)
    ensures Path(step, choices + [c]) == Some((next, p + Written(k)))
  {
    PathSnoc(step, choices, c, ph, p);
  }

  lemma ArtifactErrorPath(step: Step)
    requires step.artifacts > 0
    ensures Path(step, [Execute, ExecutorOk, ValidationsPass, ArtifactError]) ==
      Some((Returned(false), [Started(1), Completed(1)]))
  {
    PathThen(step, [], Execute, Guards, [], Attempting(1), Some(Started(1)));
    assert [] + [Execute] == [Execute] && [] + [Started(1)] == [Started(1)];
    PathThen(step, [Execute], ExecutorOk, Attempting(1), [Started(1)], Validating(1), Some(Completed(1)));
    assert [Execute] + [ExecutorOk] == [Execute, ExecutorOk];
    var p := [Started(1), Completed(1)];
    assert [Started(1)] + [Completed(1)] == p;
    PathThen(step, [Execute, ExecutorOk], ValidationsPass, Validating(1), p, Verifying(1, 0), None);
    assert [Execute, ExecutorOk] + [ValidationsPass] == [Execute, ExecutorOk, ValidationsPass] && p + [] == p;
    PathThen(step, [Execute, ExecutorOk, ValidationsPass], ArtifactError, Verifying(1, 0), p, Returned(false), None);
    assert [Execute, ExecutorOk, ValidationsPass] + [ArtifactError] ==
      [Execute, ExecutorOk, ValidationsPass, ArtifactError];
  }

  /** So a run can fail while its only step is shown as completed: the step misses an artifact it declares. */
  lemma FailedRunShownCompleted(c: Config, id: string) returns (end: State)
    requires c.Valid() && OneStep(c, id) && c.steps[id].artifacts > 0
    ensures Reached(c, end) && end.stage == Final(false) && end.phases == map[id := Joined(false)]
    ensures Summary.Entry(c.steps[id].id, Project(end.log, id)).status == "completed"
  {
    var step, p := c.steps[id], [Started(1), Completed(1)];
    var choices := [Execute, ExecutorOk, ValidationsPass, ArtifactError];
    ArtifactErrorPath(step);
    end := EveryPathIsRun(c, id, choices, false, p);
    Summary.ReturnedEntry(step, choices, false, p);
  }
}
