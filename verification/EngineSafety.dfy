/** What holds in every interleaving of a run: order of steps, outcome, log (internal/engine/engine.go). */
module EngineSafety {
  import opened Dag
  import opened Events
  import opened Retry
  import opened Engine

  // ----- Dependency safety -----

  /** Whatever the interleaving, a step enters runStep only after runStep of each of its dependencies
      has returned nil. */
  lemma DependenciesFirst(c: Config, s: State, id: string, d: string)
    requires c.Valid() && Reached(c, s)
    requires id in s.phases && s.phases[id].Entered() && id in c.steps && d in c.steps[id].depends
    ensures d in s.phases && s.phases[d] == Joined(true)
  {
    ReachedPhase(c, s, id);
    ReachedStage(c, s);
    EnteredInTier(c, s, id);
    ReachedPhase(c, s, d);
  }

  lemma EnteredInTier(c: Config, s: State, id: string)
    requires id in s.phases && s.phases[id].Entered() && PhaseFits(c, s, id, s.phases[id]) && StageFits(c, s)
    ensures c.Runnable() && (s.stage.Inside? || s.stage.Between? || s.stage.Final?)
    ensures s.stage == Final(true) || (id in c.tierOf && c.tierOf[id] <= s.tier)
  {
  }

  /** Once a step has returned an error, no step of a later tier has been started. */
  lemma ErrorStopsLaterTiers(c: Config, s: State, failed: string, later: string)
    requires c.Valid() && Reached(c, s)
    requires failed in s.phases && s.phases[failed].Errored()
    requires later in s.phases && failed in c.tierOf && later in c.tierOf && c.tierOf[failed] < c.tierOf[later]
    ensures s.phases[later] == Idle
  {
    ReachedPhase(c, s, failed);
    ReachedPhase(c, s, later);
  }

  /** Once a tier start has seen the cancel request, the run is over and that tier and all later ones never started. */
  lemma CancelStopsTiers(c: Config, s: State, id: string)
    requires c.Valid() && Reached(c, s) && s.sawCancel
    requires id in s.phases && id in c.tierOf && c.tierOf[id] >= s.tier
    ensures s.stage == Final(false) && s.phases[id] == Idle
  {
    ReachedInv(c, s);
    assert PhaseFits(c, s, id, s.phases[id]);
  }

  /** What a step returned is never taken back, and a run that is over stays as it is. */
  lemma {:induction false} OutcomesStay(c: Config, s: State, actions: seq<Action>)
    requires c.Valid() && Inv(c, s) && CanRun(c, s, actions)
    ensures var s' := RunFrom(c, s, actions);
      && (forall id :: id in s.phases ==> id in s'.phases)
      && (forall id :: id in s.phases && s.phases[id].Errored() ==> s'.phases[id].Errored())
      && (forall id :: id in s.phases && s.phases[id].Succeeded() ==> s'.phases[id].Succeeded())
      && (s.stage.Final? ==> s'.log == s.log && s'.phases == s.phases && s'.stage == s.stage && s'.sawCancel == s.sawCancel)
      && s.log <= s'.log
    decreases |actions|
  {
    if actions != [] {
      var s1 := Apply(c, s, actions[0]);
      InvKept(c, s, actions[0]);
      OutcomeStays(c, s, actions[0]);
      OutcomesStay(c, s1, actions[1..]);
    }
  }

  lemma OutcomeStays(c: Config, s: State, a: Action)
    requires Inv(c, s) && Enabled(c, s, a)
    ensures var s' := Apply(c, s, a);
      && s'.phases.Keys == s.phases.Keys
      && (forall id :: id in s.phases && s.phases[id].Errored() ==> s'.phases[id].Errored())
      && (forall id :: id in s.phases && s.phases[id].Succeeded() ==> s'.phases[id].Succeeded())
      && (s.stage.Final? ==> s'.log == s.log && s'.phases == s.phases && s'.stage == s.stage && s'.sawCancel == s.sawCancel)
      && s.log <= s'.log
  {
    var s' := Apply(c, s, a);
    forall id | id in s.phases
      ensures id in s'.phases
      ensures s.phases[id].Errored() ==> s'.phases[id].Errored()
      ensures s.phases[id].Succeeded() ==> s'.phases[id].Succeeded()
    {
      assert PhaseFits(c, s, id, s.phases[id]);
      PhaseOutcomeStays(c, s, a, id);
    }
    LogGrows(c, s, a);
    if s.stage.Final? {
      FinalStays(c, s, a);
    }
  }

  /** Only a cancel request can still arrive once the run is over. */
  lemma FinalStays(c: Config, s: State, a: Action)
    requires Enabled(c, s, a) && PhasesFit(c, s) && s.stage.Final?
    ensures a.RequestCancel?
  {
    forall id | id in s.phases
      ensures s.phases[id].Idle? || s.phases[id].Joined?
    {
      assert PhaseFits(c, s, id, s.phases[id]);
    }
  }

  lemma PhaseOutcomeStays(c: Config, s: State, a: Action, id: string)
    requires Enabled(c, s, a) && id in s.phases && PhaseFits(c, s, id, s.phases[id])
    ensures id in Apply(c, s, a).phases
    ensures s.phases[id].Errored() ==> Apply(c, s, a).phases[id].Errored()
    ensures s.phases[id].Succeeded() ==> Apply(c, s, a).phases[id].Succeeded()
  {
    match a {
      case StartTier =>
      case Acquire(x) => if x == id {}
      case Move(x, choice) => if x == id {}
      case Release(x) => if x == id {}
      case _ =>
    }
  }

  /** Hence, after an error, no continuation ever starts a step of a later tier. */
  lemma ErrorStopsLaterTiersForever(c: Config, s: State, actions: seq<Action>, failed: string, later: string)
    requires c.Valid() && Reached(c, s) && CanRun(c, s, actions)
    requires failed in s.phases && s.phases[failed].Errored()
    requires later in s.phases && failed in c.tierOf && later in c.tierOf && c.tierOf[failed] < c.tierOf[later]
    ensures later in RunFrom(c, s, actions).phases && RunFrom(c, s, actions).phases[later] == Idle
  {
    ReachedInv(c, s);
    OutcomesStay(c, s, actions);
    ReachedLater(c, s, actions);
    ErrorStopsLaterTiers(c, RunFrom(c, s, actions), failed, later);
  }

  lemma ReachedLater(c: Config, s: State, actions: seq<Action>)
    requires Reached(c, s) && CanRun(c, s, actions)
    ensures Reached(c, RunFrom(c, s, actions))
  {
    var first :| CanRun(c, Initial(c), first) && RunFrom(c, Initial(c), first) == s;
    RunConcat(c, Initial(c), first, actions);
  }

  lemma {:induction false} RunConcat(c: Config, s: State, xs: seq<Action>, ys: seq<Action>)
    requires CanRun(c, s, xs) && CanRun(c, RunFrom(c, s, xs), ys)
    ensures CanRun(c, s, xs + ys) && RunFrom(c, s, xs + ys) == RunFrom(c, RunFrom(c, s, xs), ys)
    decreases |xs|
  {
    if xs == [] {
      assert xs + ys == ys;
    } else {
      assert (xs + ys)[1..] == xs[1..] + ys;
      RunConcat(c, Apply(c, s, xs[0]), xs[1..], ys);
    }
  }

  // ----- Log and outcome -----

  /** A finished run: the log starts with run_started, ends with its only verdict, and the verdict is
      run_completed exactly when the DAG could be scheduled, every step returned nil and no tier start saw a cancel. */
  lemma RunOutcome(c: Config, s: State)
    requires c.Valid() && Reached(c, s) && s.stage.Final?
    ensures |s.log| >= 2 && s.log[0] == RunStarted
    ensures forall k :: 0 <= k < |s.log| ==> (s.log[k].Terminal() <==> k == |s.log| - 1)
    ensures s.log[|s.log| - 1] == RunCompleted <==>
      c.channelsKnown && c.sorted.Tiers? && !s.sawCancel && forall id :: id in s.phases ==> s.phases[id] == Joined(true)
  {
    ReachedInv(c, s);
    if s.stage.completed {
      forall id | id in s.phases
        ensures s.phases[id] == Joined(true)
      {
        assert PhaseFits(c, s, id, s.phases[id]);
      }
    } else if c.Runnable() && !s.sawCancel {
      var id := s.errs[0];
      assert id in s.errs;
      assert s.phases[id].Errored();
    }
  }

  /** With an unknown channel, or steps that cannot be sorted, nothing is started and the run fails. */
  lemma UnrunnableStartsNothing(c: Config, s: State)
    requires c.Valid() && Reached(c, s) && (!c.channelsKnown || !c.sorted.Tiers?)
    ensures forall id :: id in s.phases ==> s.phases[id] == Idle
    ensures s.stage.Final? ==> s.log == [RunStarted, RunFailed]
  {
    ReachedInv(c, s);
    forall id | id in s.phases
      ensures s.phases[id] == Idle
    {
      assert PhaseFits(c, s, id, s.phases[id]);
    }
    var actions :| CanRun(c, Initial(c), actions) && RunFrom(c, Initial(c), actions) == s;
    InitialInv(c);
    UnrunnableLog(c, Initial(c), actions);
  }

  /** What the log is before the first tier. */
  ghost predicate NothingLogged(s: State) {
    match s.stage
    case Start => s.log == []
    case Preparing => s.log == [RunStarted]
    case Final(_) => s.log == [RunStarted, RunFailed]
    case _ => false
  }

  lemma UnrunnableStep(c: Config, s: State, a: Action)
    requires Inv(c, s) && Enabled(c, s, a) && (!c.channelsKnown || !c.sorted.Tiers?) && NothingLogged(s)
    ensures NothingLogged(Apply(c, s, a))
  {
    assert forall id :: id in s.phases ==> PhaseFits(c, s, id, s.phases[id]);
  }

  lemma {:induction false} UnrunnableLog(c: Config, s: State, actions: seq<Action>)
    requires c.Valid() && Inv(c, s) && CanRun(c, s, actions) && (!c.channelsKnown || !c.sorted.Tiers?) && NothingLogged(s)
    ensures NothingLogged(RunFrom(c, s, actions))
    decreases |actions|
  {
    if actions != [] {
      InvKept(c, s, actions[0]);
      UnrunnableStep(c, s, actions[0]);
      UnrunnableLog(c, Apply(c, s, actions[0]), actions[1..]);
    }
  }

  /** At every moment of every interleaving, the events of a step have the shape its phase allows;
      in a finished run that is: none, skipped, cached, or at most MaxAttempts attempts and their verdict. */
  lemma StepEventsInShape(c: Config, s: State, id: string)
    requires c.Valid() && Reached(c, s) && id in c.steps
    ensures id in s.phases && Consistent(c.steps[id], s.phases[id], Project(s.log, id))
    ensures s.stage.Final? ==>
      var p := Project(s.log, id);
      match s.phases[id]
      case Idle => p == []
      case Joined(ok) => if ok then SucceededLog(c.steps[id], p) else FailedLog(c.steps[id], p)
      case _ => false
  {
    ReachedPhase(c, s, id);
    ReachedLog(c, s, id);
    if s.stage.Final? {
      ShapeAtEnd(c, s, id, Project(s.log, id));
    }
  }

  lemma ShapeAtEnd(c: Config, s: State, id: string, p: seq<Kind>)
    requires id in s.phases && id in c.steps && PhaseFits(c, s, id, s.phases[id]) && s.stage.Final?
    requires Consistent(c.steps[id], s.phases[id], p)
    ensures s.phases[id].Idle? || s.phases[id].Joined?
    ensures s.phases[id].Idle? ==> p == []
    ensures s.phases[id].Joined? ==> if s.phases[id].ok then SucceededLog(c.steps[id], p) else FailedLog(c.steps[id], p)
  {
  }
}
