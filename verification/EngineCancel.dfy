/** What a cancel request does to a run, and what it does not (internal/engine/engine.go). */
module EngineCancel {
  import opened Dag
  import opened Events
  import opened Retry
  import opened Engine
  import EngineSafety

  /** The first tier that has not been started yet; only runs that are not over have one. */
  function NextTier(s: State): nat {
    match s.stage
    case Start => 0
    case Preparing => 0
    case Between => s.tier
    case Inside => s.tier + 1
    case Final(_) => 0
  }

  ghost predicate IdleFrom(c: Config, s: State, from: nat) {
    forall id :: id in s.phases && id in c.tierOf && c.tierOf[id] >= from ==> s.phases[id] == Idle
  }

  /** A request can come at any moment of a run. It is noted, and until the next tier start nothing else changes. */
  lemma RequestAtAnyTime(c: Config, s: State)
    requires Reached(c, s) && !s.cancelRequested
    ensures Enabled(c, s, RequestCancel)
    ensures var s' := Apply(c, s, RequestCancel);
      && Reached(c, s') && s'.cancelRequested && s'.sawCancel == s.sawCancel
      && s'.stage == s.stage && s'.tier == s.tier && s'.phases == s.phases && s'.log == s.log
      && s'.slots == s.slots && s'.errs == s.errs
  {
    assert Apply(c, s, RequestCancel) == RunFrom(c, s, [RequestCancel]);
    EngineSafety.ReachedLater(c, s, [RequestCancel]);
  }

  /** The request is made before tier `from` is started, or has already ended the run. */
  ghost predicate Halted(c: Config, s: State, from: nat) {
    && s.cancelRequested
    && IdleFrom(c, s, from)
    && (s.stage == Final(false) || (!s.stage.Final? && NextTier(s) == from < c.TierCount()))
  }

  lemma NotStartedYet(c: Config, s: State, id: string)
    requires id in s.phases && PhaseFits(c, s, id, s.phases[id])
    requires !s.stage.Final? && id in c.tierOf && c.tierOf[id] >= NextTier(s)
    ensures s.phases[id] == Idle
  {
  }

  lemma HaltedStage(c: Config, s: State, a: Action, from: nat)
    requires Inv(c, s) && Enabled(c, s, a) && Halted(c, s, from)
    ensures var s' := Apply(c, s, a);
      && s'.cancelRequested
      && (s'.stage == Final(false) || (!s'.stage.Final? && NextTier(s') == from < c.TierCount()))
  {
    if s.stage.Final? {
      EngineSafety.FinalStays(c, s, a);
    }
  }

  lemma HaltedIdle(c: Config, s: State, a: Action, from: nat, id: string)
    requires Inv(c, s) && Enabled(c, s, a) && Halted(c, s, from)
    requires id in s.phases && id in c.tierOf && c.tierOf[id] >= from
    ensures id in Apply(c, s, a).phases && Apply(c, s, a).phases[id] == Idle
  {
    assert s.phases[id] == Idle && PhaseFits(c, s, id, s.phases[id]);
    if MovesStep(a) && a.id == id {
      assert false;
    } else {
      OthersPhase(c, s, a, id);
    }
  }

  lemma HaltedKept(c: Config, s: State, a: Action, from: nat)
    requires Inv(c, s) && Enabled(c, s, a) && Halted(c, s, from)
    ensures Halted(c, Apply(c, s, a), from)
  {
    var s' := Apply(c, s, a);
    HaltedStage(c, s, a, from);
    assert s'.phases.Keys == s.phases.Keys;
    forall id | id in s'.phases && id in c.tierOf && c.tierOf[id] >= from
      ensures s'.phases[id] == Idle
    {
      HaltedIdle(c, s, a, from, id);
    }
  }

  lemma {:induction false} RunStaysHalted(c: Config, s: State, actions: seq<Action>, from: nat)
    requires c.Valid() && Inv(c, s) && Halted(c, s, from) && CanRun(c, s, actions)
    ensures Halted(c, RunFrom(c, s, actions), from)
    decreases |actions|
  {
    if actions != [] {
      InvKept(c, s, actions[0]);
      HaltedKept(c, s, actions[0], from);
      RunStaysHalted(c, Apply(c, s, actions[0]), actions[1..], from);
    }
  }

  /** A request made while a tier is still to be started: whatever happens afterwards, no step of that tier or a later one
      is ever started, and the run ends as failed. The tier that is running is not interrupted. */
  lemma RequestStopsLaterTiers(c: Config, s: State, actions: seq<Action>)
    requires c.Valid() && Reached(c, s) && s.cancelRequested && !s.stage.Final? && NextTier(s) < c.TierCount()
    requires CanRun(c, s, actions)
    ensures var end := RunFrom(c, s, actions);
      && IdleFrom(c, end, NextTier(s))
      && (end.stage.Final? ==>
            end.stage == Final(false) && |end.log| >= 2 && end.log[|end.log| - 1] == RunFailed)
  {
    RequestHalts(c, s);
    RunIsHalted(c, s, actions, NextTier(s));
    EngineSafety.ReachedLater(c, s, actions);
    ReachedFrame(c, RunFrom(c, s, actions));
    HaltedEnds(c, RunFrom(c, s, actions), NextTier(s));
  }

  lemma RequestHalts(c: Config, s: State)
    requires c.Valid() && Reached(c, s) && s.cancelRequested && !s.stage.Final? && NextTier(s) < c.TierCount()
    ensures Halted(c, s, NextTier(s))
  {
    forall id | id in s.phases && id in c.tierOf && c.tierOf[id] >= NextTier(s)
      ensures s.phases[id] == Idle
    {
      ReachedPhase(c, s, id);
      NotStartedYet(c, s, id);
    }
  }

  lemma RunIsHalted(c: Config, s: State, actions: seq<Action>, from: nat)
    requires c.Valid() && Reached(c, s) && Halted(c, s, from) && CanRun(c, s, actions)
    ensures Halted(c, RunFrom(c, s, actions), from)
  {
    ReachedInv(c, s);
    RunStaysHalted(c, s, actions, from);
  }

  lemma HaltedEnds(c: Config, s: State, from: nat)
    requires LogFramed(s) && Halted(c, s, from)
    ensures IdleFrom(c, s, from)
    ensures s.stage.Final? ==> s.stage == Final(false) && |s.log| >= 2 && s.log[|s.log| - 1] == RunFailed
  {
  }

  /** Once the last tier is started or done, the run no longer looks at the request. */
  ghost predicate TooLate(c: Config, s: State) {
    && !s.sawCancel && c.Runnable()
    && (s.stage.Final? || NextTier(s) == c.TierCount())
  }

  lemma TooLateKept(c: Config, s: State, a: Action)
    requires Inv(c, s) && Enabled(c, s, a) && TooLate(c, s)
    requires s.stage.Start? || s.stage.Preparing? ==> c.TierCount() == 0
    ensures TooLate(c, Apply(c, s, a))
  {
    if s.stage.Final? {
      EngineSafety.FinalStays(c, s, a);
    }
  }

  lemma {:induction false} RunStaysTooLate(c: Config, s: State, actions: seq<Action>)
    requires c.Valid() && Inv(c, s) && TooLate(c, s) && CanRun(c, s, actions)
    ensures TooLate(c, RunFrom(c, s, actions))
    decreases |actions|
  {
    if actions != [] {
      InvKept(c, s, actions[0]);
      TooLateKept(c, s, actions[0]);
      RunStaysTooLate(c, Apply(c, s, actions[0]), actions[1..]);
    }
  }

  ghost predicate AllSucceeded(s: State) {
    forall id :: id in s.phases ==> s.phases[id] == Joined(true)
  }

  /** A request that finds no tier left to be started does not fail the run: it completes exactly when all steps return
      nil. */
  lemma LateRequestIsHarmless(c: Config, s: State, actions: seq<Action>)
    requires c.Valid() && Reached(c, s) && c.channelsKnown && c.sorted.Tiers?
    requires !s.stage.Final? && NextTier(s) == c.TierCount()
    requires CanRun(c, s, actions) && RunFrom(c, s, actions).stage.Final?
    ensures var end := RunFrom(c, s, actions);
      |end.log| >= 2 && (end.log[|end.log| - 1] == RunCompleted <==> AllSucceeded(end))
  {
    ReachedInv(c, s);
    RunStaysTooLate(c, s, actions);
    EngineSafety.ReachedLater(c, s, actions);
    EngineSafety.RunOutcome(c, RunFrom(c, s, actions));
  }

  lemma {:induction false} SeenWasRequested(c: Config, s: State, actions: seq<Action>)
    requires CanRun(c, s, actions) && (s.sawCancel ==> s.cancelRequested)
    ensures RunFrom(c, s, actions).sawCancel ==> RunFrom(c, s, actions).cancelRequested
    decreases |actions|
  {
    if actions != [] {
      SeenWasRequested(c, Apply(c, s, actions[0]), actions[1..]);
    }
  }

  /** Nothing is taken for a cancel that was not requested: without a request a run that can be scheduled completes
      exactly when all steps return nil. */
  lemma NoRequestNoCancel(c: Config, s: State)
    requires c.Valid() && Reached(c, s)
    ensures s.sawCancel ==> s.cancelRequested
    ensures s.stage.Final? && !s.cancelRequested ==>
      |s.log| >= 2 &&
      (s.log[|s.log| - 1] == RunCompleted <==> c.channelsKnown && c.sorted.Tiers? && AllSucceeded(s))
  {
    var actions :| CanRun(c, Initial(c), actions) && RunFrom(c, Initial(c), actions) == s;
    SeenWasRequested(c, Initial(c), actions);
    if s.stage.Final? && !s.cancelRequested {
      EngineSafety.RunOutcome(c, s);
    }
  }
}
