/** One step's goroutine: runStep, executeWithRetries, onStepSuccess and onStepFailure
    (internal/engine/engine.go, internal/engine/retry.go). */
module Retry {
  import opened Text
  import opened Dag
  import opened Events

  // ----- Where a goroutine stands -----

  datatype Phase =
    | Idle                               // its tier has not been started
    | Waiting                            // spawned, at the semaphore
    | Guards                             // in runStep, before the executor is started
    | Attempting(n: int)                 // step_started written, the executor is running
    | Backoff(n: int)                    // step_retrying written, sleeping
    | Validating(n: int)                 // step_completed written
    | Verifying(n: int, k: nat)          // k artifacts recorded
    | Returned(ok: bool)                 // runStep has returned; the slot is still held
    | Joined(ok: bool)                   // slot released, wait group told
  {
    predicate InRunStep() {
      Guards? || Attempting? || Backoff? || Validating? || Verifying?
    }

    /** From the acquired semaphore slot to its release. */
    predicate HoldsSlot() {
      InRunStep() || Returned?
    }

    predicate Entered() {
      HoldsSlot() || Joined?
    }

    predicate Succeeded() {
      this in {Returned(true), Joined(true)}
    }

    predicate Errored() {
      this in {Returned(false), Joined(false)}
    }
  }

  /** What the outside world decides at the next step of the goroutine. */
  datatype Choice =
    | SkipByWhen
    | GuardError            // when, precondition, freshness or missing executor
    | CacheHit(key: string)
    | Execute
    | ExecutorOk
    | ExecutorError
    | SleepOver
    | ValidationsPass
    | ValidationFailed
    | ArtifactRecorded
    | ArtifactError
    | AllArtifactsDone

  predicate Allowed(step: Step, ph: Phase, c: Choice) {
    match ph
    case Guards => c in {SkipByWhen, GuardError, Execute} || (c.CacheHit? && step.cache)
    case Attempting(_) => c in {ExecutorOk, ExecutorError}
    case Backoff(_) => c == SleepOver
    case Validating(_) => c in {ValidationsPass, ValidationFailed}
    case Verifying(_, k) =>
      if k < step.artifacts then c in {ArtifactRecorded, ArtifactError} else c == AllArtifactsDone
    case _ => false
  }

  /** One step of a goroutine inside runStep: its new phase and the event it appends, if any. */
  function Advance(step: Step, ph: Phase, c: Choice): (Phase, Option<Kind>)
    requires Allowed(step, ph, c)
  {
    match c
    case SkipByWhen => (Returned(true), Some(Skipped))
    case GuardError => (Returned(false), None)
    case CacheHit(key) => (Returned(true), Some(Cached(Some(key))))
    case Execute => (Attempting(1), Some(Started(1)))
    case ExecutorOk => (Validating(ph.n), Some(Completed(ph.n)))
    case ExecutorError =>
      if ph.n < step.MaxAttempts() then (Backoff(ph.n), Some(Retrying(ph.n)))
      else (Returned(false), Some(Failed(step.MaxAttempts())))
    case SleepOver => (Attempting(ph.n + 1), Some(Started(ph.n + 1)))
    case ValidationsPass => (Verifying(ph.n, 0), None)
    case ValidationFailed => (Returned(false), Some(Failed(ph.n)))
    case ArtifactRecorded => (Verifying(ph.n, ph.k + 1), Some(Artifact))
    case ArtifactError => (Returned(false), None)
    case AllArtifactsDone => (Returned(true), None)
  }

  // ----- The shape of a step's log -----

  /** started(1) (retrying(i) started(i+1))* up to attempt n. */
  function Attempts(n: int): seq<Kind>
    requires n >= 1
  {
    if n == 1 then [Started(1)] else Attempts(n - 1) + [Retrying(n - 1), Started(n)]
  }

  function Artifacts(k: nat): (p: seq<Kind>)
    ensures |p| == k
  {
    if k == 0 then [] else Artifacts(k - 1) + [Artifact]
  }

  function Done(n: int, k: nat): seq<Kind>
    requires n >= 1
  {
    Attempts(n) + [Completed(n)] + Artifacts(k)
  }

  ghost predicate SucceededLog(step: Step, p: seq<Kind>) {
    || p == [Skipped]
    || (step.cache && |p| == 1 && p[0].Cached? && p[0].cacheKey.Some?)
    || exists n :: 1 <= n <= step.MaxAttempts() && p == Done(n, step.artifacts)
  }

  ghost predicate FailedLog(step: Step, p: seq<Kind>) {
    || p == []
    || p == Attempts(step.MaxAttempts()) + [Failed(step.MaxAttempts())]
    || (exists n :: 1 <= n <= step.MaxAttempts() && p == Done(n, 0) + [Failed(n)])
    || (exists n, k: nat :: 1 <= n <= step.MaxAttempts() && k < step.artifacts && p == Done(n, k))
  }

  /** The projection a goroutine has produced by the time it is in phase ph. */
  ghost predicate Consistent(step: Step, ph: Phase, p: seq<Kind>) {
    match ph
    case Idle => p == []
    case Waiting => p == []
    case Guards => p == []
    case Attempting(n) => 1 <= n <= step.MaxAttempts() && p == Attempts(n)
    case Backoff(n) => 1 <= n < step.MaxAttempts() && p == Attempts(n) + [Retrying(n)]
    case Validating(n) => 1 <= n <= step.MaxAttempts() && p == Done(n, 0)
    case Verifying(n, k) => 1 <= n <= step.MaxAttempts() && k <= step.artifacts && p == Done(n, k)
    case Returned(ok) => if ok then SucceededLog(step, p) else FailedLog(step, p)
    case Joined(ok) => if ok then SucceededLog(step, p) else FailedLog(step, p)
  }

  function Written(event: Option<Kind>): seq<Kind> {
    match event case None => [] case Some(k) => [k]
  }

  /** Every step of a goroutine keeps its log in shape. */
  lemma AdvanceConsistent(step: Step, ph: Phase, c: Choice, p: seq<Kind>)
    requires Allowed(step, ph, c) && Consistent(step, ph, p)
    ensures Consistent(step, Advance(step, ph, c).0, p + Written(Advance(step, ph, c).1))
  {
    match c {
      case ExecutorOk => assert p + [Completed(ph.n)] == Done(ph.n, 0);
      case SleepOver => assert p + [Started(ph.n + 1)] == Attempts(ph.n) + [Retrying(ph.n), Started(ph.n + 1)];
      case ValidationsPass => assert p + [] == p;
      case ArtifactRecorded => assert p + [Artifact] == Done(ph.n, ph.k + 1);
      case ArtifactError => assert p + [] == p;
      case AllArtifactsDone => assert p + [] == p;
      case _ =>
    }
  }

  // ----- Whole paths -----

  /** Where a goroutine is after these choices, and what it has written; None if one of them was not open to it. */
  function Path(step: Step, choices: seq<Choice>): Option<(Phase, seq<Kind>)> {
    if choices == [] then Some((Guards, []))
    else
      match Path(step, choices[..|choices| - 1])
      case None => None
      case Some((ph, p)) =>
        var c := choices[|choices| - 1];
        if Allowed(step, ph, c) then Some((Advance(step, ph, c).0, p + Written(Advance(step, ph, c).1))) else None
  }

  /** Some path of the goroutine ends in ph with p written. */
  ghost predicate PathTo(step: Step, ph: Phase, p: seq<Kind>) {
    exists choices :: Path(step, choices) == Some((ph, p))
  }

  lemma PathStarts(step: Step)
    ensures PathTo(step, Guards, [])
  {
    assert Path(step, []) == Some((Guards, []));
  }

  lemma PathGrows(step: Step, ph: Phase, p: seq<Kind>, c: Choice)
    requires PathTo(step, ph, p) && Allowed(step, ph, c)
    ensures PathTo(step, Advance(step, ph, c).0, p + Written(Advance(step, ph, c).1))
  {
    var choices :| Path(step, choices) == Some((ph, p));
    PathSnoc(step, choices, c, ph, p);
  }

  lemma PathSnoc(step: Step, choices: seq<Choice>, c: Choice, ph: Phase, p: seq<Kind>)
    requires Path(step, choices) == Some((ph, p)) && Allowed(step, ph, c)
    ensures Path(step, choices + [c]) == Some((Advance(step, ph, c).0, p + Written(Advance(step, ph, c).1)))
  {
    assert (choices + [c])[..|choices|] == choices;
  }

  /** What a path has written has the shape of the phase it ends in. */
  lemma {:induction false} PathConsistent(step: Step, choices: seq<Choice>)
    ensures Path(step, choices).Some? ==>
      Consistent(step, Path(step, choices).value.0, Path(step, choices).value.1)
  {
    if choices != [] && Path(step, choices).Some? {
      PathConsistent(step, choices[..|choices| - 1]);
      var (ph, p) := Path(step, choices[..|choices| - 1]).value;
      AdvanceConsistent(step, ph, choices[|choices| - 1], p);
    }
  }

  lemma PathToConsistent(step: Step, ph: Phase, p: seq<Kind>)
    requires PathTo(step, ph, p)
    ensures Consistent(step, ph, p)
  {
    var choices :| Path(step, choices) == Some((ph, p));
    PathConsistent(step, choices);
  }

  // Every log of these shapes is written by some path.

  lemma PathStep(step: Step, ph: Phase, p: seq<Kind>, c: Choice, next: Phase, k: Option<Kind>)
    requires PathTo(step, ph, p) && Allowed(step, ph, c) && Advance(step, ph, c) == (next, k)
    ensures PathTo(step, next, p + Written(k))
  {
    PathGrows(step, ph, p, c);
  }

  lemma {:induction false} PathOfAttempts(step: Step, n: int)
    requires 1 <= n <= step.MaxAttempts()
    ensures PathTo(step, Attempting(n), Attempts(n))
  {
    if n == 1 {
      PathStarts(step);
      PathStep(step, Guards, [], Execute, Attempting(1), Some(Started(1)));
      assert [] + [Started(1)] == [Started(1)];
    } else {
      var p := Attempts(n - 1);
      PathOfAttempts(step, n - 1);
      PathStep(step, Attempting(n - 1), p, ExecutorError, Backoff(n - 1), Some(Retrying(n - 1)));
      PathStep(step, Backoff(n - 1), p + [Retrying(n - 1)], SleepOver, Attempting(n), Some(Started(n)));
      assert Attempts(n) == p + [Retrying(n - 1)] + [Started(n)];
    }
  }

  lemma PathOfCompletion(step: Step, n: int)
    requires 1 <= n <= step.MaxAttempts()
    ensures PathTo(step, Validating(n), Done(n, 0))
  {
    PathOfAttempts(step, n);
    PathStep(step, Attempting(n), Attempts(n), ExecutorOk, Validating(n), Some(Completed(n)));
    assert Done(n, 0) == Attempts(n) + [Completed(n)];
  }

  lemma {:induction false} PathOfDone(step: Step, n: int, k: nat)
    requires 1 <= n <= step.MaxAttempts() && k <= step.artifacts
    ensures PathTo(step, Verifying(n, k), Done(n, k))
  {
    if k == 0 {
      PathOfCompletion(step, n);
      PathStep(step, Validating(n), Done(n, 0), ValidationsPass, Verifying(n, 0), None);
      assert Done(n, 0) + [] == Done(n, 0);
    } else {
      PathOfDone(step, n, k - 1);
      PathStep(step, Verifying(n, k - 1), Done(n, k - 1), ArtifactRecorded, Verifying(n, k), Some(Artifact));
      assert Done(n, k) == Done(n, k - 1) + [Artifact];
    }
  }

  lemma PathOfSuccess(step: Step, p: seq<Kind>)
    requires SucceededLog(step, p)
    ensures PathTo(step, Returned(true), p)
  {
    PathStarts(step);
    if n :| 1 <= n <= step.MaxAttempts() && p == Done(n, step.artifacts) {
      PathOfDone(step, n, step.artifacts);
      PathStep(step, Verifying(n, step.artifacts), p, AllArtifactsDone, Returned(true), None);
      assert p + [] == p;
    } else if p == [Skipped] {
      PathStep(step, Guards, [], SkipByWhen, Returned(true), Some(Skipped));
      assert [] + [Skipped] == p;
    } else {
      CachedPath(step, p);
    }
  }

  lemma CachedPath(step: Step, p: seq<Kind>)
    requires step.cache && |p| == 1 && p[0].Cached? && p[0].cacheKey.Some?
    ensures PathTo(step, Returned(true), p)
  {
    PathStarts(step);
    PathStep(step, Guards, [], CacheHit(p[0].cacheKey.value), Returned(true), Some(p[0]));
    assert [] + [p[0]] == p;
  }

  lemma PathOfFailure(step: Step, p: seq<Kind>)
    requires FailedLog(step, p)
    ensures PathTo(step, Returned(false), p)
  {
    if p == [] {
      PathStarts(step);
      PathStep(step, Guards, [], GuardError, Returned(false), None);
      assert [] + [] == p;
    } else if n, k: nat :| 1 <= n <= step.MaxAttempts() && k < step.artifacts && p == Done(n, k) {
      PathOfDone(step, n, k);
      PathStep(step, Verifying(n, k), p, ArtifactError, Returned(false), None);
      assert p + [] == p;
    } else if n :| 1 <= n <= step.MaxAttempts() && p == Done(n, 0) + [Failed(n)] {
      PathOfCompletion(step, n);
      PathStep(step, Validating(n), Done(n, 0), ValidationFailed, Returned(false), Some(Failed(n)));
    } else {
      var m := step.MaxAttempts();
      PathOfAttempts(step, m);
      PathStep(step, Attempting(m), Attempts(m), ExecutorError, Returned(false), Some(Failed(m)));
    }
  }

  /** The logs a goroutine can leave behind are exactly those of these shapes. */
  lemma LogsAreExactly(step: Step, ok: bool, p: seq<Kind>)
    ensures PathTo(step, Returned(ok), p) <==> if ok then SucceededLog(step, p) else FailedLog(step, p)
  {
    if PathTo(step, Returned(ok), p) {
      PathToConsistent(step, Returned(ok), p);
    }
    if ok && SucceededLog(step, p) {
      PathOfSuccess(step, p);
    }
    if !ok && FailedLog(step, p) {
      PathOfFailure(step, p);
    }
  }

  // ----- Work left -----

  /** An upper bound on the steps a goroutine can still take. */
  function Work(step: Step, ph: Phase): int {
    var m, a := step.MaxAttempts(), step.artifacts;
    match ph
    case Idle => 2 * m + a + 7
    case Waiting => 2 * m + a + 6
    case Guards => 2 * m + a + 5
    case Attempting(n) => 2 * (m - n) + a + 6
    case Backoff(n) => 2 * (m - n) + a + 5
    case Validating(n) => a + 3
    case Verifying(n, k) => a - k + 2
    case Returned(_) => 1
    case Joined(_) => 0
  }

  lemma AdvanceWorks(step: Step, ph: Phase, c: Choice, p: seq<Kind>)
    requires Allowed(step, ph, c) && Consistent(step, ph, p)
    ensures 0 <= Work(step, Advance(step, ph, c).0) < Work(step, ph)
  {
  }

  /** A goroutine inside runStep always has a next step. */
  lemma CanAdvance(step: Step, ph: Phase, p: seq<Kind>) returns (c: Choice)
    requires ph.InRunStep() && Consistent(step, ph, p)
    ensures Allowed(step, ph, c)
  {
    c := match ph
      case Guards => Execute
      case Attempting(_) => ExecutorOk
      case Backoff(_) => SleepOver
      case Validating(_) => ValidationsPass
      case Verifying(_, k) => if k < step.artifacts then ArtifactRecorded else AllArtifactsDone;
  }

  // ----- The loop itself, for fixed answers of the outside world -----

  function BeforeAttempt(attempt: int): Phase {
    if attempt == 1 then Guards else Backoff(attempt - 1)
  }

  lemma AttemptStarts(step: Step, attempt: int, p: seq<Kind>)
    requires 1 <= attempt <= step.MaxAttempts() && PathTo(step, BeforeAttempt(attempt), p)
    ensures PathTo(step, Attempting(attempt), p + [Started(attempt)])
  {
    PathGrows(step, BeforeAttempt(attempt), p, if attempt == 1 then Execute else SleepOver);
  }

  lemma AttemptFails(step: Step, attempt: int, p: seq<Kind>)
    requires 1 <= attempt <= step.MaxAttempts() && PathTo(step, Attempting(attempt), p)
    ensures if attempt < step.MaxAttempts() then PathTo(step, Backoff(attempt), p + [Retrying(attempt)])
            else PathTo(step, Returned(false), p + [Failed(attempt)])
  {
    PathGrows(step, Attempting(attempt), p, ExecutorError);
  }

  lemma LogOfAttempt(step: Step, attempt: int, p: seq<Kind>)
    requires PathTo(step, Attempting(attempt), p)
    ensures 1 <= attempt <= step.MaxAttempts() && p == Attempts(attempt)
  {
    PathToConsistent(step, Attempting(attempt), p);
  }

  lemma LogOfReturned(step: Step, ok: bool, p: seq<Kind>)
    requires PathTo(step, Returned(ok), p)
    ensures if ok then SucceededLog(step, p) else FailedLog(step, p)
  {
    PathToConsistent(step, Returned(ok), p);
  }

  /** A step of the goroutine that writes nothing. */
  lemma SameLog(step: Step, ph: Phase, p: seq<Kind>, c: Choice)
    requires PathTo(step, ph, p) && Allowed(step, ph, c) && Advance(step, ph, c).1 == None
    ensures PathTo(step, Advance(step, ph, c).0, p)
  {
    PathGrows(step, ph, p, c);
    assert p + [] == p;
  }

  /** A step of the goroutine that writes one more event. */
  lemma LongerLog(step: Step, ph: Phase, before: seq<Kind>, events: seq<Kind>, c: Choice, k: Kind)
    requires PathTo(step, ph, before + events) && Allowed(step, ph, c) && Advance(step, ph, c).1 == Some(k)
    ensures PathTo(step, Advance(step, ph, c).0, before + (events + [k]))
  {
    PathGrows(step, ph, before + events, c);
    assert before + events + [k] == before + (events + [k]);
  }

  ghost predicate FirstOk(step: Step, runOk: int -> bool, n: int) {
    1 <= n <= step.MaxAttempts() && runOk(n) && forall i :: 1 <= i < n ==> !runOk(i)
  }

  lemma BeginsWith(a: seq<Kind>, c: Kind, rest: seq<Kind>)
    requires |rest| >= 1 && rest[0] == c
    ensures a + [c] <= a + rest
  {
  }

  // How often the executor is started, in terms of the step's retry block.

  function CountStarted(p: seq<Kind>): nat {
    if p == [] then 0 else CountStarted(p[..|p| - 1]) + if p[|p| - 1].Started? then 1 else 0
  }

  function CountRetrying(p: seq<Kind>): nat {
    if p == [] then 0 else CountRetrying(p[..|p| - 1]) + if p[|p| - 1].Retrying? then 1 else 0
  }

  predicate Counts(p: seq<Kind>, started: int, retrying: int) {
    CountStarted(p) == started && CountRetrying(p) == retrying
  }

  lemma CountOneMore(p: seq<Kind>, k: Kind)
    ensures CountStarted(p + [k]) == CountStarted(p) + if k.Started? then 1 else 0
    ensures CountRetrying(p + [k]) == CountRetrying(p) + if k.Retrying? then 1 else 0
  {
    assert (p + [k])[..|p|] == p;
  }

  lemma {:induction false} CountsOfAttempts(n: int)
    requires n >= 1
    ensures Counts(Attempts(n), n, n - 1)
  {
    if n == 1 {
      CountOneMore([], Started(1));
      assert [] + [Started(1)] == [Started(1)];
    } else {
      CountsOfAttempts(n - 1);
      CountOneMore(Attempts(n - 1), Retrying(n - 1));
      CountOneMore(Attempts(n - 1) + [Retrying(n - 1)], Started(n));
      assert Attempts(n) == Attempts(n - 1) + [Retrying(n - 1)] + [Started(n)];
    }
  }

  lemma {:induction false} CountsOfDone(n: int, k: nat)
    requires n >= 1
    ensures Counts(Done(n, k), n, n - 1)
  {
    if k == 0 {
      CountsOfAttempts(n);
      CountOneMore(Attempts(n), Completed(n));
      assert Done(n, 0) == Attempts(n) + [Completed(n)];
    } else {
      CountsOfDone(n, k - 1);
      CountOneMore(Done(n, k - 1), Artifact);
      assert Done(n, k) == Done(n, k - 1) + [Artifact];
    }
  }

  /** With a limit the executor is started at most once more than it says, without one once, and retries are in between. */
  lemma AttemptsWithinLimit(step: Step, ph: Phase, p: seq<Kind>)
    requires Consistent(step, ph, p)
    ensures CountStarted(p) <= if step.retry.Some? && step.retry.value.limit > 0 then step.retry.value.limit + 1 else 1
    ensures CountRetrying(p) <= if step.retry.Some? && step.retry.value.limit > 0 then step.retry.value.limit else 0
  {
    match ph {
      case Attempting(n) => CountsOfAttempts(n);
      case Backoff(n) =>
        CountsOfAttempts(n);
        CountOneMore(Attempts(n), Retrying(n));
      case Validating(n) => CountsOfDone(n, 0);
      case Verifying(n, k) => CountsOfDone(n, k);
      case Returned(ok) => ReturnedWithinLimit(step, ok, p);
      case Joined(ok) => ReturnedWithinLimit(step, ok, p);
      case _ =>
    }
  }

  lemma ReturnedWithinLimit(step: Step, ok: bool, p: seq<Kind>)
    requires if ok then SucceededLog(step, p) else FailedLog(step, p)
    ensures CountStarted(p) <= if step.retry.Some? && step.retry.value.limit > 0 then step.retry.value.limit + 1 else 1
    ensures CountRetrying(p) <= if step.retry.Some? && step.retry.value.limit > 0 then step.retry.value.limit else 0
  {
    if ok {
      SucceededCounts(step, p);
    } else {
      FailedCounts(step, p);
    }
  }

  lemma SucceededCounts(step: Step, p: seq<Kind>)
    requires SucceededLog(step, p)
    ensures CountStarted(p) <= step.MaxAttempts() && CountRetrying(p) < step.MaxAttempts()
  {
    if n :| 1 <= n <= step.MaxAttempts() && p == Done(n, step.artifacts) {
      CountsOfDone(n, step.artifacts);
    } else {
      CountOneMore([], p[0]);
      assert p == [] + [p[0]];
    }
  }

  lemma FailedCounts(step: Step, p: seq<Kind>)
    requires FailedLog(step, p)
    ensures CountStarted(p) <= step.MaxAttempts() && CountRetrying(p) < step.MaxAttempts()
  {
    if p == [] {
    } else if n, k: nat :| 1 <= n <= step.MaxAttempts() && k < step.artifacts && p == Done(n, k) {
      CountsOfDone(n, k);
    } else if n :| 1 <= n <= step.MaxAttempts() && p == Done(n, 0) + [Failed(n)] {
      CountsOfDone(n, 0);
      CountOneMore(Done(n, 0), Failed(n));
    } else {
      CountsOfAttempts(step.MaxAttempts());
      CountOneMore(Attempts(step.MaxAttempts()), Failed(step.MaxAttempts()));
    }
  }

  /** A goroutine gives up on its executor only after that many attempts. */
  lemma GivesUpAtLimit(step: Step, ph: Phase, p: seq<Kind>)
    requires Allowed(step, ph, ExecutorError) && Consistent(step, ph, p) && Advance(step, ph, ExecutorError).0.Returned?
    ensures step.retry.Some? && step.retry.value.limit > 0 ==>
      Counts(p, step.retry.value.limit + 1, step.retry.value.limit)
    ensures step.retry.None? || step.retry.value.limit <= 0 ==> Counts(p, 1, 0)
  {
    CountsOfAttempts(ph.n);
  }

  /** An executor that fails limit times and then succeeds is started once more than that; one that always fails, too; and
      without a limit there is one attempt. */
  ghost predicate AttemptsFit(step: Step, runOk: int -> bool, ok: bool, events: seq<Kind>) {
    && (step.retry.None? || step.retry.value.limit <= 0 ==> Counts(events, 1, 0))
    && (step.retry.Some? && step.retry.value.limit > 0 ==>
        var limit := step.retry.value.limit;
        && ((forall i :: 1 <= i <= limit ==> !runOk(i)) ==> Counts(events, limit + 1, limit))
        && ((forall i :: 1 <= i <= limit ==> !runOk(i)) && runOk(limit + 1) ==> Completed(limit + 1) in events)
        && ((forall i :: 1 <= i <= limit + 1 ==> !runOk(i)) ==> !ok && Completed(limit + 1) !in events))
  }

  lemma {:induction false} NoCompletedYet(n: int)
    requires n >= 1
    ensures forall k :: k in Attempts(n) ==> !k.Completed?
  {
    if n > 1 {
      NoCompletedYet(n - 1);
    }
  }

  lemma FitAfterSuccess(step: Step, runOk: int -> bool, ok: bool, n: int, after: seq<Kind>, k: nat)
    requires 1 <= n <= step.MaxAttempts() && runOk(n) && forall i :: 1 <= i < n ==> !runOk(i)
    requires after == [Completed(n), Failed(n)] || after == [Completed(n)] + Artifacts(k)
    ensures AttemptsFit(step, runOk, ok, Attempts(n) + after)
  {
    var events := Attempts(n) + after;
    if after == [Completed(n), Failed(n)] {
      CountsOfDone(n, 0);
      CountOneMore(Done(n, 0), Failed(n));
      assert events == Done(n, 0) + [Failed(n)];
    } else {
      CountsOfDone(n, k);
      assert events == Done(n, k);
    }
    assert events[|Attempts(n)|] == Completed(n);
  }

  lemma FitAfterFailure(step: Step, runOk: int -> bool, n: int)
    requires n == step.MaxAttempts() && forall i :: 1 <= i <= n ==> !runOk(i)
    ensures AttemptsFit(step, runOk, false, Attempts(n) + [Failed(n)])
  {
    CountsOfAttempts(n);
    CountOneMore(Attempts(n), Failed(n));
    NoCompletedYet(n);
  }

  /** The events and the result are those of a path of the goroutine, for the choices the answers stand for. */
  method ExecuteWithRetries(step: Step, runOk: int -> bool, validationsOk: bool, artifactOk: nat -> bool)
      returns (ok: bool, events: seq<Kind>)
    ensures PathTo(step, Returned(ok), events)
    ensures if ok then SucceededLog(step, events) else FailedLog(step, events)
    ensures ok <==>
      && (exists n :: 1 <= n <= step.MaxAttempts() && runOk(n))
      && validationsOk
      && (forall k: nat :: k < step.artifacts ==> artifactOk(k))
    ensures AttemptsFit(step, runOk, ok, events)
    ensures forall n :: FirstOk(step, runOk, n) ==> Attempts(n) + [Completed(n)] <= events
    ensures (forall n :: 1 <= n <= step.MaxAttempts() ==> !runOk(n)) ==>
      events == Attempts(step.MaxAttempts()) + [Failed(step.MaxAttempts())]
  {
    var maxAttempts := step.MaxAttempts();
    events := [];
    PathStarts(step);
    var attempt := 1;
    while attempt <= maxAttempts
      invariant 1 <= attempt <= maxAttempts + 1
      invariant forall i :: 1 <= i < attempt ==> !runOk(i)
      invariant attempt <= maxAttempts ==> PathTo(step, BeforeAttempt(attempt), events)
      invariant attempt == maxAttempts + 1 ==> PathTo(step, Attempting(maxAttempts), events)
    {
      AttemptStarts(step, attempt, events);
      events := events + [Started(attempt)];
      LogOfAttempt(step, attempt, events);
      if runOk(attempt) {
        var after;
        ok, after := OnStepSuccess(step, attempt, validationsOk, artifactOk, events);
        assert forall n :: FirstOk(step, runOk, n) ==> n == attempt;
        BeginsWith(events, Completed(attempt), after);
        FitAfterSuccess(step, runOk, ok, attempt, after, |after| - 1);
        events := events + after;
        LogOfReturned(step, ok, events);
        return;
      }
      if attempt < maxAttempts {
        AttemptFails(step, attempt, events);
        events := events + [Retrying(attempt)];
      }
      attempt := attempt + 1;
    }
    LogOfAttempt(step, maxAttempts, events);
    AttemptFails(step, maxAttempts, events);
    FitAfterFailure(step, runOk, maxAttempts);
    events := events + [Failed(maxAttempts)];
    ok := false;
    LogOfReturned(step, false, events);
  }

  method OnStepSuccess(step: Step, attempt: int, validationsOk: bool, artifactOk: nat -> bool, ghost before: seq<Kind>)
      returns (ok: bool, events: seq<Kind>)
    requires PathTo(step, Attempting(attempt), before)
    ensures PathTo(step, Returned(ok), before + events)
    ensures ok <==> validationsOk && forall k: nat :: k < step.artifacts ==> artifactOk(k)
    ensures |events| >= 1 && events[0] == Completed(attempt)
    ensures !validationsOk ==> events == [Completed(attempt), Failed(attempt)]
    ensures validationsOk ==> events == [Completed(attempt)] + Artifacts(|events| - 1)
    ensures validationsOk ==> if ok then |events| - 1 == step.artifacts else |events| - 1 < step.artifacts
  {
    events := [Completed(attempt)];
    PathGrows(step, Attempting(attempt), before, ExecutorOk);
    if !validationsOk {
      LongerLog(step, Validating(attempt), before, events, ValidationFailed, Failed(attempt));
      return false, events + [Failed(attempt)];
    }
    SameLog(step, Validating(attempt), before + events, ValidationsPass);
    var recorded;
    ok, recorded := VerifyArtifacts(step, attempt, artifactOk, before + events);
    SplitLog(before, events, recorded);
    events := events + recorded;
  }

  /** Records the declared artifacts up to the first that is missing or cannot be hashed. */
  method VerifyArtifacts(step: Step, attempt: int, artifactOk: nat -> bool, ghost before: seq<Kind>)
      returns (ok: bool, events: seq<Kind>)
    requires PathTo(step, Verifying(attempt, 0), before)
    ensures PathTo(step, Returned(ok), before + events)
    ensures events == Artifacts(|events|)
    ensures forall i: nat :: i < |events| ==> artifactOk(i)
    ensures if ok then |events| == step.artifacts else |events| < step.artifacts && !artifactOk(|events|)
  {
    events := [];
    assert before + [] == before;
    for k := 0 to step.artifacts
      invariant events == Artifacts(k)
      invariant forall i: nat :: i < k ==> artifactOk(i)
      invariant PathTo(step, Verifying(attempt, k), before + events)
    {
      if !artifactOk(k) {
        ArtifactsEnd(step, attempt, k, before + events, false);
        return false, events;
      }
      ArtifactGrows(step, attempt, k, before, events);
      events := events + [Artifact];
    }
    ArtifactsEnd(step, attempt, step.artifacts, before + events, true);
    ok := true;
  }

  lemma ArtifactGrows(step: Step, attempt: int, k: nat, before: seq<Kind>, events: seq<Kind>)
    requires k < step.artifacts && PathTo(step, Verifying(attempt, k), before + events)
    ensures PathTo(step, Verifying(attempt, k + 1), before + (events + [Artifact]))
  {
    LongerLog(step, Verifying(attempt, k), before, events, ArtifactRecorded, Artifact);
  }

  lemma ArtifactsEnd(step: Step, attempt: int, k: nat, p: seq<Kind>, ok: bool)
    requires k <= step.artifacts && (ok <==> k == step.artifacts) && PathTo(step, Verifying(attempt, k), p)
    ensures PathTo(step, Returned(ok), p)
  {
    SameLog(step, Verifying(attempt, k), p, if ok then AllArtifactsDone else ArtifactError);
  }

  lemma SplitLog(a: seq<Kind>, b: seq<Kind>, c: seq<Kind>)
    ensures a + b + c == a + (b + c)
  {
  }

  // ----- The delay between attempts, in int64 nanoseconds -----

  const SECOND := 1_000_000_000
  const TWO_63 := 0x8000_0000_0000_0000
  const TWO_64 := 0x1_0000_0000_0000_0000

  /** The int64 value of an integer computation. */
  function Wrap64(x: int): (w: int)
    ensures -TWO_63 <= w < TWO_63
    ensures -TWO_63 <= x < TWO_63 ==> w == x
  {
    (x + TWO_63) % TWO_64 - TWO_63
  }

  function Pow2(n: nat): (p: int)
    ensures p >= 1
  {
    if n == 0 then 1 else 2 * Pow2(n - 1)
  }

  function Uncapped(attempt: int, retry: Option<Retry>): int
    requires attempt >= 1
  {
    if retry.Some? && retry.value.exponential
    then Wrap64(Wrap64(Pow2(attempt - 1)) * SECOND)
    else Wrap64(attempt * SECOND)
  }

  /** maxDelay is the parsed max_delay; an unparsable one counts as absent. */
  function RetryDelay(attempt: int, retry: Option<Retry>): int
    requires attempt >= 1
  {
    var delay := Uncapped(attempt, retry);
    if retry.Some? && retry.value.maxDelay.Some? && delay > retry.value.maxDelay.value
    then retry.value.maxDelay.value
    else delay
  }

  lemma {:induction false} Pow2Grows(a: nat, b: nat)
    requires a <= b
    ensures Pow2(a) <= Pow2(b)
    decreases b - a
  {
    if a < b {
      Pow2Grows(a + 1, b);
    }
  }

  lemma Pow2Values()
    ensures Pow2(33) == 8589934592 && Pow2(34) == 17179869184
  {
    assert Pow2(8) == 256;
    assert Pow2(16) == 65536 by { assert Pow2(12) == 4096; }
    assert Pow2(24) == 16777216 by { assert Pow2(20) == 1048576; }
    assert Pow2(32) == 4294967296 by { assert Pow2(28) == 268435456; }
  }

  /** The product 2^(attempt-1) * 10^9 as an int64, once it no longer fits. */
  function Overflowed(attempt: int): int
    requires attempt >= 35
  {
    if attempt == 35 then -1266874889709551616
    else if attempt == 36 then -2533749779419103232
    else if attempt == 37 then -5067499558838206464
    else if attempt == 38 then 8311744956033138688
    else if attempt == 39 then -1823254161643274240
    else if attempt == 40 then -3646508323286548480
    else if attempt == 41 then -7293016646573096960
    else if attempt == 42 then 3860710780563357696
    else if attempt == 43 then 7721421561126715392
    else if attempt == 44 then -3003900951456120832
    else if attempt == 45 then -6007801902912241664
    else if attempt == 46 then 6431140267885068288
    else if attempt == 47 then -5584463537939415040
    else if attempt == 48 then 7277816997830721536
    else if attempt == 49 then -3891110078048108544
    else if attempt == 50 then -7782220156096217088
    else if attempt == 51 then 2882303761517117440
    else if attempt == 52 then 5764607523034234880
    else if attempt == 53 then -6917529027641081856
    else if attempt == 54 then 4611686018427387904
    else if attempt == 55 then -9223372036854775808
    else 0
  }

  /** Reducing before the multiplication does not matter. */
  lemma WrapTwice(x: int, factor: int)
    ensures Wrap64(Wrap64(x) * factor) == Wrap64(x * factor)
  {
    var k := (x + TWO_63) / TWO_64;
    assert Wrap64(x) == x - TWO_64 * k;
    assert Wrap64(x) * factor == x * factor - TWO_64 * (k * factor);
    WrapShift(x * factor, k * factor);
  }

  lemma WrapShift(y: int, z: int)
    ensures Wrap64(y - TWO_64 * z) == Wrap64(y)
  {
  }

  lemma ProductDoubles(n: nat)
    ensures Pow2(n + 1) * SECOND == (Pow2(n) * SECOND) * 2
  {
  }

  lemma OverflowedDoubles(attempt: int)
    requires attempt >= 35
    ensures Wrap64(Overflowed(attempt) * 2) == Overflowed(attempt + 1)
  {
  }

  lemma {:induction false} OverflowedIsProduct(attempt: int)
    requires attempt >= 35
    ensures Wrap64(Pow2(attempt - 1) * SECOND) == Overflowed(attempt)
  {
    if attempt == 35 {
      Pow2Values();
    } else {
      OverflowedIsProduct(attempt - 1);
      ProductDoubles(attempt - 2);
      WrapTwice(Pow2(attempt - 2) * SECOND, 2);
      OverflowedDoubles(attempt - 1);
    }
  }

  lemma OverflowedIsUncapped(attempt: int, retry: Retry)
    requires attempt >= 35 && retry.exponential
    ensures Uncapped(attempt, Some(retry)) == Overflowed(attempt)
  {
    WrapTwice(Pow2(attempt - 1), SECOND);
    OverflowedIsProduct(attempt);
  }

  /** When the product that overflowed happens to be positive, and when it is gone. */
  lemma OverflowedSigns(attempt: int)
    requires attempt >= 35
    ensures Overflowed(attempt) > 0 <==> attempt in {38, 42, 43, 46, 48, 51, 52, 54}
    ensures Overflowed(attempt) == 0 <==> attempt >= 56
  {
  }

  /** What the configuration asks for: 2^(attempt-1) seconds, and no more than the maximum. */
  function Intended(attempt: int, maxDelay: Option<int>): int
    requires attempt >= 1
  {
    var delay := Pow2(attempt - 1) * SECOND;
    if maxDelay.Some? && delay > maxDelay.value then maxDelay.value else delay
  }

  /** The delay returned is the intended one exactly up to attempt 34, and later when there is a maximum that the
      overflowed product reaches; a parsed maximum is an int64 itself. */
  lemma ExponentialDelayExactIff(attempt: int, retry: Retry)
    requires attempt >= 1 && retry.exponential
    requires retry.maxDelay.Some? ==> -TWO_63 <= retry.maxDelay.value < TWO_63
    ensures RetryDelay(attempt, Some(retry)) == Intended(attempt, retry.maxDelay) <==>
      attempt <= 34 || (retry.maxDelay.Some? && retry.maxDelay.value <= Overflowed(attempt))
  {
    Pow2Values();
    if attempt <= 34 {
      Pow2Grows(attempt - 1, 33);
    } else {
      Pow2Grows(34, attempt - 1);
      OverflowedIsUncapped(attempt, retry);
    }
  }

  /** With a positive maximum, the attempts after 34 whose delay is the intended one again. */
  lemma PositiveMaximumExactIff(attempt: int, retry: Retry, max: int)
    requires attempt >= 35 && retry.exponential && retry.maxDelay == Some(max) && 0 < max < TWO_63
    ensures RetryDelay(attempt, Some(retry)) == Intended(attempt, Some(max)) <==>
      attempt in {38, 42, 43, 46, 48, 51, 52, 54} && max <= Overflowed(attempt)
  {
    ExponentialDelayExactIff(attempt, retry);
    OverflowedSigns(attempt);
  }

  /** Without a retry block or with linear backoff, attempt n waits n seconds, and no longer than the maximum. */
  lemma LinearDelay(attempt: int, retry: Option<Retry>)
    requires 1 <= attempt <= 9_223_372_036 && (retry.None? || !retry.value.exponential)
    ensures RetryDelay(attempt, retry) ==
      if retry.Some? && retry.value.maxDelay.Some? && retry.value.maxDelay.value < attempt * 1_000_000_000
      then retry.value.maxDelay.value else attempt * 1_000_000_000
  {
  }

  /** Attempt 35 is the first for which the computed delay is negative, so the cap does not apply either. */
  lemma DelayTurnsNegative(retry: Retry)
    requires retry.exponential && (retry.maxDelay.Some? ==> retry.maxDelay.value >= 0)
    ensures RetryDelay(35, Some(retry)) < 0
    ensures forall attempt :: 1 <= attempt <= 34 ==> RetryDelay(attempt, Some(retry)) >= 0
  {
    Pow2Values();
    forall attempt | 1 <= attempt <= 34
      ensures RetryDelay(attempt, Some(retry)) >= 0
    {
      Pow2Grows(attempt - 1, 33);
    }
  }
}
