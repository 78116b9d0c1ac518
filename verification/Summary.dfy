/** Per-step summaries of an event log (state/summary.go). */
module Summary {
  import opened Text
  import opened Dag
  import opened Events
  import opened Retry

  datatype StepState = StepState(
    stepId: string, status: string, attempts: int, message: string, cached: bool, cacheKey: string)

  function Fresh(id: string): StepState {
    StepState(id, "", 0, "", false, "")
  }

  /** What one event does to the entry of its step. */
  function Record(st: StepState, k: Kind): StepState {
    match k
    case Started(n) => st.(status := "running", attempts := n)
    case Completed(n) => st.(status := "completed", attempts := n)
    case Failed(n) => st.(status := "failed", attempts := n)
    case Retrying(_) => st.(status := "retrying")
    case WaitingApproval(msg) => st.(status := "waiting", message := msg)
    case Approved => st.(status := "approved")
    case Rejected => st.(status := "rejected")
    case Skipped => st.(status := "skipped")
    case Cached(key) => st.(status := "cached", cached := true, cacheKey := if key.Some? then key.value else st.cacheKey)
    case Artifact => st
  }

  /** The entry of a step as a function of that step's events alone. */
  function Entry(id: string, kinds: seq<Kind>): StepState {
    if kinds == [] then Fresh(id) else Record(Entry(id, kinds[..|kinds| - 1]), kinds[|kinds| - 1])
  }

  lemma EntryAppend(id: string, kinds: seq<Kind>, k: Kind)
    ensures Entry(id, kinds + [k]) == Record(Entry(id, kinds), k)
  {
    assert (kinds + [k])[..|kinds|] == kinds;
  }

  function EntryIn(steps: map<string, StepState>, id: string): StepState {
    if id in steps then steps[id] else Fresh(id)
  }

  /** Step IDs in the order of their first events; events without a step ID do not count. */
  function FirstSeen(events: seq<Event>): seq<string> {
    if events == [] then []
    else
      var seen, last := FirstSeen(events[..|events| - 1]), events[|events| - 1];
      if last.StepEvent? && last.id != "" && last.id !in seen then seen + [last.id] else seen
  }

  method BuildStepSummaries(events: seq<Event>) returns (result: seq<StepState>)
    ensures |result| == |FirstSeen(events)|
    ensures forall i :: 0 <= i < |result| ==>
      result[i] == Entry(FirstSeen(events)[i], Project(events, FirstSeen(events)[i]))
  {
    var steps: map<string, StepState> := map[];
    var order: seq<string> := [];
    for k := 0 to |events|
      invariant order == FirstSeen(events[..k])
      invariant forall id :: id in steps <==> id in order
      invariant forall id {:trigger EntryIn(steps, id)} :: id != "" ==>
        EntryIn(steps, id) == Entry(id, Project(events[..k], id))
    {
      var e := events[k];
      assert events[..k + 1] == events[..k] + [e];
      assert events[..k + 1][..k] == events[..k];
      ghost var was := steps;
      if e.StepEvent? && e.id != "" {
        if e.id !in steps {
          steps := steps[e.id := Fresh(e.id)];
          order := order + [e.id];
        }
        steps := steps[e.id := Record(steps[e.id], e.kind)];
      }
      forall id | id != ""
        ensures EntryIn(steps, id) == Entry(id, Project(events[..k + 1], id))
      {
        assert EntryIn(was, id) == Entry(id, Project(events[..k], id));
        ProjectAppend(events[..k], e, id);
        if e.StepEvent? && e.id == id {
          EntryAppend(id, Project(events[..k], id), e.kind);
        } else {
          assert Project(events[..k], id) + [] == Project(events[..k], id);
        }
      }
    }
    assert events[..|events|] == events;
    NamesFirstSeen(events);
    result := [];
    for i := 0 to |order|
      invariant |result| == i
      invariant forall j :: 0 <= j < i ==> result[j] == Entry(order[j], Project(events, order[j]))
    {
      assert order[i] in order && order[i] != "";
      assert EntryIn(steps, order[i]) == steps[order[i]];
      result := result + [steps[order[i]]];
    }
  }

  lemma {:induction false} NamesFirstSeen(events: seq<Event>)
    ensures forall id :: id in FirstSeen(events) <==> id != "" && Project(events, id) != []
    ensures forall i, j :: 0 <= i < j < |FirstSeen(events)| ==> FirstSeen(events)[i] != FirstSeen(events)[j]
  {
    if events != [] {
      NamesFirstSeen(events[..|events| - 1]);
    }
  }

  /** Entries come in the order of the steps' first events: when ids[j] is first seen, ids[i] has been seen before. */
  lemma {:induction false} FirstSeenOrder(events: seq<Event>, i: nat, j: nat) returns (at: nat)
    requires i < j < |FirstSeen(events)|
    ensures at < |events| && events[at].StepEvent? && events[at].id == FirstSeen(events)[i]
    ensures forall l :: 0 <= l <= at && events[l].StepEvent? ==> events[l].id != FirstSeen(events)[j]
  {
    var prefix := events[..|events| - 1];
    var ids := FirstSeen(prefix);
    if j < |ids| {
      at := FirstSeenOrder(prefix, i, j);
    } else {
      assert FirstSeen(events) == ids + [events[|events| - 1].id];
      NamesFirstSeen(prefix);
      assert ids[i] in ids;
      at := Occurs(prefix, ids[i]);
      forall l | 0 <= l < |prefix| && prefix[l].StepEvent? && prefix[l].id == FirstSeen(events)[j]
        ensures false
      {
        HasEvents(prefix, l);
      }
    }
  }

  lemma {:induction false} Occurs(events: seq<Event>, id: string) returns (at: nat)
    requires Project(events, id) != []
    ensures at < |events| && events[at].StepEvent? && events[at].id == id
  {
    var last := events[|events| - 1];
    if last.StepEvent? && last.id == id {
      at := |events| - 1;
    } else {
      at := Occurs(events[..|events| - 1], id);
    }
  }

  lemma {:induction false} HasEvents(events: seq<Event>, at: nat)
    requires at < |events| && events[at].StepEvent?
    ensures Project(events, events[at].id) != []
  {
    if at < |events| - 1 {
      HasEvents(events[..|events| - 1], at);
    }
  }

  // ----- What an entry tells of the events, whatever they are -----

  /** The status is that of the last event other than artifacts. */
  lemma {:induction false} StatusOfLast(id: string, p: seq<Kind>, i: nat)
    requires i < |p| && !p[i].Artifact? && forall j :: i < j < |p| ==> p[j].Artifact?
    ensures Entry(id, p).stepId == id
    ensures Entry(id, p).status ==
      match p[i]
      case Started(_) => "running"
      case Retrying(_) => "retrying"
      case Completed(_) => "completed"
      case Failed(_) => "failed"
      case WaitingApproval(_) => "waiting"
      case Approved => "approved"
      case Rejected => "rejected"
      case Skipped => "skipped"
      case Cached(_) => "cached"
      case Artifact => ""
    decreases |p|
  {
    EntryHasId(id, p);
    if i < |p| - 1 {
      StatusOfLast(id, p[..|p| - 1], i);
    }
  }

  lemma {:induction false} EntryHasId(id: string, p: seq<Kind>)
    ensures Entry(id, p).stepId == id
  {
    if p != [] {
      EntryHasId(id, p[..|p| - 1]);
    }
  }

  predicate Numbered(k: Kind) {
    k.Started? || k.Completed? || k.Failed?
  }

  /** The number of attempts is that of the last event that carries one of the run itself. */
  lemma {:induction false} AttemptsOfLast(id: string, p: seq<Kind>, i: nat)
    requires i < |p| && Numbered(p[i]) && forall j :: i < j < |p| ==> !Numbered(p[j])
    ensures Entry(id, p).attempts == p[i].attempt
    decreases |p|
  {
    if i < |p| - 1 {
      AttemptsOfLast(id, p[..|p| - 1], i);
    }
  }

  /** The message is that of the last wait for an approval. */
  lemma {:induction false} MessageOfLast(id: string, p: seq<Kind>, i: nat)
    requires i < |p| && p[i].WaitingApproval? && forall j :: i < j < |p| ==> !p[j].WaitingApproval?
    ensures Entry(id, p).message == p[i].message
    decreases |p|
  {
    if i < |p| - 1 {
      MessageOfLast(id, p[..|p| - 1], i);
    }
  }

  predicate NamesKey(k: Kind) {
    k.Cached? && k.cacheKey.Some?
  }

  /** The cache key is that of the last cache hit that names one. */
  lemma {:induction false} CacheKeyOfLast(id: string, p: seq<Kind>, i: nat)
    requires i < |p| && NamesKey(p[i]) && forall j :: i < j < |p| ==> !NamesKey(p[j])
    ensures Entry(id, p).cacheKey == p[i].cacheKey.value
    decreases |p|
  {
    if i < |p| - 1 {
      CacheKeyOfLast(id, p[..|p| - 1], i);
    }
  }

  /** A step is cached if it ever was; and what no event tells stays empty. */
  lemma {:induction false} UntoldStaysEmpty(id: string, p: seq<Kind>)
    ensures Entry(id, p).cached <==> exists i :: 0 <= i < |p| && p[i].Cached?
    ensures (forall i :: 0 <= i < |p| ==> p[i].Artifact?) ==> Entry(id, p).status == ""
    ensures (forall i :: 0 <= i < |p| ==> !Numbered(p[i])) ==> Entry(id, p).attempts == 0
    ensures (forall i :: 0 <= i < |p| ==> !p[i].WaitingApproval?) ==> Entry(id, p).message == ""
    ensures (forall i :: 0 <= i < |p| ==> !NamesKey(p[i])) ==> Entry(id, p).cacheKey == ""
  {
    if p != [] {
      UntoldStaysEmpty(id, p[..|p| - 1]);
    }
  }

  // ----- Reading a finished engine run -----

  lemma {:induction false} EntryOfAttempts(id: string, n: int)
    requires n >= 1
    ensures Entry(id, Attempts(n)) == Fresh(id).(status := "running", attempts := n)
  {
    if n > 1 {
      EntryOfAttempts(id, n - 1);
      var p, q := Attempts(n - 1), Attempts(n - 1) + [Retrying(n - 1)];
      assert Attempts(n)[..|Attempts(n)| - 1] == q && q[..|q| - 1] == p;
    } else {
      assert Attempts(1)[..0] == [];
    }
  }

  lemma {:induction false} EntryOfDone(id: string, n: int, k: nat)
    requires n >= 1
    ensures Entry(id, Done(n, k)) == Fresh(id).(status := "completed", attempts := n)
  {
    var p := Done(n, k);
    if k == 0 {
      EntryOfAttempts(id, n);
      assert p[..|p| - 1] == Attempts(n) && p[|p| - 1] == Completed(n);
    } else {
      EntryOfDone(id, n, k - 1);
      assert p[..|p| - 1] == Done(n, k - 1) && p[|p| - 1] == Artifact;
    }
  }

  /** A step that returned nil is shown as skipped, cached or completed, with at most MaxAttempts attempts. */
  lemma SucceededEntry(step: Step, p: seq<Kind>)
    requires SucceededLog(step, p)
    ensures Entry(step.id, p).status in {"skipped", "cached", "completed"}
    ensures Entry(step.id, p).attempts <= step.MaxAttempts()
    ensures Entry(step.id, p).cached <==> Entry(step.id, p).status == "cached"
  {
    if n :| 1 <= n <= step.MaxAttempts() && p == Done(n, step.artifacts) {
      EntryOfDone(step.id, n, step.artifacts);
    } else {
      assert |p| == 1 && p[..0] == [];
    }
  }

  /** The status a step that returned is shown with, by the last thing that happened to it. */
  function StatusAfter(c: Choice): string {
    match c
    case SkipByWhen => "skipped"
    case CacheHit(_) => "cached"
    case ExecutorError => "failed"
    case ValidationFailed => "failed"
    case ArtifactError => "completed"
    case AllArtifactsDone => "completed"
    case _ => ""
  }

  predicate Fails(c: Choice) {
    c in {GuardError, ExecutorError, ValidationFailed, ArtifactError}
  }

  /** The last step of a goroutine, when it writes an event. */
  lemma ReturnedWith(step: Step, ph: Phase, p: seq<Kind>, c: Choice, k: Kind)
    requires Allowed(step, ph, c) && Advance(step, ph, c) == (Returned(!Fails(c)), Some(k))
    ensures Entry(step.id, p + [k]).status == StatusAfter(c)
  {
    EntryAppend(step.id, p, k);
  }

  /** The last step of a goroutine, when it writes nothing: what is shown was written before. */
  lemma ReturnedWithout(step: Step, ph: Phase, p: seq<Kind>, c: Choice)
    requires Allowed(step, ph, c) && Consistent(step, ph, p)
    requires Advance(step, ph, c) == (Returned(!Fails(c)), None)
    ensures Entry(step.id, p).status == StatusAfter(c)
  {
    if ph.Verifying? {
      EntryOfDone(step.id, ph.n, ph.k);
    }
  }

  lemma ReturnedOk(step: Step, ph: Phase, c: Choice)
    requires Allowed(step, ph, c) && Advance(step, ph, c).0.Returned?
    ensures Advance(step, ph, c).0 == Returned(!Fails(c))
  {
  }

  lemma ReturnedBy(step: Step, ph: Phase, p: seq<Kind>, c: Choice, next: (Phase, Option<Kind>))
    requires Allowed(step, ph, c) && Consistent(step, ph, p) && next == Advance(step, ph, c) && next.0.Returned?
    ensures Entry(step.id, p + Written(next.1)).status == StatusAfter(c)
  {
    ReturnedOk(step, ph, c);
    match next.1 {
      case Some(k) => ReturnedWith(step, ph, p, c, k);
      case None =>
        ReturnedWithout(step, ph, p, c);
        assert p + [] == p;
    }
  }

  /** A step that returned is shown by the outcome of its last stage: as failed exactly after an executor that failed
      for the last time or a failed validation, as completed after an artifact error too, and not at all after a
      guard error. */
  lemma ReturnedEntry(step: Step, choices: seq<Choice>, ok: bool, p: seq<Kind>)
    requires Path(step, choices) == Some((Returned(ok), p))
    ensures choices != [] && ok == !Fails(choices[|choices| - 1])
    ensures Entry(step.id, p).status == StatusAfter(choices[|choices| - 1])
  {
    var init, c := choices[..|choices| - 1], choices[|choices| - 1];
    PathConsistent(step, init);
    var (ph, q) := Path(step, init).value;
    ReturnedOk(step, ph, c);
    ReturnedBy(step, ph, q, c, Advance(step, ph, c));
  }

  lemma FailedEntry(step: Step, choices: seq<Choice>, p: seq<Kind>)
    requires Path(step, choices) == Some((Returned(false), p))
    ensures choices != []
    ensures Entry(step.id, p).status == "failed" <==> choices[|choices| - 1] in {ExecutorError, ValidationFailed}
    ensures Entry(step.id, p).status == "completed" <==> choices[|choices| - 1] == ArtifactError
    ensures Entry(step.id, p).status == "" <==> choices[|choices| - 1] == GuardError
  {
    ReturnedEntry(step, choices, false, p);
    StatusOfFailure(choices[|choices| - 1]);
  }

  lemma StatusOfFailure(c: Choice)
    requires Fails(c)
    ensures StatusAfter(c) == "failed" <==> c in {ExecutorError, ValidationFailed}
    ensures StatusAfter(c) == "completed" <==> c == ArtifactError
    ensures StatusAfter(c) == "" <==> c == GuardError
  {
    assert |"failed"| == 6 && |"completed"| == 9;
  }

  function ReturnedStatuses(ok: bool): set<string> {
    if ok then {"skipped", "cached", "completed"} else {"", "failed", "completed"}
  }

  lemma ErrorEntry(step: Step, p: seq<Kind>)
    requires FailedLog(step, p)
    ensures Entry(step.id, p).status in ReturnedStatuses(false)
  {
    if p == [] {
    } else if n, k: nat :| 1 <= n <= step.MaxAttempts() && k < step.artifacts && p == Done(n, k) {
      EntryOfDone(step.id, n, k);
    } else {
      assert p[|p| - 1].Failed?;
    }
  }

  /** What a reader of the summaries sees at any moment of a run; in particular no step that returned
      nil is ever shown as failed. */
  lemma ShownStatus(step: Step, ph: Phase, p: seq<Kind>)
    requires Consistent(step, ph, p)
    ensures var shown := Entry(step.id, p);
      match ph
      case Attempting(n) => shown.status == "running" && shown.attempts == n
      case Backoff(n) => shown.status == "retrying" && shown.attempts == n
      case Validating(n) => shown.status == "completed" && shown.attempts == n
      case Verifying(n, _) => shown.status == "completed" && shown.attempts == n
      case Returned(ok) => shown.status in ReturnedStatuses(ok)
      case Joined(ok) => shown.status in ReturnedStatuses(ok)
      case _ => shown == Fresh(step.id)
  {
    match ph {
      case Attempting(n) => EntryOfAttempts(step.id, n);
      case Backoff(n) =>
        EntryOfAttempts(step.id, n);
        EntryAppend(step.id, Attempts(n), Retrying(n));
      case Validating(n) => EntryOfDone(step.id, n, 0);
      case Verifying(n, k) => EntryOfDone(step.id, n, k);
      case Returned(ok) => if ok { SucceededEntry(step, p); } else { ErrorEntry(step, p); }
      case Joined(ok) => if ok { SucceededEntry(step, p); } else { ErrorEntry(step, p); }
      case _ =>
    }
  }
}
