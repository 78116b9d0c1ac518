/** The event log of a run (state/event.go) and its projection on one step. */
module Events {
  import opened Text

  datatype Kind =
    | Started(attempt: int)
    | Retrying(attempt: int)
    | Completed(attempt: int)
    | Failed(attempt: int)
    | WaitingApproval(message: string)
    | Approved
    | Rejected
    | Skipped
    | Cached(cacheKey: Option<string>)
    | Artifact

  datatype Event = RunStarted | RunCompleted | RunFailed | StepEvent(id: string, kind: Kind)
  {
    predicate Terminal() {
      RunCompleted? || RunFailed?
    }
  }

  /** What one step contributed to the log, in order. */
  function Project(log: seq<Event>, id: string): seq<Kind> {
    if log == [] then []
    else
      var last := log[|log| - 1];
      Project(log[..|log| - 1], id) + if last.StepEvent? && last.id == id then [last.kind] else []
  }

  lemma ProjectAppend(log: seq<Event>, e: Event, id: string)
    ensures Project(log + [e], id) == Project(log, id) + if e.StepEvent? && e.id == id then [e.kind] else []
  {
    assert (log + [e])[..|log|] == log;
  }
}
