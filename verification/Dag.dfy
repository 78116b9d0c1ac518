/** The parts of a DAG file the other modules share. */
module Dag {
  import opened Text

  datatype Retry = Retry(limit: int, exponential: bool, maxDelay: Option<int>)

  datatype Step = Step(
    id: string,
    depends: seq<string>,
    matrix: map<string, seq<string>>,
    retry: Option<Retry>,
    artifacts: nat,
    cache: bool,
    script: string,
    rExpr: string,
    command: string)
  {
    function MaxAttempts(): (n: int)
      ensures n >= 1
    {
      if retry.Some? && retry.value.limit > 0 then retry.value.limit + 1 else 1
    }
  }

  function Ids(steps: seq<Step>): set<string> {
    set s | s in steps :: s.id
  }

  predicate UniqueIds(steps: seq<Step>) {
    forall i, j :: 0 <= i < j < |steps| ==> steps[i].id != steps[j].id
  }

  predicate KnownDepends(steps: seq<Step>) {
    forall s, d :: s in steps && d in s.depends ==> d in Ids(steps)
  }

  /** Some step called u lists v among its dependencies. */
  predicate Edge(steps: seq<Step>, u: string, v: string) {
    exists s :: s in steps && s.id == u && v in s.depends
  }

  /** A walk along dependencies; it starts at a step and every later node is one its predecessor depends on. */
  predicate Walk(steps: seq<Step>, p: seq<string>) {
    && p != []
    && p[0] in Ids(steps)
    && forall k :: 0 <= k < |p| - 1 ==> Edge(steps, p[k], p[k + 1])
  }

  ghost predicate Cycle(steps: seq<Step>, p: seq<string>) {
    Walk(steps, p) && |p| >= 2 && p[0] == p[|p| - 1]
  }

  ghost predicate Acyclic(steps: seq<Step>) {
    forall p :: !Cycle(steps, p)
  }
}
