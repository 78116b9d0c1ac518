/** Expansion of matrix steps into instances, and what it does to the graph (dag/matrix.go). */
module Expansion {
  import opened Dag
  import opened Matrix
  import opened SortedKeys
  import opened Text
  import TopoSort

  // ----- Instance names -----

  function PartOf(combo: Combo, key: string): string {
    key + "_" + if key in combo then combo[key] else ""
  }

  function PartsOf(combo: Combo, order: seq<string>): seq<string> {
    seq(|order|, j requires 0 <= j < |order| => PartOf(combo, order[j]))
  }

  ghost predicate NamedInOrder(id: string, combo: Combo, order: seq<string>, name: string) {
    && TopoSort.NoDuplicates(order) && TopoSort.Elements(order) == combo.Keys
    && name == id + "-" + Join(PartsOf(combo, order), '-')
  }

  /** The parts of an instance name come in whatever order the map is iterated. */
  ghost predicate IsInstanceName(id: string, combo: Combo, name: string) {
    exists order :: NamedInOrder(id, combo, order, name)
  }

  method InstanceName(id: string, combo: Combo) returns (name: string)
    ensures IsInstanceName(id, combo, name)
  {
    var order := KeysInAnyOrder(combo);
    var parts := [];
    for j := 0 to |order|
      invariant parts == PartsOf(combo, order)[..j]
    {
      parts := parts + [PartOf(combo, order[j])];
    }
    assert parts == PartsOf(combo, order);
    name := id + "-" + Join(parts, '-');
    assert NamedInOrder(id, combo, order, name);
  }

  // ----- ExpandMatrix -----

  /** names[i] lists the IDs of the steps that steps[i] becomes. */
  type Names = seq<seq<string>>

  ghost predicate InstanceNames(s: Step, names: seq<string>) {
    if s.matrix == map[] then names == [s.id]
    else exists keys :: NamesOfCombos(s, keys, names)
  }

  ghost predicate NamesOfCombos(s: Step, keys: seq<string>, names: seq<string>) {
    && KeyOrder(s.matrix, keys)
    && |names| == |Combos(AxesOf(s.matrix, keys))|
    && forall j :: 0 <= j < |names| ==> IsInstanceName(s.id, Combos(AxesOf(s.matrix, keys))[j], names[j])
  }

  ghost predicate Named(steps: seq<Step>, names: Names) {
    |names| == |steps| && forall i :: 0 <= i < |steps| ==> InstanceNames(steps[i], names[i])
  }

  function Renamed(s: Step, name: string): Step {
    s.(id := name, matrix := map[])
  }

  function Block(s: Step, names: seq<string>): seq<Step> {
    seq(|names|, j requires 0 <= j < |names| => Renamed(s, names[j]))
  }

  function FirstPass(steps: seq<Step>, names: Names): seq<Step>
    requires |names| == |steps|
  {
    if steps == [] then []
    else FirstPass(steps[..|steps| - 1], names[..|steps| - 1]) + Block(steps[|steps| - 1], names[|steps| - 1])
  }

  function Replacements(steps: seq<Step>, names: Names): map<string, seq<string>>
    requires |names| == |steps|
  {
    if steps == [] then map[]
    else
      var rest := Replacements(steps[..|steps| - 1], names[..|steps| - 1]);
      if steps[|steps| - 1].matrix == map[] then rest else rest[steps[|steps| - 1].id := names[|steps| - 1]]
  }

  function Replaced(replacements: map<string, seq<string>>, dep: string): seq<string> {
    if dep in replacements then replacements[dep] else [dep]
  }

  function NewDeps(replacements: map<string, seq<string>>, deps: seq<string>): seq<string> {
    if deps == [] then []
    else NewDeps(replacements, deps[..|deps| - 1]) + Replaced(replacements, deps[|deps| - 1])
  }

  function Rewired(replacements: map<string, seq<string>>, s: Step): Step {
    s.(depends := NewDeps(replacements, s.depends))
  }

  function RewiredAll(replacements: map<string, seq<string>>, steps: seq<Step>): seq<Step> {
    seq(|steps|, k requires 0 <= k < |steps| => Rewired(replacements, steps[k]))
  }

  function Expanded(steps: seq<Step>, names: Names): seq<Step>
    requires |names| == |steps|
  {
    RewiredAll(Replacements(steps, names), FirstPass(steps, names))
  }

  method ExpandStep(s: Step) returns (instances: seq<Step>, ids: seq<string>)
    requires s.matrix != map[]
    ensures InstanceNames(s, ids) && instances == Block(s, ids)
  {
    var combos := MatrixCombinations(s.matrix);
    ghost var keys :| CombosOver(s.matrix, keys, combos);
    instances, ids := [], [];
    for j := 0 to |combos|
      invariant |ids| == j && instances == Block(s, ids)
      invariant forall m :: 0 <= m < j ==> IsInstanceName(s.id, combos[m], ids[m])
    {
      var name := InstanceName(s.id, combos[j]);
      ids := ids + [name];
      instances := instances + [Renamed(s, name)];
    }
    assert NamesOfCombos(s, keys, ids);
  }

  method NewDepends(replacements: map<string, seq<string>>, deps: seq<string>) returns (newDeps: seq<string>)
    ensures newDeps == NewDeps(replacements, deps)
  {
    newDeps := [];
    for d := 0 to |deps|
      invariant newDeps == NewDeps(replacements, deps[..d])
    {
      assert deps[..d + 1][..d] == deps[..d];
      if deps[d] in replacements {
        newDeps := newDeps + replacements[deps[d]];
      } else {
        newDeps := newDeps + [deps[d]];
      }
    }
    assert deps[..|deps|] == deps;
  }

  ghost predicate FirstPassDone(steps: seq<Step>, names: Names, expanded: seq<Step>, replacements: map<string, seq<string>>) {
    Named(steps, names) && expanded == FirstPass(steps, names) && replacements == Replacements(steps, names)
  }

  /** The first pass: instances still carry the dependencies of their originals. */
  method ExpandSteps(steps: seq<Step>) returns (expanded: seq<Step>, replacements: map<string, seq<string>>)
    ensures exists names :: FirstPassDone(steps, names, expanded, replacements)
  {
    expanded, replacements := [], map[];
    ghost var names: Names := [];
    for i := 0 to |steps|
      invariant FirstPassDone(steps[..i], names, expanded, replacements)
    {
      var s := steps[i];
      assert steps[..i + 1] == steps[..i] + [s];
      if s.matrix == map[] {
        assert [s] == Block(s, [s.id]);
        expanded := expanded + [s];
        names := names + [[s.id]];
      } else {
        var instances, ids := ExpandStep(s);
        expanded := expanded + instances;
        replacements := replacements[s.id := ids];
        names := names + [ids];
      }
    }
    assert steps[..|steps|] == steps;
  }

  /** The second pass: dependencies on a matrix step become dependencies on all its instances. */
  method RewireSteps(first: seq<Step>, replacements: map<string, seq<string>>) returns (expanded: seq<Step>)
    ensures expanded == RewiredAll(replacements, first)
  {
    expanded := first;
    for k := 0 to |first|
      invariant |expanded| == |first|
      invariant forall m :: 0 <= m < k ==> expanded[m] == Rewired(replacements, first[m])
      invariant forall m :: k <= m < |first| ==> expanded[m] == first[m]
    {
      if expanded[k].depends != [] {
        var newDeps := NewDepends(replacements, expanded[k].depends);
        expanded := expanded[k := expanded[k].(depends := newDeps)];
      }
    }
  }

  ghost predicate ExpandedAs(steps: seq<Step>, names: Names, expanded: seq<Step>) {
    Named(steps, names) && expanded == Expanded(steps, names)
  }

  method ExpandMatrix(steps: seq<Step>) returns (expanded: seq<Step>)
    ensures exists names :: ExpandedAs(steps, names, expanded)
  {
    var first, replacements := ExpandSteps(steps);
    ghost var names :| FirstPassDone(steps, names, first, replacements);
    expanded := RewireSteps(first, replacements);
    assert ExpandedAs(steps, names, expanded);
  }

  // ----- What expansion does to the graph -----

  ghost predicate HasName(names: Names, i: int, x: string) {
    0 <= i < |names| && x in names[i]
  }

  lemma {:induction false} InFirstPass(steps: seq<Step>, names: Names, e: Step) returns (i: nat)
    requires |names| == |steps| && e in FirstPass(steps, names)
    ensures i < |steps| && e.id in names[i] && e == Renamed(steps[i], e.id)
  {
    var n := |steps| - 1;
    if e in Block(steps[n], names[n]) {
      i := n;
    } else {
      i := InFirstPass(steps[..n], names[..n], e);
    }
  }

  lemma {:induction false} FirstPassHas(steps: seq<Step>, names: Names, i: nat, j: nat)
    requires |names| == |steps| && i < |steps| && j < |names[i]|
    ensures Renamed(steps[i], names[i][j]) in FirstPass(steps, names)
  {
    var n := |steps| - 1;
    if i == n {
      assert Block(steps[n], names[n])[j] == Renamed(steps[i], names[i][j]);
    } else {
      FirstPassHas(steps[..n], names[..n], i, j);
    }
  }

  lemma TailUnique(a: seq<Step>, b: seq<Step>)
    requires UniqueIds(a + b)
    ensures UniqueIds(a) && UniqueIds(b)
    ensures forall e, f :: e in a && f in b ==> e.id != f.id
  {
    assert forall j :: 0 <= j < |a| ==> (a + b)[j] == a[j];
    assert forall j :: 0 <= j < |b| ==> (a + b)[|a| + j] == b[j];
  }

  /** When the expanded steps have distinct IDs, no name is used twice. */
  lemma {:induction false} NameOnce(steps: seq<Step>, names: Names, i: nat, j: nat, k: nat, m: nat)
    requires |names| == |steps| && UniqueIds(FirstPass(steps, names))
    requires i < |steps| && j < |names[i]| && k < |steps| && m < |names[k]| && names[i][j] == names[k][m]
    ensures i == k && j == m
  {
    var n := |steps| - 1;
    var a, b := FirstPass(steps[..n], names[..n]), Block(steps[n], names[n]);
    TailUnique(a, b);
    assert forall x :: 0 <= x < |b| ==> b[x] in b && b[x].id == names[n][x];
    if i < n && k < n {
      NameOnce(steps[..n], names[..n], i, j, k, m);
    } else if i < n {
      FirstPassHas(steps[..n], names[..n], i, j);
    } else if k < n {
      FirstPassHas(steps[..n], names[..n], k, m);
    }
  }

  lemma {:induction false} ReplacementOf(steps: seq<Step>, names: Names, k: nat)
    requires |names| == |steps| && UniqueIds(steps) && k < |steps|
    ensures steps[k].id in Replacements(steps, names) <==> steps[k].matrix != map[]
    ensures steps[k].matrix != map[] ==> Replacements(steps, names)[steps[k].id] == names[k]
  {
    var n := |steps| - 1;
    if k < n {
      ReplacementOf(steps[..n], names[..n], k);
    } else {
      OnlyStepIds(steps[..n], names[..n]);
    }
  }

  lemma {:induction false} OnlyStepIds(steps: seq<Step>, names: Names)
    requires |names| == |steps|
    ensures forall d :: d in Replacements(steps, names) ==> d in Ids(steps)
  {
    var n := |steps| - 1;
    if steps != [] {
      OnlyStepIds(steps[..n], names[..n]);
      assert steps == steps[..n] + [steps[n]];
    }
  }

  lemma ReplacedByInstances(steps: seq<Step>, names: Names, k: nat)
    requires Named(steps, names) && UniqueIds(steps) && k < |steps|
    ensures Replaced(Replacements(steps, names), steps[k].id) == names[k]
  {
    ReplacementOf(steps, names, k);
    assert InstanceNames(steps[k], names[k]);
  }

  lemma {:induction false} InNewDeps(replacements: map<string, seq<string>>, deps: seq<string>, x: string)
    ensures x in NewDeps(replacements, deps) <==> exists d :: d in deps && x in Replaced(replacements, d)
  {
    if deps != [] {
      var n := |deps| - 1;
      InNewDeps(replacements, deps[..n], x);
      assert deps == deps[..n] + [deps[n]];
    }
  }

  /** x is an instance of a step that steps[i] depends on. */
  ghost predicate InstanceOfDep(steps: seq<Step>, names: Names, i: nat, x: string)
    requires i < |steps| == |names|
  {
    exists k :: 0 <= k < |steps| && DependsOnAll(steps, names, i, k, x)
  }

  ghost predicate DependsOnAll(steps: seq<Step>, names: Names, i: nat, k: nat, x: string)
    requires i < |steps| == |names| && k < |steps|
  {
    steps[k].id in steps[i].depends && x in names[k]
  }

  lemma DepsAreInstances(steps: seq<Step>, names: Names, i: nat, x: string)
    requires Named(steps, names) && UniqueIds(steps) && KnownDepends(steps) && i < |steps|
    ensures x in NewDeps(Replacements(steps, names), steps[i].depends) <==> InstanceOfDep(steps, names, i, x)
  {
    var replacements := Replacements(steps, names);
    InNewDeps(replacements, steps[i].depends, x);
    forall d | d in steps[i].depends && x in Replaced(replacements, d)
      ensures InstanceOfDep(steps, names, i, x)
    {
      assert steps[i] in steps && d in Ids(steps);
      var s :| s in steps && s.id == d;
      var k :| 0 <= k < |steps| && steps[k] == s;
      ReplacedByInstances(steps, names, k);
      assert DependsOnAll(steps, names, i, k, x);
    }
    forall k | 0 <= k < |steps| && DependsOnAll(steps, names, i, k, x)
      ensures steps[k].id in steps[i].depends && x in Replaced(replacements, steps[k].id)
    {
      ReplacedByInstances(steps, names, k);
    }
  }

  ghost predicate IsInstance(steps: seq<Step>, names: Names, i: nat, e: Step)
    requires |steps| == |names|
  {
    && i < |steps|
    && e.id in names[i]
    && e == Renamed(steps[i], e.id).(depends := e.depends)
    && forall x :: x in e.depends <==> InstanceOfDep(steps, names, i, x)
  }

  /** Every expanded step is an instance of a step and depends on exactly all instances of its dependencies. */
  lemma ExpandedAreInstances(steps: seq<Step>, names: Names, e: Step) returns (i: nat)
    requires Named(steps, names) && UniqueIds(steps) && KnownDepends(steps)
    requires e in Expanded(steps, names)
    ensures IsInstance(steps, names, i, e)
    ensures e.matrix == map[] && e.retry == steps[i].retry && e.artifacts == steps[i].artifacts && e.cache == steps[i].cache
    ensures e.script == steps[i].script && e.rExpr == steps[i].rExpr && e.command == steps[i].command
  {
    var first := FirstPass(steps, names);
    var k :| 0 <= k < |first| && Expanded(steps, names)[k] == e;
    assert first[k] in first;
    i := InFirstPass(steps, names, first[k]);
    forall x
      ensures x in e.depends <==> InstanceOfDep(steps, names, i, x)
    {
      DepsAreInstances(steps, names, i, x);
    }
  }

  /** Every instance is among the expanded steps. */
  lemma InstancesAreExpanded(steps: seq<Step>, names: Names, i: nat, j: nat) returns (e: Step)
    requires Named(steps, names) && i < |steps| && j < |names[i]|
    ensures e in Expanded(steps, names) && e.id == names[i][j]
  {
    var first := FirstPass(steps, names);
    FirstPassHas(steps, names, i, j);
    var k :| 0 <= k < |first| && first[k] == Renamed(steps[i], names[i][j]);
    e := Expanded(steps, names)[k];
    assert e.id == names[i][j];
  }

  lemma FirstPassUnique(steps: seq<Step>, names: Names)
    requires |names| == |steps| && UniqueIds(Expanded(steps, names))
    ensures UniqueIds(FirstPass(steps, names))
  {
    var first, expanded := FirstPass(steps, names), Expanded(steps, names);
    assert |first| == |expanded|;
    assert forall k :: 0 <= k < |first| ==> first[k].id == expanded[k].id;
  }

  lemma SameOrigin(steps: seq<Step>, names: Names, i: nat, k: nat, x: string)
    requires |names| == |steps| && UniqueIds(Expanded(steps, names))
    requires HasName(names, i, x) && HasName(names, k, x)
    ensures i == k
  {
    FirstPassUnique(steps, names);
    var j :| 0 <= j < |names[i]| && names[i][j] == x;
    var m :| 0 <= m < |names[k]| && names[k][m] == x;
    NameOnce(steps, names, i, j, k, m);
  }

  /** The expanded step of a given name. */
  lemma InstanceEntry(steps: seq<Step>, names: Names, i: nat, x: string) returns (e: Step)
    requires Named(steps, names) && UniqueIds(steps) && KnownDepends(steps) && UniqueIds(Expanded(steps, names))
    requires HasName(names, i, x)
    ensures e in Expanded(steps, names) && e.id == x && IsInstance(steps, names, i, e)
  {
    var j :| 0 <= j < |names[i]| && names[i][j] == x;
    e := InstancesAreExpanded(steps, names, i, j);
    var i' := ExpandedAreInstances(steps, names, e);
    SameOrigin(steps, names, i, i', x);
  }

  /** An edge between instances comes from an edge between their originals. */
  lemma EdgeComesFrom(steps: seq<Step>, names: Names, i: nat, u: string, v: string) returns (k: nat)
    requires Named(steps, names) && UniqueIds(steps) && KnownDepends(steps) && UniqueIds(Expanded(steps, names))
    requires HasName(names, i, u) && Edge(Expanded(steps, names), u, v)
    ensures HasName(names, k, v) && Edge(steps, steps[i].id, steps[k].id)
  {
    var e :| e in Expanded(steps, names) && e.id == u && v in e.depends;
    var i' := ExpandedAreInstances(steps, names, e);
    SameOrigin(steps, names, i, i', u);
    assert InstanceOfDep(steps, names, i, v);
    k :| 0 <= k < |steps| && DependsOnAll(steps, names, i, k, v);
    assert steps[i] in steps;
  }

  ghost predicate Projects(steps: seq<Step>, names: Names, p: seq<string>, origin: seq<nat>)
    requires |steps| == |names|
  {
    && |origin| == |p|
    && (forall k :: 0 <= k < |p| ==> HasName(names, origin[k], p[k]))
    && (forall k :: 0 <= k < |p| - 1 ==> Edge(steps, steps[origin[k]].id, steps[origin[k + 1]].id))
  }

  lemma {:induction false} WalkComesFrom(steps: seq<Step>, names: Names, p: seq<string>) returns (origin: seq<nat>)
    requires Named(steps, names) && UniqueIds(steps) && KnownDepends(steps) && UniqueIds(Expanded(steps, names))
    requires Walk(Expanded(steps, names), p)
    ensures Projects(steps, names, p, origin)
  {
    if |p| == 1 {
      var e :| e in Expanded(steps, names) && e.id == p[0];
      var i := ExpandedAreInstances(steps, names, e);
      origin := [i];
    } else {
      var n := |p| - 1;
      var init := WalkComesFrom(steps, names, p[..n]);
      assert HasName(names, init[n - 1], p[n - 1]);
      var k := EdgeComesFrom(steps, names, init[n - 1], p[n - 1], p[n]);
      origin := init + [k];
      ProjectsSnoc(steps, names, p, init, k);
    }
  }

  lemma ProjectsSnoc(steps: seq<Step>, names: Names, p: seq<string>, init: seq<nat>, k: nat)
    requires |steps| == |names| && |p| > 1 && Projects(steps, names, p[..|p| - 1], init)
    requires HasName(names, k, p[|p| - 1]) && init[|p| - 2] < |steps|
    requires Edge(steps, steps[init[|p| - 2]].id, steps[k].id)
    ensures Projects(steps, names, p, init + [k])
  {
  }

  lemma CycleComesFrom(steps: seq<Step>, names: Names, p: seq<string>) returns (q: seq<string>)
    requires Named(steps, names) && UniqueIds(steps) && KnownDepends(steps) && UniqueIds(Expanded(steps, names))
    requires Cycle(Expanded(steps, names), p)
    ensures Cycle(steps, q)
  {
    var origin := WalkComesFrom(steps, names, p);
    var last := |p| - 1;
    SameOrigin(steps, names, origin[0], origin[last], p[0]);
    q := seq(|p|, k requires 0 <= k < |p| => StepId(steps, origin[k]));
    assert steps[origin[0]] in steps;
    forall k | 0 <= k < |q| - 1
      ensures Edge(steps, q[k], q[k + 1])
    {
      assert Edge(steps, steps[origin[k]].id, steps[origin[k + 1]].id);
    }
  }

  function StepId(steps: seq<Step>, i: nat): string {
    if i < |steps| then steps[i].id else ""
  }

  /** Expanding a DAG that passed validation gives one that sorting accepts, if the new IDs are distinct. */
  lemma ExpansionKeepsGraph(steps: seq<Step>, names: Names)
    requires Named(steps, names) && UniqueIds(steps) && KnownDepends(steps) && Acyclic(steps)
    requires UniqueIds(Expanded(steps, names))
    ensures KnownDepends(Expanded(steps, names)) && Acyclic(Expanded(steps, names))
  {
    var expanded := Expanded(steps, names);
    forall e, d | e in expanded && d in e.depends
      ensures d in Ids(expanded)
    {
      var i := ExpandedAreInstances(steps, names, e);
      assert InstanceOfDep(steps, names, i, d);
      var k :| 0 <= k < |steps| && DependsOnAll(steps, names, i, k, d);
      var m :| 0 <= m < |names[k]| && names[k][m] == d;
      var f := InstancesAreExpanded(steps, names, k, m);
    }
    forall p
      ensures !Cycle(expanded, p)
    {
      if Cycle(expanded, p) {
        var q := CycleComesFrom(steps, names, p);
      }
    }
  }

  // ----- Tiers of instances -----

  predicate NonEmptyLists(matrix: map<string, seq<string>>) {
    forall k :: k in matrix ==> matrix[k] != []
  }

  lemma {:induction false} PositiveProduct(axes: seq<Axis>)
    requires forall j :: 0 <= j < |axes| ==> axes[j].vals != []
    ensures Product(axes) > 0
  {
    if axes != [] {
      PositiveProduct(axes[..|axes| - 1]);
    }
  }

  /** A matrix step becomes as many instances as the product of its list lengths, a plain step stays one step. */
  lemma InstanceCount(s: Step, names: seq<string>, keys: seq<string>)
    requires InstanceNames(s, names) && KeyOrder(s.matrix, keys)
    ensures |names| == Product(AxesOf(s.matrix, keys))
    ensures NonEmptyLists(s.matrix) ==> names != []
  {
    if s.matrix == map[] {
      TopoSort.DistinctCount(keys);
    } else {
      var keys' :| NamesOfCombos(s, keys', names);
      KeyOrderUnique(s.matrix, keys, keys');
      CombosSize(AxesOf(s.matrix, keys));
    }
    if NonEmptyLists(s.matrix) {
      forall k | 0 <= k < |keys|
        ensures AxesOf(s.matrix, keys)[k].vals != []
      {
        assert keys[k] in TopoSort.Elements(keys);
      }
      PositiveProduct(AxesOf(s.matrix, keys));
    }
  }

  ghost predicate AllPresent(steps: seq<Step>, names: Names) {
    |names| == |steps| && forall i :: 0 <= i < |steps| ==> names[i] != []
  }

  ghost predicate FullyRanked(steps: seq<Step>, tierOf: map<string, nat>) {
    TopoSort.Ranked(steps, tierOf) && tierOf.Keys == Ids(steps)
  }

  /** The dependencies of an instance of steps[i] include an instance of each dependency of steps[i]. */
  lemma HasInstanceOf(steps: seq<Step>, names: Names, i: nat, d: string) returns (k: nat)
    requires AllPresent(steps, names) && KnownDepends(steps) && i < |steps| && d in steps[i].depends
    ensures k < |steps| && steps[k].id == d && InstanceOfDep(steps, names, i, names[k][0])
  {
    assert steps[i] in steps && d in Ids(steps);
    var s :| s in steps && s.id == d;
    k :| 0 <= k < |steps| && steps[k] == s;
    assert DependsOnAll(steps, names, i, k, names[k][0]);
  }

  ghost predicate TiersAgree(steps: seq<Step>, names: Names, tierOf: map<string, nat>, tierOf': map<string, nat>, below: nat)
    requires |steps| == |names|
  {
    forall i, x :: 0 <= i < |steps| && HasName(names, i, x) && steps[i].id in tierOf && tierOf[steps[i].id] < below ==>
      x in tierOf' && tierOf'[x] == tierOf[steps[i].id]
  }

  lemma DepTier(steps: seq<Step>, names: Names, tierOf: map<string, nat>, tierOf': map<string, nat>, i: nat, x: string)
    requires |steps| == |names| && FullyRanked(steps, tierOf) && i < |steps| && InstanceOfDep(steps, names, i, x)
    requires steps[i].id in tierOf && TiersAgree(steps, names, tierOf, tierOf', tierOf[steps[i].id])
    ensures x in tierOf' && tierOf'[x] < tierOf[steps[i].id]
  {
    var k :| 0 <= k < |steps| && DependsOnAll(steps, names, i, k, x);
    assert steps[i] in steps;
    assert HasName(names, k, x);
  }

  /** Tier 0 has no dependencies; a later tier has one in the tier just before. */
  lemma InstanceTierAt(steps: seq<Step>, names: Names, tierOf: map<string, nat>, tierOf': map<string, nat>,
      i: nat, e: Step)
    requires AllPresent(steps, names) && KnownDepends(steps) && FullyRanked(steps, tierOf)
    requires IsInstance(steps, names, i, e) && steps[i].id in tierOf
    requires e.id in tierOf' && TopoSort.Fits(e.depends, tierOf', tierOf'[e.id])
    requires TiersAgree(steps, names, tierOf, tierOf', tierOf[steps[i].id])
    ensures tierOf'[e.id] == tierOf[steps[i].id]
  {
    var t := tierOf[steps[i].id];
    assert steps[i] in steps && TopoSort.Fits(steps[i].depends, tierOf, t);
    forall x | x in e.depends
      ensures x in tierOf' && tierOf'[x] < t
    {
      DepTier(steps, names, tierOf, tierOf', i, x);
    }
    if t > 0 {
      var d :| d in steps[i].depends && d in tierOf && tierOf[d] == t - 1;
      var k := HasInstanceOf(steps, names, i, d);
      assert HasName(names, k, names[k][0]);
      assert names[k][0] in e.depends;
    }
  }

  lemma {:induction false} TiersAgreeBelow(steps: seq<Step>, names: Names, tierOf: map<string, nat>,
      tierOf': map<string, nat>, below: nat)
    requires Named(steps, names) && AllPresent(steps, names) && UniqueIds(steps) && KnownDepends(steps)
    requires UniqueIds(Expanded(steps, names))
    requires FullyRanked(steps, tierOf) && FullyRanked(Expanded(steps, names), tierOf')
    ensures TiersAgree(steps, names, tierOf, tierOf', below)
  {
    if below > 0 {
      TiersAgreeBelow(steps, names, tierOf, tierOf', below - 1);
      forall i, x | 0 <= i < |steps| && HasName(names, i, x) && steps[i].id in tierOf && tierOf[steps[i].id] == below - 1
        ensures x in tierOf' && tierOf'[x] == tierOf[steps[i].id]
      {
        var e := InstanceEntry(steps, names, i, x);
        InstanceTierAt(steps, names, tierOf, tierOf', i, e);
      }
    }
  }

  /** With non-empty value lists every instance runs in the tier its original has. */
  lemma InstancesKeepTier(steps: seq<Step>, names: Names, tierOf: map<string, nat>, tierOf': map<string, nat>,
      i: nat, j: nat)
    requires Named(steps, names) && UniqueIds(steps) && KnownDepends(steps)
    requires UniqueIds(Expanded(steps, names))
    requires forall k :: 0 <= k < |steps| ==> NonEmptyLists(steps[k].matrix)
    requires FullyRanked(steps, tierOf) && FullyRanked(Expanded(steps, names), tierOf')
    requires i < |steps| && j < |names[i]|
    ensures names[i][j] in tierOf' && steps[i].id in tierOf && tierOf'[names[i][j]] == tierOf[steps[i].id]
  {
    forall k | 0 <= k < |steps|
      ensures names[k] != []
    {
      NamesPresent(steps[k], names[k]);
    }
    assert steps[i] in steps;
    TiersAgreeBelow(steps, names, tierOf, tierOf', tierOf[steps[i].id] + 1);
    assert HasName(names, i, names[i][j]);
  }

  lemma NamesPresent(s: Step, names: seq<string>)
    requires InstanceNames(s, names) && NonEmptyLists(s.matrix)
    ensures names != []
  {
    if s.matrix != map[] {
      var keys :| NamesOfCombos(s, keys, names);
      InstanceCount(s, names, keys);
    }
  }
}
