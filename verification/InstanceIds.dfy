/** When the IDs that expansion gives to instances are distinct (dag/matrix.go). */
module InstanceIds {
  import opened Dag
  import opened Expansion
  import opened Matrix
  import opened SortedKeys
  import opened Text
  import TopoSort

  // ----- Telling the parts of an instance ID apart -----

  /** A part for this key begins here, after its '-'. */
  predicate MarkAt(s: string, at: nat, key: string) {
    at + |key| + 2 <= |s| && s[at..at + |key| + 2] == "-" + key + "_"
  }

  /** From here on s is a '-' and the beginning of the key, which goes on with a '-' of its own. */
  predicate EndsInto(s: string, at: nat, key: string) {
    at < |s| && s[at] == '-' && s[at + 1..] + "-" <= key
  }

  /** Nothing inside the part, nor at its end, looks like the beginning of a part for this key. */
  predicate Clean(part: string, key: string) {
    forall at :: 0 <= at < |part| ==> !MarkAt(part, at, key) && !EndsInto(part, at, key)
  }

  predicate KeyExtends(longer: string, shorter: string) {
    shorter + "_" <= longer
  }

  /** No key is another one followed by '_' and more, and the parts of the one matrix are clean for the keys of the
      other. */
  predicate LegibleBeside(m: map<string, seq<string>>, n: map<string, seq<string>>) {
    && (forall k, l :: k in m && l in n ==> !KeyExtends(k, l))
    && (forall k, l, v :: k in m && l in n && v in m[k] ==> Clean(k + "_" + v, l))
  }

  predicate Legible(m: map<string, seq<string>>, n: map<string, seq<string>>) {
    LegibleBeside(m, n) && LegibleBeside(n, m)
  }

  /** In particular '-'-free keys and values are legible, if no key is another one followed by '_' and more. */
  lemma DashFreeIsLegible(m: map<string, seq<string>>)
    requires forall k :: k in m ==> '-' !in k && Free(m[k], '-')
    requires forall k, l :: k in m && l in m ==> !KeyExtends(k, l)
    ensures Legible(m, m)
  {
    forall k, l, v | k in m && l in m && v in m[k]
      ensures Clean(k + "_" + v, l)
    {
      var part := k + "_" + v;
      forall at | 0 <= at < |part|
        ensures !MarkAt(part, at, l) && !EndsInto(part, at, l)
      {
        assert part[at] in part && '-' !in part;
        assert ("-" + l + "_")[0] == '-';
      }
    }
  }

  /** The parts belong to these keys, one each. */
  predicate Headed(parts: seq<string>, keys: seq<string>) {
    |parts| == |keys| && forall j :: 0 <= j < |parts| ==> keys[j] + "_" <= parts[j]
  }

  predicate AllClean(parts: seq<string>, keys: seq<string>) {
    forall j, i :: 0 <= j < |parts| && 0 <= i < |keys| ==> Clean(parts[j], keys[i])
  }

  lemma JoinCons(parts: seq<string>)
    requires |parts| > 1
    ensures Join(parts, '-') == parts[0] + ("-" + Join(parts[1..], '-'))
  {
  }

  lemma {:induction false} JoinAppend(a: seq<string>, b: seq<string>)
    requires a != [] && b != []
    ensures Join(a + b, '-') == Join(a, '-') + ("-" + Join(b, '-'))
  {
    JoinCons(a + b);
    if |a| == 1 {
      assert (a + b)[1..] == b;
    } else {
      assert (a + b)[1..] == a[1..] + b;
      JoinAppend(a[1..], b);
      JoinCons(a);
    }
  }

  /** A mark of the joined text is not inside the first part, and so there are more. */
  lemma MarkBehindFirst(parts: seq<string>, at: nat, key: string)
    requires parts != [] && Clean(parts[0], key) && MarkAt(Join(parts, '-'), at, key)
    ensures at >= |parts[0]| && |parts| > 1
  {
    var first := parts[0];
    if |parts| > 1 {
      JoinCons(parts);
      if at < |first| {
        MarkStraddles(first, "-" + Join(parts[1..], '-'), at, key);
      }
    }
  }

  lemma MarkStraddles(first: string, rest: string, at: nat, key: string)
    requires at < |first| && rest != "" && rest[0] == '-' && MarkAt(first + rest, at, key)
    ensures !Clean(first, key)
  {
    var s, n := first + rest, |key| + 2;
    if at + n <= |first| {
      assert s[at..at + n] == first[at..at + n];
      assert MarkAt(first, at, key);
    } else {
      StraddlesInKey(first, s, at, key, "-" + key + "_", |first| - at);
    }
  }

  lemma StraddlesInKey(first: string, s: string, at: nat, key: string, mark: string, here: nat)
    requires first < s && at < |first| && here == |first| - at && s[|first|] == '-'
    requires mark == "-" + key + "_" && at + |mark| <= |s| && s[at..at + |mark|] == mark && here < |mark|
    ensures EndsInto(first, at, key)
  {
    assert mark[0] == s[at] == first[at];
    assert mark[here] == s[at + here];
    InsideKey(mark, key, here);
    SliceOfSlice(s, at, |mark|, here);
    assert first[at + 1..] == s[at + 1..at + here];
  }

  lemma SliceOfSlice(s: string, at: nat, n: nat, here: nat)
    requires at + n <= |s| && 1 <= here <= n
    ensures s[at..at + n][1..here] == s[at + 1..at + here]
  {
    var t := s[at..at + n];
    assert forall i :: 1 <= i < here ==> t[1..here][i - 1] == t[i] == s[at + i];
  }

  lemma InsideKey(mark: string, key: string, here: nat)
    requires mark == "-" + key + "_" && 0 < here < |mark| && mark[here] == '-'
    ensures mark[1..here] + "-" <= key
  {
    assert mark[|key| + 1] == '_';
    assert mark[1..here] == key[..here - 1] && mark[here] == key[here - 1];
    assert key[..here] == key[..here - 1] + [key[here - 1]];
  }

  lemma MarkOfSecond(parts: seq<string>, keys: seq<string>)
    requires |parts| > 1 && Headed(parts, keys)
    ensures MarkAt(Join(parts, '-'), |parts[0]|, keys[1])
  {
    JoinCons(parts);
    MarkOfFirst(parts[1..], keys[1..], parts[0]);
  }

  lemma MarkOfFirst(parts: seq<string>, keys: seq<string>, before: string)
    requires parts != [] && Headed(parts, keys)
    ensures MarkAt(before + ("-" + Join(parts, '-')), |before|, keys[0])
  {
    var s, k := before + ("-" + Join(parts, '-')), keys[0];
    assert k + "_" <= parts[0] <= Join(parts, '-') by {
      if |parts| > 1 {
        JoinCons(parts);
      }
    }
    assert s[|before|..|before| + |k| + 2] == "-" + (k + "_");
    assert "-" + (k + "_") == "-" + k + "_";
  }

  /** Clean parts are determined by their join. */
  lemma {:induction false} JoinDecodes(xs: seq<string>, p: seq<string>, ys: seq<string>, q: seq<string>)
    requires xs != [] && ys != [] && Headed(xs, p) && Headed(ys, q) && AllClean(xs, q) && AllClean(ys, p)
    requires Join(xs, '-') == Join(ys, '-')
    ensures xs == ys
  {
    if |xs| > 1 {
      MarkOfSecond(xs, p);
      MarkBehindFirst(ys, |xs[0]|, p[1]);
    }
    if |ys| > 1 {
      MarkOfSecond(ys, q);
      MarkBehindFirst(xs, |ys[0]|, q[1]);
    }
    if |xs| > 1 {
      JoinCons(xs);
      JoinCons(ys);
      SameSplit(xs[0], "-" + Join(xs[1..], '-'), ys[0], "-" + Join(ys[1..], '-'));
      assert Join(xs[1..], '-') == ("-" + Join(xs[1..], '-'))[1..];
      assert Join(ys[1..], '-') == ("-" + Join(ys[1..], '-'))[1..];
      JoinDecodes(xs[1..], p[1..], ys[1..], q[1..]);
      assert xs == [xs[0]] + xs[1..] && ys == [ys[0]] + ys[1..];
    }
  }

  lemma SameSplit(a: string, b: string, c: string, d: string)
    requires a + b == c + d && |a| == |c|
    ensures a == c && b == d
  {
    assert a == (a + b)[..|a|] && b == (a + b)[|a|..];
    assert c == (c + d)[..|c|] && d == (c + d)[|c|..];
  }

  /** Where a part begins inside the join of clean parts, one of these ends. */
  lemma {:induction false} JoinSplits(xs: seq<string>, before: string, ys: seq<string>, q: seq<string>)
      returns (n: nat)
    requires xs != [] && ys != [] && Headed(ys, q) && AllClean(xs, q)
    requires Join(xs, '-') == before + ("-" + Join(ys, '-'))
    ensures 0 < n < |xs| && before == Join(xs[..n], '-') && Join(xs[n..], '-') == Join(ys, '-')
    decreases |xs|
  {
    MarkOfFirst(ys, q, before);
    MarkBehindFirst(xs, |before|, q[0]);
    JoinCons(xs);
    var rest := Join(xs[1..], '-');
    if |before| == |xs[0]| {
      n := 1;
      SameSplit(xs[0], "-" + rest, before, "-" + Join(ys, '-'));
      assert rest == ("-" + rest)[1..] && Join(ys, '-') == ("-" + Join(ys, '-'))[1..];
      assert xs[..1] == [xs[0]];
    } else {
      var inner := SplitLater(xs[0], rest, before, Join(ys, '-'));
      var m := JoinSplits(xs[1..], inner, ys, q);
      n := m + 1;
      assert xs[..n] == [xs[0]] + xs[1..][..m] && xs[n..] == xs[1..][m..];
      JoinAppend([xs[0]], xs[1..][..m]);
    }
  }

  lemma SplitLater(first: string, rest: string, before: string, tail: string) returns (inner: string)
    requires first + ("-" + rest) == before + ("-" + tail) && |before| > |first|
    ensures before == first + ("-" + inner) && rest == inner + ("-" + tail)
  {
    var s := first + ("-" + rest);
    assert s[..|before|] == before && s[|before|..] == "-" + tail;
    inner := before[|first| + 1..];
    assert before[..|first|] == s[..|first|] == first;
    assert before[|first|] == s[|first|] == '-';
    assert before == before[..|first|] + ([before[|first|]] + before[|first| + 1..]);
    assert rest == s[|first| + 1..];
    assert s == before + ("-" + tail) && before == first + ("-" + inner);
    assert s[|first| + 1..] == inner + ("-" + tail);
  }

  // ----- The choices behind an instance ID -----

  /** A value from the list for some of the keys. */
  predicate PartialChoice(matrix: map<string, seq<string>>, combo: Combo) {
    combo.Keys <= matrix.Keys && forall k :: k in combo ==> combo[k] in matrix[k]
  }

  predicate Choice(matrix: map<string, seq<string>>, combo: Combo) {
    PartialChoice(matrix, combo) && combo.Keys == matrix.Keys
  }

  lemma PartsHeaded(combo: Combo, order: seq<string>)
    ensures Headed(PartsOf(combo, order), order)
  {
  }

  lemma PartsClean(m: map<string, seq<string>>, c: Combo, p: seq<string>, n: map<string, seq<string>>, q: seq<string>)
    requires LegibleBeside(m, n) && PartialChoice(m, c)
    requires TopoSort.Elements(p) <= c.Keys && TopoSort.Elements(q) <= n.Keys
    ensures AllClean(PartsOf(c, p), q)
  {
    forall j, i | 0 <= j < |p| && 0 <= i < |q|
      ensures Clean(PartsOf(c, p)[j], q[i])
    {
      assert p[j] in TopoSort.Elements(p) && q[i] in TopoSort.Elements(q);
      assert c[p[j]] in m[p[j]];
    }
  }

  lemma PartDecodes(a: string, v: string, b: string, w: string)
    requires !KeyExtends(a, b) && !KeyExtends(b, a) && a + "_" + v == b + "_" + w
    ensures a == b && v == w
  {
    var s := a + "_" + v;
    assert s[..|a|] == a && s[..|a| + 1] == a + "_" && s[|a| + 1..] == v;
    assert s[..|b|] == b && s[..|b| + 1] == b + "_" && s[|b| + 1..] == w;
  }

  lemma SameParts(m: map<string, seq<string>>, c: Combo, p: seq<string>, n: map<string, seq<string>>, d: Combo,
      q: seq<string>)
    requires Legible(m, n) && PartialChoice(m, c) && PartialChoice(n, d)
    requires TopoSort.Elements(p) <= c.Keys && TopoSort.Elements(q) <= d.Keys && PartsOf(c, p) == PartsOf(d, q)
    ensures p == q && forall k :: k in p ==> k in c && k in d && c[k] == d[k]
  {
    assert |p| == |PartsOf(c, p)| == |q|;
    forall j | 0 <= j < |p|
      ensures p[j] in c && p[j] == q[j] && p[j] in d && c[p[j]] == d[p[j]]
    {
      assert p[j] in TopoSort.Elements(p) && q[j] in TopoSort.Elements(q);
      assert PartsOf(c, p)[j] == PartsOf(d, q)[j];
      PartDecodes(p[j], c[p[j]], q[j], d[q[j]]);
    }
  }

  /** Legible choices are made of the same parts if these have the same join. */
  lemma ChoicesDecode(m: map<string, seq<string>>, c: Combo, p: seq<string>, n: map<string, seq<string>>, d: Combo,
      q: seq<string>)
    requires Legible(m, n) && PartialChoice(m, c) && PartialChoice(n, d) && p != [] && q != []
    requires TopoSort.Elements(p) <= c.Keys && TopoSort.Elements(q) <= d.Keys
    requires Join(PartsOf(c, p), '-') == Join(PartsOf(d, q), '-')
    ensures p == q && forall k :: k in p ==> k in c && k in d && c[k] == d[k]
  {
    PartsHeaded(c, p);
    PartsHeaded(d, q);
    PartsClean(m, c, p, n, q);
    PartsClean(n, d, q, m, p);
    JoinDecodes(PartsOf(c, p), p, PartsOf(d, q), q);
    SameParts(m, c, p, n, d, q);
  }

  lemma NameAfterId(id: string, rest: string, other: string)
    requires id + "-" + rest == id + "-" + other
    ensures rest == other
  {
    assert rest == (id + "-" + rest)[|id| + 1..] && other == (id + "-" + other)[|id| + 1..];
  }

  /** In a legible matrix the choice can be told from the instance ID, in whatever orders the maps were iterated. */
  lemma NameDecodes(id: string, m: map<string, seq<string>>, c: Combo, d: Combo, name: string)
    requires m != map[] && Legible(m, m) && Choice(m, c) && Choice(m, d)
    requires IsInstanceName(id, c, name) && IsInstanceName(id, d, name)
    ensures c == d
  {
    var p :| NamedInOrder(id, c, p, name);
    var q :| NamedInOrder(id, d, q, name);
    NotEmpty(m, p);
    NotEmpty(m, q);
    NameAfterId(id, Join(PartsOf(c, p), '-'), Join(PartsOf(d, q), '-'));
    ChoicesDecode(m, c, p, m, d, q);
    assert forall k :: k in c ==> k in TopoSort.Elements(p);
  }

  lemma NotEmpty(m: map<string, seq<string>>, keys: seq<string>)
    requires m != map[] && TopoSort.Elements(keys) == m.Keys
    ensures keys != []
  {
    var k :| k in m;
    assert k in TopoSort.Elements(keys);
  }

  lemma ComboValue(matrix: map<string, seq<string>>, keys: seq<string>, i: nat, k: string)
    requires KeyOrder(matrix, keys) && i < |Combos(AxesOf(matrix, keys))| && k in matrix
    ensures k in Combos(AxesOf(matrix, keys))[i] && Combos(AxesOf(matrix, keys))[i][k] in matrix[k]
  {
    AxesKeys(matrix, keys);
    assert k in TopoSort.Elements(keys);
    var j :| 0 <= j < |keys| && keys[j] == k;
    assert AxesOf(matrix, keys)[j] == Axis(k, matrix[k]);
    ValueFromList(AxesOf(matrix, keys), i, j);
  }

  /** The combinations of a matrix are its choices. */
  lemma CombosAreChoices(matrix: map<string, seq<string>>, keys: seq<string>, i: nat)
    requires KeyOrder(matrix, keys) && i < |Combos(AxesOf(matrix, keys))|
    ensures Choice(matrix, Combos(AxesOf(matrix, keys))[i])
  {
    var combo := Combos(AxesOf(matrix, keys))[i];
    AxesKeys(matrix, keys);
    ComboKeys(AxesOf(matrix, keys), i);
    forall k | k in combo
      ensures combo[k] in matrix[k]
    {
      ComboValue(matrix, keys, i, k);
    }
  }

  lemma ChoicesAreCombos(matrix: map<string, seq<string>>, keys: seq<string>, combo: Combo) returns (i: nat)
    requires KeyOrder(matrix, keys) && Choice(matrix, combo)
    ensures i < |Combos(AxesOf(matrix, keys))| && Combos(AxesOf(matrix, keys))[i] == combo
  {
    var axes := AxesOf(matrix, keys);
    AxesKeys(matrix, keys);
    forall j | 0 <= j < |axes|
      ensures axes[j].key in combo && combo[axes[j].key] in axes[j].vals
    {
      assert keys[j] in TopoSort.Elements(keys);
    }
    i := EveryChoiceAppears(axes, combo);
  }

  // ----- The IDs of one step -----

  predicate Repeats(matrix: map<string, seq<string>>) {
    exists k :: k in matrix && !TopoSort.NoDuplicates(matrix[k])
  }

  lemma AxesDistinctLists(matrix: map<string, seq<string>>, keys: seq<string>)
    requires KeyOrder(matrix, keys) && !Repeats(matrix)
    ensures forall j :: 0 <= j < |keys| ==> TopoSort.NoDuplicates(AxesOf(matrix, keys)[j].vals)
  {
    forall j | 0 <= j < |keys|
      ensures TopoSort.NoDuplicates(AxesOf(matrix, keys)[j].vals)
    {
      assert keys[j] in TopoSort.Elements(keys);
    }
  }

  lemma LegibleNamesDistinct(s: Step, names: seq<string>)
    requires s.matrix != map[] && Legible(s.matrix, s.matrix) && !Repeats(s.matrix) && InstanceNames(s, names)
    ensures TopoSort.NoDuplicates(names)
  {
    var keys :| NamesOfCombos(s, keys, names);
    var combos := Combos(AxesOf(s.matrix, keys));
    AxesKeys(s.matrix, keys);
    AxesDistinctLists(s.matrix, keys);
    forall i, j | 0 <= i < j < |names|
      ensures names[i] != names[j]
    {
      CombosDistinct(AxesOf(s.matrix, keys), i, j);
      CombosAreChoices(s.matrix, keys, i);
      CombosAreChoices(s.matrix, keys, j);
      if names[i] == names[j] {
        NameDecodes(s.id, s.matrix, combos[i], combos[j], names[i]);
      }
    }
  }

  /** The naming in which every map is iterated in sorted order. */
  function OrderedName(s: Step, combo: Combo, keys: seq<string>): string {
    s.id + "-" + Join(PartsOf(combo, keys), '-')
  }

  function OrderedNames(s: Step, keys: seq<string>): seq<string> {
    var combos := Combos(AxesOf(s.matrix, keys));
    seq(|combos|, j requires 0 <= j < |combos| => OrderedName(s, combos[j], keys))
  }

  lemma OrderedNaming(s: Step, keys: seq<string>)
    requires s.matrix != map[] && KeyOrder(s.matrix, keys)
    ensures NamesOfCombos(s, keys, OrderedNames(s, keys)) && InstanceNames(s, OrderedNames(s, keys))
  {
    var combos := Combos(AxesOf(s.matrix, keys));
    AxesKeys(s.matrix, keys);
    forall j | 0 <= j < |combos|
      ensures IsInstanceName(s.id, combos[j], OrderedNames(s, keys)[j])
    {
      ComboKeys(AxesOf(s.matrix, keys), j);
      assert NamedInOrder(s.id, combos[j], keys, OrderedName(s, combos[j], keys));
    }
    assert NamesOfCombos(s, keys, OrderedNames(s, keys));
  }

  lemma RepeatedCombosOf(matrix: map<string, seq<string>>, keys: seq<string>) returns (a: nat, b: nat)
    requires KeyOrder(matrix, keys) && Repeats(matrix) && NonEmptyLists(matrix)
    ensures a < b < |Combos(AxesOf(matrix, keys))| && Combos(AxesOf(matrix, keys))[a] == Combos(AxesOf(matrix, keys))[b]
  {
    var axes := AxesOf(matrix, keys);
    var k :| k in matrix && !TopoSort.NoDuplicates(matrix[k]);
    assert k in TopoSort.Elements(keys);
    var j :| 0 <= j < |keys| && keys[j] == k;
    var u, v :| 0 <= u < v < |matrix[k]| && matrix[k][u] == matrix[k][v];
    forall l | 0 <= l < |keys|
      ensures axes[l].vals != []
    {
      assert keys[l] in TopoSort.Elements(keys);
    }
    PositiveProduct(axes);
    a, b := RepeatedCombos(axes, j, u, v);
  }

  /** A repeated value gives two instances the same ID in some iteration order of the maps, whatever the keys are. */
  lemma RepeatedValueCollides(s: Step) returns (names: seq<string>)
    requires Repeats(s.matrix) && NonEmptyLists(s.matrix)
    ensures InstanceNames(s, names) && !TopoSort.NoDuplicates(names)
  {
    assert s.matrix != map[];
    var keys := KeyOrderExists(s.matrix);
    OrderedNaming(s, keys);
    names := OrderedNames(s, keys);
    var a, b := RepeatedCombosOf(s.matrix, keys);
    assert names[a] == names[b];
  }

  /** With a single key there is only one order, so a repeated value always collides. */
  lemma SingleKeyAlwaysCollides(s: Step, k: string, names: seq<string>)
    requires s.matrix.Keys == {k} && Repeats(s.matrix) && InstanceNames(s, names)
    ensures !TopoSort.NoDuplicates(names)
  {
    var keys :| NamesOfCombos(s, keys, names);
    assert NonEmptyLists(s.matrix);
    var a, b := RepeatedCombosOf(s.matrix, keys);
    var combo := Combos(AxesOf(s.matrix, keys))[a];
    AxesKeys(s.matrix, keys);
    ComboKeys(AxesOf(s.matrix, keys), a);
    var p :| NamedInOrder(s.id, combo, p, names[a]);
    var q :| NamedInOrder(s.id, combo, q, names[b]);
    OneKey(p, k);
    OneKey(q, k);
  }

  lemma OneKey(keys: seq<string>, k: string)
    requires TopoSort.NoDuplicates(keys) && TopoSort.Elements(keys) == {k}
    ensures keys == [k]
  {
    TopoSort.DistinctCount(keys);
    assert keys[0] in TopoSort.Elements(keys);
  }

  lemma NoNamesWithEmptyList(s: Step, names: seq<string>)
    requires InstanceNames(s, names) && !NonEmptyLists(s.matrix)
    ensures names == []
  {
    var keys :| NamesOfCombos(s, keys, names);
    var axes := AxesOf(s.matrix, keys);
    CombosSize(axes);
    if Product(axes) > 0 {
      ProductPositive(axes);
      forall k | k in s.matrix
        ensures s.matrix[k] != []
      {
        assert k in TopoSort.Elements(keys);
        var j :| 0 <= j < |keys| && keys[j] == k;
        assert |axes[j].vals| > 0;
      }
    }
  }

  ghost predicate DistinctInEveryOrder(s: Step) {
    forall names :: InstanceNames(s, names) ==> TopoSort.NoDuplicates(names)
  }

  /** The instance IDs of a legible step are distinct in every iteration order exactly when no list repeats a value, or
      some list is empty and there are no instances. */
  lemma NamesDistinctIff(s: Step)
    requires s.matrix != map[] && Legible(s.matrix, s.matrix)
    ensures DistinctInEveryOrder(s) <==> !Repeats(s.matrix) || !NonEmptyLists(s.matrix)
  {
    if Repeats(s.matrix) && NonEmptyLists(s.matrix) {
      var names := RepeatedValueCollides(s);
    } else {
      forall names | InstanceNames(s, names)
        ensures TopoSort.NoDuplicates(names)
      {
        if NonEmptyLists(s.matrix) {
          LegibleNamesDistinct(s, names);
        } else {
          NoNamesWithEmptyList(s, names);
        }
      }
    }
  }

  /** Any instance name of a choice is used in some naming of the step. */
  lemma NamingWith(s: Step, combo: Combo, x: string) returns (names: seq<string>)
    requires s.matrix != map[] && Choice(s.matrix, combo) && IsInstanceName(s.id, combo, x)
    ensures InstanceNames(s, names) && x in names
  {
    var keys := KeyOrderExists(s.matrix);
    OrderedNaming(s, keys);
    var i := ChoicesAreCombos(s.matrix, keys, combo);
    names := OrderedNames(s, keys)[i := x];
    assert NamesOfCombos(s, keys, names);
    assert names[i] == x;
  }

  // What is not legible can collide.

  lemma TwoChoicesCollide(s: Step, c: Combo, d: Combo, x: string)
    requires s.matrix != map[] && Choice(s.matrix, c) && Choice(s.matrix, d) && c != d
    requires IsInstanceName(s.id, c, x) && IsInstanceName(s.id, d, x)
    ensures !DistinctInEveryOrder(s)
  {
    var keys := KeyOrderExists(s.matrix);
    var i := ChoicesAreCombos(s.matrix, keys, c);
    var j := ChoicesAreCombos(s.matrix, keys, d);
    SameNameTwice(s, keys, i, j, x);
  }

  lemma SameNameTwice(s: Step, keys: seq<string>, i: nat, j: nat, x: string)
    requires s.matrix != map[] && KeyOrder(s.matrix, keys) && i != j
    requires i < |Combos(AxesOf(s.matrix, keys))| && IsInstanceName(s.id, Combos(AxesOf(s.matrix, keys))[i], x)
    requires j < |Combos(AxesOf(s.matrix, keys))| && IsInstanceName(s.id, Combos(AxesOf(s.matrix, keys))[j], x)
    ensures !DistinctInEveryOrder(s)
  {
    OrderedNaming(s, keys);
    TwiceNamed(s, keys, OrderedNames(s, keys), i, j, x);
  }

  lemma TwiceNamed(s: Step, keys: seq<string>, names: seq<string>, i: nat, j: nat, x: string)
    requires s.matrix != map[] && NamesOfCombos(s, keys, names) && i != j && i < |names| && j < |names|
    requires IsInstanceName(s.id, Combos(AxesOf(s.matrix, keys))[i], x)
    requires IsInstanceName(s.id, Combos(AxesOf(s.matrix, keys))[j], x)
    ensures !DistinctInEveryOrder(s)
  {
    var once := names[i := x];
    NamesStill(s, keys, names, i, x);
    NamesStill(s, keys, once, j, x);
    TwiceRefutes(s, once[j := x], i, j);
  }

  lemma TwiceRefutes(s: Step, names: seq<string>, i: nat, j: nat)
    requires InstanceNames(s, names) && i < |names| && j < |names| && i != j && names[i] == names[j]
    ensures !DistinctInEveryOrder(s)
  {
    TwiceIn(names, i, j);
  }

  lemma TwiceIn(names: seq<string>, i: nat, j: nat)
    requires i < |names| && j < |names| && i != j && names[i] == names[j]
    ensures !TopoSort.NoDuplicates(names)
  {
    assert if i < j then names[i] == names[j] else names[j] == names[i];
  }

  lemma NamesStill(s: Step, keys: seq<string>, names: seq<string>, i: nat, x: string)
    requires s.matrix != map[] && NamesOfCombos(s, keys, names) && i < |names|
    requires IsInstanceName(s.id, Combos(AxesOf(s.matrix, keys))[i], x)
    ensures NamesOfCombos(s, keys, names[i := x]) && InstanceNames(s, names[i := x])
  {
  }

  lemma NameOfTwo(id: string, combo: Combo, k: string, l: string, x: string)
    requires k != l && combo.Keys == {k, l} && x == id + "-" + ((k + "_" + combo[k]) + ("-" + (l + "_" + combo[l])))
    ensures IsInstanceName(id, combo, x)
  {
    var parts := PartsOf(combo, [k, l]);
    assert parts == [k + "_" + combo[k], l + "_" + combo[l]];
    JoinCons(parts);
    assert parts[1..] == [l + "_" + combo[l]];
    assert TopoSort.Elements([k, l]) == {k, l};
    assert NamedInOrder(id, combo, [k, l], x);
  }

  lemma TwoByTwoCollide(s: Step, k: string, a: seq<string>, l: string, b: seq<string>, x: string)
    requires k != l && |a| == |b| == 2 && s.matrix == map[k := a, l := b] && a[0] != a[1] && b[0] != b[1]
    requires IsInstanceName(s.id, map[k := a[0], l := b[0]], x) && IsInstanceName(s.id, map[k := a[1], l := b[1]], x)
    ensures !Repeats(s.matrix) && !DistinctInEveryOrder(s)
  {
    var c, d := map[k := a[0], l := b[0]], map[k := a[1], l := b[1]];
    TwoChoices(s.matrix, k, a, l, b, c, d);
    TwoChoicesCollide(s, c, d, x);
    NoRepeatInTwo(s.matrix, k, a, l, b);
  }

  lemma TwoChoices(m: map<string, seq<string>>, k: string, a: seq<string>, l: string, b: seq<string>, c: Combo, d: Combo)
    requires k != l && |a| == |b| == 2 && m == map[k := a, l := b] && a[0] != a[1]
    requires c == map[k := a[0], l := b[0]] && d == map[k := a[1], l := b[1]]
    ensures m != map[] && Choice(m, c) && Choice(m, d) && c != d
  {
    assert k in m && c[k] != d[k];
  }

  lemma NoRepeatInTwo(m: map<string, seq<string>>, k: string, a: seq<string>, l: string, b: seq<string>)
    requires |a| == |b| == 2 && m == map[k := a, l := b] && a[0] != a[1] && b[0] != b[1]
    ensures !Repeats(m)
  {
    NoRepeatInPair(a);
    NoRepeatInPair(b);
  }

  lemma NoRepeatInPair(a: seq<string>)
    requires |a| == 2 && a[0] != a[1]
    ensures TopoSort.NoDuplicates(a)
  {
  }

  /** A value in which a part for another key seems to begin can be taken for two parts. */
  lemma IllegibleValueCollides(s: Step, k: string, l: string, u: string, w: string, v: string)
    requires k != l && s.matrix == map[k := [u + "-" + l + "_" + w, u], l := [v, w + "-" + l + "_" + v]]
    ensures !Repeats(s.matrix) && !DistinctInEveryOrder(s)
  {
    var a, b := u + "-" + l + "_" + w, w + "-" + l + "_" + v;
    var x := s.id + "-" + ((k + "_" + a) + ("-" + (l + "_" + v)));
    assert |a| > |u| && |b| > |v|;
    SameText(k, l, u, w, v);
    NameOfTwo(s.id, map[k := a, l := v], k, l, x);
    NameOfTwo(s.id, map[k := u, l := b], k, l, x);
    TwoByTwoCollide(s, k, [a, u], l, [v, b], x);
  }

  lemma SameText(k: string, l: string, u: string, w: string, v: string)
    ensures (k + "_" + (u + "-" + l + "_" + w)) + ("-" + (l + "_" + v)) ==
      (k + "_" + u) + ("-" + (l + "_" + (w + "-" + l + "_" + v)))
  {
  }

  /** A key that is another one followed by '_' and more can have its part taken for one of the other key. */
  lemma ExtendedKeyCollides(s: Step, k: string, l: string, e: string, u: string, v: string)
    requires l == k + "_" + e && u != v && s.matrix == map[k := [e + "_" + u, e + "_" + v], l := [v, u]]
    ensures !Repeats(s.matrix) && !DistinctInEveryOrder(s)
  {
    var a, b := e + "_" + u, e + "_" + v;
    var x := s.id + "-" + ((l + "_" + u) + ("-" + (l + "_" + v)));
    assert |l| > |k|;
    SameValue(e, u, v);
    assert k + "_" + a == l + "_" + u && k + "_" + b == l + "_" + v;
    NameOfTwo(s.id, map[k := a, l := v], k, l, x);
    NameOfTwo(s.id, map[k := b, l := u], l, k, x);
    TwoByTwoCollide(s, k, [a, b], l, [v, u], x);
  }

  lemma SameValue(e: string, u: string, v: string)
    requires u != v
    ensures e + "_" + u != e + "_" + v
  {
    assert u == (e + "_" + u)[|e| + 1..] && v == (e + "_" + v)[|e| + 1..];
  }

  /** A step with keys from this set and '-'-free values, none of them repeated. */
  ghost predicate PlainOver(s: Step, keys: set<string>) {
    s.matrix != map[] && s.matrix.Keys <= keys && !Repeats(s.matrix) && forall k :: k in s.matrix ==> Free(s.matrix[k], '-')
  }

  lemma UnsafeKeys(keys: set<string>, k: string, l: string) returns (s: Step)
    requires k in keys && l in keys && KeyExtends(l, k) && '-' !in l
    ensures PlainOver(s, keys) && !DistinctInEveryOrder(s)
  {
    var e := l[|k| + 1..];
    var m := map[k := [e + "_" + "x", e + "_" + "y"], l := ["y", "x"]];
    s := Step("", [], m, None, 0, false, "", "", "");
    assert k in m;
    ExtendedKeyCollides(s, k, l, e, "x", "y");
  }

  /** '-'-free keys are safe exactly when none of them is another one followed by '_' and more. */
  lemma KeysSafeIff(keys: set<string>)
    requires forall k :: k in keys ==> '-' !in k
    ensures (forall s :: PlainOver(s, keys) ==> DistinctInEveryOrder(s)) <==>
      forall k, l :: k in keys && l in keys ==> !KeyExtends(k, l)
  {
    if k, l :| k in keys && l in keys && KeyExtends(l, k) {
      var s := UnsafeKeys(keys, k, l);
    } else {
      forall s | PlainOver(s, keys)
        ensures DistinctInEveryOrder(s)
      {
        DashFreeIsLegible(s.matrix);
        NamesDistinctIff(s);
      }
    }
  }

  // ----- Distinct IDs across a DAG -----

  /** Whatever order the matrix maps are iterated in, no two expanded steps get the same ID. */
  ghost predicate FreshNames(steps: seq<Step>) {
    forall names :: Named(steps, names) ==> UniqueIds(Expanded(steps, names))
  }

  predicate NoRepeats(steps: seq<Step>) {
    forall s :: s in steps ==> !Repeats(s.matrix) || !NonEmptyLists(s.matrix)
  }

  /** No name is given twice. */
  ghost predicate Apart(names: Names) {
    forall i, j, k, m ::
      0 <= i < |names| && 0 <= j < |names[i]| && 0 <= k < |names| && 0 <= m < |names[k]| && names[i][j] == names[k][m] ==>
        i == k && j == m
  }

  lemma {:induction false} ApartUnique(steps: seq<Step>, names: Names)
    requires |names| == |steps| && Apart(names)
    ensures UniqueIds(FirstPass(steps, names))
  {
    if steps != [] {
      var n := |steps| - 1;
      var a, b := FirstPass(steps[..n], names[..n]), Block(steps[n], names[n]);
      ApartUnique(steps[..n], names[..n]);
      forall e, f | e in a && f in b
        ensures e.id != f.id
      {
        var i := InFirstPass(steps[..n], names[..n], e);
        var j :| 0 <= j < |names[i]| && names[i][j] == e.id;
        var m :| 0 <= m < |b| && b[m] == f;
        assert names[n][m] == f.id;
      }
      assert forall m :: 0 <= m < |b| ==> b[m].id == names[n][m];
      BothUnique(a, b);
    }
  }

  lemma BothUnique(a: seq<Step>, b: seq<Step>)
    requires UniqueIds(a) && UniqueIds(b) && forall e, f :: e in a && f in b ==> e.id != f.id
    ensures UniqueIds(a + b)
  {
  }

  lemma {:induction false} SomeNaming(steps: seq<Step>) returns (names: Names)
    ensures Named(steps, names)
  {
    if steps == [] {
      names := [];
    } else {
      var n := |steps| - 1;
      var init := SomeNaming(steps[..n]);
      var last := [steps[n].id];
      if steps[n].matrix != map[] {
        var keys := KeyOrderExists(steps[n].matrix);
        OrderedNaming(steps[n], keys);
        last := OrderedNames(steps[n], keys);
      }
      names := init + [last];
    }
  }

  lemma RepeatSpoils(steps: seq<Step>, i: nat)
    requires i < |steps| && Repeats(steps[i].matrix) && NonEmptyLists(steps[i].matrix)
    ensures !FreshNames(steps)
  {
    var names := SomeNaming(steps);
    var own := RepeatedValueCollides(steps[i]);
    names := names[i := own];
    assert Named(steps, names);
    var a, b :| 0 <= a < b < |own| && own[a] == own[b];
    RepeatedNameSpoils(steps, names, i, a, b);
  }

  lemma RepeatedNameSpoils(steps: seq<Step>, names: seq<seq<string>>, i: nat, a: nat, b: nat)
    requires Named(steps, names) && i < |steps| && a < b < |names[i]| && names[i][a] == names[i][b]
    ensures !UniqueIds(Expanded(steps, names))
  {
    if UniqueIds(Expanded(steps, names)) {
      FirstPassUnique(steps, names);
      NameOnce(steps, names, i, a, i, b);
    }
  }

  /** The ID of t is an instance ID of s for some of its keys, and t has the other keys itself, with a value in common
      for each; a plain step has none, so its ID is an instance ID of s for all keys. */
  ghost predicate Shadows(s: Step, t: Step) {
    exists combo :: ShadowedBy(s, t, combo)
  }

  ghost predicate ShadowedBy(s: Step, t: Step, combo: Combo) {
    && combo != map[] && PartialChoice(s.matrix, combo)
    && IsInstanceName(s.id, combo, t.id)
    && t.matrix.Keys == s.matrix.Keys - combo.Keys
    && forall k :: k in t.matrix ==> exists v :: v in s.matrix[k] && v in t.matrix[k]
  }

  /** The matrix of every step is legible, also beside that of a step whose ID goes on where its own ID ends. */
  predicate LegibleSteps(steps: seq<Step>) {
    forall s, t :: s in steps && t in steps && (s.id == t.id || s.id + "-" <= t.id) ==> Legible(s.matrix, t.matrix)
  }

  ghost predicate NoShadows(steps: seq<Step>) {
    forall s, t :: s in steps && t in steps ==> !Shadows(s, t)
  }

  // Without repetitions and shadows, no name is given twice.

  /** The ID of a plain step, or the instance ID of a choice. */
  ghost predicate NameOf(s: Step, combo: Combo, x: string) {
    if s.matrix == map[] then x == s.id else Choice(s.matrix, combo) && IsInstanceName(s.id, combo, x)
  }

  lemma NameHasChoice(s: Step, names: seq<string>, x: string) returns (combo: Combo)
    requires InstanceNames(s, names) && x in names
    ensures NameOf(s, combo, x)
  {
    combo := map[];
    if s.matrix != map[] {
      var keys :| NamesOfCombos(s, keys, names);
      var j :| 0 <= j < |names| && names[j] == x;
      CombosAreChoices(s.matrix, keys, j);
      combo := Combos(AxesOf(s.matrix, keys))[j];
    }
  }

  lemma NameStarts(s: Step, combo: Combo, x: string)
    requires NameOf(s, combo, x)
    ensures s.id <= x
    ensures s.matrix == map[] ==> x == s.id
    ensures s.matrix != map[] ==> s.id + "-" <= x
  {
    if s.matrix != map[] {
      var order :| NamedInOrder(s.id, combo, order, x);
    }
  }

  /** Of two steps with a name in common the longer ID goes on after the shorter one. */
  lemma LongerExtends(s: Step, c: Combo, t: Step, d: Combo, x: string)
    requires NameOf(s, c, x) && NameOf(t, d, x) && s.id != t.id && |s.id| <= |t.id|
    ensures s.matrix != map[] && s.id + "-" <= t.id
  {
    NameStarts(s, c, x);
    NameStarts(t, d, x);
    assert s.id == x[..|s.id|] && t.id == x[..|t.id|];
    assert |s.id| < |t.id|;
    assert t.id[|s.id|] == x[|s.id|];
    assert s.id + "-" == x[..|s.id| + 1] == t.id[..|s.id| + 1];
  }

  lemma PlainIsShadowed(s: Step, c: Combo, t: Step, x: string)
    requires s.matrix != map[] && NameOf(s, c, x) && t.matrix == map[] && x == t.id
    ensures Shadows(s, t)
  {
    assert ShadowedBy(s, t, c);
  }

  lemma TailOfName(a: string, b: string, x: string, u: string, v: string) returns (inner: string)
    requires a + "-" <= b && x == a + "-" + u && x == b + "-" + v
    ensures b == a + "-" + inner && u == inner + ("-" + v)
  {
    inner := b[|a| + 1..];
    assert b == a + "-" + inner;
    assert u == x[|a| + 1..] && x == a + "-" + (inner + ("-" + v));
  }

  lemma MatrixIsShadowed(s: Step, c: Combo, p: seq<string>, t: Step, d: Combo, q: seq<string>, x: string)
    requires s.matrix != map[] && t.matrix != map[] && Legible(s.matrix, t.matrix) && s.id + "-" <= t.id
    requires Choice(s.matrix, c) && NamedInOrder(s.id, c, p, x)
    requires Choice(t.matrix, d) && NamedInOrder(t.id, d, q, x)
    ensures Shadows(s, t)
  {
    var xs, ys := PartsOf(c, p), PartsOf(d, q);
    var inner := TailOfName(s.id, t.id, x, Join(xs, '-'), Join(ys, '-'));
    NotEmpty(s.matrix, p);
    NotEmpty(t.matrix, q);
    var n := PartsSplit(s.matrix, c, p, t.matrix, d, q, inner);
    ShadowOf(s, c, p, t, d, q, n);
  }

  lemma PartsSplit(m: map<string, seq<string>>, c: Combo, p: seq<string>, n: map<string, seq<string>>, d: Combo,
      q: seq<string>, inner: string) returns (at: nat)
    requires Legible(m, n) && PartialChoice(m, c) && PartialChoice(n, d) && p != [] && q != []
    requires TopoSort.NoDuplicates(p) && TopoSort.Elements(p) == c.Keys && TopoSort.Elements(q) == d.Keys
    requires Join(PartsOf(c, p), '-') == inner + ("-" + Join(PartsOf(d, q), '-'))
    ensures 0 < at <= |p| && p[at..] == q && inner == Join(PartsOf(c, p[..at]), '-')
    ensures forall k :: k in q ==> k in c && k in d && c[k] == d[k]
  {
    PartsHeaded(d, q);
    PartsClean(m, c, p, n, q);
    at := JoinSplits(PartsOf(c, p), inner, PartsOf(d, q), q);
    PartsTake(c, p, at);
    InOrder(p, at, c.Keys);
    ChoicesDecode(m, c, p[at..], n, d, q);
  }

  lemma PartsTake(c: Combo, p: seq<string>, n: nat)
    requires n <= |p|
    ensures PartsOf(c, p)[..n] == PartsOf(c, p[..n]) && PartsOf(c, p)[n..] == PartsOf(c, p[n..])
  {
  }

  lemma InOrder(p: seq<string>, n: nat, keys: set<string>)
    requires TopoSort.NoDuplicates(p) && TopoSort.Elements(p) == keys && n <= |p|
    ensures TopoSort.NoDuplicates(p[..n]) && TopoSort.Elements(p[n..]) <= keys
    ensures TopoSort.Elements(p[n..]) == keys - TopoSort.Elements(p[..n])
  {
    forall k
      ensures k in TopoSort.Elements(p[n..]) <==> k in keys && k !in TopoSort.Elements(p[..n])
    {
      assert k in keys <==> k in p;
      assert p == p[..n] + p[n..];
    }
  }

  lemma ShadowOf(s: Step, c: Combo, p: seq<string>, t: Step, d: Combo, q: seq<string>, n: nat)
    requires Choice(s.matrix, c) && Choice(t.matrix, d) && 0 < n <= |p|
    requires TopoSort.NoDuplicates(p) && TopoSort.Elements(p) == c.Keys && TopoSort.Elements(q) == d.Keys
    requires t.id == s.id + "-" + Join(PartsOf(c, p[..n]), '-')
    requires p[n..] == q && forall k :: k in q ==> k in c && k in d && c[k] == d[k]
    ensures Shadows(s, t)
  {
    var order := p[..n];
    InOrder(p, n, c.Keys);
    assert TopoSort.Elements(order) <= c.Keys;
    var combo := map k | k in TopoSort.Elements(order) :: c[k];
    assert order[0] in combo;
    assert PartsOf(combo, order) == PartsOf(c, order);
    assert NamedInOrder(s.id, combo, order, t.id);
    forall k | k in t.matrix
      ensures exists v :: v in s.matrix[k] && v in t.matrix[k]
    {
      assert k in TopoSort.Elements(q);
      assert c[k] in s.matrix[k] && c[k] in t.matrix[k];
    }
    assert ShadowedBy(s, t, combo);
  }

  lemma ShorterShadows(s: Step, c: Combo, t: Step, d: Combo, x: string)
    requires NameOf(s, c, x) && NameOf(t, d, x) && s.id != t.id && |s.id| <= |t.id|
    requires s.id + "-" <= t.id ==> Legible(s.matrix, t.matrix)
    ensures Shadows(s, t)
  {
    LongerExtends(s, c, t, d, x);
    if t.matrix == map[] {
      PlainIsShadowed(s, c, t, x);
    } else {
      var p :| NamedInOrder(s.id, c, p, x);
      var q :| NamedInOrder(t.id, d, q, x);
      MatrixIsShadowed(s, c, p, t, d, q, x);
    }
  }

  lemma NamesApart(steps: seq<Step>, names: Names)
    requires Named(steps, names) && UniqueIds(steps) && LegibleSteps(steps) && NoRepeats(steps) && NoShadows(steps)
    ensures Apart(names)
  {
    forall i, j, k, m |
      0 <= i < |names| && 0 <= j < |names[i]| && 0 <= k < |names| && 0 <= m < |names[k]| && names[i][j] == names[k][m]
      ensures i == k && j == m
    {
      var s, t := steps[i], steps[k];
      assert InstanceNames(s, names[i]) && InstanceNames(t, names[k]) && s in steps && t in steps;
      var c := NameHasChoice(s, names[i], names[i][j]);
      var d := NameHasChoice(t, names[k], names[k][m]);
      if s.id == t.id {
        if s.matrix != map[] {
          NamesDistinctIff(s);
        }
      } else if |s.id| <= |t.id| {
        ShorterShadows(s, c, t, d, names[i][j]);
        assert false;
      } else {
        ShorterShadows(t, d, s, c, names[i][j]);
        assert false;
      }
    }
  }

  // A shadow spoils the names.

  /** The values in common complete a shadow to an instance ID of both steps. */
  lemma ShadowName(s: Step, t: Step, combo: Combo) returns (c: Combo, d: Combo, x: string)
    requires ShadowedBy(s, t, combo)
    ensures s.matrix != map[] && Choice(s.matrix, c) && IsInstanceName(s.id, c, x)
    ensures NameOf(t, d, x)
  {
    d := SharedChoice(s, t, combo);
    c := combo + d;
    var order :| NamedInOrder(s.id, combo, order, t.id);
    var q := Enumerate(t.matrix.Keys);
    NotEmptyCombo(combo, order);
    x := NameOfBoth(s.id, combo, order, t.id, d, q);
  }

  lemma SharedChoice(s: Step, t: Step, combo: Combo) returns (d: Combo)
    requires ShadowedBy(s, t, combo)
    ensures Choice(t.matrix, d) && Choice(s.matrix, combo + d) && combo.Keys !! d.Keys && s.matrix != map[]
  {
    d := map k | k in t.matrix.Keys :: Shared(s.matrix, t.matrix, k);
    var k :| k in combo;
    assert k in s.matrix;
  }

  lemma NameOfBoth(id: string, combo: Combo, order: seq<string>, other: string, d: Combo, q: seq<string>)
      returns (x: string)
    requires NamedInOrder(id, combo, order, other) && order != [] && combo.Keys !! d.Keys
    requires TopoSort.NoDuplicates(q) && TopoSort.Elements(q) == d.Keys
    ensures IsInstanceName(id, combo + d, x)
    ensures if d == map[] then x == other else IsInstanceName(other, d, x)
  {
    var first, second := PartsOf(combo, order), PartsOf(d, q);
    x := id + "-" + Join(first + second, '-');
    OrderOfBoth(order, q, combo.Keys, d.Keys);
    PartsOfBoth(combo, order, d, q);
    assert (combo + d).Keys == combo.Keys + d.Keys;
    assert NamedInOrder(id, combo + d, order + q, x);
    if d == map[] {
      TopoSort.DistinctCount(q);
      assert first + second == first;
    } else {
      NotEmptyCombo(d, q);
      JoinAppend(first, second);
      Regroup(id, Join(first, '-'), Join(second, '-'));
      assert NamedInOrder(other, d, q, x);
    }
  }

  lemma Regroup(a: string, b: string, c: string)
    ensures a + "-" + (b + ("-" + c)) == (a + "-" + b) + "-" + c
  {
  }

  lemma NotEmptyCombo(combo: Combo, order: seq<string>)
    requires combo != map[] && TopoSort.Elements(order) == combo.Keys
    ensures order != []
  {
    var k :| k in combo;
    assert k in TopoSort.Elements(order);
  }

  ghost function Shared(m: map<string, seq<string>>, n: map<string, seq<string>>, k: string): (v: string)
    requires k in m && k in n && exists v :: v in m[k] && v in n[k]
    ensures v in m[k] && v in n[k]
  {
    var v :| v in m[k] && v in n[k];
    v
  }

  lemma OrderOfBoth(p: seq<string>, q: seq<string>, a: set<string>, b: set<string>)
    requires TopoSort.NoDuplicates(p) && TopoSort.Elements(p) == a
    requires TopoSort.NoDuplicates(q) && TopoSort.Elements(q) == b && a !! b
    ensures TopoSort.NoDuplicates(p + q) && TopoSort.Elements(p + q) == a + b
  {
    assert forall i :: 0 <= i < |p| ==> p[i] in TopoSort.Elements(p);
    assert forall i :: 0 <= i < |q| ==> q[i] in TopoSort.Elements(q);
    forall k
      ensures k in TopoSort.Elements(p + q) <==> k in a + b
    {
      assert k in p + q <==> k in p || k in q;
      assert k in TopoSort.Elements(p) <==> k in p;
      assert k in TopoSort.Elements(q) <==> k in q;
    }
  }

  lemma PartsOfBoth(c: Combo, p: seq<string>, d: Combo, q: seq<string>)
    requires TopoSort.Elements(p) == c.Keys && TopoSort.Elements(q) == d.Keys && c.Keys !! d.Keys
    ensures PartsOf(c + d, p + q) == PartsOf(c, p) + PartsOf(d, q)
  {
    assert forall i :: 0 <= i < |p| ==> p[i] in TopoSort.Elements(p);
    assert forall i :: 0 <= i < |q| ==> q[i] in TopoSort.Elements(q);
  }

  lemma ShadowSpoils(steps: seq<Step>, i: nat, k: nat)
    requires i < |steps| && k < |steps| && Shadows(steps[i], steps[k])
    ensures !FreshNames(steps)
  {
    var s, t := steps[i], steps[k];
    var combo :| ShadowedBy(s, t, combo);
    var c, d, x := ShadowName(s, t, combo);
    ShadowIsOther(s, t, combo);
    var own := NamingWith(s, c, x);
    var other := [t.id];
    if t.matrix != map[] {
      other := NamingWith(t, d, x);
    }
    CommonNameSpoils(steps, i, k, own, other, x);
  }

  lemma NamedStill(steps: seq<Step>, names: Names, i: nat, own: seq<string>)
    requires Named(steps, names) && i < |steps| && InstanceNames(steps[i], own)
    ensures Named(steps, names[i := own])
  {
  }

  lemma GivenTwice(steps: seq<Step>, names: Names, i: nat, k: nat, x: string)
    requires |names| == |steps| && i != k && HasName(names, i, x) && HasName(names, k, x)
    ensures !UniqueIds(Expanded(steps, names))
  {
    if UniqueIds(Expanded(steps, names)) {
      SameOrigin(steps, names, i, k, x);
    }
  }

  lemma CommonNameSpoils(steps: seq<Step>, i: nat, k: nat, own: seq<string>, other: seq<string>, x: string)
    requires i < |steps| && k < |steps| && i != k && x in own && x in other
    requires InstanceNames(steps[i], own) && InstanceNames(steps[k], other)
    ensures !FreshNames(steps)
  {
    var some := SomeNaming(steps);
    var first := some[i := own];
    NamedStill(steps, some, i, own);
    NamedStill(steps, first, k, other);
    GivenTwice(steps, first[k := other], i, k, x);
  }

  lemma ShadowIsOther(s: Step, t: Step, combo: Combo)
    requires ShadowedBy(s, t, combo)
    ensures s.id != t.id && s.id + "-" <= t.id
  {
    var order :| NamedInOrder(s.id, combo, order, t.id);
    assert |t.id| > |s.id|;
  }

  /** Expansion gives distinct IDs in every iteration order exactly when no matrix with instances repeats a value and no
      step's ID is taken by the instances of another step. */
  lemma FreshNamesIff(steps: seq<Step>)
    requires UniqueIds(steps) && LegibleSteps(steps)
    ensures FreshNames(steps) <==> NoRepeats(steps) && NoShadows(steps)
  {
    if !NoRepeats(steps) {
      var s :| s in steps && Repeats(s.matrix) && NonEmptyLists(s.matrix);
      var i :| 0 <= i < |steps| && steps[i] == s;
      RepeatSpoils(steps, i);
    } else if !NoShadows(steps) {
      var s, t :| s in steps && t in steps && Shadows(s, t);
      var i :| 0 <= i < |steps| && steps[i] == s;
      var k :| 0 <= k < |steps| && steps[k] == t;
      ShadowSpoils(steps, i, k);
    } else {
      forall names | Named(steps, names)
        ensures UniqueIds(Expanded(steps, names))
      {
        NamesApart(steps, names);
        ApartUnique(steps, names);
        SameIdsRewired(steps, names);
      }
    }
  }

  lemma SameIdsRewired(steps: seq<Step>, names: Names)
    requires |names| == |steps| && UniqueIds(FirstPass(steps, names))
    ensures UniqueIds(Expanded(steps, names))
  {
    assert forall k :: 0 <= k < |FirstPass(steps, names)| ==> Expanded(steps, names)[k].id == FirstPass(steps, names)[k].id;
  }

  /** No step's ID goes on after the ID of a matrix step with a '-'. */
  predicate NoIdExtends(steps: seq<Step>) {
    forall s, t :: s in steps && t in steps && s.matrix != map[] ==> !(s.id + "-" <= t.id)
  }

  /** A simpler check that is enough: then legible matrices without repeated values are all it takes. */
  lemma FreshWithoutExtension(steps: seq<Step>)
    requires UniqueIds(steps) && NoIdExtends(steps) && forall s :: s in steps ==> Legible(s.matrix, s.matrix)
    ensures LegibleSteps(steps) && NoShadows(steps)
    ensures FreshNames(steps) <==> NoRepeats(steps)
  {
    forall s, t | s in steps && t in steps && (s.id == t.id || s.id + "-" <= t.id)
      ensures Legible(s.matrix, t.matrix)
    {
      if s.id == t.id {
        assert s == t;
      }
    }
    forall s, t | s in steps && t in steps
      ensures !Shadows(s, t)
    {
      if combo :| ShadowedBy(s, t, combo) {
        ShadowIsOther(s, t, combo);
      }
    }
    FreshNamesIff(steps);
  }

  /** A plain step whose ID is the one an instance of a step with a single key gets: nothing need be repeated, and
      every iteration order gives two steps the same ID. */
  lemma TakenIdCollides(steps: seq<Step>, i: nat, k: nat, key: string, v: string, names: Names)
    requires i < |steps| && k < |steps| && steps[i].matrix.Keys == {key} && v in steps[i].matrix[key]
    requires steps[k].matrix == map[] && steps[k].id == steps[i].id + "-" + (key + "_" + v) && Named(steps, names)
    ensures Shadows(steps[i], steps[k]) && !UniqueIds(Expanded(steps, names))
  {
    var s, t, combo := steps[i], steps[k], map[key := v];
    SingleName(s, key, combo, t.id);
    assert ShadowedBy(s, t, combo);
    assert InstanceNames(s, names[i]) && InstanceNames(t, names[k]);
    var keys :| NamesOfCombos(s, keys, names[i]);
    var j := ChoicesAreCombos(s.matrix, keys, combo);
    var order :| NamedInOrder(s.id, combo, order, names[i][j]);
    OneKey(order, key);
    assert names[i][j] == t.id;
    assert HasName(names, i, t.id) && HasName(names, k, t.id);
    ShadowIsOther(s, t, combo);
    GivenTwice(steps, names, i, k, t.id);
  }

  lemma SingleName(s: Step, key: string, combo: Combo, x: string)
    requires combo.Keys == {key} && x == s.id + "-" + (key + "_" + combo[key])
    ensures IsInstanceName(s.id, combo, x)
    ensures PartsOf(combo, [key]) == [key + "_" + combo[key]]
  {
    assert TopoSort.Elements([key]) == {key};
    assert NamedInOrder(s.id, combo, [key], x);
  }
}
