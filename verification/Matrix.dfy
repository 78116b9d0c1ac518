/** Expansion of matrix steps (dag/matrix.go). */
module Matrix {
  import opened SortedKeys
  import TopoSort

  // ----- matrixCombinations -----

  type Combo = map<string, string>

  /** One matrix key with its value list. */
  datatype Axis = Axis(key: string, vals: seq<string>)

  function Keys(axes: seq<Axis>): set<string> {
    set a | a in axes :: a.key
  }

  predicate DistinctKeys(axes: seq<Axis>) {
    forall i, j :: 0 <= i < j < |axes| ==> axes[i].key != axes[j].key
  }

  function Product(axes: seq<Axis>): nat {
    if axes == [] then 1 else Product(axes[..|axes| - 1]) * |axes[|axes| - 1].vals|
  }

  function Row(combo: Combo, axis: Axis): seq<Combo> {
    seq(|axis.vals|, v requires 0 <= v < |axis.vals| => combo[axis.key := axis.vals[v]])
  }

  /** Every combination with every value of the axis added, values varying fastest. */
  function Extend(combos: seq<Combo>, axis: Axis): seq<Combo> {
    if combos == [] then [] else Extend(combos[..|combos| - 1], axis) + Row(combos[|combos| - 1], axis)
  }

  function Combos(axes: seq<Axis>): seq<Combo> {
    if axes == [] then [map[]] else Extend(Combos(axes[..|axes| - 1]), axes[|axes| - 1])
  }

  lemma MulStep(a: int, b: int, n: nat)
    requires a < b
    ensures a * n + n <= b * n
  {
    assert b * n == (a + 1) * n + (b - a - 1) * n;
  }

  lemma DivModOf(q: nat, n: nat, v: nat)
    requires v < n
    ensures (q * n + v) / n == q && (q * n + v) % n == v
  {
    var i := q * n + v;
    assert i == (i / n) * n + i % n;
    if q < i / n {
      MulStep(q, i / n, n);
    } else if i / n < q {
      MulStep(i / n, q, n);
    }
  }

  lemma {:induction false} ExtendSize(combos: seq<Combo>, axis: Axis)
    ensures |Extend(combos, axis)| == |combos| * |axis.vals|
  {
    if combos != [] {
      ExtendSize(combos[..|combos| - 1], axis);
      assert |combos| * |axis.vals| == (|combos| - 1) * |axis.vals| + |axis.vals|;
    }
  }

  lemma {:induction false} ExtendEntry(combos: seq<Combo>, axis: Axis, q: nat, v: nat)
    requires q < |combos| && v < |axis.vals|
    ensures q * |axis.vals| + v < |Extend(combos, axis)|
    ensures Extend(combos, axis)[q * |axis.vals| + v] == combos[q][axis.key := axis.vals[v]]
  {
    var init := combos[..|combos| - 1];
    ExtendSize(init, axis);
    ExtendSize(combos, axis);
    if q < |combos| - 1 {
      ExtendEntry(init, axis, q, v);
    }
  }

  /** As many combinations as the product of the list lengths, empty lists included. */
  lemma {:induction false} CombosSize(axes: seq<Axis>)
    ensures |Combos(axes)| == Product(axes)
  {
    if axes != [] {
      CombosSize(axes[..|axes| - 1]);
      ExtendSize(Combos(axes[..|axes| - 1]), axes[|axes| - 1]);
    }
  }

  lemma DivDiv(i: nat, n: nat, w: nat)
    requires n > 0 && w > 0
    ensures w * n > 0 && (i / n) / w == i / (w * n)
  {
    var q, r := i / n, i % n;
    var a, b := q / w, q % w;
    assert q == a * w + b;
    assert i == a * (w * n) + (b * n + r) by {
      assert i == q * n + r;
      assert (a * w + b) * n == a * (w * n) + b * n;
    }
    MulStep(b, w, n);
    DivModOf(a, w * n, b * n + r);
  }

  lemma QuotientFits(i: nat, c: nat, n: nat)
    requires i < c * n
    ensures n > 0 && i / n < c && i == (i / n) * n + i % n
  {
    assert n > 0 by {
      assert c * 0 == 0;
    }
    assert i == (i / n) * n + i % n;
    if c < i / n {
      MulStep(c, i / n, n);
    }
  }

  lemma PositiveFactors(x: nat, y: nat)
    requires x * y > 0
    ensures x > 0 && y > 0
  {
    assert x == 0 ==> x * y == 0;
  }

  lemma {:induction false} ProductPositive(axes: seq<Axis>)
    requires Product(axes) > 0
    ensures forall j :: 0 <= j < |axes| ==> |axes[j].vals| > 0
    ensures forall j :: 0 <= j <= |axes| ==> Product(axes[j..]) > 0
  {
    if axes != [] {
      var init, last := axes[..|axes| - 1], axes[|axes| - 1];
      PositiveFactors(Product(init), |last.vals|);
      ProductPositive(init);
      forall j | 0 <= j <= |axes| ensures Product(axes[j..]) > 0 {
        if j < |axes| {
          assert axes[j..][..|axes[j..]| - 1] == init[j..];
          assert axes[j..][|axes[j..]| - 1] == last;
        }
      }
    }
  }

  lemma ComboAt(axes: seq<Axis>, q: nat, v: nat)
    requires axes != [] && q < |Combos(axes[..|axes| - 1])| && v < |axes[|axes| - 1].vals|
    ensures var last := axes[|axes| - 1];
      && q * |last.vals| + v < |Combos(axes)|
      && Combos(axes)[q * |last.vals| + v] == Combos(axes[..|axes| - 1])[q][last.key := last.vals[v]]
  {
    ExtendEntry(Combos(axes[..|axes| - 1]), axes[|axes| - 1], q, v);
  }

  /** Entry i has value v of the last axis added to entry q of the combinations of the others. */
  ghost predicate Decomposes(axes: seq<Axis>, i: nat, q: int, v: int)
    requires axes != [] && i < |Combos(axes)|
  {
    var init, last := axes[..|axes| - 1], axes[|axes| - 1];
    && 0 <= q < |Combos(init)|
    && 0 <= v < |last.vals|
    && Combos(axes)[i] == Combos(init)[q][last.key := last.vals[v]]
  }

  lemma ComboBound(axes: seq<Axis>)
    requires axes != []
    ensures |Combos(axes)| == |Combos(axes[..|axes| - 1])| * |axes[|axes| - 1].vals|
  {
    ExtendSize(Combos(axes[..|axes| - 1]), axes[|axes| - 1]);
  }

  lemma ComboStepAt(axes: seq<Axis>, i: nat, q: nat, v: nat)
    requires axes != [] && i < |Combos(axes)| && i == q * |axes[|axes| - 1].vals| + v
    requires q < |Combos(axes[..|axes| - 1])| && v < |axes[|axes| - 1].vals|
    ensures Decomposes(axes, i, q, v)
  {
    ComboAt(axes, q, v);
  }

  lemma DivMod(i: nat, c: nat, n: nat) returns (q: nat, v: nat)
    requires i < c * n
    ensures n > 0 && q == i / n && v == i % n && q < c && v < n && i == q * n + v
  {
    QuotientFits(i, c, n);
    q, v := i / n, i % n;
  }

  lemma ComboStep(axes: seq<Axis>, i: nat)
    requires axes != [] && i < |Combos(axes)|
    ensures |axes[|axes| - 1].vals| > 0
    ensures Decomposes(axes, i, i / |axes[|axes| - 1].vals|, i % |axes[|axes| - 1].vals|)
  {
    ComboBound(axes);
    var q, v := DivMod(i, |Combos(axes[..|axes| - 1])|, |axes[|axes| - 1].vals|);
    ComboStepAt(axes, i, q, v);
  }

  lemma {:induction false} ComboKeys(axes: seq<Axis>, i: nat)
    requires i < |Combos(axes)|
    ensures Combos(axes)[i].Keys == Keys(axes)
  {
    if axes != [] {
      var init, last := axes[..|axes| - 1], axes[|axes| - 1];
      ComboStep(axes, i);
      ComboKeys(init, i / |last.vals|);
      KeysSplit(axes);
    }
  }

  lemma KeysSplit(axes: seq<Axis>)
    requires axes != []
    ensures Keys(axes) == Keys(axes[..|axes| - 1]) + {axes[|axes| - 1].key}
    ensures DistinctKeys(axes) ==> axes[|axes| - 1].key !in Keys(axes[..|axes| - 1])
  {
    assert axes == axes[..|axes| - 1] + [axes[|axes| - 1]];
  }

  /** The digit of axis j in the mixed-radix number i, the last axis being the lowest place. */
  function Digit(axes: seq<Axis>, i: nat, j: nat): int
    requires j < |axes| && Product(axes[j + 1..]) > 0 && |axes[j].vals| > 0
  {
    (i / Product(axes[j + 1..])) % |axes[j].vals|
  }

  lemma DigitStep(axes: seq<Axis>, i: nat, j: nat)
    requires j < |axes| - 1 && Product(axes) > 0 && Product(axes[..|axes| - 1]) > 0
    ensures |axes[|axes| - 1].vals| > 0 && |axes[j].vals| > 0
    ensures Product(axes[j + 1..]) > 0 && Product(axes[..|axes| - 1][j + 1..]) > 0
    ensures Digit(axes, i, j) == Digit(axes[..|axes| - 1], i / |axes[|axes| - 1].vals|, j)
  {
    ProductPositive(axes);
    ProductPositive(axes[..|axes| - 1]);
    var tail := axes[j + 1..];
    assert tail[..|tail| - 1] == axes[..|axes| - 1][j + 1..] && tail[|tail| - 1] == axes[|axes| - 1];
    DivDiv(i, |axes[|axes| - 1].vals|, Product(axes[..|axes| - 1][j + 1..]));
  }

  /** Entry i holds, for each key, the value its mixed-radix digit selects; the last key varies fastest. */
  lemma {:induction false} MixedRadix(axes: seq<Axis>, i: nat, j: nat)
    requires DistinctKeys(axes) && i < |Combos(axes)| && j < |axes|
    ensures |axes[j].vals| > 0 && Product(axes[j + 1..]) > 0
    ensures axes[j].key in Combos(axes)[i]
    ensures Combos(axes)[i][axes[j].key] == axes[j].vals[Digit(axes, i, j)]
  {
    var init, last := axes[..|axes| - 1], axes[|axes| - 1];
    ComboStep(axes, i);
    CombosSize(axes);
    CombosSize(init);
    ProductPositive(axes);
    if j == |axes| - 1 {
      assert axes[j + 1..] == [];
    } else {
      assert init[j] == axes[j];
      MixedRadix(init, i / |last.vals|, j);
      DigitStep(axes, i, j);
    }
  }

  lemma ValueFromList(axes: seq<Axis>, i: nat, j: nat)
    requires DistinctKeys(axes) && i < |Combos(axes)| && j < |axes|
    ensures axes[j].key in Combos(axes)[i] && Combos(axes)[i][axes[j].key] in axes[j].vals
  {
    MixedRadix(axes, i, j);
  }

  ghost predicate IsChoice(axes: seq<Axis>, choice: Combo) {
    && choice.Keys == Keys(axes)
    && (forall j :: 0 <= j < |axes| ==> axes[j].key in choice && choice[axes[j].key] in axes[j].vals)
  }

  lemma RestIsChoice(axes: seq<Axis>, choice: Combo)
    requires axes != [] && DistinctKeys(axes) && IsChoice(axes, choice)
    ensures IsChoice(axes[..|axes| - 1], choice - {axes[|axes| - 1].key})
    ensures axes[|axes| - 1].key in choice && choice[axes[|axes| - 1].key] in axes[|axes| - 1].vals
  {
    KeysSplit(axes);
  }

  /** Every way to choose one value per key appears. */
  lemma {:induction false} EveryChoiceAppears(axes: seq<Axis>, choice: Combo) returns (i: nat)
    requires DistinctKeys(axes) && IsChoice(axes, choice)
    ensures i < |Combos(axes)| && Combos(axes)[i] == choice
  {
    if axes == [] {
      assert choice.Keys == {};
      i := 0;
    } else {
      var last := axes[|axes| - 1];
      RestIsChoice(axes, choice);
      var q := EveryChoiceAppears(axes[..|axes| - 1], choice - {last.key});
      var v: nat :| v < |last.vals| && last.vals[v] == choice[last.key];
      i := ChoiceAt(axes, choice, q, v);
    }
  }

  lemma ChoiceAt(axes: seq<Axis>, choice: Combo, q: nat, v: nat) returns (i: nat)
    requires axes != [] && q < |Combos(axes[..|axes| - 1])| && v < |axes[|axes| - 1].vals|
    requires axes[|axes| - 1].key in choice && axes[|axes| - 1].vals[v] == choice[axes[|axes| - 1].key]
    requires Combos(axes[..|axes| - 1])[q] == choice - {axes[|axes| - 1].key}
    ensures i < |Combos(axes)| && Combos(axes)[i] == choice
  {
    i := q * |axes[|axes| - 1].vals| + v;
    ComboAt(axes, q, v);
    Restored(choice, axes[|axes| - 1].key);
  }

  lemma Restored(choice: Combo, key: string)
    requires key in choice
    ensures (choice - {key})[key := choice[key]] == choice
  {
  }

  /** Lists without repeated values give pairwise different combinations. */
  lemma {:induction false} CombosDistinct(axes: seq<Axis>, i: nat, j: nat)
    requires DistinctKeys(axes) && forall k :: 0 <= k < |axes| ==> TopoSort.NoDuplicates(axes[k].vals)
    requires i < j < |Combos(axes)|
    ensures Combos(axes)[i] != Combos(axes)[j]
  {
    if axes != [] {
      var init, last := axes[..|axes| - 1], axes[|axes| - 1];
      var n := |last.vals|;
      ComboStep(axes, i);
      ComboStep(axes, j);
      if i / n == j / n {
        SameQuotient(i, j, n);
      } else {
        DivMonotone(i, j, n);
        CombosDistinct(init, i / n, j / n);
      }
      ComboKeys(init, i / n);
      ComboKeys(init, j / n);
      KeysSplit(axes);
      UpdatesDiffer(Combos(init)[i / n], Combos(init)[j / n], last.key, last.vals, i % n, j % n);
    }
  }

  lemma Stretched(axes: seq<Axis>, p: nat, q: nat, a: nat, b: nat)
    requires axes != [] && p < q < |Combos(axes[..|axes| - 1])| && |axes[|axes| - 1].vals| > 0
    requires Combos(axes[..|axes| - 1])[p] == Combos(axes[..|axes| - 1])[q]
    requires a == p * |axes[|axes| - 1].vals| && b == q * |axes[|axes| - 1].vals|
    ensures a < b < |Combos(axes)| && Combos(axes)[a] == Combos(axes)[b]
  {
    ComboAt(axes, p, 0);
    ComboAt(axes, q, 0);
    MulStep(p, q, |axes[|axes| - 1].vals|);
  }

  /** A repeated value makes two combinations equal, unless an empty list leaves no combinations at all. */
  lemma {:induction false} RepeatedCombos(axes: seq<Axis>, j: nat, u: nat, v: nat) returns (a: nat, b: nat)
    requires j < |axes| && u < v < |axes[j].vals| && axes[j].vals[u] == axes[j].vals[v] && Product(axes) > 0
    ensures a < b < |Combos(axes)| && Combos(axes)[a] == Combos(axes)[b]
  {
    var init, last := axes[..|axes| - 1], axes[|axes| - 1];
    PositiveFactors(Product(init), |last.vals|);
    if j == |axes| - 1 {
      CombosSize(init);
      ComboAt(axes, 0, u);
      ComboAt(axes, 0, v);
      a, b := u, v;
    } else {
      var p, q := RepeatedCombos(init, j, u, v);
      a, b := p * |last.vals|, q * |last.vals|;
      Stretched(axes, p, q, a, b);
    }
  }

  lemma DivMonotone(i: nat, j: nat, n: nat)
    requires n > 0 && i <= j
    ensures i / n <= j / n
  {
    assert i == (i / n) * n + i % n && j == (j / n) * n + j % n;
    if j / n < i / n {
      MulStep(j / n, i / n, n);
    }
  }

  lemma SameQuotient(i: nat, j: nat, n: nat)
    requires n > 0 && i < j && i / n == j / n
    ensures i % n < j % n
  {
    assert i == (i / n) * n + i % n && j == (j / n) * n + j % n;
  }

  lemma UpdatesDiffer(x: Combo, y: Combo, key: string, vals: seq<string>, v: nat, w: nat)
    requires key !in x && key !in y && TopoSort.NoDuplicates(vals) && v < |vals| && w < |vals|
    requires x != y || v != w
    ensures x[key := vals[v]] != y[key := vals[w]]
  {
    if v != w {
      assert x[key := vals[v]][key] != y[key := vals[w]][key];
    } else {
      assert x[key := vals[v]] - {key} == x && y[key := vals[w]] - {key} == y;
    }
  }

  function AxisOf(matrix: map<string, seq<string>>, key: string): Axis {
    Axis(key, if key in matrix then matrix[key] else [])
  }

  function AxesOf(matrix: map<string, seq<string>>, keys: seq<string>): seq<Axis> {
    seq(|keys|, j requires 0 <= j < |keys| => AxisOf(matrix, keys[j]))
  }

  /** All combinations with one more key. */
  method ExtendAll(combos: seq<Combo>, axis: Axis) returns (newCombos: seq<Combo>)
    ensures newCombos == Extend(combos, axis)
  {
    newCombos := [];
    for c := 0 to |combos|
      invariant newCombos == Extend(combos[..c], axis)
    {
      ghost var done := newCombos;
      for v := 0 to |axis.vals|
        invariant newCombos == done + Row(combos[c], axis)[..v]
      {
        newCombos := newCombos + [combos[c][axis.key := axis.vals[v]]];
      }
      assert combos[..c + 1][..c] == combos[..c];
      assert Row(combos[c], axis)[..|axis.vals|] == Row(combos[c], axis);
    }
    assert combos[..|combos|] == combos;
  }

  /** The combinations over the sorted keys. */
  ghost predicate CombosOver(matrix: map<string, seq<string>>, keys: seq<string>, combos: seq<Combo>) {
    KeyOrder(matrix, keys) && combos == Combos(AxesOf(matrix, keys))
  }

  method MatrixCombinations(matrix: map<string, seq<string>>) returns (combos: seq<Combo>)
    ensures exists keys :: CombosOver(matrix, keys, combos)
  {
    var order := KeysSorted(matrix);
    ghost var axes := AxesOf(matrix, order);
    combos := [map[]];
    for k := 0 to |order|
      invariant combos == Combos(axes[..k])
    {
      assert axes[..k + 1][..k] == axes[..k];
      combos := ExtendAll(combos, AxisOf(matrix, order[k]));
    }
    assert axes[..|order|] == axes;
    assert CombosOver(matrix, order, combos);
  }

  lemma AxesKeys(matrix: map<string, seq<string>>, keys: seq<string>)
    requires KeyOrder(matrix, keys)
    ensures DistinctKeys(AxesOf(matrix, keys)) && Keys(AxesOf(matrix, keys)) == matrix.Keys
  {
    var axes := AxesOf(matrix, keys);
    forall k ensures k in Keys(axes) <==> k in TopoSort.Elements(keys) {
      if k in keys {
        var j :| 0 <= j < |keys| && keys[j] == k;
        assert axes[j].key == k && axes[j] in axes;
      }
    }
  }
}
