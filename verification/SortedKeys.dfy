/** Iterating over a map: in any order, or over its sorted keys. */
module SortedKeys {
  import Sorting
  import TopoSort

  method KeysInAnyOrder<V>(m: map<string, V>) returns (keys: seq<string>)
    ensures TopoSort.NoDuplicates(keys) && TopoSort.Elements(keys) == m.Keys
  {
    keys := [];
    var left := m.Keys;
    while left != {}
      invariant left <= m.Keys && TopoSort.NoDuplicates(keys) && TopoSort.Elements(keys) == m.Keys - left
      decreases |left|
    {
      var k :| k in left;
      assert k !in TopoSort.Elements(keys);
      assert TopoSort.Elements(keys + [k]) == TopoSort.Elements(keys) + {k};
      keys := keys + [k];
      left := left - {k};
    }
  }

  /** The keys of m, sorted. */
  ghost predicate KeyOrder<V>(m: map<string, V>, keys: seq<string>) {
    TopoSort.NoDuplicates(keys) && TopoSort.Elements(keys) == m.Keys && Sorting.Sorted(keys)
  }

  lemma {:induction false} CountOfDistinct(q: seq<string>, x: string)
    requires TopoSort.NoDuplicates(q)
    ensures multiset(q)[x] == if x in q then 1 else 0
  {
    if q != [] {
      CountOfDistinct(q[1..], x);
      assert q == [q[0]] + q[1..];
    }
  }

  /** Sorting makes the key order independent of the map's iteration order. */
  lemma KeyOrderUnique<V>(m: map<string, V>, a: seq<string>, b: seq<string>)
    requires KeyOrder(m, a) && KeyOrder(m, b)
    ensures a == b
  {
    forall x ensures multiset(a)[x] == multiset(b)[x] {
      CountOfDistinct(a, x);
      CountOfDistinct(b, x);
      assert x in a <==> x in TopoSort.Elements(a);
      assert x in b <==> x in TopoSort.Elements(b);
    }
    assert multiset(a) == multiset(b);
    Sorting.SortedUnique(a, b);
  }

  lemma SortKeepsDistinct(q: seq<string>)
    requires TopoSort.NoDuplicates(q)
    ensures TopoSort.NoDuplicates(Sorting.Sort(q)) && TopoSort.Elements(Sorting.Sort(q)) == TopoSort.Elements(q)
  {
    var r := Sorting.Sort(q);
    forall x ensures x in r <==> x in q {
      assert x in r <==> x in multiset(r);
      assert x in q <==> x in multiset(q);
    }
    forall i, j | 0 <= i < j < |r| ensures r[i] != r[j] {
      CountOfDistinct(q, r[i]);
      if r[i] == r[j] {
        TwiceCounts(r, i, j);
      }
    }
  }

  lemma TwiceCounts(r: seq<string>, i: nat, j: nat)
    requires i < j < |r| && r[i] == r[j]
    ensures multiset(r)[r[i]] >= 2
  {
    assert r == r[..i] + [r[i]] + r[i + 1..j] + [r[j]] + r[j + 1..];
  }

  lemma {:induction false} Enumerate(s: set<string>) returns (q: seq<string>)
    ensures TopoSort.NoDuplicates(q) && TopoSort.Elements(q) == s
    decreases |s|
  {
    if s == {} {
      q := [];
    } else {
      var x :| x in s;
      var rest := Enumerate(s - {x});
      assert x !in TopoSort.Elements(rest);
      q := rest + [x];
      assert TopoSort.Elements(q) == TopoSort.Elements(rest) + {x};
    }
  }

  lemma KeyOrderExists<V>(m: map<string, V>) returns (keys: seq<string>)
    ensures KeyOrder(m, keys)
  {
    var q := Enumerate(m.Keys);
    SortKeepsDistinct(q);
    Sorting.SortSorts(q);
    keys := Sorting.Sort(q);
  }

  method KeysSorted<V>(m: map<string, V>) returns (keys: seq<string>)
    ensures KeyOrder(m, keys)
  {
    keys := KeysInAnyOrder(m);
    SortKeepsDistinct(keys);
    Sorting.SortSorts(keys);
    keys := Sorting.Sort(keys);
  }
}
