/** The line diff of state/diff_util.go: an LCS table filled bottom-up, an edit script read back
    from it, the script reversed in place, and the single hunk printed from the script. */
module Diff {
  import opened Text

  datatype Kind = Same | Removed | Added

  datatype DiffOp = DiffOp(kind: Kind, text: string)

  // ----- What an edit script means -----

  /** The old text: what is left when the added lines are dropped. */
  function OldSide(ops: seq<DiffOp>): seq<string> {
    if ops == [] then [] else (if ops[0].kind.Added? then [] else [ops[0].text]) + OldSide(ops[1..])
  }

  /** The new text: what is left when the removed lines are dropped. */
  function NewSide(ops: seq<DiffOp>): seq<string> {
    if ops == [] then [] else (if ops[0].kind.Removed? then [] else [ops[0].text]) + NewSide(ops[1..])
  }

  /** The lines both texts share. */
  function Kept(ops: seq<DiffOp>): seq<string> {
    if ops == [] then [] else (if ops[0].kind.Same? then [ops[0].text] else []) + Kept(ops[1..])
  }

  /** Insertions plus deletions. */
  function Changes(ops: seq<DiffOp>): nat {
    if ops == [] then 0 else (if ops[0].kind.Same? then 0 else 1) + Changes(ops[1..])
  }

  ghost predicate IsScript(ops: seq<DiffOp>, a: seq<string>, b: seq<string>) {
    OldSide(ops) == a && NewSide(ops) == b
  }

  // ----- Common subsequences, independently of any table -----

  /** c can be obtained from s by deleting elements. */
  predicate Subsequence(c: seq<string>, s: seq<string>) {
    if c == [] then true
    else if s == [] then false
    else (c[0] == s[0] && Subsequence(c[1..], s[1..])) || Subsequence(c, s[1..])
  }

  predicate CommonSubsequence(c: seq<string>, a: seq<string>, b: seq<string>) {
    Subsequence(c, a) && Subsequence(c, b)
  }

  /** The length of a longest common subsequence, by the recurrence on the last lines. */
  function Lcs(a: seq<string>, b: seq<string>): nat
    decreases |a| + |b|
  {
    if a == [] || b == [] then 0
    else if a[|a| - 1] == b[|b| - 1] then Lcs(a[..|a| - 1], b[..|b| - 1]) + 1
    else
      var dropA, dropB := Lcs(a[..|a| - 1], b), Lcs(a, b[..|b| - 1]);
      if dropA >= dropB then dropA else dropB
  }

  /** Subsequence may equally be read from the last element, which is how the table reads it. */
  lemma {:induction false} SubsequenceSnoc(c: seq<string>, s: seq<string>)
    requires c != [] && s != []
    ensures Subsequence(c, s) <==>
      (c[|c| - 1] == s[|s| - 1] && Subsequence(c[..|c| - 1], s[..|s| - 1])) || Subsequence(c, s[..|s| - 1])
  {
    if |s| == 1 {
      if |c| > 1 {
        assert !Subsequence(c[1..], []);
      }
    } else {
      var c', s' := c[..|c| - 1], s[..|s| - 1];
      assert s[1..][..|s| - 2] == s'[1..];
      SubsequenceSnoc(c, s[1..]);
      if |c| > 1 {
        assert c[1..][..|c| - 2] == c'[1..];
        SubsequenceSnoc(c[1..], s[1..]);
      }
      if |c| == 1 {
        assert c' == [] && c[1..] == [];
      }
    }
  }

  /** No common subsequence is longer than Lcs. */
  lemma {:induction false} LcsIsUpperBound(c: seq<string>, a: seq<string>, b: seq<string>)
    requires CommonSubsequence(c, a, b)
    ensures |c| <= Lcs(a, b)
    decreases |a| + |b|
  {
    if c != [] {
      SubsequenceSnoc(c, a);
      SubsequenceSnoc(c, b);
      var c', a', b' := c[..|c| - 1], a[..|a| - 1], b[..|b| - 1];
      if a[|a| - 1] == b[|b| - 1] {
        SubsequenceInit(c, a);
        SubsequenceInit(c, b);
        LcsIsUpperBound(c', a', b');
      } else if Subsequence(c, a') {
        LcsIsUpperBound(c, a', b);
      } else {
        LcsIsUpperBound(c, a, b');
      }
    }
  }

  lemma {:induction false} SubsequenceInit(c: seq<string>, s: seq<string>)
    requires c != [] && Subsequence(c, s)
    ensures Subsequence(c[..|c| - 1], s[..|s| - 1])
  {
    SubsequenceSnoc(c, s);
    var c', s' := c[..|c| - 1], s[..|s| - 1];
    if !Subsequence(c', s') {
      SubsequenceInit(c, s');
      if c' != [] {
        SubsequenceSnoc(c', s');
      }
    }
  }

  /** Some common subsequence has length Lcs. */
  lemma {:induction false} LcsIsAttained(a: seq<string>, b: seq<string>) returns (c: seq<string>)
    ensures CommonSubsequence(c, a, b) && |c| == Lcs(a, b)
    decreases |a| + |b|
  {
    if a == [] || b == [] {
      c := [];
    } else {
      var a', b' := a[..|a| - 1], b[..|b| - 1];
      if a[|a| - 1] == b[|b| - 1] {
        var c' := LcsIsAttained(a', b');
        c := c' + [a[|a| - 1]];
        assert c[..|c| - 1] == c';
      } else if Lcs(a', b) >= Lcs(a, b') {
        c := LcsIsAttained(a', b);
      } else {
        c := LcsIsAttained(a, b');
      }
      if c != [] {
        SubsequenceSnoc(c, a);
        SubsequenceSnoc(c, b);
      }
    }
  }

  lemma SubsequencePrepend(x: string, c: seq<string>, s: seq<string>)
    requires Subsequence(c, s)
    ensures Subsequence(c, [x] + s) && Subsequence([x] + c, [x] + s)
    ensures [] + s == s && [] + c == c
  {
    assert ([x] + s)[1..] == s && ([x] + c)[1..] == c;
  }

  // ----- Scripts and common subsequences -----

  lemma {:induction false} ScriptKeepsCommonLines(ops: seq<DiffOp>)
    ensures CommonSubsequence(Kept(ops), OldSide(ops), NewSide(ops))
    ensures Changes(ops) == |OldSide(ops)| + |NewSide(ops)| - 2 * |Kept(ops)|
  {
    if ops != [] {
      ScriptKeepsCommonLines(ops[1..]);
      SubsequencePrepend(ops[0].text, Kept(ops[1..]), OldSide(ops[1..]));
      SubsequencePrepend(ops[0].text, Kept(ops[1..]), NewSide(ops[1..]));
    }
  }

  /** A script that keeps Lcs(a, b) lines has the fewest insertions plus deletions of all scripts. */
  lemma {:induction false} KeepingLcsIsMinimal(ops: seq<DiffOp>, other: seq<DiffOp>, a: seq<string>, b: seq<string>)
    requires IsScript(ops, a, b) && IsScript(other, a, b)
    requires |Kept(ops)| == Lcs(a, b)
    ensures Changes(ops) <= Changes(other)
  {
    ScriptKeepsCommonLines(ops);
    ScriptKeepsCommonLines(other);
    LcsIsUpperBound(Kept(other), a, b);
  }

  predicate AllSame(ops: seq<DiffOp>) {
    forall k :: 0 <= k < |ops| ==> ops[k].kind.Same?
  }

  lemma {:induction false} AllSameSides(ops: seq<DiffOp>)
    requires AllSame(ops)
    ensures OldSide(ops) == NewSide(ops) == Kept(ops)
  {
    if ops != [] {
      AllSameSides(ops[1..]);
    }
  }

  lemma {:induction false} NoChangeMeansAllSame(ops: seq<DiffOp>)
    requires Changes(ops) == 0
    ensures AllSame(ops)
  {
    if ops != [] {
      NoChangeMeansAllSame(ops[1..]);
      assert forall k :: 0 < k < |ops| ==> ops[k] == ops[1..][k - 1];
    }
  }

  lemma {:induction false} LcsOfEqualTexts(a: seq<string>)
    ensures Lcs(a, a) == |a|
  {
    if a != [] {
      LcsOfEqualTexts(a[..|a| - 1]);
    }
  }

  // ----- The code -----

  /** Everything diffOps promises about the script it returns for a and b; the empty result stands
      for the nil it returns when nothing changed. */
  ghost predicate MinimalScript(ops: seq<DiffOp>, a: seq<string>, b: seq<string>) {
    && IsScript(ops, a, b)
    && |Kept(ops)| == Lcs(a, b)
    && (forall other :: IsScript(other, a, b) ==> Changes(ops) <= Changes(other))
  }

  /** One cell of the table from its neighbours. */
  lemma LcsCell(a: seq<string>, b: seq<string>, i: nat, j: nat)
    requires 0 < i <= |a| && 0 < j <= |b|
    ensures Lcs(a[..i], b[..j]) ==
      if a[i - 1] == b[j - 1] then Lcs(a[..i - 1], b[..j - 1]) + 1
      else if Lcs(a[..i - 1], b[..j]) >= Lcs(a[..i], b[..j - 1]) then Lcs(a[..i - 1], b[..j])
      else Lcs(a[..i], b[..j - 1])
  {
    assert a[..i][..i - 1] == a[..i - 1] && b[..j][..j - 1] == b[..j - 1];
  }

  method FillTable(a: seq<string>, b: seq<string>) returns (dp: array2<int>)
    ensures dp.Length0 == |a| + 1 && dp.Length1 == |b| + 1
    ensures forall i, j :: 0 <= i <= |a| && 0 <= j <= |b| ==> dp[i, j] == Lcs(a[..i], b[..j])
    ensures fresh(dp)
  {
    dp := new int[|a| + 1, |b| + 1]((_, _) => 0);
    var i := 1;
    while i <= |a|
      invariant 1 <= i <= |a| + 1
      invariant forall r, c :: 0 <= r < i && 0 <= c <= |b| ==> dp[r, c] == Lcs(a[..r], b[..c])
      invariant forall r :: i <= r <= |a| ==> dp[r, 0] == 0
    {
      var j := 1;
      while j <= |b|
        invariant 1 <= j <= |b| + 1
        invariant forall r, c :: 0 <= r < i && 0 <= c <= |b| ==> dp[r, c] == Lcs(a[..r], b[..c])
        invariant forall c :: 0 <= c < j ==> dp[i, c] == Lcs(a[..i], b[..c])
        invariant forall r :: i < r <= |a| ==> dp[r, 0] == 0
      {
        LcsCell(a, b, i, j);
        if a[i - 1] == b[j - 1] {
          dp[i, j] := dp[i - 1, j - 1] + 1;
        } else if dp[i - 1, j] >= dp[i, j - 1] {
          dp[i, j] := dp[i - 1, j];
        } else {
          dp[i, j] := dp[i, j - 1];
        }
        j := j + 1;
      }
      i := i + 1;
    }
  }

  function Reversed<T>(s: seq<T>): (r: seq<T>)
    ensures |r| == |s|
    ensures forall k :: 0 <= k < |s| ==> r[k] == s[|s| - 1 - k]
  {
    if s == [] then [] else [s[|s| - 1]] + Reversed(s[..|s| - 1])
  }

  /** Read backwards, ops is a script for the lines after i and j, and it can still be completed
      to one that keeps Lcs(a, b) lines. */
  ghost predicate Traced(ops: seq<DiffOp>, a: seq<string>, b: seq<string>, i: nat, j: nat)
    requires i <= |a| && j <= |b|
  {
    && IsScript(Reversed(ops), a[i..], b[j..])
    && |Kept(Reversed(ops))| + Lcs(a[..i], b[..j]) == Lcs(a, b)
  }

  lemma ReversedAppend(ops: seq<DiffOp>, op: DiffOp)
    ensures OldSide(Reversed(ops + [op])) == (if op.kind.Added? then [] else [op.text]) + OldSide(Reversed(ops))
    ensures NewSide(Reversed(ops + [op])) == (if op.kind.Removed? then [] else [op.text]) + NewSide(Reversed(ops))
    ensures |Kept(Reversed(ops + [op]))| == (if op.kind.Same? then 1 else 0) + |Kept(Reversed(ops))|
  {
    assert (ops + [op])[..|ops|] == ops;
    assert ([op] + Reversed(ops))[1..] == Reversed(ops);
  }

  lemma TraceSame(ops: seq<DiffOp>, a: seq<string>, b: seq<string>, i: nat, j: nat)
    requires 0 < i <= |a| && 0 < j <= |b| && Traced(ops, a, b, i, j) && a[i - 1] == b[j - 1]
    ensures Traced(ops + [DiffOp(Same, a[i - 1])], a, b, i - 1, j - 1)
  {
    SameScript(ops, a[i - 1], a[i..], b[j..]);
    LcsCell(a, b, i, j);
    FromHere(a, i);
    FromHere(b, j);
  }

  lemma FromHere(lines: seq<string>, i: nat)
    requires 0 < i <= |lines|
    ensures lines[i - 1..] == [lines[i - 1]] + lines[i..]
  {
  }

  lemma SameScript(ops: seq<DiffOp>, line: string, x: seq<string>, y: seq<string>)
    requires IsScript(Reversed(ops), x, y)
    ensures IsScript(Reversed(ops + [DiffOp(Same, line)]), [line] + x, [line] + y)
    ensures |Kept(Reversed(ops + [DiffOp(Same, line)]))| == 1 + |Kept(Reversed(ops))|
  {
    ReversedAppend(ops, DiffOp(Same, line));
  }

  lemma TraceRemoved(ops: seq<DiffOp>, a: seq<string>, b: seq<string>, i: nat, j: nat)
    requires 0 < i <= |a| && j <= |b| && Traced(ops, a, b, i, j) && Lcs(a[..i], b[..j]) == Lcs(a[..i - 1], b[..j])
    ensures Traced(ops + [DiffOp(Removed, a[i - 1])], a, b, i - 1, j)
  {
    ReversedAppend(ops, DiffOp(Removed, a[i - 1]));
    assert a[i - 1..] == [a[i - 1]] + a[i..];
  }

  lemma TraceAdded(ops: seq<DiffOp>, a: seq<string>, b: seq<string>, i: nat, j: nat)
    requires i <= |a| && 0 < j <= |b| && Traced(ops, a, b, i, j) && Lcs(a[..i], b[..j]) == Lcs(a[..i], b[..j - 1])
    ensures Traced(ops + [DiffOp(Added, b[j - 1])], a, b, i, j - 1)
  {
    ReversedAppend(ops, DiffOp(Added, b[j - 1]));
    assert b[j - 1..] == [b[j - 1]] + b[j..];
  }

  // ----- Which of the minimal scripts it is -----

  function Init(s: seq<string>): seq<string>
    requires s != []
  {
    s[..|s| - 1]
  }

  /** The last lines of the two texts are kept if they are equal; else the one is dropped without which more is kept, and
      that of the first text if it makes no difference. */
  function Script(a: seq<string>, b: seq<string>): seq<DiffOp>
    decreases |a| + |b|
  {
    if a == [] && b == [] then []
    else if b == [] then Script(Init(a), b) + [DiffOp(Removed, a[|a| - 1])]
    else if a == [] then Script(a, Init(b)) + [DiffOp(Added, b[|b| - 1])]
    else if a[|a| - 1] == b[|b| - 1] then Script(Init(a), Init(b)) + [DiffOp(Same, a[|a| - 1])]
    else if Lcs(Init(a), b) >= Lcs(a, Init(b)) then Script(Init(a), b) + [DiffOp(Removed, a[|a| - 1])]
    else Script(a, Init(b)) + [DiffOp(Added, b[|b| - 1])]
  }

  lemma {:induction false} LcsOfInit(a: seq<string>, b: seq<string>)
    ensures a != [] ==> Lcs(Init(a), b) <= Lcs(a, b) <= Lcs(Init(a), b) + 1
    ensures b != [] ==> Lcs(a, Init(b)) <= Lcs(a, b) <= Lcs(a, Init(b)) + 1
    decreases |a| + |b|
  {
    if a != [] && b != [] {
      LcsOfInit(Init(a), b);
      LcsOfInit(a, Init(b));
    }
  }

  /** In the script no line of the second text comes right after one dropped from the first: what is added between two kept
      lines is listed before what is removed there. */
  predicate AdditionsFirst(ops: seq<DiffOp>) {
    forall k :: 0 <= k < |ops| - 1 ==> !(ops[k].kind.Removed? && ops[k + 1].kind.Added?)
  }

  lemma AdditionsFirstAppend(ops: seq<DiffOp>, op: DiffOp)
    requires AdditionsFirst(ops) && (op.kind.Added? && ops != [] ==> !ops[|ops| - 1].kind.Removed?)
    ensures AdditionsFirst(ops + [op])
  {
  }

  /** If the last line of b is added although that of a could be removed, nothing is removed just before. */
  lemma NotRemovedBefore(a: seq<string>, b: seq<string>)
    requires b != [] && (a != [] ==> Lcs(Init(a), b) < Lcs(a, Init(b)))
    ensures var ops := Script(a, Init(b)); ops != [] ==> !ops[|ops| - 1].kind.Removed?
  {
    var c := Init(b);
    if a != [] && c != [] && a[|a| - 1] != c[|c| - 1] && Lcs(Init(a), c) >= Lcs(a, Init(c)) {
      LcsOfInit(Init(a), b);
    }
  }

  lemma {:induction false} ScriptAddsFirst(a: seq<string>, b: seq<string>)
    ensures AdditionsFirst(Script(a, b))
    decreases |a| + |b|
  {
    if a == [] && b == [] {
    } else if b == [] {
      ScriptAddsFirst(Init(a), b);
      AdditionsFirstAppend(Script(Init(a), b), DiffOp(Removed, a[|a| - 1]));
    } else if a == [] {
      ScriptAddsFirst(a, Init(b));
      NotRemovedBefore(a, b);
      AdditionsFirstAppend(Script(a, Init(b)), DiffOp(Added, b[|b| - 1]));
    } else if a[|a| - 1] == b[|b| - 1] {
      ScriptAddsFirst(Init(a), Init(b));
      AdditionsFirstAppend(Script(Init(a), Init(b)), DiffOp(Same, a[|a| - 1]));
    } else if Lcs(Init(a), b) >= Lcs(a, Init(b)) {
      ScriptAddsFirst(Init(a), b);
      AdditionsFirstAppend(Script(Init(a), b), DiffOp(Removed, a[|a| - 1]));
    } else {
      ScriptAddsFirst(a, Init(b));
      NotRemovedBefore(a, b);
      AdditionsFirstAppend(Script(a, Init(b)), DiffOp(Added, b[|b| - 1]));
    }
  }

  /** What has been collected completes the script of the lines before i and j to that of the texts. */
  ghost predicate Follows(ops: seq<DiffOp>, a: seq<string>, b: seq<string>, i: nat, j: nat)
    requires i <= |a| && j <= |b|
  {
    Script(a[..i], b[..j]) + Reversed(ops) == Script(a, b)
  }

  lemma FollowsOne(ops: seq<DiffOp>, op: DiffOp, before: seq<DiffOp>, after: seq<DiffOp>, all: seq<DiffOp>)
    requires before + Reversed(ops) == all && before == after + [op]
    ensures after + Reversed(ops + [op]) == all
  {
    assert (ops + [op])[..|ops|] == ops;
    assert after + ([op] + Reversed(ops)) == after + [op] + Reversed(ops);
  }

  lemma FollowSame(ops: seq<DiffOp>, a: seq<string>, b: seq<string>, i: nat, j: nat)
    requires 0 < i <= |a| && 0 < j <= |b| && Follows(ops, a, b, i, j) && a[i - 1] == b[j - 1]
    ensures Follows(ops + [DiffOp(Same, a[i - 1])], a, b, i - 1, j - 1)
  {
    assert Init(a[..i]) == a[..i - 1] && Init(b[..j]) == b[..j - 1];
    FollowsOne(ops, DiffOp(Same, a[i - 1]), Script(a[..i], b[..j]), Script(a[..i - 1], b[..j - 1]), Script(a, b));
  }

  lemma FollowRemoved(ops: seq<DiffOp>, a: seq<string>, b: seq<string>, i: nat, j: nat)
    requires 0 < i <= |a| && j <= |b| && Follows(ops, a, b, i, j)
    requires j == 0 || (a[i - 1] != b[j - 1] && Lcs(a[..i - 1], b[..j]) >= Lcs(a[..i], b[..j - 1]))
    ensures Follows(ops + [DiffOp(Removed, a[i - 1])], a, b, i - 1, j)
  {
    assert Init(a[..i]) == a[..i - 1] && (j > 0 ==> Init(b[..j]) == b[..j - 1]);
    FollowsOne(ops, DiffOp(Removed, a[i - 1]), Script(a[..i], b[..j]), Script(a[..i - 1], b[..j]), Script(a, b));
  }

  lemma FollowAdded(ops: seq<DiffOp>, a: seq<string>, b: seq<string>, i: nat, j: nat)
    requires i <= |a| && 0 < j <= |b| && Follows(ops, a, b, i, j)
    requires i == 0 || (a[i - 1] != b[j - 1] && Lcs(a[..i - 1], b[..j]) < Lcs(a[..i], b[..j - 1]))
    ensures Follows(ops + [DiffOp(Added, b[j - 1])], a, b, i, j - 1)
  {
    assert (i > 0 ==> Init(a[..i]) == a[..i - 1]) && Init(b[..j]) == b[..j - 1];
    FollowsOne(ops, DiffOp(Added, b[j - 1]), Script(a[..i], b[..j]), Script(a[..i], b[..j - 1]), Script(a, b));
  }

  /** The traceback, whose script comes out last line first. */
  method Traceback(a: seq<string>, b: seq<string>, dp: array2<int>) returns (ops: seq<DiffOp>)
    requires dp.Length0 == |a| + 1 && dp.Length1 == |b| + 1
    requires forall i, j :: 0 <= i <= |a| && 0 <= j <= |b| ==> dp[i, j] == Lcs(a[..i], b[..j])
    ensures Traced(ops, a, b, 0, 0) && Follows(ops, a, b, 0, 0)
  {
    ops := [];
    var i, j := |a|, |b|;
    assert a[..i] == a && b[..j] == b;
    assert Script(a, b) + Reversed([]) == Script(a, b);
    while i > 0 && j > 0
      invariant 0 <= i <= |a| && 0 <= j <= |b|
      invariant Traced(ops, a, b, i, j) && Follows(ops, a, b, i, j)
      decreases i + j
    {
      if a[i - 1] == b[j - 1] {
        TraceSame(ops, a, b, i, j);
        FollowSame(ops, a, b, i, j);
        ops := ops + [DiffOp(Same, a[i - 1])];
        i, j := i - 1, j - 1;
        continue;
      }
      LcsCell(a, b, i, j);
      if dp[i - 1, j] >= dp[i, j - 1] {
        TraceRemoved(ops, a, b, i, j);
        FollowRemoved(ops, a, b, i, j);
        ops := ops + [DiffOp(Removed, a[i - 1])];
        i := i - 1;
      } else {
        TraceAdded(ops, a, b, i, j);
        FollowAdded(ops, a, b, i, j);
        ops := ops + [DiffOp(Added, b[j - 1])];
        j := j - 1;
      }
    }
    ops := TraceRest(a, b, i, j, ops);
  }

  /** What is left of the one text when the other is used up. */
  method TraceRest(a: seq<string>, b: seq<string>, i0: nat, j0: nat, ops0: seq<DiffOp>) returns (ops: seq<DiffOp>)
    requires i0 <= |a| && j0 <= |b| && (i0 == 0 || j0 == 0)
    requires Traced(ops0, a, b, i0, j0) && Follows(ops0, a, b, i0, j0)
    ensures Traced(ops, a, b, 0, 0) && Follows(ops, a, b, 0, 0)
  {
    var i, j := i0, j0;
    ops := ops0;
    while i > 0
      invariant 0 <= i <= |a| && 0 <= j <= |b| && (i == 0 || j == 0)
      invariant Traced(ops, a, b, i, j) && Follows(ops, a, b, i, j)
    {
      TraceRemoved(ops, a, b, i, j);
      FollowRemoved(ops, a, b, i, j);
      ops := ops + [DiffOp(Removed, a[i - 1])];
      i := i - 1;
    }
    while j > 0
      invariant i == 0 && 0 <= j <= |b|
      invariant Traced(ops, a, b, i, j) && Follows(ops, a, b, i, j)
    {
      TraceAdded(ops, a, b, i, j);
      FollowAdded(ops, a, b, i, j);
      ops := ops + [DiffOp(Added, b[j - 1])];
      j := j - 1;
    }
  }

  /** The scan at the end of diffOps: a minimal script changes nothing exactly when the texts agree. */
  lemma UnchangedIffEqual(ops: seq<DiffOp>, a: seq<string>, b: seq<string>)
    requires MinimalScript(ops, a, b)
    ensures AllSame(ops) <==> a == b
  {
    if a == b {
      LcsOfEqualTexts(a);
      ScriptKeepsCommonLines(ops);
      NoChangeMeansAllSame(ops);
    } else if AllSame(ops) {
      AllSameSides(ops);
    }
  }

  /** The scan for a change. */
  method HasChange(ops: seq<DiffOp>) returns (changed: bool)
    ensures changed <==> !AllSame(ops)
  {
    for k := 0 to |ops|
      invariant forall l :: 0 <= l < k ==> ops[l].kind.Same?
    {
      if !ops[k].kind.Same? {
        return true;
      }
    }
    changed := false;
  }

  lemma FollowsToEnd(ops: seq<DiffOp>, a: seq<string>, b: seq<string>)
    requires Follows(ops, a, b, 0, 0)
    ensures Reversed(ops) == Script(a, b)
  {
    assert a[..0] == [] && b[..0] == [];
    assert [] + Reversed(ops) == Reversed(ops);
  }

  method DiffOps(a: seq<string>, b: seq<string>) returns (result: seq<DiffOp>)
    ensures a == b ==> result == []
    ensures a != b ==> MinimalScript(result, a, b) && !AllSame(result)
    ensures a != b ==> result == Script(a, b) && AdditionsFirst(result)
  {
    var dp := FillTable(a, b);
    var ops := Traceback(a, b, dp);
    FollowsToEnd(ops, a, b);
    ScriptAddsFirst(a, b);
    ops := ReverseInPlace(ops);
    MinimalByLcs(ops, a, b);
    UnchangedIffEqual(ops, a, b);
    var changed := HasChange(ops);
    result := if changed then ops else [];
  }

  method ReverseInPlace<T>(s: seq<T>) returns (ops: seq<T>)
    ensures ops == Reversed(s)
  {
    ops := s;
    var l, r := 0, |ops| - 1;
    while l < r
      invariant |ops| == |s| && 0 <= l && r == |ops| - 1 - l
      invariant forall k :: l <= k <= r ==> ops[k] == s[k]
      invariant forall k :: 0 <= k < |s| && (k < l || r < k) ==> ops[k] == s[|s| - 1 - k]
    {
      ops := ops[l := ops[r]][r := ops[l]];
      l, r := l + 1, r - 1;
    }
  }

  lemma {:induction false} MinimalByLcs(ops: seq<DiffOp>, a: seq<string>, b: seq<string>)
    requires IsScript(ops, a, b) && |Kept(ops)| == Lcs(a, b)
    ensures MinimalScript(ops, a, b)
  {
    forall other | IsScript(other, a, b)
      ensures Changes(ops) <= Changes(other)
    {
      KeepingLcsIsMinimal(ops, other, a, b);
    }
  }

  // ----- The printed hunk -----

  function Marker(k: Kind): char {
    match k
    case Same => ' '
    case Removed => '-'
    case Added => '+'
  }

  function HunkLine(op: DiffOp): string {
    [Marker(op.kind)] + op.text
  }

  function HunkBody(ops: seq<DiffOp>): seq<string> {
    if ops == [] then [] else [HunkLine(ops[0])] + HunkBody(ops[1..])
  }

  function Start(len: nat): nat {
    if len == 0 then 0 else 1
  }

  /** "@@ -oldStart,oldLen +newStart,newLen @@" */
  function FormatHeader(oldStart: nat, oldLen: nat, newStart: nat, newLen: nat): string {
    "@@ -" + (Decimal(oldStart) + [','] + (Decimal(oldLen) + [' '] +
              ("+" + (Decimal(newStart) + [','] + (Decimal(newLen) + [' '] + "@@")))))
  }

  function HunkHeader(oldLen: nat, newLen: nat): string {
    FormatHeader(Start(oldLen), oldLen, Start(newLen), newLen)
  }

  function HunkLines(labelA: string, labelB: string, oldLen: nat, newLen: nat, ops: seq<DiffOp>): seq<string> {
    ["--- " + labelA, "+++ " + labelB, HunkHeader(oldLen, newLen)] + HunkBody(ops)
  }

  lemma {:induction false} HunkBodyAppend(ops: seq<DiffOp>, op: DiffOp)
    ensures HunkBody(ops + [op]) == HunkBody(ops) + [HunkLine(op)]
  {
    if ops == [] {
      assert ops + [op] == [op];
    } else {
      assert (ops + [op])[1..] == ops[1..] + [op];
      HunkBodyAppend(ops[1..], op);
    }
  }

  lemma {:induction false} SidesAppend(ops: seq<DiffOp>, op: DiffOp)
    ensures |OldSide(ops + [op])| == |OldSide(ops)| + if op.kind.Added? then 0 else 1
    ensures |NewSide(ops + [op])| == |NewSide(ops)| + if op.kind.Removed? then 0 else 1
  {
    if ops == [] {
      assert ops + [op] == [op];
    } else {
      assert (ops + [op])[1..] == ops[1..] + [op];
      SidesAppend(ops[1..], op);
    }
  }

  /** The lines of the hunk, and how many of them each text has. */
  method CountHunk(ops: seq<DiffOp>) returns (lines: seq<string>, aLen: nat, bLen: nat)
    ensures lines == HunkBody(ops) && aLen == |OldSide(ops)| && bLen == |NewSide(ops)|
  {
    lines, aLen, bLen := [], 0, 0;
    for k := 0 to |ops|
      invariant lines == HunkBody(ops[..k])
      invariant aLen == |OldSide(ops[..k])| && bLen == |NewSide(ops[..k])|
    {
      assert ops[..k + 1] == ops[..k] + [ops[k]];
      HunkBodyAppend(ops[..k], ops[k]);
      SidesAppend(ops[..k], ops[k]);
      match ops[k].kind {
        case Same =>
          lines := lines + [" " + ops[k].text];
          aLen, bLen := aLen + 1, bLen + 1;
        case Removed =>
          lines := lines + ["-" + ops[k].text];
          aLen := aLen + 1;
        case Added =>
          lines := lines + ["+" + ops[k].text];
          bLen := bLen + 1;
      }
    }
    assert ops[..|ops|] == ops;
  }

  method PrintLines(top: seq<string>, lines: seq<string>) returns (out: string)
    ensures out == Unlines(top + lines)
  {
    out := Unlines(top);
    assert top + lines[..0] == top;
    for k := 0 to |lines|
      invariant out == Unlines(top + lines[..k])
    {
      assert top + lines[..k + 1] == (top + lines[..k]) + [lines[k]];
      UnlinesAppend(top + lines[..k], [lines[k]]);
      assert Unlines([lines[k]]) == lines[k] + "\n";
      out := out + lines[k] + "\n";
    }
    assert lines[..|lines|] == lines;
  }

  /** The text of the diff; empty exactly when there is nothing to report. */
  method UnifiedDiff(a: seq<string>, b: seq<string>, labelA: string, labelB: string) returns (out: string)
    ensures a == b ==> out == ""
    ensures a != b ==>
      exists ops :: MinimalScript(ops, a, b) && AdditionsFirst(ops) && out == Unlines(HunkLines(labelA, labelB, |a|, |b|, ops))
    ensures a != b && Printable(a, b, labelA, labelB) ==>
      ReadPatch(out) == Some(Patch(labelA, labelB, if a == [] then 0 else 1, |a|, if b == [] then 0 else 1, |b|, a, b))
  {
    var ops := DiffOps(a, b);
    if |ops| == 0 {
      return "";
    }
    var lines, aLen, bLen := CountHunk(ops);
    var aStart := 1;
    if aLen == 0 {
      aStart := 0;
    }
    var bStart := 1;
    if bLen == 0 {
      bStart := 0;
    }
    out := PrintLines(["--- " + labelA, "+++ " + labelB, FormatHeader(aStart, aLen, bStart, bLen)], lines);
    if Printable(a, b, labelA, labelB) {
      ReadPrintedDiff(a, b, labelA, labelB, ops);
    }
  }

  /** No newline inside a label or a line. */
  predicate Printable(a: seq<string>, b: seq<string>, labelA: string, labelB: string) {
    OneLine(labelA) && OneLine(labelB) && forall l :: l in a + b ==> OneLine(l)
  }

  // ----- Reading a printed diff back -----

  datatype Patch = Patch(
    labelA: string, labelB: string,
    oldStart: nat, oldLen: nat, newStart: nat, newLen: nat,
    oldSide: seq<string>, newSide: seq<string>)

  function ReadHeader(h: string): Option<(nat, nat, nat, nat)> {
    if |h| < 4 || h[..4] != "@@ -" then None
    else match ReadNumber(h[4..], ',')
      case None => None
      case Some((oldStart, r1)) => match ReadNumber(r1, ' ')
        case None => None
        case Some((oldLen, r2)) =>
          if r2 == "" || r2[0] != '+' then None
          else match ReadNumber(r2[1..], ',')
            case None => None
            case Some((newStart, r3)) => match ReadNumber(r3, ' ')
              case None => None
              case Some((newLen, r4)) => if r4 == "@@" then Some((oldStart, oldLen, newStart, newLen)) else None
  }

  /** The lines carrying one of the markers, without the marker. */
  function ReadSide(body: seq<string>, marker: char): seq<string> {
    if body == [] then []
    else (if body[0] != "" && body[0][0] in {' ', marker} then [body[0][1..]] else []) + ReadSide(body[1..], marker)
  }

  predicate BodyLine(line: string) {
    line != "" && line[0] in {' ', '-', '+'}
  }

  /** The old file's line, the new file's line, one hunk header, and nothing but body lines after it. */
  function ReadLines(lines: seq<string>): Option<Patch> {
    if |lines| < 3 || !("--- " <= lines[0]) || !("+++ " <= lines[1]) then None
    else if exists k :: 3 <= k < |lines| && !BodyLine(lines[k]) then None
    else match ReadHeader(lines[2])
      case None => None
      case Some((oldStart, oldLen, newStart, newLen)) =>
        Some(Patch(lines[0][4..], lines[1][4..], oldStart, oldLen, newStart, newLen,
                   ReadSide(lines[3..], '-'), ReadSide(lines[3..], '+')))
  }

  function ReadPatch(out: string): Option<Patch> {
    var (lines, rest) := SplitLines(out);
    if rest != "" then None else ReadLines(lines)
  }

  lemma ReadFormattedHeader(oldStart: nat, oldLen: nat, newStart: nat, newLen: nat)
    ensures ReadHeader(FormatHeader(oldStart, oldLen, newStart, newLen)) == Some((oldStart, oldLen, newStart, newLen))
  {
    var r3 := Decimal(newLen) + [' '] + "@@";
    var r2 := "+" + (Decimal(newStart) + [','] + r3);
    var r1 := Decimal(oldLen) + [' '] + r2;
    var h := "@@ -" + (Decimal(oldStart) + [','] + r1);
    assert h == FormatHeader(oldStart, oldLen, newStart, newLen);
    assert h[..4] == "@@ -" && h[4..] == Decimal(oldStart) + [','] + r1;
    assert r2[1..] == Decimal(newStart) + [','] + r3;
    ReadDecimal(oldStart, ',', r1);
    ReadDecimal(oldLen, ' ', r2);
    ReadDecimal(newStart, ',', r3);
    ReadDecimal(newLen, ' ', "@@");
  }

  lemma {:induction false} ReadHunkBody(ops: seq<DiffOp>)
    ensures ReadSide(HunkBody(ops), '-') == OldSide(ops)
    ensures ReadSide(HunkBody(ops), '+') == NewSide(ops)
  {
    if ops != [] {
      ReadHunkBody(ops[1..]);
      assert HunkBody(ops)[1..] == HunkBody(ops[1..]);
      assert HunkLine(ops[0])[1..] == ops[0].text;
    }
  }

  lemma {:induction false} BodyLinesAreLines(ops: seq<DiffOp>)
    requires forall l :: l in OldSide(ops) + NewSide(ops) ==> OneLine(l)
    ensures forall l :: l in HunkBody(ops) ==> OneLine(l) && BodyLine(l)
  {
    if ops != [] {
      assert ops[0].text in OldSide(ops) + NewSide(ops);
      forall l | l in OldSide(ops[1..]) + NewSide(ops[1..])
        ensures OneLine(l)
      {
        assert l in OldSide(ops) + NewSide(ops);
      }
      BodyLinesAreLines(ops[1..]);
    }
  }

  /** Reading a printed diff rebuilds both texts, and the header has their lengths, and 1 as the first line of each text
      that is not empty. */
  lemma ReadPrintedDiff(a: seq<string>, b: seq<string>, labelA: string, labelB: string, ops: seq<DiffOp>)
    requires IsScript(ops, a, b) && Printable(a, b, labelA, labelB)
    ensures ReadPatch(Unlines(HunkLines(labelA, labelB, |a|, |b|, ops)))
      == Some(Patch(labelA, labelB, if a == [] then 0 else 1, |a|, if b == [] then 0 else 1, |b|, a, b))
  {
    BodyLinesAreLines(ops);
    var lines := HunkLines(labelA, labelB, |a|, |b|, ops);
    DecimalIsOneLine(|a|);
    DecimalIsOneLine(|b|);
    SplitUnlines(lines, "");
    assert Unlines(lines) + "" == Unlines(lines);
    ReadFormattedHeader(Start(|a|), |a|, Start(|b|), |b|);
    ReadHunkBody(ops);
    ReadFourParts(lines, labelA, labelB, HunkHeader(|a|, |b|), HunkBody(ops));
  }

  lemma ReadFourParts(lines: seq<string>, labelA: string, labelB: string, header: string, body: seq<string>)
    requires lines == ["--- " + labelA, "+++ " + labelB, header] + body
    requires ReadHeader(header).Some? && forall l :: l in body ==> BodyLine(l)
    ensures var (oldStart, oldLen, newStart, newLen) := ReadHeader(header).value;
      ReadLines(lines) ==
        Some(Patch(labelA, labelB, oldStart, oldLen, newStart, newLen, ReadSide(body, '-'), ReadSide(body, '+')))
  {
    assert lines[3..] == body;
    assert lines[0][4..] == labelA && lines[1][4..] == labelB;
    forall k | 3 <= k < |lines|
      ensures BodyLine(lines[k])
    {
      assert lines[k] == body[k - 3];
    }
  }

  lemma DecimalIsOneLine(n: nat)
    ensures OneLine(Decimal(n)) && OneLine(Decimal(Start(n)))
  {
    assert !IsDigit('\n');
  }
}
