/** Masking of secret values (dag/redact.go). */
module Redact {
  import opened Text

  datatype EnvVar = EnvVar(value: string, secret: bool)

  /** NewRedactor keeps non-empty values only. */
  type Secret = x: string | x != "" witness "x"

  const MASK := "***"

  // ----- strings.ReplaceAll with the mask -----

  predicate At(s: string, x: string, i: int) {
    0 <= i && i + |x| <= |s| && forall k :: 0 <= k < |x| ==> s[i + k] == x[k]
  }

  ghost predicate Contains(s: string, x: string) {
    exists i :: At(s, x, i)
  }

  /** The leftmost occurrence of x, or -1. */
  function Find(s: string, x: string): (i: int)
    ensures i == -1 <==> !Contains(s, x)
    ensures i != -1 ==> At(s, x, i) && forall j :: 0 <= j < i ==> !At(s, x, j)
  {
    FindFrom(s, x, 0)
  }

  function FindFrom(s: string, x: string, from: nat): (i: int)
    requires from <= |s|
    ensures i == -1 ==> forall j :: from <= j ==> !At(s, x, j)
    ensures i != -1 ==> from <= i && At(s, x, i) && forall j :: from <= j < i ==> !At(s, x, j)
    decreases |s| - from
  {
    if At(s, x, from) then from
    else if from == |s| then -1
    else FindFrom(s, x, from + 1)
  }

  /** Leftmost, non-overlapping replacement. */
  function ReplaceAll(s: string, x: Secret): string
    decreases |s|
  {
    var i := Find(s, x);
    if i == -1 then s else s[..i] + MASK + ReplaceAll(s[i + |x|..], x)
  }

  /** The loop of Redact. */
  function RedactAll(s: string, secrets: seq<Secret>): string
  {
    if secrets == [] then s else ReplaceAll(RedactAll(s, secrets[..|secrets| - 1]), secrets[|secrets| - 1])
  }

  // ----- What stays and what goes -----

  function JoinWith(pieces: seq<string>, sep: string): string {
    if pieces == [] then ""
    else if |pieces| == 1 then pieces[0]
    else pieces[0] + sep + JoinWith(pieces[1..], sep)
  }

  predicate NoneBefore(s: string, x: string, n: nat) {
    forall j :: 0 <= j < n ==> !At(s, x, j)
  }

  /** s is cut at the leftmost occurrence of x, what follows it again, and so on until none is left. */
  ghost predicate LeftmostSplit(s: string, x: string, pieces: seq<string>)
    decreases |pieces|
  {
    if pieces == [] then false
    else if |pieces| == 1 then s == pieces[0] && !Contains(s, x)
    else
      && pieces[0] + x <= s
      && NoneBefore(s, x, |pieces[0]|)
      && LeftmostSplit(s[|pieces[0]| + |x|..], x, pieces[1..])
  }

  /** The pieces have s as their join, and x is in none of them. */
  lemma {:induction false} PiecesMakeText(s: string, x: Secret, pieces: seq<string>)
    requires LeftmostSplit(s, x, pieces)
    ensures s == JoinWith(pieces, x)
    ensures forall i :: 0 <= i < |pieces| ==> !Contains(pieces[i], x)
    decreases |pieces|
  {
    if |pieces| > 1 {
      var p := pieces[0];
      PiecesMakeText(s[|p| + |x|..], x, pieces[1..]);
      assert s == p + x + s[|p| + |x|..];
      forall j
        ensures !At(p, x, j)
      {
        if At(p, x, j) {
          assert p == s[..|p|];
          AtPrefix(s, |p|, x, j);
        }
      }
    }
  }

  /** There is only one such split. */
  lemma {:induction false} SplitUnique(s: string, x: Secret, p: seq<string>, q: seq<string>)
    requires LeftmostSplit(s, x, p) && LeftmostSplit(s, x, q)
    ensures p == q
    decreases |p|
  {
    CutIff(s, x, p);
    CutIff(s, x, q);
    if |p| > 1 {
      FirstCut(s, x, p);
      FirstCut(s, x, q);
      SameCut(s, x, p[0], q[0]);
      SplitUnique(s[|p[0]| + |x|..], x, p[1..], q[1..]);
      assert p == [p[0]] + p[1..] && q == [q[0]] + q[1..];
    }
  }

  lemma CutIff(s: string, x: Secret, p: seq<string>)
    requires LeftmostSplit(s, x, p)
    ensures |p| >= 1 && (|p| > 1 <==> Contains(s, x)) && (|p| == 1 ==> p == [s])
  {
    if |p| > 1 {
      FirstCut(s, x, p);
    }
  }

  lemma SameCut(s: string, x: Secret, p: string, q: string)
    requires At(s, x, |p|) && NoneBefore(s, x, |p|) && p == s[..|p|]
    requires At(s, x, |q|) && NoneBefore(s, x, |q|) && q == s[..|q|]
    ensures p == q
  {
  }

  lemma FirstCut(s: string, x: Secret, p: seq<string>)
    requires |p| > 1 && LeftmostSplit(s, x, p)
    ensures At(s, x, |p[0]|) && NoneBefore(s, x, |p[0]|) && p[0] == s[..|p[0]|]
  {
    assert p[0] + x == s[..|p[0]| + |x|];
    forall k | 0 <= k < |x|
      ensures s[|p[0]| + k] == x[k]
    {
      assert (p[0] + x)[|p[0]| + k] == x[k];
    }
  }

  /** Replacing is putting "***" where x was, and nothing else: the pieces stay as they are. */
  lemma {:induction false} ReplaceKeepsPieces(s: string, x: Secret) returns (pieces: seq<string>)
    ensures LeftmostSplit(s, x, pieces) && ReplaceAll(s, x) == JoinWith(pieces, "***")
    decreases |s|
  {
    var i := Find(s, x);
    if i == -1 {
      pieces := [s];
    } else {
      var rest := ReplaceKeepsPieces(s[i + |x|..], x);
      pieces := [s[..i]] + rest;
      MatchAt(s, x, i);
      assert pieces[1..] == rest;
    }
  }

  lemma MatchAt(s: string, x: string, i: nat)
    requires At(s, x, i)
    ensures s[..i] + x <= s && s == s[..i] + x + s[i + |x|..]
  {
    assert s[i..i + |x|] == x;
    assert s[..i] + s[i..i + |x|] == s[..i + |x|];
  }

  lemma AtConcat(s: string, p: string, x: string, r: string)
    requires s == p + x + r
    ensures At(s, x, |p|)
  {
    assert s[|p|..|p| + |x|] == x;
  }

  /** The same as an equation, with any text before the match. */
  lemma ReplaceStep(p: string, x: Secret, r: string)
    requires NoneBefore(p + x + r, x, |p|)
    ensures ReplaceAll(p + x + r, x) == p + "***" + ReplaceAll(r, x)
  {
    var s := p + x + r;
    AtConcat(s, p, x, r);
    assert Find(s, x) == |p|;
    assert s[..|p|] == p && s[|p| + |x|..] == r;
  }

  ghost predicate MaskedBy(s: string, x: string, out: string) {
    exists pieces :: LeftmostSplit(s, x, pieces) && out == JoinWith(pieces, "***")
  }

  /** texts[i] is what the first i secrets have left of s. */
  ghost predicate Stages(s: string, secrets: seq<Secret>, texts: seq<string>, out: string) {
    && |texts| == |secrets| + 1 && texts[0] == s && texts[|secrets|] == out
    && forall i :: 0 <= i < |secrets| ==> MaskedBy(texts[i], secrets[i], texts[i + 1])
  }

  /** One secret after the other, in this order. */
  ghost predicate MaskedByAll(s: string, secrets: seq<Secret>, out: string) {
    exists texts :: Stages(s, secrets, texts, out)
  }

  lemma {:induction false} RedactMasksAll(s: string, secrets: seq<Secret>)
    ensures MaskedByAll(s, secrets, RedactAll(s, secrets))
  {
    if secrets == [] {
      assert Stages(s, [], [s], s);
    } else {
      var init, last := secrets[..|secrets| - 1], secrets[|secrets| - 1];
      RedactMasksAll(s, init);
      var pieces := ReplaceKeepsPieces(RedactAll(s, init), last);
      assert MaskedBy(RedactAll(s, init), last, RedactAll(s, secrets));
      var texts :| Stages(s, init, texts, RedactAll(s, init));
      OneMoreStage(s, init, texts, RedactAll(s, init), last, RedactAll(s, secrets));
      assert init + [last] == secrets;
    }
  }

  lemma OneMoreStage(s: string, init: seq<Secret>, texts: seq<string>, mid: string, last: Secret, out: string)
    requires Stages(s, init, texts, mid) && MaskedBy(mid, last, out)
    ensures MaskedByAll(s, init + [last], out)
  {
    var more := texts + [out];
    forall i | 0 <= i < |init| + 1
      ensures MaskedBy(more[i], (init + [last])[i], more[i + 1])
    {
      if i < |init| {
        assert MaskedBy(texts[i], init[i], texts[i + 1]);
      }
    }
    assert Stages(s, init + [last], more, out);
  }

  lemma MaskedByIsReplace(s: string, x: Secret, out: string)
    requires MaskedBy(s, x, out)
    ensures out == ReplaceAll(s, x)
  {
    var pieces :| LeftmostSplit(s, x, pieces) && out == JoinWith(pieces, "***");
    var others := ReplaceKeepsPieces(s, x);
    SplitUnique(s, x, pieces, others);
  }

  /** What masking gives is fixed by this, so the two mean the same. */
  lemma {:induction false} StagesAreRedact(s: string, secrets: seq<Secret>, texts: seq<string>, out: string)
    requires Stages(s, secrets, texts, out)
    ensures out == RedactAll(s, secrets)
  {
    if secrets != [] {
      var n := |secrets| - 1;
      StagesAreRedact(s, secrets[..n], texts[..n + 1], texts[n]);
      MaskedByIsReplace(texts[n], secrets[n], texts[n + 1]);
    }
  }

  // ----- Which secrets can be masked for good -----

  /** Masks cannot produce or complete an occurrence: x neither begins nor ends with a star and holds no mask. */
  ghost predicate Maskable(x: string) {
    x != "" && x[0] != '*' && x[|x| - 1] != '*' && !Contains(x, MASK)
  }

  lemma StarFreeIsMaskable(x: string)
    requires x != "" && '*' !in x
    ensures Maskable(x)
  {
    forall i ensures !At(x, MASK, i) {
      if At(x, MASK, i) {
        MaskHasStar(x, i);
      }
    }
  }

  lemma MaskHasStar(x: string, i: int)
    requires At(x, MASK, i)
    ensures '*' in x
  {
    assert x[i + 0] == MASK[0];
  }

  /** Only an unmaskable string can overlap a mask. */
  lemma OverlapUnmaskable(p: string, r: string, y: Secret, i: int)
    requires At(p + MASK + r, y, i) && i < |p| + 3 && i + |y| > |p|
    ensures !Maskable(y)
  {
    var t := p + MASK + r;
    if i >= |p| {
      assert y[0] == t[i + 0] == '*';
    } else if i + |y| <= |p| + 3 {
      assert y[|y| - 1] == t[i + (|y| - 1)] == '*';
    } else {
      forall k | 0 <= k < 3 ensures y[|p| - i + k] == MASK[k] {
        assert y[|p| - i + k] == t[i + (|p| - i + k)];
      }
      assert At(y, MASK, |p| - i);
    }
  }

  /** An occurrence of a maskable y around a mask lies wholly on one side of it. */
  lemma MaskSeparates(p: string, r: string, y: Secret, i: int)
    requires Maskable(y) && At(p + MASK + r, y, i)
    ensures At(p, y, i) || At(r, y, i - |p| - 3)
  {
    if i < |p| + 3 && i + |y| > |p| {
      OverlapUnmaskable(p, r, y, i);
    } else if i + |y| <= |p| {
      forall k | 0 <= k < |y| ensures p[i + k] == y[k] {
        assert (p + MASK + r)[i + k] == y[k];
      }
    } else {
      forall k | 0 <= k < |y| ensures r[i - |p| - 3 + k] == y[k] {
        assert (p + MASK + r)[i + k] == y[k];
      }
    }
  }

  lemma AtPrefix(s: string, n: int, y: string, j: int)
    requires 0 <= n <= |s| && At(s[..n], y, j)
    ensures At(s, y, j)
  {
  }

  lemma AtSuffix(s: string, n: int, y: string, j: int)
    requires 0 <= n <= |s| && At(s[n..], y, j)
    ensures At(s, y, n + j)
  {
    forall k | 0 <= k < |y| ensures s[n + j + k] == y[k] {
      assert s[n..][j + k] == y[k];
    }
  }

  /** Replacement never creates an occurrence of a maskable string. */
  lemma {:induction false} NothingNew(s: string, x: Secret, y: string)
    requires Maskable(y) && Contains(ReplaceAll(s, x), y)
    ensures Contains(s, y)
    decreases |s|
  {
    var i := Find(s, x);
    if i != -1 {
      var rest := s[i + |x|..];
      var j :| At(ReplaceAll(s, x), y, j);
      MaskSeparates(s[..i], ReplaceAll(rest, x), y, j);
      if At(s[..i], y, j) {
        AtPrefix(s, i, y, j);
      } else {
        NothingNew(rest, x, y);
        var k :| At(rest, y, k);
        AtSuffix(s, i + |x|, y, k);
      }
    }
  }

  /** And it removes every occurrence of a maskable secret. */
  lemma {:induction false} SecretGone(s: string, x: Secret)
    requires Maskable(x)
    ensures !Contains(ReplaceAll(s, x), x)
    decreases |s|
  {
    var i := Find(s, x);
    if i != -1 {
      var rest := s[i + |x|..];
      SecretGone(rest, x);
      forall j ensures !At(ReplaceAll(s, x), x, j) {
        if At(ReplaceAll(s, x), x, j) {
          MaskSeparates(s[..i], ReplaceAll(rest, x), x, j);
          if At(s[..i], x, j) {
            AtPrefix(s, i, x, j);
          }
        }
      }
    }
  }

  /** A maskable secret is hidden in every text, whatever the other secrets are and in which order they come. */
  lemma {:induction false} MaskableGone(s: string, secrets: seq<Secret>, x: Secret)
    requires x in secrets && Maskable(x)
    ensures !Contains(RedactAll(s, secrets), x)
  {
    var init, last := secrets[..|secrets| - 1], secrets[|secrets| - 1];
    if x == last {
      SecretGone(RedactAll(s, init), last);
    } else {
      assert x in init;
      MaskableGone(s, init, x);
      if Contains(RedactAll(s, secrets), x) {
        NothingNew(RedactAll(s, init), last, x);
      }
    }
  }

  /** Whatever their order, overlap or nesting, no maskable secret occurs in the redacted text. */
  lemma RedactionComplete(s: string, secrets: seq<Secret>)
    requires forall x :: x in secrets ==> Maskable(x)
    ensures forall x :: x in secrets ==> !Contains(RedactAll(s, secrets), x)
  {
    forall x | x in secrets
      ensures !Contains(RedactAll(s, secrets), x)
    {
      MaskableGone(s, secrets, x);
    }
  }

  lemma ContainsTransitive(s: string, x: string, y: string)
    requires Contains(s, x) && Contains(x, y)
    ensures Contains(s, y)
  {
    var i :| At(s, x, i);
    var j :| At(x, y, j);
    forall k | 0 <= k < |y|
      ensures s[i + j + k] == y[k]
    {
      assert s[i + (j + k)] == x[j + k] == y[k];
    }
    assert At(s, y, i + j);
  }

  /** A secret that is not maskable itself is hidden too if it contains one that is. */
  lemma CoveredGone(s: string, secrets: seq<Secret>, x: Secret, y: Secret)
    requires y in secrets && Maskable(y) && Contains(x, y)
    ensures !Contains(RedactAll(s, secrets), x)
  {
    MaskableGone(s, secrets, y);
    if Contains(RedactAll(s, secrets), x) {
      ContainsTransitive(RedactAll(s, secrets), x, y);
    }
  }

  lemma {:induction false} NothingToRedact(t: string, secrets: seq<Secret>)
    requires forall x :: x in secrets ==> !Contains(t, x)
    ensures RedactAll(t, secrets) == t
  {
    if secrets != [] {
      NothingToRedact(t, secrets[..|secrets| - 1]);
    }
  }

  /** Redacting twice changes nothing more. */
  lemma RedactionIdempotent(s: string, secrets: seq<Secret>)
    requires forall x :: x in secrets ==> Maskable(x)
    ensures RedactAll(RedactAll(s, secrets), secrets) == RedactAll(s, secrets)
  {
    RedactionComplete(s, secrets);
    NothingToRedact(RedactAll(s, secrets), secrets);
  }

  // ----- The condition is exact -----

  /** A text whose first match leaves less than x after it. */
  lemma ReplaceOnce(s: string, x: Secret, i: int)
    requires At(s, x, i) && |s| - i < 2 * |x|
    requires forall j :: 0 <= j < i ==> !At(s, x, j)
    ensures ReplaceAll(s, x) == s[..i] + MASK + s[i + |x|..]
  {
    assert Find(s, x) == i;
  }

  lemma LeakAtStart(s: string, x: Secret)
    requires x[0] == '*' && s == x + x[1..]
    ensures Contains(ReplaceAll(s, x), x)
  {
    ReplaceOnce(s, x, 0);
    assert ReplaceAll(s, x) == MASK + x[1..];
    assert At(MASK + x[1..], x, 2);
  }

  lemma EarlyMatchAtEnd(s: string, x: Secret, j: int)
    requires s == x[..|x| - 1] + x && x[|x| - 1] == '*' && 0 <= j < |x| - 1 && At(s, x, j)
    ensures x[0] == '*'
  {
    assert x[0] == s[j + 0] == x[j];
    assert x[|x| - 1] == s[j + (|x| - 1)] == x[j];
  }

  lemma LeakAtEnd(s: string, x: Secret)
    requires x[0] != '*' && x[|x| - 1] == '*' && s == x[..|x| - 1] + x
    ensures Contains(ReplaceAll(s, x), x)
  {
    var n := |x| - 1;
    forall j | 0 <= j < n ensures !At(s, x, j) {
      if At(s, x, j) {
        EarlyMatchAtEnd(s, x, j);
      }
    }
    assert At(s, x, n);
    ReplaceOnce(s, x, n);
    assert s[..n] == x[..n] && s[n + |x|..] == "";
    MaskCompletes(x);
  }

  lemma MaskCompletes(x: Secret)
    requires x[|x| - 1] == '*'
    ensures At(x[..|x| - 1] + MASK + "", x, 0)
  {
  }

  lemma EarlyMatchInside(s: string, x: Secret, k: int, j: int)
    requires At(x, MASK, k) && 0 <= j < k && s == x[..k] + x + x[k + 3..] && At(s, x, j)
    ensures At(x, MASK, j)
  {
    forall i | 0 <= i < 3 ensures x[j + i] == MASK[i] {
      assert MASK[i] == x[k + i] == s[j + (k + i)] == x[j + i];
    }
  }

  lemma LeakInside(s: string, x: Secret, k: int)
    requires At(x, MASK, k) && (forall j :: 0 <= j < k ==> !At(x, MASK, j)) && s == x[..k] + x + x[k + 3..]
    ensures Contains(ReplaceAll(s, x), x)
  {
    forall j | 0 <= j < k ensures !At(s, x, j) {
      if At(s, x, j) {
        EarlyMatchInside(s, x, k, j);
      }
    }
    assert At(s, x, k);
    ReplaceOnce(s, x, k);
    assert s[..k] == x[..k] && s[k + |x|..] == x[k + 3..];
    MaskInPlace(x, k);
    assert At(x, x, 0);
  }

  lemma MaskInPlace(x: string, k: int)
    requires At(x, MASK, k)
    ensures x[..k] + MASK + x[k + 3..] == x
  {
    assert x[k + 0] == MASK[0] && x[k + 1] == MASK[1] && x[k + 2] == MASK[2];
  }

  /** A secret that is not maskable leaks through its own mask for some text. */
  lemma LeakingText(x: Secret) returns (s: string)
    requires !Maskable(x)
    ensures Contains(ReplaceAll(s, x), x)
  {
    if x[0] == '*' {
      s := x + x[1..];
      LeakAtStart(s, x);
    } else if x[|x| - 1] == '*' {
      s := x[..|x| - 1] + x;
      LeakAtEnd(s, x);
    } else {
      var k := Find(x, MASK);
      s := x[..k] + x + x[k + 3..];
      LeakInside(s, x, k);
    }
  }

  lemma RedactOne(s: string, x: Secret)
    ensures RedactAll(s, [x]) == ReplaceAll(s, x)
  {
    assert [x][..0] == [];
    assert RedactAll(s, []) == s;
  }

  /** One secret: redaction is complete on every text exactly when the secret is maskable. */
  lemma CompleteIffMaskable(x: Secret)
    ensures (forall s :: !Contains(RedactAll(s, [x]), x)) <==> Maskable(x)
  {
    if Maskable(x) {
      forall s ensures !Contains(RedactAll(s, [x]), x) {
        RedactOne(s, x);
        SecretGone(s, x);
      }
    } else {
      var s := LeakingText(x);
      RedactOne(s, x);
      assert Contains(RedactAll(s, [x]), x);
    }
  }

  ghost predicate DrawnFrom(picked: seq<Secret>, secrets: set<Secret>) {
    forall x :: x in picked ==> x in secrets
  }

  ghost predicate Complete(picked: seq<Secret>) {
    forall s, x :: x in picked ==> !Contains(RedactAll(s, picked), x)
  }

  ghost predicate AllMaskable(secrets: set<Secret>) {
    forall x :: x in secrets ==> Maskable(x)
  }

  /** Several secrets: every redactor that can be built from them, in any order, is complete exactly
      when each of them is maskable. */
  lemma AllCompleteIffAllMaskable(secrets: set<Secret>)
    ensures (forall picked :: DrawnFrom(picked, secrets) ==> Complete(picked)) <==> AllMaskable(secrets)
  {
    if AllMaskable(secrets) {
      forall picked | DrawnFrom(picked, secrets) ensures Complete(picked) {
        forall s, x | x in picked ensures !Contains(RedactAll(s, picked), x) {
          RedactionComplete(s, picked);
        }
      }
    } else {
      var x :| x in secrets && !Maskable(x);
      assert DrawnFrom([x], secrets);
      CompleteIffMaskable(x);
      var s :| Contains(RedactAll(s, [x]), x);
      assert x in [x];
      assert !Complete([x]);
    }
  }

  // ----- The code -----

  datatype Redactor = Redactor(secrets: seq<Secret>)

  ghost predicate SecretValue(envMaps: seq<map<string, EnvVar>>, x: string) {
    exists m: map<string, EnvVar>, k: string :: m in envMaps && k in m && m[k].secret && m[k].value == x && x != ""
  }

  method NewRedactor(envMaps: seq<map<string, EnvVar>>) returns (r: Redactor)
    ensures forall x: Secret :: x in r.secrets <==> SecretValue(envMaps, x)
  {
    var secrets: seq<Secret> := [];
    for i := 0 to |envMaps|
      invariant forall x: Secret :: x in secrets <==> SecretValue(envMaps[..i], x)
    {
      ghost var before := secrets;
      var m := envMaps[i];
      var keys := m.Keys;
      while keys != {}
        invariant keys <= m.Keys
        invariant forall x: Secret :: x in secrets <==>
          x in before || (exists k :: k in m && k !in keys && m[k].secret && m[k].value == x && x != "")
        decreases |keys|
      {
        var k :| k in keys;
        if m[k].secret && m[k].value != "" {
          secrets := secrets + [m[k].value];
        }
        keys := keys - {k};
      }
      assert envMaps[..i + 1] == envMaps[..i] + [m];
    }
    assert envMaps[..|envMaps|] == envMaps;
    r := Redactor(secrets);
  }

  /** A nil redactor passes text through. */
  method Redact(r: Option<Redactor>, s: string) returns (out: string)
    ensures out == if r.None? then s else RedactAll(s, r.value.secrets)
    ensures r.Some? ==> MaskedByAll(s, r.value.secrets, out)
  {
    if r.Some? {
      RedactMasksAll(s, r.value.secrets);
    }
    if r.None? || |r.value.secrets| == 0 {
      return s;
    }
    out := s;
    var secrets := r.value.secrets;
    for i := 0 to |secrets|
      invariant out == RedactAll(s, secrets[..i])
    {
      assert secrets[..i + 1][..i] == secrets[..i];
      out := ReplaceAll(out, secrets[i]);
    }
    assert secrets[..|secrets|] == secrets;
  }
}
