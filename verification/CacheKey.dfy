/** The text a step's cache key is the hash of (cache/cache.go). */
module CacheKey {
  import opened SortedKeys
  import opened Text
  import Sorting
  import TopoSort

  /** What a step's key is computed from; outputs are those of the steps before it. */
  datatype Inputs = Inputs(stepType: string, env: seq<string>, outputs: map<string, string>, renvLock: string)

  function EnvParts(env: seq<string>): seq<string> {
    seq(|env|, i requires 0 <= i < |env| => "env:" + env[i])
  }

  function OutputPart(outputs: map<string, string>, key: string): string {
    "output:" + key + "=" + if key in outputs then outputs[key] else ""
  }

  function OutputParts(outputs: map<string, string>, keys: seq<string>): seq<string> {
    seq(|keys|, i requires 0 <= i < |keys| => OutputPart(outputs, keys[i]))
  }

  function RenvParts(renvLock: string): seq<string> {
    if renvLock == "" then [] else ["renv:" + renvLock]
  }

  function Parts(x: Inputs, keys: seq<string>): seq<string> {
    [x.stepType] + EnvParts(Sorting.Sort(x.env)) + OutputParts(x.outputs, keys) + RenvParts(x.renvLock)
  }

  ghost predicate EncodesInOrder(x: Inputs, keys: seq<string>, text: string) {
    KeyOrder(x.outputs, keys) && text == Join(Parts(x, keys), '\0')
  }

  /** The text that is hashed for these inputs. */
  ghost predicate Encodes(x: Inputs, text: string) {
    exists keys :: EncodesInOrder(x, keys, text)
  }

  // ----- Computing it -----

  /** sort.Strings. */
  method SortStrings(a: array<string>)
    modifies a
    ensures a[..] == Sorting.Sort(old(a[..]))
  {
    var s := Sorting.Sort(a[..]);
    assert |s| == a.Length by {
      assert |multiset(s)| == |multiset(a[..])|;
    }
    forall i | 0 <= i < a.Length {
      a[i] := s[i];
    }
  }

  method AppendEnv(parts: seq<string>, envVars: array<string>) returns (r: seq<string>)
    ensures r == parts + EnvParts(envVars[..])
  {
    r := parts;
    for i := 0 to envVars.Length
      invariant r == parts + EnvParts(envVars[..])[..i]
    {
      r := r + ["env:" + envVars[i]];
    }
  }

  ghost predicate AppendsOutputs(parts: seq<string>, outputs: map<string, string>, keys: seq<string>, r: seq<string>) {
    KeyOrder(outputs, keys) && r == parts + OutputParts(outputs, keys)
  }

  method AppendOutputs(parts: seq<string>, outputs: map<string, string>) returns (r: seq<string>)
    ensures exists keys :: AppendsOutputs(parts, outputs, keys, r)
  {
    r := parts;
    var sorted := KeysSorted(outputs);
    for i := 0 to |sorted|
      invariant r == parts + OutputParts(outputs, sorted)[..i]
    {
      r := r + [OutputPart(outputs, sorted[i])];
    }
    assert AppendsOutputs(parts, outputs, sorted, r);
  }

  /** Sorts the caller's variables in place and returns the text to hash. */
  method ComputeStepKey(stepType: string, envVars: array<string>, outputs: map<string, string>, renvLock: string)
      returns (text: string)
    modifies envVars
    ensures Encodes(Inputs(stepType, old(envVars[..]), outputs, renvLock), text)
    ensures envVars[..] == Sorting.Sort(old(envVars[..]))
  {
    ghost var x := Inputs(stepType, envVars[..], outputs, renvLock);
    SortStrings(envVars);
    var head := AppendEnv([stepType], envVars);
    var parts := AppendOutputs(head, outputs);
    ghost var keys :| AppendsOutputs(head, outputs, keys, parts);
    if renvLock != "" {
      parts := parts + ["renv:" + renvLock];
    }
    assert parts == Parts(x, keys);
    text := Join(parts, '\0');
    assert EncodesInOrder(x, keys, text);
  }

  // ----- The text is canonical -----

  ghost predicate Same(x: Inputs, y: Inputs) {
    x.stepType == y.stepType && multiset(x.env) == multiset(y.env) && x.outputs == y.outputs && x.renvLock == y.renvLock
  }

  /** Reordering the variables, or iterating the outputs in another order, does not change the text. */
  lemma EncodingIgnoresOrder(x: Inputs, y: Inputs, a: string, b: string)
    requires Same(x, y) && Encodes(x, a) && Encodes(y, b)
    ensures a == b
  {
    var p :| EncodesInOrder(x, p, a);
    var q :| EncodesInOrder(y, q, b);
    KeyOrderUnique(x.outputs, p, q);
    Sorting.SortCanonical(x.env, y.env);
  }

  /** Nothing contains a NUL, and the output keys are among these. */
  ghost predicate PlainIn(x: Inputs, keys: set<string>) {
    && '\0' !in x.stepType && '\0' !in x.renvLock
    && Free(x.env, '\0')
    && forall k :: k in x.outputs ==> k in keys && '\0' !in k && '\0' !in x.outputs[k]
  }

  /** The longer key could be read as the shorter one, its '=' and the start of its value. */
  predicate Extends(longer: string, shorter: string) {
    shorter + "=" <= longer
  }

  ghost predicate Unambiguous(keys: set<string>) {
    forall k, l :: k in keys && l in keys ==> !Extends(l, k)
  }

  /** The parts that start with this character. */
  function Tagged(parts: seq<string>, tag: char): seq<string> {
    if parts == [] then []
    else (if parts[0] != "" && parts[0][0] == tag then [parts[0]] else []) + Tagged(parts[1..], tag)
  }

  predicate AllTagged(parts: seq<string>, tag: char) {
    forall i :: 0 <= i < |parts| ==> parts[i] != "" && parts[i][0] == tag
  }

  lemma {:induction false} TaggedAppend(a: seq<string>, b: seq<string>, tag: char)
    ensures Tagged(a + b, tag) == Tagged(a, tag) + Tagged(b, tag)
  {
    if a == [] {
      assert a + b == b;
    } else {
      assert (a + b)[1..] == a[1..] + b;
      TaggedAppend(a[1..], b, tag);
    }
  }

  lemma {:induction false} TaggedAll(parts: seq<string>, tag: char, wanted: char)
    requires AllTagged(parts, tag)
    ensures Tagged(parts, wanted) == if tag == wanted then parts else []
  {
    if parts != [] {
      assert parts[0][0] == tag;
      TaggedAll(parts[1..], tag, wanted);
      assert [parts[0]] + parts[1..] == parts;
    }
  }

  lemma TaggedParts(x: Inputs, keys: seq<string>, tag: char)
    requires tag in "eor"
    ensures Parts(x, keys)[0] == x.stepType
    ensures Tagged(Parts(x, keys)[1..], tag) ==
      if tag == 'e' then EnvParts(Sorting.Sort(x.env))
      else if tag == 'o' then OutputParts(x.outputs, keys)
      else RenvParts(x.renvLock)
  {
    var env, out, renv := EnvParts(Sorting.Sort(x.env)), OutputParts(x.outputs, keys), RenvParts(x.renvLock);
    assert Parts(x, keys)[1..] == env + out + renv;
    TaggedThree(env, out, renv, tag);
  }

  lemma TaggedThree(env: seq<string>, out: seq<string>, renv: seq<string>, tag: char)
    requires tag in "eor" && AllTagged(env, 'e') && AllTagged(out, 'o') && AllTagged(renv, 'r')
    ensures Tagged(env + out + renv, tag) == if tag == 'e' then env else if tag == 'o' then out else renv
  {
    TaggedAppend(env + out, renv, tag);
    TaggedAppend(env, out, tag);
    TaggedAll(env, 'e', tag);
    TaggedAll(out, 'o', tag);
    TaggedAll(renv, 'r', tag);
  }

  lemma EnvFromParts(a: seq<string>, b: seq<string>)
    requires EnvParts(a) == EnvParts(b)
    ensures a == b
  {
    assert |a| == |EnvParts(a)| == |b|;
    forall i | 0 <= i < |a|
      ensures a[i] == b[i]
    {
      assert EnvParts(a)[i] == "env:" + a[i] && EnvParts(b)[i] == "env:" + b[i];
      assert ("env:" + a[i])[4..] == a[i] && ("env:" + b[i])[4..] == b[i];
    }
  }

  lemma AssignmentDecodes(k: string, v: string, l: string, w: string)
    requires !Extends(k, l) && !Extends(l, k) && "output:" + k + "=" + v == "output:" + l + "=" + w
    ensures k == l && v == w
  {
    var s, t := "output:" + k + "=" + v, "output:" + l + "=" + w;
    assert s[7..] == k + "=" + v && t[7..] == l + "=" + w;
    KeyFromAssignment(k, v, l, w, s[7..]);
  }

  lemma KeyFromAssignment(k: string, v: string, l: string, w: string, s: string)
    requires !Extends(k, l) && !Extends(l, k) && s == k + "=" + v && s == l + "=" + w
    ensures k == l && v == w
  {
    assert s[..|k|] == k && s[..|k| + 1] == k + "=" && s[|k| + 1..] == v;
    assert s[..|l|] == l && s[..|l| + 1] == l + "=" && s[|l| + 1..] == w;
  }

  lemma OutputsFromParts(keys: set<string>, x: Inputs, p: seq<string>, y: Inputs, q: seq<string>)
    requires Unambiguous(keys) && PlainIn(x, keys) && PlainIn(y, keys)
    requires KeyOrder(x.outputs, p) && KeyOrder(y.outputs, q)
    requires OutputParts(x.outputs, p) == OutputParts(y.outputs, q)
    ensures x.outputs == y.outputs
  {
    assert |p| == |OutputParts(x.outputs, p)| == |q|;
    forall i | 0 <= i < |p|
      ensures p[i] == q[i] && p[i] in x.outputs && p[i] in y.outputs && x.outputs[p[i]] == y.outputs[p[i]]
    {
      assert p[i] in TopoSort.Elements(p) && q[i] in TopoSort.Elements(q);
      assert OutputParts(x.outputs, p)[i] == OutputParts(y.outputs, q)[i];
      AssignmentDecodes(p[i], x.outputs[p[i]], q[i], y.outputs[q[i]]);
    }
    assert p == q;
    forall k | k in x.outputs
      ensures k in y.outputs && x.outputs[k] == y.outputs[k]
    {
      assert k in TopoSort.Elements(p);
    }
  }

  lemma PartsFree(x: Inputs, keys: seq<string>, all: set<string>)
    requires PlainIn(x, all) && KeyOrder(x.outputs, keys)
    ensures Free(Parts(x, keys), '\0')
  {
    var env := Sorting.Sort(x.env);
    forall i | 0 <= i < |env|
      ensures '\0' !in env[i]
    {
      assert env[i] in multiset(env);
      assert env[i] in x.env;
    }
    assert Free(EnvParts(env), '\0');
    forall i | 0 <= i < |keys|
      ensures '\0' !in OutputPart(x.outputs, keys[i])
    {
      assert keys[i] in TopoSort.Elements(keys);
    }
    assert Free(OutputParts(x.outputs, keys), '\0');
  }

  lemma RenvFromParts(a: string, b: string)
    requires RenvParts(a) == RenvParts(b)
    ensures a == b
  {
    if a != "" && b != "" {
      assert RenvParts(a)[0][5..] == a && RenvParts(b)[0][5..] == b;
    }
  }

  lemma InputsFromText(keys: set<string>, x: Inputs, y: Inputs, text: string)
    requires Unambiguous(keys) && PlainIn(x, keys) && PlainIn(y, keys) && Encodes(x, text) && Encodes(y, text)
    ensures Same(x, y)
  {
    var p :| EncodesInOrder(x, p, text);
    var q :| EncodesInOrder(y, q, text);
    PartsFree(x, p, keys);
    PartsFree(y, q, keys);
    JoinInjective(Parts(x, p), Parts(y, q), '\0');
    TaggedParts(x, p, 'e');
    TaggedParts(y, q, 'e');
    EnvFromParts(Sorting.Sort(x.env), Sorting.Sort(y.env));
    TaggedParts(x, p, 'o');
    TaggedParts(y, q, 'o');
    OutputsFromParts(keys, x, p, y, q);
    TaggedParts(x, p, 'r');
    TaggedParts(y, q, 'r');
    RenvFromParts(x.renvLock, y.renvLock);
  }

  /** With a collision-free hash, two plain inputs share a key exactly when they are the same up to order. */
  lemma KeysAreCanonical(sha: string -> string, keys: set<string>, x: Inputs, y: Inputs, a: string, b: string)
    requires forall s, t :: sha(s) == sha(t) ==> s == t
    requires Unambiguous(keys) && PlainIn(x, keys) && PlainIn(y, keys) && Encodes(x, a) && Encodes(y, b)
    ensures sha(a) == sha(b) <==> Same(x, y)
  {
    if sha(a) == sha(b) {
      InputsFromText(keys, x, y, a);
    }
    if Same(x, y) {
      EncodingIgnoresOrder(x, y, a, b);
    }
  }

  /** The hashed text in full, for one variable, one output and a lock file; without a lock file the last part is missing. */
  lemma TextInFull(stepType: string, a: string, k: string, v: string, renvLock: string, text: string)
    requires Encodes(Inputs(stepType, [a], map[k := v], renvLock), text)
    ensures text == stepType + ("\0" + (("env:" + a) + ("\0" + (("output:" + k + "=" + v) +
      if renvLock == "" then "" else "\0" + ("renv:" + renvLock)))))
  {
    var x := Inputs(stepType, [a], map[k := v], renvLock);
    var keys :| EncodesInOrder(x, keys, text);
    assert x.outputs.Keys == {k};
    SingleKey(x.outputs, k);
    KeyOrderUnique(x.outputs, keys, [k]);
    SortOne(a);
    var parts := [stepType, "env:" + a, "output:" + k + "=" + v] + RenvParts(renvLock);
    assert Parts(x, keys) == parts;
    JoinFour(stepType, "env:" + a, "output:" + k + "=" + v, RenvParts(renvLock));
  }

  lemma JoinFour(a: string, b: string, c: string, rest: seq<string>)
    requires |rest| <= 1
    ensures Join([a, b, c] + rest, '\0') ==
      a + ("\0" + (b + ("\0" + (c + if rest == [] then "" else "\0" + rest[0]))))
  {
    JoinFirst(a, [b, c] + rest);
    JoinFirst(b, [c] + rest);
    assert [a] + ([b, c] + rest) == [a, b, c] + rest && [b] + ([c] + rest) == [b, c] + rest;
    if rest == [] {
      assert [c] + rest == [c];
    } else {
      JoinFirst(c, rest);
    }
  }

  lemma JoinFirst(a: string, rest: seq<string>)
    requires rest != []
    ensures Join([a] + rest, '\0') == a + ("\0" + Join(rest, '\0'))
  {
    assert ([a] + rest)[1..] == rest;
  }

  // ----- Inputs that collide -----

  ghost predicate Collide(x: Inputs, y: Inputs) {
    !Same(x, y) && exists text :: Encodes(x, text) && Encodes(y, text)
  }

  lemma SingleKey(m: map<string, string>, k: string)
    requires m.Keys == {k}
    ensures KeyOrder(m, [k])
  {
    Sorting.Total(k, k);
  }

  lemma OneOutput(x: Inputs, k: string, v: string, part: string)
    requires x.env == [] && x.renvLock == "" && x.outputs == map[k := v] && part == "output:" + k + "=" + v
    ensures Encodes(x, Join([x.stepType, part], '\0'))
  {
    assert x.outputs.Keys == {k};
    SingleKey(x.outputs, k);
    assert Sorting.Sort(x.env) == [];
    assert Parts(x, [k]) == [x.stepType, part];
    assert EncodesInOrder(x, [k], Join([x.stepType, part], '\0'));
  }

  /** An '=' in an output key can be taken for the one that ends a shorter key. */
  lemma EqualsSignCollides(stepType: string, a: string, b: string, c: string)
    ensures Collide(Inputs(stepType, [], map[a := b + "=" + c], ""), Inputs(stepType, [], map[a + "=" + b := c], ""))
  {
    var x, y := Inputs(stepType, [], map[a := b + "=" + c], ""), Inputs(stepType, [], map[a + "=" + b := c], "");
    var part := "output:" + a + "=" + (b + "=" + c);
    OneOutput(x, a, b + "=" + c, part);
    assert part == "output:" + (a + "=" + b) + "=" + c;
    OneOutput(y, a + "=" + b, c, part);
    assert |a| != |a + "=" + b|;
    assert a in x.outputs && a !in y.outputs;
  }

  /** No two plain inputs with these output keys collide. */
  ghost predicate Canonical(keys: set<string>) {
    forall x, y :: PlainIn(x, keys) && PlainIn(y, keys) ==> !Collide(x, y)
  }

  /** NUL-free output keys are safe exactly when none of them is another one followed by an '=' and more; in
      particular when none contains an '='. */
  lemma CanonicalIffUnambiguous(keys: set<string>)
    requires forall k :: k in keys ==> '\0' !in k
    ensures Canonical(keys) <==> Unambiguous(keys)
    ensures (forall k :: k in keys ==> '=' !in k) ==> Unambiguous(keys)
  {
    if Unambiguous(keys) {
      forall x, y | PlainIn(x, keys) && PlainIn(y, keys)
        ensures !Collide(x, y)
      {
        NoCollision(keys, x, y);
      }
    } else {
      var k, l :| k in keys && l in keys && Extends(l, k);
      KeyCollision(keys, k, l);
    }
    if exists k, l :: k in keys && l in keys && Extends(l, k) {
      var k, l :| k in keys && l in keys && Extends(l, k);
      assert l[|k|] == '=';
    }
  }

  lemma NoCollision(keys: set<string>, x: Inputs, y: Inputs)
    requires Unambiguous(keys) && PlainIn(x, keys) && PlainIn(y, keys)
    ensures !Collide(x, y)
  {
    if text :| Encodes(x, text) && Encodes(y, text) {
      InputsFromText(keys, x, y, text);
    }
  }

  lemma KeyCollision(keys: set<string>, k: string, l: string)
    requires k in keys && l in keys && Extends(l, k) && '\0' !in k && '\0' !in l
    ensures !Canonical(keys)
  {
    var r := l[|k| + 1..];
    assert l == k + "=" + r;
    EqualsSignCollides("", k, r, "");
    var x, y := Inputs("", [], map[k := r + "=" + ""], ""), Inputs("", [], map[k + "=" + r := ""], "");
    assert PlainIn(x, keys) && PlainIn(y, keys);
  }

  lemma OneVariable(x: Inputs, a: string)
    requires x.outputs == map[] && x.renvLock == "" && x.env == [a]
    ensures Encodes(x, x.stepType + "\0" + ("env:" + a))
  {
    SortOne(a);
    assert EnvParts([a]) == ["env:" + a];
    assert Parts(x, []) == [x.stepType, "env:" + a];
    JoinTwo(x.stepType, "env:" + a);
    assert EncodesInOrder(x, [], x.stepType + "\0" + ("env:" + a));
  }

  lemma TwoVariables(x: Inputs, a: string, b: string)
    requires x.outputs == map[] && x.renvLock == "" && x.env == [a, b] && Sorting.LessEq(a, b)
    ensures Encodes(x, x.stepType + "\0" + (("env:" + a) + "\0" + ("env:" + b)))
  {
    SortTwo(a, b);
    assert EnvParts([a, b]) == ["env:" + a, "env:" + b];
    assert Parts(x, []) == [x.stepType, "env:" + a, "env:" + b];
    JoinThree(x.stepType, "env:" + a, "env:" + b);
    assert EncodesInOrder(x, [], x.stepType + "\0" + (("env:" + a) + "\0" + ("env:" + b)));
  }

  /** A NUL inside a variable can be taken for the separator. */
  lemma NulCollides(stepType: string, a: string, b: string)
    requires Sorting.LessEq(a, b)
    ensures Collide(Inputs(stepType, [a + "\0env:" + b], map[], ""), Inputs(stepType, [a, b], map[], ""))
  {
    var ab := a + "\0env:" + b;
    var x, y := Inputs(stepType, [ab], map[], ""), Inputs(stepType, [a, b], map[], "");
    OneVariable(x, ab);
    TwoVariables(y, a, b);
    NulText(a, b);
    DifferentSizes([ab], [a, b]);
    assert Encodes(x, stepType + "\0" + ("env:" + ab));
    assert Encodes(y, stepType + "\0" + ("env:" + ab));
  }

  lemma NulText(a: string, b: string)
    ensures "env:" + (a + "\0env:" + b) == ("env:" + a) + "\0" + ("env:" + b)
  {
    assert "\0env:" == "\0" + "env:";
  }

  lemma DifferentSizes(p: seq<string>, q: seq<string>)
    requires |p| != |q|
    ensures multiset(p) != multiset(q)
  {
    assert |multiset(p)| == |p| && |multiset(q)| == |q|;
  }

  lemma SortOne(a: string)
    ensures Sorting.Sort([a]) == [a]
  {
  }

  lemma SortTwo(a: string, b: string)
    requires Sorting.LessEq(a, b)
    ensures Sorting.Sort([a, b]) == [a, b]
  {
    assert [a, b][1..] == [b];
    SortOne(b);
  }

  lemma JoinTwo(a: string, b: string)
    ensures Join([a, b], '\0') == a + "\0" + b
  {
    assert [a, b][1..] == [b];
  }

  lemma JoinThree(a: string, b: string, c: string)
    ensures Join([a, b, c], '\0') == a + "\0" + (b + "\0" + c)
  {
    assert [a, b, c][1..] == [b, c];
    JoinTwo(b, c);
  }

  predicate Over(s: string, alphabet: set<char>) {
    forall c :: c in s ==> c in alphabet
  }

  /** Everything is written in these characters, and no output key contains an '='. */
  ghost predicate InputsOver(x: Inputs, alphabet: set<char>) {
    && Over(x.stepType, alphabet) && Over(x.renvLock, alphabet)
    && (forall i :: 0 <= i < |x.env| ==> Over(x.env[i], alphabet))
    && (forall k :: k in x.outputs ==> Over(k, alphabet) && '=' !in k && Over(x.outputs[k], alphabet))
  }

  /** In any alphabet in which the tag of a variable can be written, inputs never collide exactly when NUL is not one
      of its characters. */
  lemma CanonicalIffNoNul(alphabet: set<char>)
    requires Over("env:", alphabet)
    ensures (forall x, y :: InputsOver(x, alphabet) && InputsOver(y, alphabet) ==> !Collide(x, y)) <==>
      '\0' !in alphabet
  {
    if '\0' in alphabet {
      NulCollides("", "", "");
      NulText("", "");
      var x, y := Inputs("", ["" + "\0env:" + ""], map[], ""), Inputs("", ["", ""], map[], "");
      assert Over("\0env:", alphabet) by { assert "\0env:" == "\0" + "env:"; }
      assert "" + "\0env:" + "" == "\0env:";
      assert InputsOver(x, alphabet) && InputsOver(y, alphabet) && Collide(x, y);
    } else {
      forall x, y | InputsOver(x, alphabet) && InputsOver(y, alphabet)
        ensures !Collide(x, y)
      {
        var keys := x.outputs.Keys + y.outputs.Keys;
        CanonicalIffUnambiguous(keys);
        assert PlainIn(x, keys) && PlainIn(y, keys);
      }
    }
  }

  /** Any text that is hashed is also the text of an input that is nothing but a step type. */
  lemma BareStepTypeCollides(x: Inputs, text: string)
    requires Encodes(x, text) && !(x.env == [] && x.outputs == map[] && x.renvLock == "")
    ensures Collide(x, Inputs(text, [], map[], ""))
  {
    var bare := Inputs(text, [], map[], "");
    assert Sorting.Sort(bare.env) == [];
    assert KeyOrder(bare.outputs, []);
    assert Parts(bare, []) == [text];
    assert EncodesInOrder(bare, [], text);
    if multiset(x.env) == multiset(bare.env) {
      assert |multiset(x.env)| == |x.env|;
    }
  }
}
