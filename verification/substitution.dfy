/** Strings with any number of placeholders: the match list of
    `obj[key].match(...)` and the in-sequence `forEach` of replacements, stated
    against an independent description of the text as plain parts with
    placeholders between them. */
module Substitution {
  import opened Results
  import opened JsValue
  import opened KeyPath
  import opened Resolver

  /** `ps[0] + xs[0] + ps[1] + … + xs[n-1] + ps[n]`. */
  function Splice(ps: seq<string>, xs: seq<string>): string
    requires |ps| == |xs| + 1
    decreases |xs|
  {
    if xs == [] then ps[0] else ps[0] + xs[0] + Splice(ps[1..], xs[1..])
  }

  /** The placeholder text `${name}` of each name. */
  function Holes(names: seq<string>): (r: seq<string>)
    ensures |r| == |names|
  {
    if names == [] then [] else ["${" + names[0] + "}"] + Holes(names[1..])
  }

  /** `String(v)` of each value. */
  function Texts(values: seq<Value>): (r: seq<string>)
    ensures |r| == |values|
  {
    if values == [] then [] else [StringOf(values[0])] + Texts(values[1..])
  }

  /** A placeholder name the regular expression matches whole and the
      decoration stripping leaves alone. */
  predicate GoodName(n: string) {
    '$' !in n && '}' !in n && '(' !in n && forall k | 0 <= k < |n| :: !IsLineTerminator(n[k])
  }

  predicate DollarFree(ps: seq<string>) {
    forall i | 0 <= i < |ps| :: '$' !in ps[i]
  }

  predicate GoodNames(names: seq<string>) {
    forall i | 0 <= i < |names| :: GoodName(names[i])
  }

  /** Every name walks to a value that is no function and whose string form has no `$`. */
  predicate WalksTo(names: seq<string>, values: seq<Value>, scope: Value, store: Value)
    requires |names| == |values|
  {
    forall i | 0 <= i < |names| ::
      && Walk(scope, ParseKeyString(names[i]), store) == Ok(values[i])
      && !IsFunction(values[i]) && '$' !in StringOf(values[i])
  }

  lemma {:induction false} HolesStep(names: seq<string>)
    requires names != []
    ensures Holes(names)[0] == "${" + names[0] + "}"
    ensures Holes(names)[1..] == Holes(names[1..])
  {
  }

  lemma {:induction false} TextsStep(values: seq<Value>)
    requires values != []
    ensures Texts(values)[0] == StringOf(values[0])
    ensures Texts(values)[1..] == Texts(values[1..])
  {
  }

  lemma {:induction false} SpliceStep(ps: seq<string>, xs: seq<string>)
    requires |ps| == |xs| + 1 && xs != []
    ensures Splice(ps, xs) == ps[0] + (xs[0] + Splice(ps[1..], xs[1..]))
  {
  }

  lemma {:induction false} TailsKeepProperties(ps: seq<string>, names: seq<string>, values: seq<Value>, scope: Value, store: Value)
    requires |ps| == |names| + 1 && |values| == |names| && names != []
    requires DollarFree(ps) && GoodNames(names) && WalksTo(names, values, scope, store)
    ensures DollarFree(ps[1..]) && GoodNames(names[1..]) && WalksTo(names[1..], values[1..], scope, store)
    ensures '$' !in ps[0] && GoodName(names[0])
    ensures Walk(scope, ParseKeyString(names[0]), store) == Ok(values[0])
    ensures !IsFunction(values[0]) && '$' !in StringOf(values[0])
  {
    assert forall i | 0 <= i < |names| - 1 :: names[1..][i] == names[i + 1] && values[1..][i] == values[i + 1];
  }

  /** The match list of a spliced text is its placeholders, in order. */
  lemma {:induction false} MatchesSpliced(ps: seq<string>, names: seq<string>)
    requires |ps| == |names| + 1
    requires DollarFree(ps) && GoodNames(names)
    ensures Matches(Splice(ps, Holes(names))) == Holes(names)
    decreases |names|
  {
    if names == [] {
      MatchesSkipsPlainPrefix(ps[0], []);
      assert ps[0] + [] == ps[0];
    } else {
      var hole := "${" + names[0] + "}";
      var rest := Splice(ps[1..], Holes(names[1..]));
      HolesStep(names);
      SpliceStep(ps, Holes(names));
      assert '$' !in ps[0] && GoodName(names[0]);
      assert forall i | 0 <= i < |names| - 1 :: names[1..][i] == names[i + 1];
      assert forall i | 0 <= i < |ps| - 1 :: ps[1..][i] == ps[i + 1];
      MatchesSkipsPlainPrefix(ps[0], hole + rest);
      MatchesPlaceholderFirst(names[0], rest);
      MatchesSpliced(ps[1..], names[1..]);
    }
  }

  /** One step of the `forEach`: the first `${name}` after `$`-free text is
      replaced by the string form of the walked value. */
  lemma {:induction false} StepReplaces(pre: string, name: string, tail: string, value: Value, scope: Value, store: Value)
    requires '$' !in pre && GoodName(name)
    requires Walk(scope, ParseKeyString(name), store) == Ok(value)
    requires !IsFunction(value) && '$' !in StringOf(value)
    ensures SubstituteOne(pre + ("${" + name + "}" + tail), "${" + name + "}", scope, store)
         == Ok((pre + StringOf(value)) + tail)
  {
    var hole := "${" + name + "}";
    var cur := pre + (hole + tail);
    assert cur == pre + hole + tail;
    FindAfterPrefix(pre, hole, tail);
    StripPlaceholder(name);
    SubstituteOneReplacesFirst(cur, hole, scope, store, value, |pre|);
    assert cur[..|pre|] == pre;
    assert cur[|pre| + |hole|..] == tail;
  }

  lemma {:induction false} Regroup(done: string, p: string, t: string, rest: string)
    ensures (done + p + t) + rest == done + (p + (t + rest))
  {
  }

  /** The replacements in sequence, from a `$`-free text already rewritten:
      each placeholder becomes its value's string form. */
  lemma {:induction false} SubstituteAllSpliced(done: string, ps: seq<string>, names: seq<string>, values: seq<Value>,
                                                scope: Value, store: Value)
    requires '$' !in done
    requires |ps| == |names| + 1 && |values| == |names|
    requires DollarFree(ps) && GoodNames(names) && WalksTo(names, values, scope, store)
    ensures SubstituteAll(done + Splice(ps, Holes(names)), Holes(names), scope, store)
         == Ok(done + Splice(ps, Texts(values)))
    decreases |names|
  {
    if names != [] {
      TailsKeepProperties(ps, names, values, scope, store);
      var hole := "${" + names[0] + "}";
      var text := StringOf(values[0]);
      var rest := Splice(ps[1..], Holes(names[1..]));
      var pre := done + ps[0];
      HolesStep(names);
      TextsStep(values);
      SpliceStep(ps, Holes(names));
      SpliceStep(ps, Texts(values));
      assert done + Splice(ps, Holes(names)) == pre + (hole + rest);
      StepReplaces(pre, names[0], rest, values[0], scope, store);
      SubstituteAllSpliced(pre + text, ps[1..], names[1..], values[1..], scope, store);
      Regroup(done, ps[0], text, Splice(ps[1..], Texts(values[1..])));
    }
  }

  /** Several placeholders are each resolved against the scope and substituted
      in order: the rewritten string is the plain parts with the values'
      string forms in place of the placeholders. */
  lemma {:induction false} SubstituteSpliced(ps: seq<string>, names: seq<string>, values: seq<Value>, scope: Value, store: Value)
    requires |ps| == |names| + 1 && |values| == |names|
    requires DollarFree(ps) && GoodNames(names) && WalksTo(names, values, scope, store)
    ensures Substitute(Splice(ps, Holes(names)), scope, store) == Ok(Splice(ps, Texts(values)))
  {
    MatchesSpliced(ps, names);
    SubstituteAllSpliced([], ps, names, values, scope, store);
    assert [] + Splice(ps, Holes(names)) == Splice(ps, Holes(names));
    assert [] + Splice(ps, Texts(values)) == Splice(ps, Texts(values));
  }

  /** Two placeholders: each is replaced by its own value, in place. */
  lemma {:induction false} TwoPlaceholders(p0: string, n0: string, p1: string, n1: string, p2: string,
                                           v0: Value, v1: Value, scope: Value, store: Value)
    requires '$' !in p0 && '$' !in p1 && '$' !in p2 && GoodName(n0) && GoodName(n1)
    requires Walk(scope, ParseKeyString(n0), store) == Ok(v0) && !IsFunction(v0) && '$' !in StringOf(v0)
    requires Walk(scope, ParseKeyString(n1), store) == Ok(v1) && !IsFunction(v1) && '$' !in StringOf(v1)
    ensures Substitute(p0 + "${" + n0 + "}" + p1 + "${" + n1 + "}" + p2, scope, store)
         == Ok(p0 + StringOf(v0) + p1 + StringOf(v1) + p2)
  {
    var ps, names, values := [p0, p1, p2], [n0, n1], [v0, v1];
    TwoPremises(p0, n0, p1, n1, p2, v0, v1, scope, store, ps, names, values);
    SubstituteSpliced(ps, names, values, scope, store);
    SpliceHolesTwo(p0, n0, p1, n1, p2, ps, names);
    SpliceTextsTwo(p0, v0, p1, v1, p2, ps, values);
  }

  lemma {:induction false} SpliceHolesTwo(p0: string, n0: string, p1: string, n1: string, p2: string,
                                          ps: seq<string>, names: seq<string>)
    requires ps == [p0, p1, p2] && names == [n0, n1]
    ensures Splice(ps, Holes(names)) == p0 + "${" + n0 + "}" + p1 + "${" + n1 + "}" + p2
  {
    HolesTwo(n0, n1, names);
    TwoSplice(p0, "${" + n0 + "}", p1, "${" + n1 + "}", p2);
  }

  lemma {:induction false} SpliceTextsTwo(p0: string, v0: Value, p1: string, v1: Value, p2: string,
                                          ps: seq<string>, values: seq<Value>)
    requires ps == [p0, p1, p2] && values == [v0, v1]
    ensures Splice(ps, Texts(values)) == p0 + StringOf(v0) + p1 + StringOf(v1) + p2
  {
    TextsTwo(v0, v1, values);
    TwoSplice(p0, StringOf(v0), p1, StringOf(v1), p2);
  }

  lemma {:induction false} TwoPremises(p0: string, n0: string, p1: string, n1: string, p2: string,
                                       v0: Value, v1: Value, scope: Value, store: Value,
                                       ps: seq<string>, names: seq<string>, values: seq<Value>)
    requires ps == [p0, p1, p2] && names == [n0, n1] && values == [v0, v1]
    requires '$' !in p0 && '$' !in p1 && '$' !in p2 && GoodName(n0) && GoodName(n1)
    requires Walk(scope, ParseKeyString(n0), store) == Ok(v0) && !IsFunction(v0) && '$' !in StringOf(v0)
    requires Walk(scope, ParseKeyString(n1), store) == Ok(v1) && !IsFunction(v1) && '$' !in StringOf(v1)
    ensures DollarFree(ps) && GoodNames(names) && WalksTo(names, values, scope, store)
  {
    TwoDollarFree(p0, p1, p2, ps);
    TwoGoodNames(n0, n1, names);
    TwoWalks(n0, n1, v0, v1, scope, store, names, values);
  }

  lemma {:induction false} TwoDollarFree(p0: string, p1: string, p2: string, ps: seq<string>)
    requires ps == [p0, p1, p2] && '$' !in p0 && '$' !in p1 && '$' !in p2
    ensures DollarFree(ps)
  {
  }

  lemma {:induction false} TwoGoodNames(n0: string, n1: string, names: seq<string>)
    requires names == [n0, n1] && GoodName(n0) && GoodName(n1)
    ensures GoodNames(names)
  {
  }

  lemma {:induction false} TwoWalks(n0: string, n1: string, v0: Value, v1: Value, scope: Value, store: Value,
                                    names: seq<string>, values: seq<Value>)
    requires names == [n0, n1] && values == [v0, v1]
    requires Walk(scope, ParseKeyString(n0), store) == Ok(v0) && !IsFunction(v0) && '$' !in StringOf(v0)
    requires Walk(scope, ParseKeyString(n1), store) == Ok(v1) && !IsFunction(v1) && '$' !in StringOf(v1)
    ensures WalksTo(names, values, scope, store)
  {
  }

  lemma {:induction false} HolesTwo(n0: string, n1: string, names: seq<string>)
    requires names == [n0, n1]
    ensures Holes(names) == ["${" + n0 + "}", "${" + n1 + "}"]
  {
    HolesStep(names);
    HolesStep(names[1..]);
    assert names[1..][1..] == [];
  }

  lemma {:induction false} TextsTwo(v0: Value, v1: Value, values: seq<Value>)
    requires values == [v0, v1]
    ensures Texts(values) == [StringOf(v0), StringOf(v1)]
  {
    TextsStep(values);
    TextsStep(values[1..]);
    assert values[1..][1..] == [];
  }

  lemma {:induction false} TwoSplice(p0: string, x0: string, p1: string, x1: string, p2: string)
    ensures Splice([p0, p1, p2], [x0, x1]) == p0 + x0 + p1 + x1 + p2
  {
    var ps, xs := [p0, p1, p2], [x0, x1];
    assert ps[1..] == [p1, p2] && xs[1..] == [x1];
    assert ps[1..][1..] == [p2] && xs[1..][1..] == [];
    assert Splice([p2], []) == p2;
    assert Splice([p1, p2], [x1]) == p1 + x1 + p2;
  }
}
