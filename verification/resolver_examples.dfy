/** Worked instances of placeholder substitution.
    The example texts and scopes are parameters fixed by a `requires`, so
    that the solver reasons about one named value instead of unfolding the
    literal at every step. */
module ResolverExamples {
  import opened Results
  import opened Text
  import opened JsValue
  import opened KeyPath
  import opened Defaults
  import opened Resolver

  /** A whole string that is one prefix, one `${name}` placeholder and no `$`
      elsewhere: the placeholder is replaced by the walked value's string form. */
  lemma SinglePlaceholderSubstituted(pre: string, name: string, path: seq<string>, scope: Value, store: Value, value: Value)
    requires '$' !in pre && '$' !in name && '}' !in name && '(' !in name
    requires forall k | 0 <= k < |name| :: !IsLineTerminator(name[k])
    requires ParseKeyString(name) == path
    requires Walk(scope, path, store) == Ok(value)
    requires !IsFunction(value) && '$' !in StringOf(value)
    ensures Substitute(pre + "${" + name + "}", scope, store) == Ok(pre + StringOf(value))
  {
    var m := "${" + name + "}";
    var s := pre + m;
    assert pre + "${" + name + "}" == s;
    OnePlaceholder(pre, name, []);
    assert pre + "${" + name + "}" + [] == s;
    StripPlaceholder(name);
    assert s == pre + m + [];
    FindAfterPrefix(pre, m, []);
    SubstituteOneReplacesFirst(s, m, scope, store, value, |pre|);
    var text := StringOf(value);
    assert s[..|pre|] + text + s[|pre| + |m|..] == pre + text by {
      assert s[..|pre|] == pre;
      assert s[|pre| + |m|..] == [];
    }
    SubstituteSingle(s, m, scope, store);
  }

  /** `user.name` splits at its dot. */
  lemma UserNamePath(name: string)
    requires name == "user.name"
    ensures ParseKeyString(name) == ["user", "name"]
  {
    var parts := ["user", "name"];
    assert '[' !in name;
    NoBracketsUnchanged(name);
    assert Join(parts[1..], ".") == "name";
    assert Join(parts, ".") == name;
    assert '.' !in parts[0] && '.' !in parts[1];
    ParseOfParts(name, parts);
  }

  /** The example scope's `user.name` is `"Ann"`. */
  lemma UserNameWalk(scope: Value, store: Value)
    requires scope == Obj(map["user" := Obj(map["name" := Str("Ann")])])
    ensures Walk(scope, ["user", "name"], store) == Ok(Str("Ann"))
  {
  }

  /** The greeting's prefix and name meet the single-placeholder lemma's demands. */
  lemma GreetingTextShape(pre: string, name: string)
    requires pre == "Hello " && name == "user.name"
    ensures '$' !in pre && '$' !in name && '}' !in name && '(' !in name
    ensures forall k | 0 <= k < |name| :: !IsLineTerminator(name[k])
    ensures pre + "Ann" == "Hello Ann"
  {
  }

  /** `"Hello ${user.name}"` with scope `{user: {name: "Ann"}}` becomes `"Hello Ann"`. */
  lemma GreetingSubstituted(pre: string, name: string, scope: Value, store: Value)
    requires pre == "Hello " && name == "user.name"
    requires scope == Obj(map["user" := Obj(map["name" := Str("Ann")])])
    ensures Substitute(pre + "${" + name + "}", scope, store) == Ok("Hello Ann")
  {
    UserNamePath(name);
    UserNameWalk(scope, store);
    GreetingTextShape(pre, name);
    SinglePlaceholderSubstituted(pre, name, ["user", "name"], scope, store, Str("Ann"));
  }

  /** A placeholder whose path is missing from the scope becomes the text `undefined`. */
  lemma MissingPathBecomesUndefined(pre: string, name: string, store: Value)
    requires pre == "Hi " && name == "nobody"
    ensures Substitute(pre + "${" + name + "}", Obj(map[]), store) == Ok("Hi undefined")
  {
    MissingTextShape(pre, name);
    PlainName(name);
    MissingNameIsUndefined(map[], [name], store);
    SinglePlaceholderSubstituted(pre, name, [name], Obj(map[]), store, Undefined);
  }

  /** The missing-path text's prefix and name meet the same demands. */
  lemma MissingTextShape(pre: string, name: string)
    requires pre == "Hi " && name == "nobody"
    ensures '$' !in pre && '$' !in name && '}' !in name && '(' !in name
    ensures '.' !in name && '[' !in name
    ensures forall k | 0 <= k < |name| :: !IsLineTerminator(name[k])
    ensures pre + StringOf(Undefined) == "Hi undefined"
  {
  }

  /** The same text as a member of an object is rewritten by the resolver. */
  lemma GreetingResolved(text: string, scope: Value, store: Value)
    requires text == "Hello " + "${" + "user.name" + "}"
    requires scope == Obj(map["user" := Obj(map["name" := Str("Ann")])])
    ensures Resolve(Obj(map["greeting" := Str(text)]), scope, store) == Ok(Obj(map["greeting" := Str("Hello Ann")]))
  {
    GreetingSubstituted("Hello ", "user.name", scope, store);
    assert ResolveMember(Str(text), scope, store) == Ok(Str("Hello Ann"));
    SingleMemberObject("greeting", Str(text), scope, store);
  }

  /** A string that is not inside an object is returned as it is: only members are rewritten. */
  lemma TopLevelStringKept(text: string, scope: Value, store: Value)
    requires text == "Hello " + "${" + "user.name" + "}"
    ensures Resolve(Str(text), scope, store) == Ok(Str(text))
  {
  }

  /** A member function is called exactly once: a function it returns stays. */
  lemma MemberCalledOnce(store: Value)
    ensures Resolve(Obj(map["k" := Thunk(Thunk(Str("a")))]), Undefined, store)
         == Ok(Obj(map["k" := Thunk(Str("a"))]))
  {
    SingleMemberObject("k", Thunk(Thunk(Str("a"))), Obj(map[]), store);
  }
}
