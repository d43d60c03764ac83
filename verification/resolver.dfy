/** `resolveFunctionsAndVars` of HypeXAPI.js: forces functions and rewrites the
    `${path}` placeholders in the string members of a value tree, reading the
    paths from a variable scope. The source mutates the tree in place; the
    model returns the rewritten tree instead. */
module Resolver {
  import opened Results
  import opened Text
  import opened JsValue
  import opened KeyPath
  import opened Defaults

  /** The characters JavaScript's `.` in a regular expression does not match. */
  predicate IsLineTerminator(c: char) {
    c == '\n' || c == '\r' || c == '\U{2028}' || c == '\U{2029}'
  }

  /** Index of the first `}` or line terminator at or after `from`, or |s|. */
  function CloseIndex(s: string, from: nat): (j: nat)
    requires from <= |s|
    ensures from <= j <= |s|
    ensures forall k | from <= k < j :: s[k] != '}' && !IsLineTerminator(s[k])
    ensures j < |s| ==> s[j] == '}' || IsLineTerminator(s[j])
    decreases |s| - from
  {
    if from == |s| || s[from] == '}' || IsLineTerminator(s[from]) then from
    else CloseIndex(s, from + 1)
  }

  /** A placeholder as `/\$\{(.*?)\}/` matches it: `${`, a body free of `}`
      and line terminators, `}`. */
  predicate IsPlaceholder(m: string) {
    && |m| >= 3 && m[0] == '$' && m[1] == '{' && m[|m| - 1] == '}'
    && forall k | 2 <= k < |m| - 1 :: m[k] != '}' && !IsLineTerminator(m[k])
  }

  /** The texts `s.match(/\$\{(.*?)\}/g)` returns, left to right. */
  function Matches(s: string): (ms: seq<string>)
    ensures forall i | 0 <= i < |ms| :: IsPlaceholder(ms[i])
    decreases |s|
  {
    if |s| < 2 then []
    else if s[0] == '$' && s[1] == '{' then
      var j := CloseIndex(s, 2);
      if j < |s| && s[j] == '}' then [s[..j + 1]] + Matches(s[j + 1..])
      else Matches(s[1..])
    else Matches(s[1..])
  }

  /** `m.replace(/\$\{|\}|\(\)/g, '')`: drops every `${`, `}` and `()`. */
  function StripDecorations(m: string): (r: string)
    ensures |r| <= |m|
    decreases |m|
  {
    if |m| >= 2 && m[0] == '$' && m[1] == '{' then StripDecorations(m[2..])
    else if |m| >= 1 && m[0] == '}' then StripDecorations(m[1..])
    else if |m| >= 2 && m[0] == '(' && m[1] == ')' then StripDecorations(m[2..])
    else if m == [] then []
    else [m[0]] + StripDecorations(m[1..])
  }

  /** The walk of a placeholder path through the scope: each step reads one
      property and calls the result once if it is a function; undefined ends
      the walk early, null makes the next read throw. */
  function Walk(v: Value, path: seq<string>, store: Value): (r: Result<Value, Error>)
    ensures v.Undefined? || path == [] ==> r == Ok(v)
    ensures r.Err? ==> r.error == TypeError
    decreases |path|
  {
    if v.Undefined? || path == [] then Ok(v)
    else
      var next :- Get(v, path[0]);
      var stepped :- if IsFunction(next) then Call(next, store) else Ok(next);
      Walk(stepped, path[1..], store)
  }

  /** The second argument of `String.prototype.replace`: a string, or a
      function whose (already converted) result is used as it stands. */
  datatype Replacement = Literal(text: string) | Computed(text: string)

  /** The `$` patterns of a replacement string when the pattern is a plain
      string (no capture groups): `$$`, `$&`, `` $` `` and `$'`. */
  function ExpandDollars(t: string, matched: string, before: string, after: string): (r: string)
    ensures '$' !in t ==> r == t
    decreases |t|
  {
    if t == [] then []
    else if t[0] == '$' && |t| >= 2 && t[1] == '$' then "$" + ExpandDollars(t[2..], matched, before, after)
    else if t[0] == '$' && |t| >= 2 && t[1] == '&' then matched + ExpandDollars(t[2..], matched, before, after)
    else if t[0] == '$' && |t| >= 2 && t[1] == '`' then before + ExpandDollars(t[2..], matched, before, after)
    else if t[0] == '$' && |t| >= 2 && t[1] == '\'' then after + ExpandDollars(t[2..], matched, before, after)
    else
      assert t == [t[0]] + t[1..];
      [t[0]] + ExpandDollars(t[1..], matched, before, after)
  }

  /** `s.replace(pat, rep)` with a string pattern: only the first occurrence changes. */
  function ReplaceFirst(s: string, pat: string, rep: Replacement): (r: string)
    ensures FindSub(s, pat).None? ==> r == s
    ensures FindSub(s, pat).Some? && rep.Computed? ==>
      var i := FindSub(s, pat).value; r == s[..i] + rep.text + s[i + |pat|..]
  {
    match FindSub(s, pat)
    case None => s
    case Some(i) =>
      var text := if rep.Literal? then ExpandDollars(rep.text, pat, s[..i], s[i + |pat|..]) else rep.text;
      s[..i] + text + s[i + |pat|..]
  }

  /** One step of the `matches.forEach`: walk the placeholder's path, then
      replace the first occurrence of the placeholder text by the value found. */
  function SubstituteOne(cur: string, m: string, scope: Value, store: Value): (r: Result<string, Error>)
    ensures r.Err? ==> r.error == TypeError
    ensures Walk(scope, ParseKeyString(StripDecorations(m)), store).Err? ==> r.Err?
    ensures r.Ok? && FindSub(cur, m).None? ==> r == Ok(cur)
  {
    var value :- Walk(scope, ParseKeyString(StripDecorations(m)), store);
    if FindSub(cur, m).None? then Ok(cur)
    else if IsFunction(value) then
      var res :- Call(value, store);
      Ok(ReplaceFirst(cur, m, Computed(StringOf(res))))
    else Ok(ReplaceFirst(cur, m, Literal(StringOf(value))))
  }

  function SubstituteAll(cur: string, ms: seq<string>, scope: Value, store: Value): (r: Result<string, Error>)
    ensures ms == [] ==> r == Ok(cur)
    ensures r.Err? ==> r.error == TypeError
    decreases |ms|
  {
    if ms == [] then Ok(cur)
    else
      var next :- SubstituteOne(cur, ms[0], scope, store);
      SubstituteAll(next, ms[1..], scope, store)
  }

  /** The rewriting of one string member. */
  function Substitute(s: string, scope: Value, store: Value): (r: Result<string, Error>)
    ensures Matches(s) == [] ==> r == Ok(s)
    ensures r.Err? ==> r.error == TypeError
  {
    SubstituteAll(s, Matches(s), scope, store)
  }

  /** The treatment of one member `obj[key]` of an object or array. */
  function ResolveMember(v: Value, scope: Value, store: Value): (r: Result<Value, Error>)
    ensures r.Err? ==> r.error == TypeError
    ensures r.Ok? && v.Thunk? ==> r.value == v.result
    ensures r.Ok? && IsObjectType(v) ==> IsObjectType(r.value)
    ensures v.Undefined? || v.Bool? || v.Num? ==> r == Ok(v)
    ensures r.Ok? && v.Str? ==> r.value.Str?
    decreases v, 1
  {
    match v
    case Obj(_) => ResolveTree(v, scope, store)
    case Arr(_) => ResolveTree(v, scope, store)
    case Null => Ok(Null)
    case Thunk(_) => Call(v, store)
    case DefaultActorGetter => Call(v, store)
    case Str(s) =>
      var t :- Substitute(s, scope, store);
      Ok(Str(t))
    case _ => Ok(v)
  }

  /** The `for (var key in obj)` loop over an object, an array or null. */
  function ResolveTree(v: Value, scope: Value, store: Value): (r: Result<Value, Error>)
    requires IsObjectType(v)
    ensures r.Err? ==> r.error == TypeError
    ensures r.Ok? && v.Obj? ==> r.value.Obj? && r.value.fields.Keys == v.fields.Keys
    ensures r.Ok? && v.Arr? ==> r.value.Arr? && |r.value.elems| == |v.elems|
    ensures v.Null? ==> r == Ok(Null)
    decreases v, 0
  {
    match v
    case Obj(m) =>
      if exists k | k in m :: ResolveMember(m[k], scope, store).Err? then Err(TypeError)
      else Ok(Obj(map k | k in m :: ResolveMember(m[k], scope, store).value))
    case Arr(xs) =>
      var ys :- ResolveElems(xs, scope, store);
      Ok(Arr(ys))
    case Null => Ok(Null)
  }

  /** Array members, in index order; the first failure ends the loop. */
  function ResolveElems(xs: seq<Value>, scope: Value, store: Value): (r: Result<seq<Value>, Error>)
    ensures r.Err? ==> r.error == TypeError
    ensures r.Ok? ==> |r.value| == |xs|
    ensures r.Ok? ==> forall i | 0 <= i < |xs| :: ResolveMember(xs[i], scope, store) == Ok(r.value[i])
    decreases xs, 2
  {
    if xs == [] then Ok([])
    else
      var head :- ResolveMember(xs[0], scope, store);
      var tail :- ResolveElems(xs[1..], scope, store);
      Ok([head] + tail)
  }

  /** `resolveFunctionsAndVars(obj, lookup)`: force `obj` until it is no
      function, then, if it is an object, rewrite its members with
      `lookup || {}` as the scope. */
  function Resolve(v: Value, lookup: Value, store: Value): (r: Result<Value, Error>)
    ensures r.Ok? ==> !IsFunction(r.value)
    ensures !IsFunction(v) && !IsObjectType(v) ==> r == Ok(v)
  {
    var forced :- Force(v, store, false);
    if IsObjectType(forced) then ResolveTree(forced, if Truthy(lookup) then lookup else Obj(map[]), store)
    else Ok(forced)
  }

  /** A tree with no functions and no placeholder in any string member. */
  predicate Plain(v: Value)
  {
    match v
    case Thunk(_) => false
    case DefaultActorGetter => false
    case Str(s) => Matches(s) == []
    case Obj(m) => forall k | k in m :: Plain(m[k])
    case Arr(xs) => forall i | 0 <= i < |xs| :: Plain(xs[i])
    case _ => true
  }

  /** Text without `${` holds no placeholder. */
  lemma {:induction false} NoOpenerNoMatches(s: string)
    requires forall i | 0 <= i < |s| - 1 :: !(s[i] == '$' && s[i + 1] == '{')
    ensures Matches(s) == []
    decreases |s|
  {
    if |s| >= 2 {
      NoOpenerNoMatches(s[1..]);
    }
  }

  lemma {:induction false} PlainMemberUnchanged(v: Value, scope: Value, store: Value)
    requires Plain(v)
    ensures ResolveMember(v, scope, store) == Ok(v)
    decreases v, 1
  {
    match v
    case Obj(_) => PlainTreeUnchanged(v, scope, store);
    case Arr(_) => PlainTreeUnchanged(v, scope, store);
    case _ =>
  }

  /** Idempotence: a tree with no functions and no placeholders comes back
      unchanged, so rewriting it in place, as the source does, changes nothing. */
  lemma {:induction false} PlainTreeUnchanged(v: Value, scope: Value, store: Value)
    requires IsObjectType(v) && Plain(v)
    ensures ResolveTree(v, scope, store) == Ok(v)
    decreases v, 0
  {
    match v
    case Obj(m) =>
      forall k | k in m
        ensures ResolveMember(m[k], scope, store) == Ok(m[k])
      {
        PlainMemberUnchanged(m[k], scope, store);
      }
      assert (map k | k in m :: ResolveMember(m[k], scope, store).value) == m;
    case Arr(xs) => PlainElemsUnchanged(xs, scope, store);
    case Null =>
  }

  lemma {:induction false} PlainElemsUnchanged(xs: seq<Value>, scope: Value, store: Value)
    requires forall i | 0 <= i < |xs| :: Plain(xs[i])
    ensures ResolveElems(xs, scope, store) == Ok(xs)
    decreases xs, 2
  {
    if xs != [] {
      PlainMemberUnchanged(xs[0], scope, store);
      PlainElemsUnchanged(xs[1..], scope, store);
      assert xs == [xs[0]] + xs[1..];
    }
  }

  /** Resolving a plain value returns it, and resolving the result again returns it once more. */
  lemma ResolvePlainIdempotent(v: Value, lookup: Value, store: Value)
    requires Plain(v)
    ensures Resolve(v, lookup, store) == Ok(v)
    ensures Resolve(Resolve(v, lookup, store).value, lookup, store) == Ok(v)
  {
    if IsObjectType(v) {
      PlainTreeUnchanged(v, if Truthy(lookup) then lookup else Obj(map[]), store);
    }
  }

  /** A top-level function is called until a non-function remains, and only
      then is the result resolved. */
  lemma ResolveForcesTopLevel(v: Value, depth: nat, lookup: Value, store: Value)
    requires !IsFunction(v)
    ensures Resolve(Wrap(v, depth), lookup, store) == Resolve(v, lookup, store)
  {
    ForceNestedThunks(v, depth, store);
  }

  /** Each member of a resolved object is its own member resolution: a function
      member is called exactly once (a returned function stays), booleans,
      numbers, null and undefined stay, objects and arrays are resolved
      recursively and strings are rewritten. */
  lemma ResolvedObjectMembers(m: map<string, Value>, scope: Value, store: Value, k: string)
    requires ResolveTree(Obj(m), scope, store).Ok? && k in m
    ensures ResolveMember(m[k], scope, store) == Ok(ResolveTree(Obj(m), scope, store).value.fields[k])
    ensures m[k].Thunk? ==> ResolveTree(Obj(m), scope, store).value.fields[k] == m[k].result
    ensures !IsFunction(m[k]) && !m[k].Str? && !m[k].Obj? && !m[k].Arr? ==>
      ResolveTree(Obj(m), scope, store).value.fields[k] == m[k]
  {
  }

  /** A failure of any member makes the whole resolution fail. */
  lemma MemberFailureFails(m: map<string, Value>, scope: Value, store: Value, k: string)
    requires k in m && ResolveMember(m[k], scope, store).Err?
    ensures ResolveTree(Obj(m), scope, store) == Err(TypeError)
  {
  }

  /** A literal replacement goes in at the first occurrence after its `$` patterns are expanded. */
  lemma {:induction false} ReplaceFirstLiteral(s: string, pat: string, text: string, i: nat)
    requires FindSub(s, pat) == Some(i)
    ensures ReplaceFirst(s, pat, Literal(text)) == s[..i] + ExpandDollars(text, pat, s[..i], s[i + |pat|..]) + s[i + |pat|..]
  {
  }

  /** A `$`-free literal replacement goes in verbatim at the first occurrence. */
  lemma {:induction false} ReplaceFirstPlainLiteral(s: string, pat: string, text: string, i: nat)
    requires FindSub(s, pat) == Some(i) && '$' !in text
    ensures ReplaceFirst(s, pat, Literal(text)) == s[..i] + text + s[i + |pat|..]
  {
    ReplaceFirstLiteral(s, pat, text, i);
  }

  /** One placeholder: when the walked value is no function and its string
      form has no `$`, the first occurrence of the placeholder text is replaced
      by that string form. */
  lemma {:induction false} SubstituteOneReplacesFirst(cur: string, m: string, scope: Value, store: Value, value: Value, i: nat)
    requires Walk(scope, ParseKeyString(StripDecorations(m)), store) == Ok(value)
    requires !IsFunction(value) && '$' !in StringOf(value)
    requires FindSub(cur, m) == Some(i)
    ensures SubstituteOne(cur, m, scope, store) == Ok(cur[..i] + StringOf(value) + cur[i + |m|..])
  {
    var text := StringOf(value);
    ReplaceFirstPlainLiteral(cur, m, text, i);
    assert SubstituteOne(cur, m, scope, store) == Ok(ReplaceFirst(cur, m, Literal(text)));
  }

  /** A path whose first name is missing from an object scope reads as undefined. */
  lemma MissingNameIsUndefined(fields: map<string, Value>, path: seq<string>, store: Value)
    requires |path| >= 1 && path[0] !in fields
    ensures Walk(Obj(fields), path, store) == Ok(Undefined)
  {
  }

  /** Walking `p + q` is walking `p` and then walking `q` from where `p` ended. */
  lemma {:induction false} WalkAppend(v: Value, p: seq<string>, q: seq<string>, store: Value)
    ensures Walk(v, p + q, store) == (var w :- Walk(v, p, store); Walk(w, q, store))
    decreases |p|
  {
    if v.Undefined? {
    } else if p == [] {
      assert p + q == q;
    } else {
      assert (p + q)[0] == p[0];
      assert (p + q)[1..] == p[1..] + q;
      var next := Get(v, p[0]);
      if next.Ok? {
        var stepped := if IsFunction(next.value) then Call(next.value, store) else Ok(next.value);
        if stepped.Ok? {
          WalkAppend(stepped.value, p[1..], q, store);
        }
      }
    }
  }

  /** A member that is a function is called once, and the walk goes on from
      what the call returned. */
  lemma {:induction false} WalkCallsFunction(fields: map<string, Value>, path: seq<string>, result: Value, store: Value)
    requires |path| >= 1 && path[0] in fields && fields[path[0]] == Thunk(result)
    ensures Walk(Obj(fields), path, store) == Walk(result, path[1..], store)
  {
  }

  /** Reference for walks through nested objects without functions: the value
      at `path`, or None when a step leaves the objects or meets a function. */
  function Lookup(v: Value, path: seq<string>): Option<Value>
    decreases |path|
  {
    if path == [] then Some(v)
    else if v.Obj? && path[0] in v.fields && !IsFunction(v.fields[path[0]]) then Lookup(v.fields[path[0]], path[1..])
    else None
  }

  /** Where the reference finds a value, the walk yields exactly that value. */
  lemma {:induction false} WalkFollowsLookup(v: Value, path: seq<string>, store: Value)
    requires Lookup(v, path).Some?
    ensures Walk(v, path, store) == Ok(Lookup(v, path).value)
    decreases |path|
  {
    if path != [] {
      WalkFollowsLookup(v.fields[path[0]], path[1..], store);
    }
  }

  /** Text free of `$` contributes no placeholder. */
  lemma {:induction false} MatchesSkipsPlainPrefix(p: string, t: string)
    requires '$' !in p
    ensures Matches(p + t) == Matches(t)
    decreases |p|
  {
    if p != [] {
      assert (p + t)[1..] == p[1..] + t;
      MatchesSkipsPlainPrefix(p[1..], t);
      if |p + t| >= 2 {
        assert (p + t)[0] == p[0] && p[0] != '$';
      }
    } else {
      assert p + t == t;
    }
  }

  lemma {:induction false} CloseIndexAfterBody(body: string, t: string, from: nat)
    requires from <= |body|
    requires forall k | 0 <= k < |body| :: body[k] != '}' && !IsLineTerminator(body[k])
    ensures CloseIndex("${" + body + "}" + t, from + 2) == |body| + 2
    decreases |body| - from
  {
    var s := "${" + body + "}" + t;
    if from < |body| {
      assert s[from + 2] == body[from];
      CloseIndexAfterBody(body, t, from + 1);
    } else {
      assert s[from + 2] == '}';
    }
  }

  /** A placeholder at the front of the text is matched whole, and matching resumes after it. */
  lemma MatchesPlaceholderFirst(body: string, t: string)
    requires forall k | 0 <= k < |body| :: body[k] != '}' && !IsLineTerminator(body[k])
    ensures Matches("${" + body + "}" + t) == ["${" + body + "}"] + Matches(t)
  {
    var s := "${" + body + "}" + t;
    CloseIndexAfterBody(body, t, 0);
    assert s[..|body| + 3] == "${" + body + "}";
    assert s[|body| + 3..] == t;
  }

  /** A text with one placeholder, preceded by `$`-free text, has exactly that match. */
  lemma OnePlaceholder(pre: string, body: string, post: string)
    requires '$' !in pre && '$' !in post
    requires forall k | 0 <= k < |body| :: body[k] != '}' && !IsLineTerminator(body[k])
    ensures Matches(pre + "${" + body + "}" + post) == ["${" + body + "}"]
  {
    assert pre + "${" + body + "}" + post == pre + ("${" + body + "}" + post);
    MatchesSkipsPlainPrefix(pre, "${" + body + "}" + post);
    MatchesPlaceholderFirst(body, post);
    MatchesSkipsPlainPrefix(post, []);
    assert post + [] == post;
  }

  /** A name free of `$`, `}` and `(` loses nothing to the decoration stripping. */
  lemma {:induction false} StripKeepsName(name: string, t: string)
    requires '$' !in name && '}' !in name && '(' !in name
    ensures StripDecorations(name + t) == name + StripDecorations(t)
    decreases |name|
  {
    if name != [] {
      assert (name + t)[0] == name[0];
      assert (name + t)[1..] == name[1..] + t;
      StripKeepsName(name[1..], t);
      assert name == [name[0]] + name[1..];
    } else {
      assert name + t == t;
    }
  }

  /** `${name}` and `${name()}` both denote the path `name`. */
  lemma StripPlaceholder(name: string)
    requires '$' !in name && '}' !in name && '(' !in name
    ensures StripDecorations("${" + name + "}") == name
    ensures StripDecorations("${" + name + "()}") == name
  {
    assert ("${" + name + "}")[2..] == name + "}";
    StripKeepsName(name, "}");
    assert ("${" + name + "()}")[2..] == name + "()}";
    StripKeepsName(name, "()}");
    assert ("()}")[2..] == "}";
  }

  /** The first occurrence of a text that begins with a character absent from `pre`. */
  lemma {:induction false} FindAfterPrefix(pre: string, m: string, t: string)
    requires |m| >= 1 && m[0] !in pre
    ensures FindSub(pre + m + t, m) == Some(|pre|)
    decreases |pre|
  {
    var s := pre + m + t;
    if pre == [] {
      assert s[..|m|] == m;
    } else {
      assert s[0] == pre[0] && s[0] != m[0];
      assert !StartsWith(s, m);
      assert s[1..] == pre[1..] + m + t;
      FindAfterPrefix(pre[1..], m, t);
    }
  }

  /** A string with exactly one placeholder is rewritten by that one step. */
  lemma SubstituteSingle(s: string, m: string, scope: Value, store: Value)
    requires Matches(s) == [m]
    ensures Substitute(s, scope, store) == SubstituteOne(s, m, scope, store)
  {
    assert [m][1..] == [];
  }

  /** An object with one member resolves as that member does. */
  lemma {:induction false} SingleMemberObject(key: string, v: Value, scope: Value, store: Value)
    ensures ResolveMember(v, scope, store).Ok? ==>
      ResolveTree(Obj(map[key := v]), scope, store) == Ok(Obj(map[key := ResolveMember(v, scope, store).value]))
    ensures ResolveMember(v, scope, store).Err? ==>
      ResolveTree(Obj(map[key := v]), scope, store) == Err(TypeError)
  {
    if ResolveMember(v, scope, store).Ok? {
      SingleMemberResolves(key, v, scope, store);
    } else {
      assert key in map[key := v];
    }
  }

  /** When no member fails, the object resolves, key by key, to its members' resolutions. */
  lemma AllMembersResolve(m: map<string, Value>, scope: Value, store: Value)
    requires forall k | k in m :: ResolveMember(m[k], scope, store).Ok?
    ensures ResolveTree(Obj(m), scope, store).Ok?
    ensures forall k | k in m :: ResolveTree(Obj(m), scope, store).value.fields[k] == ResolveMember(m[k], scope, store).value
  {
  }

  lemma {:induction false} SingleMemberResolves(key: string, v: Value, scope: Value, store: Value)
    requires ResolveMember(v, scope, store).Ok?
    ensures ResolveTree(Obj(map[key := v]), scope, store) == Ok(Obj(map[key := ResolveMember(v, scope, store).value]))
  {
    var m := map[key := v];
    var w := ResolveMember(v, scope, store).value;
    forall k | k in m
      ensures ResolveMember(m[k], scope, store).Ok?
    {
      assert k == key;
    }
    AllMembersResolve(m, scope, store);
    var fields := ResolveTree(Obj(m), scope, store).value.fields;
    assert key in m;
    SingletonMap(fields, key, w);
  }

  lemma SingletonMap(fields: map<string, Value>, key: string, w: Value)
    requires fields.Keys == {key} && fields[key] == w
    ensures fields == map[key := w]
  {
  }
}
