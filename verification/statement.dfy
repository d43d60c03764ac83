/** The field assembly of `sendStatementByConfig` in HypeXAPI.js: dictionary
    lookups with the raw config value as fallback, the verb, object and actor
    construction rules, and the gate that decides whether a statement is sent.
    The transport library's statement object, ids and network send are outside
    the model; the outcome is the draft that would be handed to it. */
module Statement {
  import opened Results
  import opened JsValue
  import opened Defaults
  import opened Resolver

  /** What reaches the transport: actor, verb and object, plus the optional
      result, context and parent/grouping/other context activities. */
  datatype Draft = Draft(
    actor: Value,
    verb: Value,
    obj: Value,
    result: Option<Value>,
    context: Option<Value>,
    parent: Option<Value>,
    grouping: Option<Value>,
    other: Option<Value>)

  datatype Outcome =
    | NoConfig          // a falsy config: the call returns at once
    | Incomplete        // actor, verb or object missing: only a console message
    | Send(draft: Draft, debug: Value)  // handed to `sendStatement` with `config['debug']`

  /** The eight resolved fields before the construction rules run. */
  datatype Fields = Fields(
    actor: Value,
    verb: Value,
    obj: Value,
    result: Value,
    context: Value,
    parent: Value,
    grouping: Value,
    other: Value)

  /** `config[name]` for a truthy config, which can never throw. */
  function Field(config: Value, name: string): Value
    requires Truthy(config)
  {
    Get(config, name).value
  }

  /** `getDefault(category)[key]`. */
  function DictionaryEntry(store: Value, category: string, key: Value): Result<Value, Error>
  {
    var dict :- GetDefault(store, Str(category));
    Get(dict, PropertyKey(key))
  }

  /** `getDefault(category)[key] || key`: a truthy dictionary entry, else the raw value. */
  function EntryOrRaw(store: Value, category: string, key: Value): (r: Result<Value, Error>)
    ensures r.Ok? <==> DictionaryEntry(store, category, key).Ok?
    ensures r.Ok? && Truthy(DictionaryEntry(store, category, key).value) ==> r.value == DictionaryEntry(store, category, key).value
    ensures r.Ok? && !Truthy(DictionaryEntry(store, category, key).value) ==> r.value == key
  {
    var entry :- DictionaryEntry(store, category, key);
    Ok(if Truthy(entry) then entry else key)
  }

  /** `ADL.verbs[id]` for the transport library's verb vocabulary. */
  function VocabularyEntry(vocabulary: map<string, Value>, id: Value): (r: Value)
    ensures Get(Obj(vocabulary), PropertyKey(id)) == Ok(r)
    ensures PropertyKey(id) !in vocabulary ==> !Truthy(r)
  {
    var name := PropertyKey(id);
    if name in vocabulary then vocabulary[name] else Undefined
  }

  /** `resolveVerb(id)`: the local verb dictionary wins when truthy, then the
      vocabulary when truthy, else null. */
  function ResolveVerb(store: Value, vocabulary: map<string, Value>, id: Value): (r: Result<Value, Error>)
    ensures r.Ok? <==> DictionaryEntry(store, "verbs", id).Ok?
    ensures r.Ok? && Truthy(DictionaryEntry(store, "verbs", id).value) ==> r.value == DictionaryEntry(store, "verbs", id).value
    ensures r.Ok? && !Truthy(DictionaryEntry(store, "verbs", id).value) && Truthy(VocabularyEntry(vocabulary, id)) ==>
      r.value == VocabularyEntry(vocabulary, id)
    ensures r.Ok? && !Truthy(DictionaryEntry(store, "verbs", id).value) && !Truthy(VocabularyEntry(vocabulary, id)) ==>
      r.value == Null
    ensures r.Ok? && !Truthy(r.value) ==> r.value == Null
  {
    var local :- DictionaryEntry(store, "verbs", id);
    if Truthy(local) then Ok(local)
    else
      var adl := VocabularyEntry(vocabulary, id);
      Ok(if Truthy(adl) then adl else Null)
  }

  /** Before anything is registered, every dictionary lookup falls back to the
      raw config value and a verb comes from the vocabulary or is null. */
  lemma {:induction false} InitialLookupsFallBack(category: string, key: Value, vocabulary: map<string, Value>)
    requires category in Categories
    ensures EntryOrRaw(InitialStore(), category, key) == Ok(key)
    ensures ResolveVerb(InitialStore(), vocabulary, key)
         == Ok(if Truthy(VocabularyEntry(vocabulary, key)) then VocabularyEntry(vocabulary, key) else Null)
  {
    var store := InitialStore();
    assert GetDefault(store, Str(category)) == Ok(Obj(map[]));
    assert GetDefault(store, Str("verbs")) == Ok(Obj(map[]));
    assert DictionaryEntry(store, category, key) == Ok(Undefined);
    assert DictionaryEntry(store, "verbs", key) == Ok(Undefined);
  }

  /** `resolveFunctionsAndVars(getDefault(category)[key] || key, variables)`. */
  function ResolveEntry(store: Value, category: string, key: Value, variables: Value): (r: Result<Value, Error>)
    ensures r.Ok? ==> !IsFunction(r.value)
    ensures EntryOrRaw(store, category, key).Err? ==> r.Err?
  {
    var raw :- EntryOrRaw(store, category, key);
    Resolve(raw, variables, store)
  }

  /** A field is its dictionary entry, or else the raw config value: when that
      value holds no function and no placeholder, resolving it changes nothing. */
  lemma PlainEntryResolved(store: Value, category: string, key: Value, variables: Value)
    requires EntryOrRaw(store, category, key).Ok? && Plain(EntryOrRaw(store, category, key).value)
    ensures ResolveEntry(store, category, key, variables) == EntryOrRaw(store, category, key)
  {
    ResolvePlainIdempotent(EntryOrRaw(store, category, key).value, variables, store);
  }

  /** Lines 215-223: each field looked up and then resolved against `getDefault('variables')`. */
  function ResolveFields(config: Value, store: Value, vocabulary: map<string, Value>): (r: Result<Fields, Error>)
    requires Truthy(config)
    ensures GetDefault(store, Str("variables")).Err? ==> r.Err?
    ensures r.Ok? ==> !IsFunction(r.value.actor) && !IsFunction(r.value.verb) && !IsFunction(r.value.obj)
    ensures r.Ok? ==> !IsFunction(r.value.result) && !IsFunction(r.value.context)
    ensures r.Ok? ==> !IsFunction(r.value.parent) && !IsFunction(r.value.grouping) && !IsFunction(r.value.other)
  {
    var variables :- GetDefault(store, Str("variables"));
    var actor :- ResolveEntry(store, "actors", Field(config, "agent"), variables);
    var verb0 :- ResolveVerb(store, vocabulary, Field(config, "verb"));
    var verb :- Resolve(if Truthy(verb0) then verb0 else Field(config, "verb"), variables, store);
    var obj :- ResolveEntry(store, "objects", Field(config, "object"), variables);
    var result :- ResolveEntry(store, "results", Field(config, "result"), variables);
    var context :- ResolveEntry(store, "context", Field(config, "context"), variables);
    var parent :- ResolveEntry(store, "objects", Field(config, "parent-activity"), variables);
    var grouping :- ResolveEntry(store, "objects", Field(config, "grouping-activity"), variables);
    var other :- ResolveEntry(store, "objects", Field(config, "context-activity"), variables);
    Ok(Fields(actor, verb, obj, result, context, parent, grouping, other))
  }

  /** The fields are the ten lookups, each made against the store's variables. */
  lemma {:induction false} FieldsFromLookups(config: Value, store: Value, vocabulary: map<string, Value>,
                                             variables: Value, verb0: Value, f: Fields)
    requires Truthy(config)
    requires GetDefault(store, Str("variables")) == Ok(variables)
    requires ResolveEntry(store, "actors", Field(config, "agent"), variables) == Ok(f.actor)
    requires ResolveVerb(store, vocabulary, Field(config, "verb")) == Ok(verb0)
    requires Resolve(if Truthy(verb0) then verb0 else Field(config, "verb"), variables, store) == Ok(f.verb)
    requires ResolveEntry(store, "objects", Field(config, "object"), variables) == Ok(f.obj)
    requires ResolveEntry(store, "results", Field(config, "result"), variables) == Ok(f.result)
    requires ResolveEntry(store, "context", Field(config, "context"), variables) == Ok(f.context)
    requires ResolveEntry(store, "objects", Field(config, "parent-activity"), variables) == Ok(f.parent)
    requires ResolveEntry(store, "objects", Field(config, "grouping-activity"), variables) == Ok(f.grouping)
    requires ResolveEntry(store, "objects", Field(config, "context-activity"), variables) == Ok(f.other)
    ensures ResolveFields(config, store, vocabulary) == Ok(f)
  {
  }

  /** `{id: verbId, display: {'en-US': verbName}}`. */
  function BuildVerb(id: Value, name: Value): (r: Value)
    ensures Truthy(r)
    ensures Get(r, "id") == Ok(id)
    ensures Get(r, "display").Ok? && Get(Get(r, "display").value, "en-US") == Ok(name)
  {
    Obj(map["id" := id, "display" := Obj(map["en-US" := name])])
  }

  /** Lines 225-235: a falsy verb is replaced by a constructed one when both
      `verb-id` and `verb-name` are truthy. */
  function ConstructVerb(verb: Value, config: Value): (r: Value)
    requires Truthy(config)
    ensures Truthy(verb) ==> r == verb
    ensures !Truthy(verb) && Truthy(Field(config, "verb-id")) && Truthy(Field(config, "verb-name")) ==>
      r == BuildVerb(Field(config, "verb-id"), Field(config, "verb-name"))
    ensures Truthy(r) ==> Truthy(verb) || (Truthy(Field(config, "verb-id")) && Truthy(Field(config, "verb-name")))
  {
    if !Truthy(verb) && Truthy(Field(config, "verb-id")) && Truthy(Field(config, "verb-name")) then
      BuildVerb(Field(config, "verb-id"), Field(config, "verb-name"))
    else verb
  }

  /** The activity the object-construction block builds from `object-id`,
      `object-name` and `object-desc`. */
  function BuildActivity(config: Value): (r: Value)
    requires Truthy(config)
    ensures Truthy(r)
    ensures Get(r, "objectType") == Ok(Str("Activity"))
    ensures Get(r, "id") == Ok(Field(config, "object-id"))
    ensures Get(r, "definition").Ok?
    ensures var d := Get(r, "definition").value;
      Get(d, "name").Ok? && Get(Get(d, "name").value, "en-US") == Ok(Field(config, "object-name")) &&
      Get(d, "description").Ok? && Get(Get(d, "description").value, "en-US") == Ok(Field(config, "object-desc"))
  {
    Obj(map[
      "objectType" := Str("Activity"),
      "id" := Field(config, "object-id"),
      "definition" := Obj(map[
        "name" := Obj(map["en-US" := Field(config, "object-name")]),
        "description" := Obj(map["en-US" := Field(config, "object-desc")])
      ])
    ])
  }

  /** Lines 237-253 as written: the activity built for a falsy object is
      assigned to the verb variable, not to the object. */
  function ObjectBlockVerb(verb: Value, obj: Value, config: Value): (r: Value)
    requires Truthy(config)
    ensures Truthy(obj) ==> r == verb
    ensures (!Truthy(obj) && Truthy(Field(config, "object-id")) && Truthy(Field(config, "object-name"))
             && Truthy(Field(config, "object-desc"))) ==> r == BuildActivity(config)
  {
    if !Truthy(obj) && Truthy(Field(config, "object-id")) && Truthy(Field(config, "object-name"))
       && Truthy(Field(config, "object-desc"))
    then BuildActivity(config)
    else verb
  }

  /** Whether the config carries enough to build an Agent: a name and a
      mailbox, or both account fields. */
  predicate CanBuildAgent(config: Value)
    requires Truthy(config)
  {
    || (Truthy(Field(config, "agent-name")) && Truthy(Field(config, "agent-mbox")))
    || (Truthy(Field(config, "agent-account-page")) && Truthy(Field(config, "agent-account-name")))
  }

  /** Lines 257-273: the Agent built from the config; `hash` stands for the
      transport library's mailbox hashing. Only `agent-hash-mbox` switches
      hashing on. */
  function BuildAgent(config: Value, hash: string -> string): (r: Value)
    requires Truthy(config)
    ensures r.Obj? && "objectType" in r.fields && r.fields["objectType"] == Str("Agent")
    ensures r.fields.Keys <= {"objectType", "name", "mbox", "account"}
    ensures "name" in r.fields <==> Truthy(Field(config, "agent-name"))
    ensures "name" in r.fields ==> r.fields["name"] == Field(config, "agent-name")
    ensures "mbox" in r.fields <==> Truthy(Field(config, "agent-mbox"))
    ensures "mbox" in r.fields && !Truthy(Field(config, "agent-hash-mbox")) ==>
      r.fields["mbox"] == Str("mailto:" + StringOf(Field(config, "agent-mbox")))
    ensures "mbox" in r.fields && Truthy(Field(config, "agent-hash-mbox")) ==>
      r.fields["mbox"] == Str(hash("mailto:" + StringOf(Field(config, "agent-mbox"))))
    ensures "account" in r.fields <==> Truthy(Field(config, "agent-account-page")) && Truthy(Field(config, "agent-account-name"))
    ensures "account" in r.fields ==>
      r.fields["account"] == Obj(map["homePage" := Field(config, "agent-account-page"), "name" := Field(config, "agent-account-name")])
  {
    var name := Field(config, "agent-name");
    var mbox := Field(config, "agent-mbox");
    var page := Field(config, "agent-account-page");
    var account := Field(config, "agent-account-name");
    var mailto := "mailto:" + StringOf(mbox);
    var m0 := map["objectType" := Str("Agent")];
    var m1 := if Truthy(name) then m0["name" := name] else m0;
    var m2 := if Truthy(mbox) then m1["mbox" := Str(if Truthy(Field(config, "agent-hash-mbox")) then hash(mailto) else mailto)] else m1;
    var m3 := if Truthy(page) && Truthy(account) then m2["account" := Obj(map["homePage" := page, "name" := account])] else m2;
    Obj(m3)
  }

  /** Lines 255-278: a falsy actor is replaced by a built Agent when the config
      allows one, otherwise by `getDefault('getDefaultActor')()`. */
  function ActorOrFallback(actor: Value, config: Value, store: Value, hash: string -> string): (r: Result<Value, Error>)
    requires Truthy(config)
    ensures Truthy(actor) ==> r == Ok(actor)
    ensures !Truthy(actor) && CanBuildAgent(config) ==> r == Ok(BuildAgent(config, hash))
  {
    if Truthy(actor) then Ok(actor)
    else if CanBuildAgent(config) then Ok(BuildAgent(config, hash))
    else
      var getter :- GetDefault(store, Str("getDefaultActor"));
      Call(getter, store)
  }

  /** An optional part is attached only when truthy. */
  function IfTruthy(v: Value): (r: Option<Value>)
    ensures r.Some? <==> Truthy(v)
    ensures r.Some? ==> r.value == v
  {
    if Truthy(v) then Some(v) else None
  }

  /** Lines 280-308: the statement goes out only when actor, verb and object are all truthy. */
  function Assemble(actor: Value, verb: Value, f: Fields, debug: Value): (r: Outcome)
    ensures r.Send? <==> Truthy(actor) && Truthy(verb) && Truthy(f.obj)
    ensures r.Send? ==> r.debug == debug
    ensures r.Send? ==> r.draft.actor == actor && r.draft.verb == verb && r.draft.obj == f.obj
    ensures r.Send? ==> r.draft.result == IfTruthy(f.result) && r.draft.context == IfTruthy(f.context)
    ensures r.Send? ==> r.draft.parent == IfTruthy(f.parent) && r.draft.grouping == IfTruthy(f.grouping)
                        && r.draft.other == IfTruthy(f.other)
    ensures !r.Send? ==> r == Incomplete
  {
    if Truthy(actor) && Truthy(verb) && Truthy(f.obj) then
      Send(Draft(actor, verb, f.obj, IfTruthy(f.result), IfTruthy(f.context),
                 IfTruthy(f.parent), IfTruthy(f.grouping), IfTruthy(f.other)), debug)
    else Incomplete
  }

  /** `sendStatementByConfig(config)` up to the hand-over to the transport. */
  function SendStatementByConfig(config: Value, store: Value, vocabulary: map<string, Value>, hash: string -> string): (r: Result<Outcome, Error>)
    ensures !Truthy(config) ==> r == Ok(NoConfig)
    ensures r.Ok? && r.value.Send? ==>
      Truthy(r.value.draft.actor) && Truthy(r.value.draft.verb) && Truthy(r.value.draft.obj)
    ensures Truthy(config) && r.Ok? && r.value.Send? ==>
      ResolveFields(config, store, vocabulary).Ok? && r.value.draft.obj == ResolveFields(config, store, vocabulary).value.obj
  {
    if !Truthy(config) then Ok(NoConfig)
    else
      var f :- ResolveFields(config, store, vocabulary);
      var verb := ObjectBlockVerb(ConstructVerb(f.verb, config), f.obj, config);
      var actor :- ActorOrFallback(f.actor, config, store, hash);
      Ok(Assemble(actor, verb, f, Field(config, "debug")))
  }

  /** The gate over the whole call: once the fields resolve and the actor
      fallback succeeds, a statement is sent exactly when the actor, the verb
      after both construction blocks and the resolved object are truthy. */
  lemma SentIffComplete(config: Value, store: Value, vocabulary: map<string, Value>, hash: string -> string)
    requires Truthy(config)
    requires ResolveFields(config, store, vocabulary).Ok?
    ensures var f := ResolveFields(config, store, vocabulary).value;
            var verb := ObjectBlockVerb(ConstructVerb(f.verb, config), f.obj, config);
            var actor := ActorOrFallback(f.actor, config, store, hash);
            var r := SendStatementByConfig(config, store, vocabulary, hash);
            && (r.Ok? <==> actor.Ok?)
            && (r.Ok? ==> (r.value.Send? <==> Truthy(actor.value) && Truthy(verb) && Truthy(f.obj)))
            && (r.Ok? && !r.value.Send? ==> r.value == Incomplete)
  {
  }

  /** The call in its three stages: once the fields resolve to `f` and the
      actor fallback yields `actor`, the outcome is the assembly of `actor`,
      the constructed verb and `f`, with the config's `debug` flag. */
  lemma SentFromStages(config: Value, store: Value, vocabulary: map<string, Value>, hash: string -> string,
                       f: Fields, actor: Value)
    requires Truthy(config)
    requires ResolveFields(config, store, vocabulary) == Ok(f)
    requires ActorOrFallback(f.actor, config, store, hash) == Ok(actor)
    ensures SendStatementByConfig(config, store, vocabulary, hash)
         == Ok(Assemble(actor, ObjectBlockVerb(ConstructVerb(f.verb, config), f.obj, config), f, Field(config, "debug")))
  {
  }

  /** The object-construction block never supplies an object: when the
      resolved object is falsy nothing is sent, whatever `object-id`,
      `object-name` and `object-desc` hold. */
  lemma FalsyObjectNeverSent(config: Value, store: Value, vocabulary: map<string, Value>, hash: string -> string)
    requires Truthy(config)
    requires ResolveFields(config, store, vocabulary).Ok?
    requires !Truthy(ResolveFields(config, store, vocabulary).value.obj)
    ensures var r := SendStatementByConfig(config, store, vocabulary, hash);
            r.Ok? ==> r.value == Incomplete
  {
    SentIffComplete(config, store, vocabulary, hash);
  }

  /** `Field` reads only the key it names. */
  lemma FieldIgnoresOtherKeys(m: map<string, Value>, k: string, x: Value, name: string)
    requires name != k
    ensures Field(Obj(m[k := x]), name) == Field(Obj(m), name)
  {
  }

  /** Setting `agent-hash` (rather than `agent-hash-mbox`) changes nothing about
      the Agent that is built. */
  lemma AgentHashIgnored(m: map<string, Value>, x: Value, hash: string -> string)
    ensures BuildAgent(Obj(m["agent-hash" := x]), hash) == BuildAgent(Obj(m), hash)
  {
    var c, c' := Obj(m), Obj(m["agent-hash" := x]);
    forall name | name in ["agent-name", "agent-mbox", "agent-hash-mbox", "agent-account-page", "agent-account-name"]
      ensures Field(c', name) == Field(c, name)
    {
      FieldIgnoresOtherKeys(m, "agent-hash", x, name);
    }
  }

  /** With no way to build an Agent, a missing actor becomes whatever the
      default getter returns: the `defaultActor` last stored. */
  lemma DefaultActorUsed(config: Value, store: Value, actor: Value, hash: string -> string)
    requires Truthy(config) && !CanBuildAgent(config)
    requires store.Obj? && "getDefaultActor" in store.fields
    requires store.fields["getDefaultActor"] == DefaultActorGetter
    ensures SetDefaultActor(store, actor).Ok?
    ensures ActorOrFallback(Undefined, config, SetDefaultActor(store, actor).value, hash) == Ok(actor)
  {
    var s' := SetDefaultActor(store, actor).value;
    assert GetDefault(s', Str("getDefaultActor")) == Ok(DefaultActorGetter);
  }
}
