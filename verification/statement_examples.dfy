/** Worked instances of `sendStatementByConfig`: a config naming a vocabulary
    verb, a dictionary object and an Agent's name and mailbox. The example's
    strings and values are parameters fixed by a `requires`, so that the
    solver reasons about named values instead of unfolding the literals. */
module StatementExamples {
  import opened Results
  import opened JsValue
  import opened Defaults
  import opened Resolver
  import opened Statement

  /** The config of the worked example: a verb key, an object key, an Agent
      name and a mailbox, and nothing else. */
  function ExampleConfig(verbKey: string, objKey: string, name: string, mbox: string): Value
  {
    Obj(map["verb" := Str(verbKey), "object" := Str(objKey), "agent-name" := Str(name), "agent-mbox" := Str(mbox)])
  }

  /** The Agent built from a name and a mailbox when hashing is off. */
  function MailAgent(name: string, mbox: string): Value
  {
    Obj(map["objectType" := Str("Agent"), "name" := Str(name), "mbox" := Str("mailto:" + mbox)])
  }

  /** `getDefault(category)` is an object without `key`. */
  predicate Lacks(store: Value, category: string, key: string)
  {
    store.Obj? && category in store.fields && store.fields[category].Obj?
    && key !in store.fields[category].fields
  }

  /** A store whose dictionaries hold nothing under `undefined` (the key a
      missing config field looks up), no local verb under `verbKey`, and
      `objects` as given. */
  predicate ExampleStore(store: Value, verbKey: string, objects: map<string, Value>)
  {
    && store.Obj? && "variables" in store.fields
    && Lacks(store, "actors", "undefined") && Lacks(store, "verbs", "undefined")
    && Lacks(store, "verbs", verbKey) && Lacks(store, "results", "undefined")
    && Lacks(store, "context", "undefined") && Lacks(store, "objects", "undefined")
    && store.fields["objects"] == Obj(objects)
  }

  /** A config field that is absent reads as undefined, which looks up nothing. */
  lemma MissingFieldResolves(config: Value, field: string, store: Value, category: string)
    requires config.Obj? && field !in config.fields
    requires category != "" && Lacks(store, category, "undefined") && "variables" in store.fields
    ensures ResolveEntry(store, category, Field(config, field), store.fields["variables"]) == Ok(Undefined)
  {
    assert PropertyKey(Undefined) == "undefined";
  }

  /** The verb key names no local verb, so the vocabulary entry is taken. */
  lemma ExampleVerb(verbKey: string, store: Value, vocabulary: map<string, Value>)
    requires verbKey != "" && Lacks(store, "verbs", verbKey)
    requires verbKey in vocabulary && Truthy(vocabulary[verbKey])
    ensures ResolveVerb(store, vocabulary, Str(verbKey)) == Ok(vocabulary[verbKey])
  {
    assert PropertyKey(Str(verbKey)) == verbKey;
  }

  /** The object key finds the dictionary entry, or else stands for itself. */
  lemma ExampleObject(objKey: string, store: Value, objects: map<string, Value>, obj: Value)
    requires objKey != "" && store.Obj? && "objects" in store.fields && store.fields["objects"] == Obj(objects)
    requires objKey in objects ==> objects[objKey].Obj? && Plain(objects[objKey])
    requires obj == if objKey in objects then objects[objKey] else Str(objKey)
    requires "variables" in store.fields
    ensures ResolveEntry(store, "objects", Str(objKey), store.fields["variables"]) == Ok(obj)
  {
    assert PropertyKey(Str(objKey)) == objKey;
    assert EntryOrRaw(store, "objects", Str(objKey)) == Ok(obj);
    if objKey in objects {
      ResolvePlainIdempotent(obj, store.fields["variables"], store);
    }
  }

  /** The fields the worked example resolves to: the vocabulary verb, the
      dictionary object (or the raw key when the dictionary lacks it), and
      nothing else. */
  lemma ExampleFields(verbKey: string, objKey: string, name: string, mbox: string,
                      store: Value, objects: map<string, Value>, vocabulary: map<string, Value>, obj: Value)
    requires verbKey != "" && objKey != "" && objKey != "undefined"
    requires ExampleStore(store, verbKey, objects)
    requires verbKey in vocabulary && vocabulary[verbKey].Obj? && Plain(vocabulary[verbKey])
    requires objKey in objects ==> objects[objKey].Obj? && Plain(objects[objKey])
    requires obj == if objKey in objects then objects[objKey] else Str(objKey)
    ensures ResolveFields(ExampleConfig(verbKey, objKey, name, mbox), store, vocabulary)
         == Ok(Fields(Undefined, vocabulary[verbKey], obj, Undefined, Undefined, Undefined, Undefined, Undefined))
  {
    var config := ExampleConfig(verbKey, objKey, name, mbox);
    var variables := store.fields["variables"];
    var verb := vocabulary[verbKey];
    assert GetDefault(store, Str("variables")) == Ok(variables);
    ExampleMissingFields(verbKey, objKey, name, mbox, store, objects);
    ExampleVerbField(verbKey, objKey, name, mbox, store, vocabulary);
    ResolvePlainIdempotent(verb, variables, store);
    assert Truthy(verb);
    ExampleObjectField(verbKey, objKey, name, mbox, store, objects, obj);
    FieldsFromLookups(config, store, vocabulary, variables, verb,
                      Fields(Undefined, verb, obj, Undefined, Undefined, Undefined, Undefined, Undefined));
  }

  /** The six fields the example config leaves out all resolve to undefined. */
  lemma ExampleMissingFields(verbKey: string, objKey: string, name: string, mbox: string,
                             store: Value, objects: map<string, Value>)
    requires ExampleStore(store, verbKey, objects)
    ensures var config := ExampleConfig(verbKey, objKey, name, mbox);
            var variables := store.fields["variables"];
            && ResolveEntry(store, "actors", Field(config, "agent"), variables) == Ok(Undefined)
            && ResolveEntry(store, "results", Field(config, "result"), variables) == Ok(Undefined)
            && ResolveEntry(store, "context", Field(config, "context"), variables) == Ok(Undefined)
            && ResolveEntry(store, "objects", Field(config, "parent-activity"), variables) == Ok(Undefined)
            && ResolveEntry(store, "objects", Field(config, "grouping-activity"), variables) == Ok(Undefined)
            && ResolveEntry(store, "objects", Field(config, "context-activity"), variables) == Ok(Undefined)
  {
    var config := ExampleConfig(verbKey, objKey, name, mbox);
    MissingFieldResolves(config, "agent", store, "actors");
    MissingFieldResolves(config, "result", store, "results");
    MissingFieldResolves(config, "context", store, "context");
    MissingFieldResolves(config, "parent-activity", store, "objects");
    MissingFieldResolves(config, "grouping-activity", store, "objects");
    MissingFieldResolves(config, "context-activity", store, "objects");
  }

  lemma ExampleVerbField(verbKey: string, objKey: string, name: string, mbox: string,
                         store: Value, vocabulary: map<string, Value>)
    requires verbKey != "" && Lacks(store, "verbs", verbKey)
    requires verbKey in vocabulary && Truthy(vocabulary[verbKey])
    ensures ResolveVerb(store, vocabulary, Field(ExampleConfig(verbKey, objKey, name, mbox), "verb")) == Ok(vocabulary[verbKey])
  {
    assert Field(ExampleConfig(verbKey, objKey, name, mbox), "verb") == Str(verbKey);
    ExampleVerb(verbKey, store, vocabulary);
  }

  lemma ExampleObjectField(verbKey: string, objKey: string, name: string, mbox: string,
                           store: Value, objects: map<string, Value>, obj: Value)
    requires objKey != "" && store.Obj? && "objects" in store.fields && store.fields["objects"] == Obj(objects)
    requires objKey in objects ==> objects[objKey].Obj? && Plain(objects[objKey])
    requires obj == if objKey in objects then objects[objKey] else Str(objKey)
    requires "variables" in store.fields
    ensures ResolveEntry(store, "objects", Field(ExampleConfig(verbKey, objKey, name, mbox), "object"),
                         store.fields["variables"]) == Ok(obj)
  {
    assert Field(ExampleConfig(verbKey, objKey, name, mbox), "object") == Str(objKey);
    ExampleObject(objKey, store, objects, obj);
  }

  /** The worked example end to end: the Agent is built from name and mailbox,
      the verb comes from the vocabulary, and the statement is sent. When the
      object dictionary lacks the key, the raw key string is the object and
      the statement is still sent. */
  lemma ExampleSent(verbKey: string, objKey: string, name: string, mbox: string,
                    store: Value, objects: map<string, Value>, vocabulary: map<string, Value>,
                    obj: Value, hash: string -> string)
    requires verbKey != "" && objKey != "" && objKey != "undefined" && name != "" && mbox != ""
    requires ExampleStore(store, verbKey, objects)
    requires verbKey in vocabulary && vocabulary[verbKey].Obj? && Plain(vocabulary[verbKey])
    requires objKey in objects ==> objects[objKey].Obj? && Plain(objects[objKey])
    requires obj == if objKey in objects then objects[objKey] else Str(objKey)
    ensures SendStatementByConfig(ExampleConfig(verbKey, objKey, name, mbox), store, vocabulary, hash)
         == Ok(Send(Draft(MailAgent(name, mbox), vocabulary[verbKey], obj, None, None, None, None, None), Undefined))
  {
    var config := ExampleConfig(verbKey, objKey, name, mbox);
    var f := Fields(Undefined, vocabulary[verbKey], obj, Undefined, Undefined, Undefined, Undefined, Undefined);
    ExampleFields(verbKey, objKey, name, mbox, store, objects, vocabulary, obj);
    ExampleAgent(verbKey, objKey, name, mbox, store, hash);
    SentFromStages(config, store, vocabulary, hash, f, MailAgent(name, mbox));
    ExampleVerbKept(verbKey, objKey, name, mbox, vocabulary[verbKey], obj);
    ExampleAssembled(name, mbox, vocabulary[verbKey], f);
  }

  /** Neither construction block touches an object-valued verb when the object is truthy. */
  lemma ExampleVerbKept(verbKey: string, objKey: string, name: string, mbox: string, verb: Value, obj: Value)
    requires verb.Obj? && (obj.Obj? || obj == Str(objKey)) && objKey != ""
    ensures ObjectBlockVerb(ConstructVerb(verb, ExampleConfig(verbKey, objKey, name, mbox)), obj,
                            ExampleConfig(verbKey, objKey, name, mbox)) == verb
    ensures Field(ExampleConfig(verbKey, objKey, name, mbox), "debug") == Undefined
  {
  }

  /** Only the three required parts are set; every optional part is left out. */
  lemma ExampleAssembled(name: string, mbox: string, verb: Value, f: Fields)
    requires verb.Obj? && (f.obj.Obj? || (f.obj.Str? && f.obj.s != ""))
    requires f == Fields(Undefined, verb, f.obj, Undefined, Undefined, Undefined, Undefined, Undefined)
    ensures Assemble(MailAgent(name, mbox), verb, f, Undefined)
         == Send(Draft(MailAgent(name, mbox), verb, f.obj, None, None, None, None, None), Undefined)
  {
  }

  /** No actor is named, but name and mailbox are, so the Agent is built. */
  lemma ExampleAgent(verbKey: string, objKey: string, name: string, mbox: string, store: Value, hash: string -> string)
    requires name != "" && mbox != ""
    ensures ActorOrFallback(Undefined, ExampleConfig(verbKey, objKey, name, mbox), store, hash) == Ok(MailAgent(name, mbox))
  {
    var config := ExampleConfig(verbKey, objKey, name, mbox);
    assert Field(config, "agent-name") == Str(name);
    assert Field(config, "agent-mbox") == Str(mbox);
    assert CanBuildAgent(config);
    var agent := BuildAgent(config, hash);
    assert StringOf(Str(mbox)) == mbox;
    assert agent.fields["mbox"] == Str("mailto:" + mbox);
    assert agent.fields.Keys == {"objectType", "name", "mbox"};
    assert agent == MailAgent(name, mbox);
  }

  /** The library's initial store with the given object dictionary. */
  function WithObjects(objects: map<string, Value>): Value
  {
    Obj(InitialStore().fields["objects" := Obj(objects)])
  }

  lemma WithObjectsIsExampleStore(verbKey: string, objects: map<string, Value>)
    requires verbKey != "" && "undefined" !in objects
    ensures ExampleStore(WithObjects(objects), verbKey, objects)
  {
  }

  /** A string with no `$` is plain. */
  lemma DollarFreePlain(s: string)
    requires '$' !in s
    ensures Plain(Str(s))
  {
    NoOpenerNoMatches(s);
  }

  /** `{verb: "completed", object: "act1", agent-name: "Ann", agent-mbox:
      "ann@example.com"}` with `objects = {act1: {id: "http://x/act1"}}` sends
      the built Agent, the vocabulary's `completed` verb and the activity. */
  lemma CompletedActivitySent(verbKey: string, objKey: string, name: string, mbox: string, id: string,
                              activity: Value, verbDef: Value, hash: string -> string)
    requires verbKey == "completed" && objKey == "act1" && name == "Ann" && mbox == "ann@example.com"
    requires id == "http://x/act1" && activity == Obj(map["id" := Str(id)])
    requires verbDef.Obj? && Plain(verbDef)
    ensures SendStatementByConfig(ExampleConfig(verbKey, objKey, name, mbox), WithObjects(map[objKey := activity]),
                                  map[verbKey := verbDef], hash)
         == Ok(Send(Draft(MailAgent(name, mbox), verbDef, activity, None, None, None, None, None), Undefined))
  {
    DollarFreePlain(id);
    assert Plain(activity);
    WithObjectsIsExampleStore(verbKey, map[objKey := activity]);
    ExampleSent(verbKey, objKey, name, mbox, WithObjects(map[objKey := activity]), map[objKey := activity],
                map[verbKey := verbDef], activity, hash);
  }

  /** With an empty object dictionary the same config is still sent: the raw
      key `"act1"` stands in as the object. */
  lemma RawObjectKeySent(verbKey: string, objKey: string, name: string, mbox: string,
                         verbDef: Value, hash: string -> string)
    requires verbKey == "completed" && objKey == "act1" && name == "Ann" && mbox == "ann@example.com"
    requires verbDef.Obj? && Plain(verbDef)
    ensures SendStatementByConfig(ExampleConfig(verbKey, objKey, name, mbox), WithObjects(map[]),
                                  map[verbKey := verbDef], hash)
         == Ok(Send(Draft(MailAgent(name, mbox), verbDef, Str(objKey), None, None, None, None, None), Undefined))
  {
    WithObjectsIsExampleStore(verbKey, map[]);
    ExampleSent(verbKey, objKey, name, mbox, WithObjects(map[]), map[], map[verbKey := verbDef], Str(objKey), hash);
  }
}
