/** The process-wide defaults store of HypeXAPI.js (`_default`, `setDefault`,
    `getDefault`) and the calling of the zero-argument functions it may hold. */
module Defaults {
  import opened Results
  import opened JsValue

  /** The five dictionaries keyed by the names the library looks values up under. */
  const Categories: set<string> := {"actors", "verbs", "objects", "context", "results"}

  /** `_default` as the library starts: the default-actor getter, an empty
      default actor, debugging off, the five category dictionaries, the
      variable scope and the transport error handler. */
  function InitialStore(): (r: Value)
    ensures Force(DefaultActorGetter, r, false) == Ok(Obj(map[]))
    ensures GetDefault(r, Str("debug")) == Ok(Bool(false))
    ensures forall c | c in Categories :: GetDefault(r, Str(c)) == Ok(Obj(map[]))
  {
    Obj(map[
      "getDefaultActor" := DefaultActorGetter,
      "defaultActor" := Obj(map[]),
      "debug" := Bool(false),
      "actors" := Obj(map[]),
      "verbs" := Obj(map[]),
      "objects" := Obj(map[]),
      "context" := Obj(map[]),
      "results" := Obj(map[]),
      "variables" := Obj(map[]),
      "xhrRequestOnError" := Thunk(Undefined)
    ])
  }

  /** `setDefault(key, value)`: a key of type object replaces the whole store;
      any other key writes one property of the store. */
  function SetDefault(store: Value, key: Value, value: Value): (r: Result<Value, Error>)
    ensures r.Err? <==> !IsObjectType(key) && (store.Undefined? || store.Null?)
  {
    if IsObjectType(key) then Ok(key)
    else
      var name := PropertyKey(key);
      match store
      case Obj(m) => Ok(Obj(m[name := value]))
      case Arr(xs) =>
        var i := ArrayIndex(name);
        if i.Some? && i.value < |xs| then Ok(Arr(xs[i.value := value])) else Ok(store)
      case Undefined => Err(TypeError)
      case Null => Err(TypeError)
      case _ => Ok(store)
  }

  /** `getDefault(key)`: a falsy key yields the whole store, any other key one property. */
  function GetDefault(store: Value, key: Value): (r: Result<Value, Error>)
    ensures !Truthy(key) ==> r == Ok(store)
    ensures Truthy(key) && store.Obj? ==> r.Ok? && (PropertyKey(key) !in store.fields ==> r.value == Undefined)
    ensures Truthy(key) && store.Obj? && PropertyKey(key) in store.fields ==> r == Ok(store.fields[PropertyKey(key)])
  {
    if !Truthy(key) then Ok(store) else Get(store, PropertyKey(key))
  }

  /** One call `f()` of a value: a thunk yields its result, the library's own
      getter reads the store's current default actor, anything else throws. */
  function Call(f: Value, store: Value): (r: Result<Value, Error>)
    ensures f.Thunk? ==> r == Ok(f.result)
    ensures !IsFunction(f) ==> r == Err(TypeError)
  {
    match f
    case Thunk(res) => Ok(res)
    case DefaultActorGetter => GetDefault(store, Str("defaultActor"))
    case _ => Err(TypeError)
  }

  /** `while (typeof v === 'function') v = v();`. Once the getter has been
      called, meeting it again means the loop repeats itself forever. */
  function Force(v: Value, store: Value, getterCalled: bool): (r: Result<Value, Error>)
    ensures r.Ok? ==> !IsFunction(r.value)
    ensures !IsFunction(v) ==> r == Ok(v)
    decreases !getterCalled, v
  {
    match v
    case Thunk(res) => Force(res, store, getterCalled)
    case DefaultActorGetter =>
      if getterCalled then Err(Diverges)
      else
        var actor :- GetDefault(store, Str("defaultActor"));
        Force(actor, store, true)
    case _ => Ok(v)
  }

  /** A thunk nested any number of times is forced down to its innermost value. */
  lemma {:induction false} ForceNestedThunks(v: Value, depth: nat, store: Value)
    requires !IsFunction(v)
    ensures Force(Wrap(v, depth), store, false) == Ok(v)
    decreases depth
  {
    if depth > 0 {
      ForceNestedThunks(v, depth - 1, store);
    }
  }

  /** `depth` nested functions, each returning the next, ending in `v`. */
  function Wrap(v: Value, depth: nat): Value
  {
    if depth == 0 then v else Thunk(Wrap(v, depth - 1))
  }

  /** A default actor that is itself the getter makes forcing the getter loop forever. */
  lemma GetterReturningItselfDiverges(store: Value)
    requires store.Obj? && "defaultActor" in store.fields
    requires store.fields["defaultActor"] == Thunk(DefaultActorGetter)
    ensures Force(DefaultActorGetter, store, false) == Err(Diverges)
  {
    assert GetDefault(store, Str("defaultActor")) == Ok(Thunk(DefaultActorGetter));
  }

  /** `getDefault(k)` after `setDefault(k, v)` yields `v`. */
  lemma GetAfterSet(store: Value, key: Value, value: Value)
    requires store.Obj? && Truthy(key) && !IsObjectType(key)
    ensures SetDefault(store, key, value).Ok?
    ensures GetDefault(SetDefault(store, key, value).value, key) == Ok(value)
  {
  }

  /** `setDefault(k, v)` leaves every other key of the store as it was. */
  lemma SetLeavesOtherKeys(store: Value, key: Value, value: Value, other: Value)
    requires store.Obj? && !IsObjectType(key)
    requires PropertyKey(other) != PropertyKey(key)
    ensures SetDefault(store, key, value).Ok?
    ensures GetDefault(SetDefault(store, key, value).value, other)
         == (if Truthy(other) then GetDefault(store, other) else SetDefault(store, key, value))
  {
  }

  /** `setDefault(o)` with an object makes `o` the store: every later read goes to `o`. */
  lemma ObjectKeyReplacesStore(store: Value, replacement: Value, value: Value, key: Value)
    requires IsObjectType(replacement)
    ensures SetDefault(store, replacement, value) == Ok(replacement)
    ensures GetDefault(replacement, key) == (if Truthy(key) then Get(replacement, PropertyKey(key)) else Ok(replacement))
  {
  }

  /** The library's getter reads the default actor current at call time, so
      `setDefaultActor(a)` changes what it returns. */
  lemma GetterSeesNewDefaultActor(store: Value, actor: Value)
    requires store.Obj?
    ensures SetDefault(store, Str("defaultActor"), actor).Ok?
    ensures Call(DefaultActorGetter, SetDefault(store, Str("defaultActor"), actor).value) == Ok(actor)
  {
  }

  /** `setDefaultActor(actor)`: the default actor entry of the store. The
      library's getter, if still installed, then returns `actor`. */
  function SetDefaultActor(store: Value, actor: Value): (r: Result<Value, Error>)
    ensures r.Err? <==> store.Undefined? || store.Null?
    ensures store.Obj? ==> r.Ok? && Call(DefaultActorGetter, r.value) == Ok(actor)
    ensures store.Obj? && "getDefaultActor" in store.fields ==>
      r.Ok? && GetDefault(r.value, Str("getDefaultActor")) == Ok(store.fields["getDefaultActor"])
  {
    SetDefault(store, Str("defaultActor"), actor)
  }
}
