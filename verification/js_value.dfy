/** JavaScript values as the statement engine of HypeXAPI.js sees them: the
    scalars, plain objects, arrays and zero-argument functions that appear in
    configs, dictionaries and variable scopes. */
module JsValue {
  import opened Results
  import opened Text

  datatype Value =
    | Undefined
    | Null
    | Bool(b: bool)
    | Num(n: int)
    | Str(s: string)
    | Obj(fields: map<string, Value>)
    | Arr(elems: seq<Value>)
      /** A zero-argument function, represented by the value one call returns. */
    | Thunk(result: Value)
      /** The library's own `getDefaultActor`, which reads `defaultActor`
          from the defaults store at the moment it is called. */
    | DefaultActorGetter

  /** Why a call into the engine does not complete normally. */
  datatype Error =
    | TypeError   // a property read on null or undefined, or a call of a non-function
    | Diverges    // a chain of function calls that never reaches a non-function

  predicate IsFunction(v: Value) {
    v.Thunk? || v.DefaultActorGetter?
  }

  /** `typeof v === 'object'`, which holds for null too. */
  predicate IsObjectType(v: Value) {
    v.Obj? || v.Arr? || v.Null?
  }

  /** JavaScript truthiness (ToBoolean). */
  predicate Truthy(v: Value) {
    match v
    case Undefined => false
    case Null => false
    case Bool(b) => b
    case Num(n) => n != 0
    case Str(s) => s != ""
    case _ => true
  }

  /** Stand-in for the source text `String(f)` yields for a function. */
  const FunctionText: string := "function () { [native code] }"

  /** `String(v)`. */
  function StringOf(v: Value): (r: string)
    ensures v.Num? && v.n >= 0 ==> ArrayIndex(r) == Some(v.n)
    ensures v.Num? && v.n < 0 ==> |r| >= 2 && r[0] == '-' && Canonical(r[1..]) && DigitsValue(r[1..]) == -v.n
  {
    match v
    case Undefined => "undefined"
    case Null => "null"
    case Bool(b) => if b then "true" else "false"
    case Num(n) =>
      DigitsValueOfNatToString(if n < 0 then -n else n);
      assert n < 0 ==> IntToString(n)[1..] == NatToString(-n);
      IntToString(n)
    case Str(s) => s
    case Obj(_) => "[object Object]"
    case Arr(xs) => JoinElems(xs)
    case _ => FunctionText
  }

  /** `xs.join(",")`: null and undefined elements render as the empty string. */
  function JoinElems(xs: seq<Value>): string
  {
    if xs == [] then ""
    else
      var head := if xs[0].Undefined? || xs[0].Null? then "" else StringOf(xs[0]);
      if |xs| == 1 then head else head + "," + JoinElems(xs[1..])
  }

  /** The property name a value becomes when used as `o[v]`. */
  function PropertyKey(v: Value): string
  {
    StringOf(v)
  }

  /** The array index a property name denotes, if it is one. */
  function ArrayIndex(key: string): Option<nat>
  {
    if Canonical(key) then Some(DigitsValue(key)) else None
  }

  /** `v[key]`: own properties of objects, indices and `length` of arrays and
      strings; every other primitive reads as undefined; null and undefined throw. */
  function Get(v: Value, key: string): (r: Result<Value, Error>)
    ensures r.Err? <==> v.Undefined? || v.Null?
    ensures r.Ok? && v.Obj? && key !in v.fields ==> r.value.Undefined?
    ensures v.Obj? && key in v.fields ==> r == Ok(v.fields[key])
    ensures v.Arr? && key == "length" ==> r == Ok(Num(|v.elems|))
  {
    match v
    case Undefined => Err(TypeError)
    case Null => Err(TypeError)
    case Obj(m) => Ok(if key in m then m[key] else Undefined)
    case Arr(xs) =>
      var i := ArrayIndex(key);
      if i.Some? && i.value < |xs| then Ok(xs[i.value])
      else if key == "length" then Ok(Num(|xs|))
      else Ok(Undefined)
    case Str(s) =>
      var i := ArrayIndex(key);
      if i.Some? && i.value < |s| then Ok(Str([s[i.value]]))
      else if key == "length" then Ok(Num(|s|))
      else Ok(Undefined)
    case _ => Ok(Undefined)
  }

  /** Reading an array at the decimal rendering of an index yields that element:
      the `[n]` → `.n` normalisation of key paths lands on array slots. */
  lemma GetArrayAtIndex(xs: seq<Value>, i: nat)
    requires i < |xs|
    ensures Get(Arr(xs), NatToString(i)) == Ok(xs[i])
  {
    DigitsValueOfNatToString(i);
  }

  /** A digit string with a leading zero is not an index: `a["01"]` is a named property. */
  lemma LeadingZeroIsNotIndex(xs: seq<Value>, key: string)
    requires |key| >= 2 && AllDigits(key) && key[0] == '0'
    ensures Get(Arr(xs), key) == Ok(Undefined)
  {
  }
}
