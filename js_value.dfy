/** JavaScript values as the verifier sees them: a parsed JSON request body,
    `undefined` (as `None`), member lookup, and the two JavaScript tests the
    core applies to a value, truthiness (`!v`) and `typeof v`. */
module JsValue {

  datatype Option<+T> = None | Some(value: T)

  /** Outcome of a foreign call that may throw: the value, or the thrown message. */
  datatype Result<+T> = Ok(value: T) | Thrown(message: string)

  /** A value produced by `JSON.parse`. Object members are listed as they
      occur in the text; a key may occur more than once, and then the last
      occurrence is the property's value. (How `JSON.stringify` orders keys
      is left to the abstract serialiser.) */
  datatype JsonValue =
    | Null
    | Bool(b: bool)
    | Num(n: real)
    | Str(s: string)
    | Arr(items: seq<JsonValue>)
    | Obj(members: seq<(string, JsonValue)>)

  /** JavaScript truthiness: `!v` is `!Truthy(v)`. Every array and object,
      even an empty one, is truthy. */
  predicate Truthy(v: JsonValue) {
    match v
    case Null => false
    case Bool(b) => b
    case Num(n) => n != 0.0
    case Str(s) => s != ""
    case Arr(_) => true
    case Obj(_) => true
  }

  /** JavaScript `typeof v`; note that `typeof null` is "object". */
  function TypeOf(v: JsonValue): (t: string)
    ensures t == "object" <==> (v.Null? || v.Arr? || v.Obj?)
  {
    match v
    case Null => "object"
    case Bool(_) => "boolean"
    case Num(_) => "number"
    case Str(_) => "string"
    case Arr(_) => "object"
    case Obj(_) => "object"
  }

  /** The combined test `v && typeof v === "object"` holds exactly of arrays and objects. */
  lemma TruthyObjectIsContainer(v: JsonValue)
    ensures (Truthy(v) && TypeOf(v) == "object") <==> (v.Arr? || v.Obj?)
  {
  }

  /** The test `v && typeof v === "string"` holds exactly of non-empty strings. */
  lemma TruthyStringIsNonEmpty(v: JsonValue)
    ensures (Truthy(v) && TypeOf(v) == "string") <==> (v.Str? && v.s != "")
  {
  }

  /** The value bound to `key` by the last member that names it. */
  function Lookup(members: seq<(string, JsonValue)>, key: string): (r: Option<JsonValue>)
    ensures r.None? <==> forall i :: 0 <= i < |members| ==> members[i].0 != key
    ensures r.Some? ==> (key, r.value) in members
    decreases |members|
  {
    if members == [] then None
    else if members[|members| - 1].0 == key then Some(members[|members| - 1].1)
    else Lookup(members[..|members| - 1], key)
  }

  /** A later member with the same key hides every earlier one. */
  lemma {:induction false} LookupLastWins(members: seq<(string, JsonValue)>, key: string, v: JsonValue, later: seq<(string, JsonValue)>)
    requires forall i :: 0 <= i < |later| ==> later[i].0 != key
    ensures Lookup(members + [(key, v)] + later, key) == Some(v)
    decreases |later|
  {
    var all := members + [(key, v)] + later;
    if later != [] {
      var shorter := later[..|later| - 1];
      assert all[..|all| - 1] == members + [(key, v)] + shorter;
      LookupLastWins(members, key, v, shorter);
    } else {
      assert all[|all| - 1] == (key, v);
    }
  }
}
