/** JavaScript values as the lead robot sees them: the values JSON.parse can
    produce, the absent-or-present results of its collaborators, and the
    truthiness test that its `if` and `&&` guards apply. */
module JsValues {

  datatype Option<+T> = None | Some(value: T)

  /** A value JSON.parse can return. A JavaScript object is a map from its keys
      to its values (the order of its keys is not modelled). */
  datatype Json =
    | Null
    | Bool(b: bool)
    | Num(n: real)
    | Str(s: string)
    | Arr(items: seq<Json>)
    | Obj(fields: map<string, Json>)

  /** JavaScript truthiness of a JSON value: `null`, `false`, `0` and `""`
      are falsy; every array and every object is truthy. */
  predicate Truthy(v: Json) {
    match v
    case Null => false
    case Bool(b) => b
    case Num(n) => n != 0.0
    case Str(s) => s != ""
    case Arr(_) => true
    case Obj(_) => true
  }

  /** JavaScript truthiness of a string that may be `null`: only a non-empty
      string is truthy. */
  predicate TruthyText(t: Option<string>) {
    t.Some? && t.value != ""
  }

  /** `v` is an array with at least one item. */
  predicate IsNonEmptyArray(v: Json) {
    v.Arr? && v.items != []
  }

  /** The guard `v && Array.isArray(v) && v.length > 0` of the handler is the
      same as "v is a non-empty array": every array is truthy. */
  lemma NonEmptyArrayGuard(v: Json)
    ensures (Truthy(v) && v.Arr? && |v.items| > 0) <==> IsNonEmptyArray(v)
  {
  }
}
