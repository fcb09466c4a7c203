/** JSON values as the server receives them (a decoded token payload, the
    fields of a request body), with the two pieces of JavaScript semantics the
    core depends on: truthiness and property access. */
module Json {
  import opened Wrappers

  /** A JSON value. Numbers are reals: JSON has no NaN and no infinities. */
  datatype Json =
    | Null
    | Bool(b: bool)
    | Number(n: real)
    | String(s: string)
    | Array(items: seq<Json>)
    | Object(fields: map<string, Json>)

  /** What `v.key` evaluates to: a value, `undefined`, or a thrown TypeError
      (reading a property of `null`). Stored optional values use `Option`
      instead; a property read needs the third, throwing case. */
  datatype Access = Undefined | Value(value: Json) | Thrown

  /** JavaScript truthiness: `null`, `false`, `0` and `""` are falsy; every
      array and every object, even an empty one, is truthy. */
  predicate Truthy(v: Json): (b: bool)
    ensures b <==> v !in {Null, Bool(false), Number(0.0), String("")}
  {
    match v
    case Null => false
    case Bool(b) => b
    case Number(n) => n != 0.0
    case String(s) => s != ""
    case Array(_) => true
    case Object(_) => true
  }

  /** Truthiness of an optional string (a header, an environment variable, a
      token part): present and not the empty string. */
  predicate Present(s: Option<string>): (b: bool)
    ensures b <==> s.Some? && Truthy(String(s.value))
  {
    s.Some? && s.value != ""
  }

  /** `v.key` for a key that names no built-in property (such as `user`):
      an object yields its own field or `undefined`, `null` throws, and
      every other value yields `undefined`. */
  function Property(v: Json, key: string): (a: Access)
    ensures a.Thrown? <==> v == Null
    ensures a.Value? <==> v.Object? && key in v.fields
    ensures a.Value? ==> a.value == v.fields[key]
  {
    match v
    case Null => Thrown
    case Object(fields) => if key in fields then Value(fields[key]) else Undefined
    case _ => Undefined
  }
}
