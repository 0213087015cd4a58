/** Parsed YAML documents and JSON objects share one value type. YAML and JSON
    parsing themselves are not modelled: a parse is given as its outcome. */
module Values {
  import opened Common

  /** A JavaScript value as produced by `yaml.load` or `JSON.parse`. Numbers
      are integers here. `yaml.load` of an empty document (or one holding
      only comments) gives `Undefined`, which `JSON.stringify` drops from an
      object. */
  datatype Value =
    | Undefined
    | Null
    | Bool(b: bool)
    | Num(n: int)
    | Str(s: string)
    | List(items: seq<Value>)
    | Obj(fields: map<string, Value>)

  /** JavaScript truthiness: `undefined`, `null`, `false`, `0` and `''` are
      falsy, every array and object is truthy. */
  predicate Truthy(v: Value)
  {
    match v
    case Undefined => false
    case Null => false
    case Bool(b) => b
    case Num(n) => n != 0
    case Str(s) => s != ""
    case List(_) => true
    case Obj(_) => true
  }

  /** Reading `v[key]` for a key that is not a built-in property: an object's
      own field, and `undefined` (None) for every other kind of value. The
      caller has already excluded `null`, on which the read would throw. */
  function Member(v: Value, key: string): (r: Option<Value>)
    ensures r.Some? <==> v.Obj? && key in v.fields
    ensures r.Some? ==> r.value == v.fields[key]
  {
    match v
    case Obj(fields) => if key in fields then Some(fields[key]) else None
    case _ => None
  }

  /** A parse outcome: the value, or the message of the error it threw. */
  type Parse = Result<Value, string>
}
