/** The Python values that `json.loads` produces and `json.dumps` accepts, with
    the two dictionary operations and the truth test the DataGit commands apply
    to them. JSON `null` and Python `None` are the same value, `Null`. */
module JsonValue {
  import opened Builtins

  /** A decoded JSON document. Numbers are integers here: the commands only
      ever ask whether a number is zero. A JSON object is a map, so its key
      order (and `sort_keys`) cannot matter. */
  datatype Json =
    | Null
    | Bool(b: bool)
    | Num(n: int)
    | Str(s: string)
    | Arr(items: seq<Json>)
    | Obj(fields: map<string, Json>)

  /** Python truthiness (`if x:`): `None`, `False`, `0`, `""`, `[]` and `{}`
      are false. */
  predicate Truthy(j: Json)
    ensures Truthy(j) <==> j !in {Null, Bool(false), Num(0), Str(""), Arr([]), Obj(map[])}
  {
    match j
    case Null => false
    case Bool(b) => b
    case Num(n) => n != 0
    case Str(s) => s != ""
    case Arr(items) => items != []
    case Obj(fields) => fields != map[]
  }

  /** `j.get(key, default)`: the value under `key`, or `default` when the key is
      absent; anything but a dict has no `get`, so Python raises AttributeError. */
  function GetOr(j: Json, key: string, default: Json): (r: Py<Json>)
    ensures r.Raise? <==> !j.Obj?
    ensures r.Raise? ==> r.error == AttributeError
    ensures j.Obj? && key in j.fields ==> r == Return(j.fields[key])
    ensures j.Obj? && key !in j.fields ==> r == Return(default)
  {
    match j
    case Obj(fields) => Return(if key in fields then fields[key] else default)
    case _ => Raise(AttributeError)
  }

  /** `j.get(key)`, whose default is `None`. */
  function Get(j: Json, key: string): (r: Py<Json>)
    ensures r.Raise? <==> !j.Obj?
    ensures r.Raise? ==> r.error == AttributeError
    ensures j.Obj? ==> r == Return(if key in j.fields then j.fields[key] else Null)
  {
    GetOr(j, key, Null)
  }

  /** A value used as a path component (`directory / value`): a `str` is used
      as it is, and pathlib raises TypeError for anything else. */
  function AsPathPart(j: Json): (r: Py<string>)
    ensures r.Return? <==> j.Str?
    ensures j.Str? ==> r.value == j.s
    ensures r.Raise? ==> r.error == TypeError
  {
    if j.Str? then Return(j.s) else Raise(TypeError)
  }
}
