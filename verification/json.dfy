/**
 Decoded JSON values and the Python operations the client applies to them
 (`bool(v)`, `key in v`, `v[key]`, `v.get(key, default)`, `len(v)`, `for x in v`).
 Each operation that Python can reject with an exception returns an `Option`,
 `None` standing for the raised TypeError, AttributeError or KeyError.
 */
module Json {
  import opened Wrappers
  import Strings

  /** A value as `json.loads` produces it; objects are dicts keyed by string. */
  datatype Value =
    | Null
    | Bool(b: bool)
    | Num(n: int)
    | Str(s: string)
    | Arr(items: seq<Value>)
    | Obj(fields: map<string, Value>)

  /** Python truthiness: `None`, `False`, `0`, `""`, `[]` and `{}` are false. */
  predicate Truthy(v: Value) {
    match v
    case Null => false
    case Bool(b) => b
    case Num(n) => n != 0
    case Str(s) => s != ""
    case Arr(items) => items != []
    case Obj(fields) => fields != map[]
  }

  /**
   `key in v` for a string `key`: a key test on a dict, an element test on a list,
   a substring test on a string; any other value raises TypeError.
   */
  function Member(key: string, v: Value): (r: Option<bool>)
    ensures r.Some? <==> v.Obj? || v.Arr? || v.Str?
    ensures v.Obj? ==> r == Some(key in v.fields)
  {
    match v
    case Obj(fields) => Some(key in fields)
    case Arr(items) => Some(Str(key) in items)
    case Str(s) => Some(Strings.Contains(s, key))
    case _ => None
  }

  /** `v[key]` for a string `key`: only a dict holding `key` answers. */
  function Index(v: Value, key: string): (r: Option<Value>)
    ensures r.Some? <==> v.Obj? && key in v.fields
    ensures r.Some? ==> r.value == v.fields[key]
  {
    if v.Obj? && key in v.fields then Some(v.fields[key]) else None
  }

  /** `v.get(key, default)`: only a dict has `get`. */
  function Get(v: Value, key: string, default: Value): (r: Option<Value>)
    ensures r.Some? <==> v.Obj?
    ensures v.Obj? && key in v.fields ==> r == Some(v.fields[key])
    ensures v.Obj? && key !in v.fields ==> r == Some(default)
  {
    if v.Obj? then Some(if key in v.fields then v.fields[key] else default) else None
  }

  /** `len(v)`: defined on strings, lists and dicts. */
  function Len(v: Value): (r: Option<nat>)
    ensures r.Some? <==> v.Obj? || v.Arr? || v.Str?
  {
    match v
    case Str(s) => Some(|s|)
    case Arr(items) => Some(|items|)
    case Obj(fields) => Some(|fields|)
    case _ => None
  }

  /**
   The elements `for x in v` hands to a loop body that subscripts each element
   or calls `.get` on it. Iterating a non-empty string or dict yields strings,
   which every such body rejects, so only lists and empty strings and dicts get
   through; iterating a number, boolean or `None` raises TypeError.
   */
  function Elements(v: Value): (r: Option<seq<Value>>)
    ensures v.Arr? ==> r == Some(v.items)
    ensures r.Some? && !v.Arr? ==> r.value == []
  {
    match v
    case Arr(items) => Some(items)
    case Str(s) => if s == "" then Some([]) else None
    case Obj(fields) => if fields == map[] then Some([]) else None
    case _ => None
  }

  /** The `{"error": message}` object every tool returns on failure. */
  function ErrorObject(message: string): (v: Value)
    ensures v.Obj? && v.fields.Keys == {"error"} && v.fields["error"] == Str(message)
  {
    Obj(map["error" := Str(message)])
  }
}
