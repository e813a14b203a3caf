/**
 * JSON values as Python's json.loads hands them back, and the dictionaries
 * the research tool builds and returns.
 */
module Json {

  datatype Value =
    | JNull
    | JBool(b: bool)
    | JInt(i: int)
    | JFloat(x: real)
    | JStr(s: string)
    | JArray(items: seq<Value>)
    | JObject(fields: map<string, Value>)

  /** A Python dict with string keys. */
  type Record = map<string, Value>

  /** The name Python reports for the type of a decoded value (`type(v).__name__`). */
  function TypeName(v: Value): string {
    match v
    case JNull => "NoneType"
    case JBool(_) => "bool"
    case JInt(_) => "int"
    case JFloat(_) => "float"
    case JStr(_) => "str"
    case JArray(_) => "list"
    case JObject(_) => "dict"
  }

  /**
   * `target.update(source)`: every key of `source` takes `source`'s value,
   * every other key of `target` keeps its own, and no other key appears.
   */
  function Update(target: Record, source: Record): (r: Record)
    ensures r.Keys == target.Keys + source.Keys
    ensures forall k :: k in source ==> r[k] == source[k]
    ensures forall k :: k in target && k !in source ==> r[k] == target[k]
  {
    target + source
  }
}
