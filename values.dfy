/**
 * The dynamically typed values that flow through the modelled code: what
 * `json.loads` produces and what the HTTP routes return.
 */
module Values {

  /** A JSON value; `JObj` keeps a dictionary's items in insertion order. */
  datatype Json =
    | JNull
    | JBool(b: bool)
    | JNum(n: int)
    | JStr(s: string)
    | JList(items: seq<Json>)
    | JObj(fields: seq<(string, Json)>)

  /** Python truthiness (`if v:`). */
  predicate Truthy(v: Json)
  {
    match v
    case JNull => false
    case JBool(b) => b
    case JNum(n) => n != 0
    case JStr(s) => s != ""
    case JList(xs) => xs != []
    case JObj(fs) => fs != []
  }

  /** Values that can be members of a Python `set` (lists and dicts cannot). */
  predicate Hashable(v: Json)
  {
    !v.JList? && !v.JObj?
  }

  /** Python's name for the type of `v`, as it appears in error messages. */
  function TypeName(v: Json): string
  {
    match v
    case JNull => "NoneType"
    case JBool(_) => "bool"
    case JNum(_) => "int"
    case JStr(_) => "str"
    case JList(_) => "list"
    case JObj(_) => "dict"
  }
}
