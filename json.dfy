/**
 * JSON-shaped values as both the Python services and the TypeScript client
 * see them, with the two languages' notions of truthiness, Python's `str()`
 * and dictionary lookup with a default.
 */
module Json {
  import opened Text

  /** A JSON value. Floating-point numbers are carried opaquely by their text. */
  datatype Json =
    | JNull
    | JBool(b: bool)
    | JInt(i: int)
    | JFloat(text: string)
    | JStr(s: string)
    | JArr(items: seq<Json>)
    | JObj(fields: map<string, Json>)

  /** Python truthiness: `None`, `False`, `0`, `""`, `[]` and `{}` are false. */
  predicate PyTruthy(v: Json) {
    match v
    case JNull => false
    case JBool(b) => b
    case JInt(i) => i != 0
    case JFloat(t) => t != "0.0" && t != "-0.0"
    case JStr(s) => s != ""
    case JArr(xs) => |xs| > 0
    case JObj(m) => |m| > 0
  }

  /** JavaScript truthiness: arrays and objects are always true. */
  predicate JsTruthy(v: Json) {
    match v
    case JNull => false
    case JBool(b) => b
    case JInt(i) => i != 0
    case JFloat(t) => t != "0.0" && t != "-0.0"
    case JStr(s) => s != ""
    case JArr(_) => true
    case JObj(_) => true
  }

  /** `d.get(key)` in Python, `o?.[key]` in JavaScript: the missing value is `JNull`. */
  function Get(v: Json, key: string): (r: Json)
    ensures !v.JObj? ==> r == JNull
    ensures v.JObj? && key !in v.fields ==> r == JNull
  {
    if v.JObj? && key in v.fields then v.fields[key] else JNull
  }

  /** Python `d.get(key, default)`: the default only when the key is absent. */
  function GetOr(v: Json, key: string, default: Json): (r: Json)
    ensures v.JObj? && key in v.fields ==> r == v.fields[key]
    ensures !(v.JObj? && key in v.fields) ==> r == default
  {
    if v.JObj? && key in v.fields then v.fields[key] else default
  }

  /** `d.get(key) or default`: the default also replaces a present but falsy value. */
  function GetOrIfFalsy(v: Json, key: string, default: Json): (r: Json)
    ensures PyTruthy(Get(v, key)) ==> r == Get(v, key)
    ensures !PyTruthy(Get(v, key)) ==> r == default
  {
    var x := Get(v, key);
    if PyTruthy(x) then x else default
  }

  /** The items of a list, or none for any other value (`d.get(key, [])` iterated). */
  function Items(v: Json): seq<Json> {
    if v.JArr? then v.items else []
  }

  /**
   * Python `str()` of a value; quoting inside containers is simplified to plain single quotes,
   * and a dictionary, whose key order a map does not keep, renders as `{...}`.
   */
  function PyStr(v: Json): string
    decreases v, 1
  {
    match v
    case JNull => "None"
    case JBool(b) => if b then "True" else "False"
    case JInt(i) => IntToString(i)
    case JFloat(t) => t
    case JStr(s) => s
    case JArr(xs) => "[" + ReprList(xs) + "]"
    case JObj(_) => "{...}"
  }

  function PyRepr(v: Json): string
    decreases v, 2
  {
    if v.JStr? then "'" + v.s + "'" else PyStr(v)
  }

  function ReprList(xs: seq<Json>): string
    decreases xs, 0
  {
    if |xs| == 0 then ""
    else if |xs| == 1 then PyRepr(xs[0])
    else PyRepr(xs[0]) + ", " + ReprList(xs[1..])
  }

  /** A string value; anything else becomes `""` (how the helpers read optional text fields). */
  function StrOrEmpty(v: Json): string {
    if v.JStr? then v.s else ""
  }
}
