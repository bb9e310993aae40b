/** JSON values as the loader receives them from `response.json()`, with the
    two JavaScript behaviours it relies on: truthiness, and how a value
    prints inside a template literal. Numbers are integers here. */
module JsonValues {
  import opened Common

  datatype Json =
    | JNull
    | JBool(b: bool)
    | JNum(n: int)
    | JStr(s: string)
    | JArr(items: seq<Json>)
    | JObj(fields: map<string, Json>)

  /** JavaScript truthiness. */
  predicate Truthy(j: Json) {
    match j
    case JNull => false
    case JBool(b) => b
    case JNum(n) => n != 0
    case JStr(s) => s != ""
    case JArr(_) => true
    case JObj(_) => true
  }

  /** `value.key` for a named property of a parsed JSON value; `None` is
      `undefined`. Only objects carry named properties here. */
  function Property(j: Json, key: string): (r: Option<Json>)
    ensures r.Some? <==> j.JObj? && key in j.fields
    ensures r.Some? ==> r.value == j.fields[key]
  {
    if j.JObj? && key in j.fields then Some(j.fields[key]) else None
  }

  /** `${value}` for a JSON value. */
  function ToJsString(j: Json): (s: string)
    ensures j.JStr? ==> s == j.s
    ensures j.JNum? ==> s == IntToString(j.n)
    ensures j.JArr? && |j.items| == 1 && j.items[0].JStr? ==> s == j.items[0].s
  {
    match j
    case JNull => "null"
    case JBool(b) => if b then "true" else "false"
    case JNum(n) => IntToString(n)
    case JStr(s) => s
    case JArr(items) => JoinWithCommas(seq(|items|, i requires 0 <= i < |items| => if items[i].JNull? then "" else ToJsString(items[i])))
    case JObj(_) => "[object Object]"
  }

  /** `Array.prototype.join` with the default separator. */
  function JoinWithCommas(parts: seq<string>): (s: string)
    ensures |parts| == 1 ==> s == parts[0]
    ensures |parts| == 0 ==> s == ""
  {
    if |parts| <= 1 then (if parts == [] then "" else parts[0])
    else JoinWithCommas(parts[..|parts| - 1]) + "," + parts[|parts| - 1]
  }

  /** `${value.key}`: an absent property prints as "undefined". */
  function TemplateOf(v: Option<Json>): (s: string)
    ensures v.None? ==> s == "undefined"
    ensures v.Some? ==> s == ToJsString(v.value)
  {
    if v.None? then "undefined" else ToJsString(v.value)
  }
}
