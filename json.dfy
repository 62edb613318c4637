/** JSON values as the Python handlers see them after `json.loads` (or as the Lambda runtime
    delivers them), with the parts of Python's object model the handlers rely on: truthiness,
    `dict.get` and the `in` operator. */
module Json {
  import opened Common
  import opened Text

  /** Numbers are kept as exact reals: Python's `1 == 1.0`, and both `0` and `0.0` are falsy. */
  datatype Value =
    | JNull
    | JBool(b: bool)
    | JNum(n: real)
    | JStr(s: string)
    | JArr(items: seq<Value>)
    | JObj(fields: map<string, Value>)

  /** Python's truth value: `None`, `False`, zero and empty strings, lists and dicts are false. */
  predicate Truthy(v: Value) {
    match v
    case JNull => false
    case JBool(b) => b
    case JNum(n) => n != 0.0
    case JStr(s) => s != ""
    case JArr(items) => items != []
    case JObj(fields) => fields != map[]
  }

  /** `d.get(k)`: a missing key reads as `None`. */
  function Get(d: map<string, Value>, k: string): (v: Value)
    ensures k !in d ==> v == JNull
    ensures k in d ==> v == d[k]
  {
    if k in d then d[k] else JNull
  }

  /** `d.get(k, default)`. */
  function GetOr(d: map<string, Value>, k: string, default: Value): (v: Value)
    ensures k !in d ==> v == default
    ensures k in d ==> v == d[k]
  {
    if k in d then d[k] else default
  }

  /** Python `needle in container` for a string needle: a key test on a dict, an element test on
      a list, a substring test on a string; `None` stands for the `TypeError` every other
      container raises. */
  function PyIn(needle: string, container: Value): (r: Option<bool>)
    ensures r.None? <==> !(container.JObj? || container.JArr? || container.JStr?)
    ensures container.JObj? ==> r == Some(needle in container.fields)
    ensures container.JArr? ==> r == Some(JStr(needle) in container.items)
    ensures container.JStr? ==> r == Some(Contains(container.s, needle))
  {
    match container
    case JObj(fields) => Some(needle in fields)
    case JArr(items) => Some(JStr(needle) in items)
    case JStr(s) => Some(Contains(s, needle))
    case _ => None
  }

  /** The request body of an API Gateway event after the handlers' parsing step: a string body
      goes through `json.loads`, supplied here as `loads` (`None` is a decoding error); a missing
      body reads as `{}`; any other value is used as it is. */
  function LoadBody(body: Option<Value>, loads: string -> Option<Value>): (r: Option<Value>)
    ensures body.None? ==> r == Some(JObj(map[]))
    ensures body.Some? && body.value.JStr? ==> r == loads(body.value.s)
    ensures body.Some? && !body.value.JStr? ==> r == body
  {
    match body
    case None => Some(JObj(map[]))
    case Some(JStr(text)) => loads(text)
    case Some(v) => Some(v)
  }
}
