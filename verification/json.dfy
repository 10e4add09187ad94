/**
 * Values as they arrive in a parsed request body, and the JavaScript
 * conversions the route handlers apply to them.
 */
module Json {
  import opened Wrappers
  import Text

  /** A JSON value. Numbers are integers here; an absent property is `None` at the use site. */
  datatype JsonValue =
    | JNull
    | JBool(b: bool)
    | JNum(n: int)
    | JStr(s: string)
    | JArr(items: seq<JsonValue>)
    | JObj(fields: map<string, JsonValue>)

  /** JavaScript truthiness of a possibly absent (`undefined`) value: `!v` is `!Truthy(v)`. */
  predicate Truthy(v: Option<JsonValue>) {
    match v
    case None => false
    case Some(JNull) => false
    case Some(JBool(b)) => b
    case Some(JNum(n)) => n != 0
    case Some(JStr(s)) => s != ""
    case Some(_) => true
  }

  /** The string inside a value, or the empty string for a value that is not one. */
  function AsString(v: Option<JsonValue>): string {
    if v.Some? && v.value.JStr? then v.value.s else ""
  }

  /**
   * `v.key` for a non-null value. Only objects carry own properties; the keys the
   * handlers read (`title`, `content`, `author`) are not members of Object.prototype,
   * so nothing is inherited.
   */
  function Prop(v: JsonValue, key: string): Option<JsonValue> {
    if v.JObj? && key in v.fields then Some(v.fields[key]) else None
  }

  /**
   * The names every plain object literal inherits from Object.prototype; reading
   * any of them with `obj[name]` gives a truthy value (a function, or the prototype).
   */
  const ObjectPrototypeMembers: set<string> := {
    "constructor", "__defineGetter__", "__defineSetter__", "hasOwnProperty",
    "__lookupGetter__", "__lookupSetter__", "isPrototypeOf", "propertyIsEnumerable",
    "toString", "valueOf", "__proto__", "toLocaleString"
  }

  /**
   * `String(v)`, as `obj[v]` converts a value to a property key: text as it is, an
   * array as its elements joined with commas (a `null` element gives ""), and an
   * object as "[object Object]".
   */
  function PropertyKey(v: JsonValue): (key: string)
    ensures v.JStr? ==> key == v.s
    ensures v.JArr? && |v.items| == 1 && v.items[0].JStr? ==> key == v.items[0].s
    ensures v.JObj? ==> key == "[object Object]"
    decreases v, 1
  {
    match v
    case JNull => "null"
    case JBool(b) => if b then "true" else "false"
    case JNum(n) => if n < 0 then "-" + Text.DecimalString(-n) else Text.DecimalString(n)
    case JStr(s) => s
    case JArr(items) => JoinedKeys(items, v)
    case JObj(_) => "[object Object]"
  }

  /** `items.join(',')` for the elements of `whole`: each element's key, a `null` giving "". */
  function JoinedKeys(items: seq<JsonValue>, whole: JsonValue): string
    requires forall i :: 0 <= i < |items| ==> items[i] < whole
    decreases whole, 0, |items|
  {
    if |items| == 0 then ""
    else
      var first := if items[0] == JNull then "" else PropertyKey(items[0]);
      if |items| == 1 then first else first + "," + JoinedKeys(items[1..], whole)
  }

  /**
   * `parseInt(v)` for a request-body value, which first converts `v` to a string:
   * a number prints as its decimal text, an array as its comma-joined elements (the
   * comma ends the digits, so only the first element is read), and `null`, booleans
   * and objects give no number. Numbers are integers here, and an object whose own
   * `toString` key makes `String` throw is not told apart.
   */
  function ParseIntArg(v: JsonValue): Option<int> {
    match v
    case JStr(s) => Text.ParseInt(s, 0)
    case JNum(n) => Some(n)
    case JArr(items) => if |items| == 0 then None else ParseIntArg(items[0])
    case _ => None
  }

  /** A numeric id, sent either as a number or as its decimal text, parses back to itself. */
  lemma ParseIntArgOfId(n: nat)
    ensures ParseIntArg(JNum(n)) == Some(n)
    ensures ParseIntArg(JStr(Text.DecimalString(n))) == Some(n)
  {
    Text.ParseIntDecimal(n);
  }
}
