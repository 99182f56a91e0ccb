/**
 * JSON values as the browser sees them. `JSON.stringify` and `JSON.parse` are not
 * modelled; a `Codec` carries them as given functions, and `Lawful` states what the
 * model relies on: parsing a stringified value gives it back, and neither the empty
 * text nor the text of a stringified-by-coercion object is JSON.
 */
module Json {
  import opened Wrappers
  import Decimal

  /** A JSON value; an object maps each key to its value. Numbers are integers here. */
  datatype JValue =
    | JNull
    | JBool(b: bool)
    | JNum(n: int)
    | JStr(s: string)
    | JArr(items: seq<JValue>)
    | JObj(fields: map<string, JValue>)

  /** The runtime's `JSON.stringify` and `JSON.parse` (`None` is a thrown SyntaxError). */
  datatype Codec = Codec(stringify: JValue -> string, parse: string -> Option<JValue>)

  /** `String({})`: the text `JSON.parse` receives when it is handed an object. */
  const ObjectText := "[object Object]"

  /** The facts about JSON text the model relies on. */
  ghost predicate Lawful(c: Codec) {
    && (forall v :: c.parse(c.stringify(v)) == Some(v))
    && c.stringify(JNull) == "null"
    && c.parse("") == None
    && c.parse(ObjectText) == None
  }

  /** JavaScript truthiness: null, false, 0 and the empty string are falsy. */
  predicate Truthy(v: JValue) {
    match v
    case JNull => false
    case JBool(b) => b
    case JNum(n) => n != 0
    case JStr(s) => s != ""
    case _ => true
  }

  /** The property read `v[key]`; `None` is `undefined` (every non-object lacks the key). */
  function Prop(v: JValue, key: string): Option<JValue> {
    if v.JObj? && key in v.fields then Some(v.fields[key]) else None
  }

  /** JavaScript's `String(v)`: arrays join their elements with commas, null elements print empty. */
  function ToText(v: JValue): string
    decreases v, 1
  {
    match v
    case JNull => "null"
    case JBool(b) => if b then "true" else "false"
    case JNum(n) => Decimal.Itoa(n)
    case JStr(s) => s
    case JArr(items) => JoinText(items)
    case JObj(_) => ObjectText
  }

  /** `items.join(",")` */
  function JoinText(items: seq<JValue>): string
    decreases items, 0
  {
    if |items| == 0 then ""
    else
      var first := if items[0] == JNull then "" else ToText(items[0]);
      if |items| == 1 then first else first + "," + JoinText(items[1..])
  }
}
