/**
 * Parsed JSON values, as `JSON.parse` produces them from an inbound frame, and
 * the three JavaScript coercions the server applies to them: truthiness,
 * property reads and `String(...)`.
 */
module Json {
  import opened Wrappers

  /** A JSON value. Numbers are modelled as integers. */
  datatype Json =
    | JNull
    | JBool(b: bool)
    | JNum(n: int)
    | JStr(s: string)
    | JArray(items: seq<Json>)
    | JObject(fields: map<string, Json>)

  /** JavaScript truthiness of a value that may be `undefined` (`None`). */
  predicate Truthy(v: Option<Json>)
  {
    match v
    case None => false
    case Some(JNull) => false
    case Some(JBool(b)) => b
    case Some(JNum(n)) => n != 0
    case Some(JStr(s)) => s != ""
    case Some(_) => true
  }

  /** The property read `v.key` on a value that is not null: `undefined` unless `v` is an object with that key. */
  function Field(v: Json, key: string): (r: Option<Json>)
    ensures r.Some? <==> v.JObject? && key in v.fields
    ensures r.Some? ==> r.value == v.fields[key]
  {
    if v.JObject? && key in v.fields then Some(v.fields[key]) else None
  }

  /** Decimal digits of a natural number, most significant first. */
  function NatDigits(n: nat): (r: string)
    ensures |r| > 0
    ensures forall i :: 0 <= i < |r| ==> '0' <= r[i] <= '9'
  {
    var d := ['0' + (n % 10) as char];
    if n < 10 then d else NatDigits(n / 10) + d
  }

  /** `String(n)` for an integer number. */
  function IntToDecimal(n: int): string
  {
    if n < 0 then "-" + NatDigits(-n) else NatDigits(n)
  }

  /** `String(v)` for a value that may be `undefined`. */
  function ToJsString(v: Option<Json>): string
  {
    match v
    case None => "undefined"
    case Some(j) => JsString(j)
  }

  /** `String(j)`; an array is joined with commas, its null elements printing as the empty string. */
  function JsString(j: Json): string
    decreases j, 1
  {
    match j
    case JNull => "null"
    case JBool(b) => if b then "true" else "false"
    case JNum(n) => IntToDecimal(n)
    case JStr(s) => s
    case JArray(items) => JoinItems(j, items)
    case JObject(_) => "[object Object]"
  }

  /** `items.join(",")` for the items of the array `whole`. */
  function JoinItems(ghost whole: Json, items: seq<Json>): string
    requires forall i :: 0 <= i < |items| ==> items[i] < whole
    decreases whole, 0, |items|
  {
    if items == [] then ""
    else
      var head := if items[0].JNull? then "" else JsString(items[0]);
      if |items| == 1 then head else head + "," + JoinItems(whole, items[1..])
  }
}
