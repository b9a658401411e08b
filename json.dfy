/**
 * A parsed JSON value, as JSON.parse and response.json() return it, and the
 * few ECMAScript operations the services apply to such values: optional
 * property access (`v?.key`), the nullish test behind `??`, truthiness, and
 * String(v).
 */
module Json {
  import opened Wrappers
  import Text

  /**
   * Numbers are read as the exact values written in the JSON text: the
   * rounding to doubles and the overflow to the infinities are not modelled.
   */
  datatype Json =
    | JNull
    | JBool(b: bool)
    | JNumber(n: real)
    | JString(s: string)
    | JArray(items: seq<Json>)
    | JObject(fields: map<string, Json>)

  /** `v?.key` on a value: a property of an object; undefined (None) on anything else. */
  function Get(v: Json, key: string): (r: Option<Json>)
    ensures r.Some? <==> v.JObject? && key in v.fields
    ensures r.Some? ==> r.value == v.fields[key]
  {
    if v.JObject? && key in v.fields then Some(v.fields[key]) else None
  }

  /**
   * `o?.key` where o may itself be undefined (None): undefined for a nullish
   * base or a base without that property, otherwise the property's value.
   */
  function Member(o: Option<Json>, key: string): (r: Option<Json>)
    ensures Nullish(o) ==> r.None?
    ensures r.Some? <==> o.Some? && o.value.JObject? && key in o.value.fields
    ensures r.Some? ==> r.value == o.value.fields[key]
  {
    if o.Some? then Get(o.value, key) else None
  }

  /** null or undefined: the values `??` replaces. */
  predicate Nullish(o: Option<Json>) {
    o.None? || o.value.JNull?
  }

  /** ECMAScript ToBoolean: false for undefined, null, false, 0 and "", true otherwise. */
  function Truthy(o: Option<Json>): (b: bool)
    ensures Nullish(o) ==> !b
    ensures o.Some? && (o.value.JArray? || o.value.JObject?) ==> b
  {
    match o
    case None => false
    case Some(v) =>
      match v
      case JNull => false
      case JBool(b) => b
      case JNumber(n) => n != 0.0
      case JString(s) => s != []
      case JArray(_) => true
      case JObject(_) => true
  }

  /** The most fraction digits the model writes for a non-integral number. */
  const MaxFractionDigits: nat := 20

  /** Decimal digits of a fraction in [0, 1), stopping once it is exhausted. */
  function FractionDigits(f: real, fuel: nat): string
    requires 0.0 <= f < 1.0
    decreases fuel
  {
    if fuel == 0 || f == 0.0 then ""
    else
      var d := (f * 10.0).Floor;
      [Text.DigitChar(d)] + FractionDigits(f * 10.0 - d as real, fuel - 1)
  }

  function UnsignedNumberToString(x: real): string
    requires 0.0 <= x
  {
    var whole := x.Floor;
    var frac := x - whole as real;
    Text.NatToString(whole) + (if frac == 0.0 then "" else "." + FractionDigits(frac, MaxFractionDigits))
  }

  /** String(x) for a number in positional notation. */
  function NumberToString(x: real): string {
    if x < 0.0 then "-" + UnsignedNumberToString(-x) else UnsignedNumberToString(x)
  }

  function JoinWithCommas(parts: seq<string>): string {
    if |parts| == 0 then ""
    else if |parts| == 1 then parts[0]
    else parts[0] + "," + JoinWithCommas(parts[1..])
  }

  /**
   * String(v): a string is itself; an array joins its elements' strings with
   * commas, writing null elements as nothing; every object is "[object Object]".
   */
  function ToJsString(v: Json): (r: string)
    ensures v.JString? ==> r == v.s
    ensures v.JNumber? && 0.0 <= v.n && v.n.Floor as real == v.n ==> r == Text.NatToString(v.n.Floor)
    ensures r == [] ==> v.JString? || v.JArray?
  {
    match v
    case JNull => "null"
    case JBool(b) => if b then "true" else "false"
    case JNumber(n) => NumberToString(n)
    case JString(s) => s
    case JArray(items) =>
      JoinWithCommas(seq(|items|, i requires 0 <= i < |items| =>
        if items[i].JNull? then "" else ToJsString(items[i])))
    case JObject(_) => "[object Object]"
  }
}
