/** JSON values as Gson reads a response into `Map::class.java`: objects become maps that keep
    the document's key order, arrays lists, numbers `Double`, strings, booleans and null. */
module Json {
  import opened Wrappers
  import opened Decimal

  datatype Json =
    | JNull
    | JBool(b: bool)
    | JNumber(n: real)
    | JString(s: string)
    | JArray(items: seq<Json>)
    | JObject(fields: seq<(string, Json)>)

  type Fields = seq<(string, Json)>

  /** `map[key]`: the value stored under `key` (the first such entry), or null. */
  function Get(fields: Fields, key: string): (r: Option<Json>)
    ensures r.None? <==> forall i :: 0 <= i < |fields| ==> fields[i].0 != key
    ensures r.Some? ==> exists i :: 0 <= i < |fields| && fields[i] == (key, r.value) &&
                                    forall j :: 0 <= j < i ==> fields[j].0 != key
  {
    if |fields| == 0 then None
    else if fields[0].0 == key then Some(fields[0].1)
    else
      var r := Get(fields[1..], key);
      if r.Some? then
        var i :| 0 <= i < |fields| - 1 && fields[1..][i] == (key, r.value) &&
                 forall j :: 0 <= j < i ==> fields[1..][j].0 != key;
        assert fields[i + 1] == (key, r.value);
        r
      else r
  }

  /** The value when it is a string, otherwise absent (a safe cast). */
  function AsString(v: Option<Json>): (r: Option<string>)
    ensures r.Some? <==> v.Some? && v.value.JString?
  {
    if v.Some? && v.value.JString? then Some(v.value.s) else None
  }

  /** The value's fields when it is an object, otherwise absent (a safe cast). */
  function AsObject(v: Option<Json>): (r: Option<Fields>)
    ensures r.Some? <==> v.Some? && v.value.JObject?
  {
    if v.Some? && v.value.JObject? then Some(v.value.fields) else None
  }

  /** The value's items when it is an array, otherwise absent (a safe cast). */
  function AsArray(v: Option<Json>): (r: Option<seq<Json>>)
    ensures r.Some? <==> v.Some? && v.value.JArray?
  {
    if v.Some? && v.value.JArray? then Some(v.value.items) else None
  }

  /** The value when it is a number, otherwise absent; Gson reads every JSON number as a
      `Double`. */
  function AsNumber(v: Option<Json>): (r: Option<real>)
    ensures r.Some? <==> v.Some? && v.value.JNumber?
  {
    if v.Some? && v.value.JNumber? then Some(v.value.n) else None
  }

  /** The integer part, rounding toward zero. */
  function Truncate(x: real): (n: int)
    ensures x >= 0.0 ==> n as real <= x < n as real + 1.0
    ensures x < 0.0 ==> n as real - 1.0 < x <= n as real
  {
    if x >= 0.0 then x.Floor else -((-x).Floor)
  }

  function Clamp(n: int, lo: int, hi: int): int
    requires lo <= hi
  {
    if n < lo then lo else if n > hi then hi else n
  }

  /** `Double.toInt()`: truncated toward zero, saturating at the `Int` bounds. */
  function DoubleToInt(x: real): (n: int)
    ensures IsInt(n)
    ensures IsInt(Truncate(x)) ==> n == Truncate(x)
  {
    Clamp(Truncate(x), INT_MIN, INT_MAX)
  }

  /** `Double.toLong()` / `Number.toLong()`: truncated toward zero, saturating at the `Long`
      bounds. */
  function DoubleToLong(x: real): (n: int)
    ensures IsLong(n)
    ensures IsLong(Truncate(x)) ==> n == Truncate(x)
  {
    Clamp(Truncate(x), LONG_MIN, LONG_MAX)
  }
}
