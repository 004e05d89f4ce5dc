/** GeoJSON features as the dashboard's JavaScript sees them, and the few
    JavaScript value rules the views depend on (truthiness, `parseInt`,
    `Number`, loose equality). */
module JsValues {
  import opened Wrappers
  import opened Decimal

  /** A property value after JSON parsing: a number or a string. */
  datatype Value = Num(n: real) | Text(s: string)

  datatype Prop = Prop(key: string, value: Value)

  /** A point geometry; `x` is the longitude (first coordinate), `y` the latitude. */
  datatype Point = Point(x: real, y: real)

  /** A GeoJSON point feature; `properties` keeps the key order of the source object. */
  datatype Feature = Feature(geometry: Point, properties: seq<Prop>)

  /** `properties[key]`: the value of the first property with that key, `None` for `undefined`. */
  function Get(props: seq<Prop>, key: string): (r: Option<Value>)
    ensures r.None? <==> forall i :: 0 <= i < |props| ==> props[i].key != key
    ensures r.Some? ==> exists i :: 0 <= i < |props| && props[i] == Prop(key, r.value)
  {
    if props == [] then None
    else if props[0].key == key then Some(props[0].value)
    else Get(props[1..], key)
  }

  /** JavaScript truthiness: `undefined`, `0` and `""` are falsy. */
  predicate Truthy(v: Option<Value>) {
    match v
    case None => false
    case Some(Num(n)) => n != 0.0
    case Some(Text(s)) => s != ""
  }

  /** Truncation toward zero, as `parseInt` does to a number. */
  function Trunc(r: real): (i: int)
    ensures r >= 0.0 ==> i as real <= r < i as real + 1.0
    ensures r < 0.0 ==> i as real - 1.0 < r <= i as real
  {
    if r >= 0.0 then r.Floor else -((-r).Floor)
  }

  /** `parseInt(v)`; `None` is NaN. A string parses through its leading
      optionally signed digit run. */
  function ParseInt(v: Option<Value>): Option<int> {
    match v
    case None => None
    case Some(Num(r)) => Some(Trunc(r))
    case Some(Text(s)) =>
      if |s| >= 2 && (s[0] == '-' || s[0] == '+') && IsDigit(s[1]) then
        var e := RunEnd(s, 1);
        var d: int := DigitsValue(s[1..e]);
        Some(if s[0] == '-' then -d else d)
      else if |s| >= 1 && IsDigit(s[0]) then
        Some(DigitsValue(s[..RunEnd(s, 0)]))
      else None
  }

  /** `Number(v)`; `None` is NaN. Strings are numbers only when empty or integer text. */
  function ToNumber(v: Option<Value>): Option<real> {
    match v
    case None => None
    case Some(Num(r)) => Some(r)
    case Some(Text(s)) =>
      if s == "" then Some(0.0)
      else match ParseIntText(s)
        case Some(i) => Some(i as real)
        case None => None
  }

  /** `a == b` (loose equality) between two property reads. */
  predicate LooseEq(a: Option<Value>, b: Option<Value>) {
    match (a, b)
    case (None, None) => true
    case (None, _) => false
    case (_, None) => false
    case (Some(Num(x)), Some(Num(y))) => x == y
    case (Some(Text(s)), Some(Text(t))) => s == t
    case (Some(Num(x)), Some(Text(_))) => ToNumber(b) == Some(x)
    case (Some(Text(_)), Some(Num(y))) => ToNumber(a) == Some(y)
  }

}
