/**
 * The loosely typed values a task record can hold: whatever JSON decoding
 * yields, plus a `date` object when a record comes from the task store,
 * and the Python coercions the scorer applies to them (`bool()`, `int()`,
 * `float()`, `dict.get`).
 */
module Values {
  import opened Wrappers
  import opened Text
  import opened Calendar

  datatype Value =
    | Null
    | Bool(b: bool)
    | Int(i: int)
    | Float(x: real)
    | Str(s: string)
    | DateValue(date: CivilDate)
    | List(items: seq<Value>)
    | Dict(entries: map<string, Value>)

  /** A task record: a dict from field names to values. */
  type Record = map<string, Value>

  /** `record.get(key, default)`. */
  function GetOr(r: Record, key: string, default: Value): Value {
    if key in r then r[key] else default
  }

  /** `record.get(key)`: a missing key reads as `None`. */
  function Get(r: Record, key: string): Value {
    GetOr(r, key, Null)
  }

  /** `bool(v)`: Python truthiness. */
  predicate Truthy(v: Value)
    ensures !Truthy(v) <==>
      || v == Null || v == Bool(false) || v == Int(0) || v == Float(0.0)
      || v == Str("") || v == List([]) || v == Dict(map[])
  {
    match v
    case Null => false
    case Bool(b) => b
    case Int(i) => i != 0
    case Float(x) => x != 0.0
    case Str(s) => s != ""
    case DateValue(_) => true
    case List(items) => items != []
    case Dict(entries) => entries != map[]
  }

  /** `int(x)` for a float: truncation toward zero. */
  function Truncate(x: real): (n: int)
    ensures 0.0 <= x ==> 0.0 <= n as real <= x < n as real + 1.0
    ensures x < 0.0 ==> n as real - 1.0 < x <= n as real <= 0.0
  {
    if x >= 0.0 then x.Floor else -((-x).Floor)
  }

  /** `int(v)`; `None` where Python raises. */
  function ToInt(v: Value): (r: Option<int>)
    ensures r.Some? <==> v.Bool? || v.Int? || v.Float? || (v.Str? && ParseInt(v.s).Some?)
    ensures v.Bool? ==> r == Some(if v.b then 1 else 0)
    ensures v.Int? ==> r == Some(v.i)
    ensures v.Float? ==> r == Some(Truncate(v.x))
    ensures v.Str? ==> r == ParseInt(v.s)
  {
    match v
    case Bool(b) => Some(if b then 1 else 0)
    case Int(i) => Some(i)
    case Float(x) => Some(Truncate(x))
    case Str(s) => ParseInt(s)
    case _ => None
  }

  /** `float(v)`; `None` where Python raises. */
  function ToFloat(v: Value): (r: Option<real>)
    ensures r.Some? <==> v.Bool? || v.Int? || v.Float? || (v.Str? && ParseDecimal(v.s).Some?)
    ensures ToInt(v).Some? && !v.Float? ==> r == Some(ToInt(v).value as real)
    ensures v.Float? ==> r == Some(v.x)
    ensures v.Str? ==> r == ParseDecimal(v.s)
  {
    match v
    case Bool(b) => Some(if b then 1.0 else 0.0)
    case Int(i) => Some(i as real)
    case Float(x) => Some(x)
    case Str(s) => ParseDecimal(s)
    case _ => None
  }
}
