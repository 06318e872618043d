/**
 * The JSON-shaped values the build scripts pass around: a ticker payload's metadata
 * and each OHLCV row are Python dicts, merged with `{**meta, **row}` into the records
 * the rankings and the market overview are built from.
 */
module Records {
  /** A decoded JSON value; `Null` is Python's None. Numbers are exact reals. */
  datatype Value = Null | Bool(b: bool) | Num(x: real) | Str(s: string) | List(items: seq<Value>) | Dict(entries: map<string, Value>)

  /**
   * The keys of a record: each constructor is the JSON key of the same name in camel case
   * (`ChangePercent` is "changePercent", `Ma25` is "ma25"), and `Other` is any other key.
   */
  datatype Key =
    | Code | Name | Market | Sector | Industry | Tags | Links | Rank
    | Date | Open | High | Low | Close | Volume | Change | ChangePercent
    | Ma5 | Ma25 | Ma75 | Ma200 | VolumeMa5 | VolumeMa25
    | DistanceToMa25 | DistanceToMa75 | DistanceToMa200 | VolumeRatio25
    | Rci12 | Rci24 | Rci48 | RangePosition52w | NewHigh52w
    | Other(key: string)

  /** A Python dict with string keys. Key order is not modelled. */
  type Record = map<Key, Value>

  /** `record.get(key)`: the stored value, or None for a missing key. */
  function Get(r: Record, key: Key): (v: Value)
    ensures key !in r ==> v == Null
    ensures key in r ==> v == r[key]
  {
    if key in r then r[key] else Null
  }

  /** `record.get(key, default)`: the default only for a missing key (a stored None stays None). */
  function GetOr(r: Record, key: Key, default: Value): (v: Value)
    ensures key !in r ==> v == default
    ensures key in r ==> v == r[key]
  {
    if key in r then r[key] else default
  }

  /** Python truthiness: None, False, 0, "" and empty containers are false. */
  predicate Truthy(v: Value) {
    match v
    case Null => false
    case Bool(b) => b
    case Num(x) => x != 0.0
    case Str(s) => s != ""
    case List(items) => items != []
    case Dict(entries) => entries != map[]
  }

  /** Python `a or b`. */
  function Or(a: Value, b: Value): (v: Value)
    ensures Truthy(a) ==> v == a
    ensures !Truthy(a) ==> v == b
  {
    if Truthy(a) then a else b
  }

  /**
   * `float(value or 0)`: a number as it is, True as 1, anything falsy as 0. The scripts
   * only store numbers, booleans or None in the fields read this way; a non-empty string,
   * list or dict, which Python would parse or reject with an error, reads as 0 here.
   */
  function AsFloat(v: Value): (x: real)
    ensures !Truthy(v) ==> x == 0.0
    ensures v.Num? ==> x == v.x
    ensures v == Bool(true) ==> x == 1.0
  {
    match v
    case Num(x) => x
    case Bool(b) => if b then 1.0 else 0.0
    case _ => 0.0
  }

  /** `float(record.get(key) or 0)`, the numeric reading every ranking and count uses. */
  function Field(r: Record, key: Key): real {
    AsFloat(Get(r, key))
  }

  /**
   * `str(value)` for the values the scripts stringify: strings as they are, None and
   * booleans by name. Numbers, lists and dicts are not modelled and give "".
   */
  function PyStr(v: Value): (s: string)
    ensures v.Str? ==> s == v.s
  {
    match v
    case Str(s) => s
    case Null => "None"
    case Bool(b) => if b then "True" else "False"
    case _ => ""
  }

  /** `{**a, **b}`. */
  function Merge(a: Record, b: Record): Record {
    a + b
  }

  /** The merged dict has every key of either dict, the right-hand one winning. */
  lemma MergeOverrides(a: Record, b: Record)
    ensures Merge(a, b).Keys == a.Keys + b.Keys
    ensures forall k :: k in b ==> Merge(a, b)[k] == b[k]
    ensures forall k :: k in a && k !in b ==> Merge(a, b)[k] == a[k]
  {
  }
}
