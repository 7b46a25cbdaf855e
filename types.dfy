/** The data model of the editor (src/lib/types.ts), plus the JavaScript
    conversions it relies on, which this model takes as given functions. */
module Types {

  datatype Option<T> = None | Some(value: T)

  /** Point identifiers. The editor mints them with `randomId()`; here they are
      drawn from a counter, which makes freshness provable. */
  type Id = nat

  /** A `PointAttributeValue` (string | number | boolean | null); `NaN` is the
      one number that is not a real. A missing key (`undefined`) is an absent
      map entry or `None`. */
  datatype JsValue = Str(s: string) | Num(n: real) | NaN | Bool(b: bool) | Null

  type Record = map<string, JsValue>

  /** A flight-plan waypoint. `props` holds every own property of the point
      object other than id/lat/lon/alt/attributes: `heading`, `gimbalPitch`
      and whatever an edit spreads onto the point. `alt` is optional because
      the editor guards every use of it against null and undefined. */
  datatype FeaturePoint = FeaturePoint(
    id: Id,
    lat: real,
    lon: real,
    alt: Option<real>,
    props: Record,
    attributes: Record)

  datatype SelectionMode = Single | Polygon | All | Translate | Clear | BatchEdit | Attribute | Rotate

  datatype ViewMode = SideBySide | MapOnly | AttributesOnly

  datatype FieldType = NumberField | StringField | OtherField

  datatype FieldStats = FieldStats(min: Option<real>, max: Option<real>, uniqueValues: set<string>)

  datatype SchemaField = SchemaField(name: string, fieldType: FieldType, stats: FieldStats)

  datatype DatasetSchema = DatasetSchema(fields: seq<SchemaField>)

  datatype Operator = Between | Gte | Lte | Eq | Neq | In

  /** An attribute query. `min`/`max` are `None` both when absent and when
      NaN: the query can never match in either case. `values` is a set since
      the `in` test only asks for membership. */
  datatype AttributeQuery = AttributeQuery(
    field: string,
    operator: Operator,
    value: Option<JsValue>,
    min: Option<real>,
    max: Option<real>,
    values: Option<set<JsValue>>)

  /** A map position: the `{lng, lat}` records of the drawn polygon and of
      mouse events. */
  datatype LngLat = LngLat(lng: real, lat: real)

  /** The rotation pivot `{lon, lat}`. */
  datatype LonLat = LonLat(lon: real, lat: real)

  /** The numeric conversions of JavaScript, taken as given: `None` stands for NaN.
      - parseFloat: `parseFloat(s)` (also accepts a number prefix such as "12abc");
      - number:     `Number(s)` (the whole string must be numeric);
      - parseInt:   `parseInt(s, 10)`;
      - show:       `String(n)` for a number. */
  datatype Numeric = Numeric(
    parseFloat: string -> Option<real>,
    number: string -> Option<real>,
    parseInt: string -> Option<int>,
    show: real -> string)

  /** `String(v)`; `None` is `undefined`. */
  function Text(v: Option<JsValue>, show: real -> string): (r: string)
    ensures v.Some? && v.value.Str? ==> r == v.value.s
    ensures v == None ==> r == "undefined"
    ensures v == Some(Null) ==> r == "null"
  {
    match v
    case None => "undefined"
    case Some(Str(s)) => s
    case Some(Num(n)) => show(n)
    case Some(NaN) => "NaN"
    case Some(Bool(b)) => if b then "true" else "false"
    case Some(Null) => "null"
  }

  /** `m[k]` */
  function Get(m: Record, k: string): Option<JsValue> {
    if k in m then Some(m[k]) else None
  }

  /** `x ?? d` for a numeric option. */
  function OrElse(x: Option<real>, d: real): real {
    if x.Some? then x.value else d
  }
}
