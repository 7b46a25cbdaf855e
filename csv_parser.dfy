/** The stand-alone flight CSV reader (src/lib/csvParser.ts): rows whose
    latitude or longitude is null are dropped, the rest become point records
    with numeric `latitude`, `longitude` and `altitude` that any same-named
    row field overrides; and points become a GeoJSON line string plus one
    waypoint feature each, positions written `[longitude, latitude,
    altitude]` as section 3.1.1 of RFC 7946 orders them. The library parse
    (with dynamic typing) is not part of this model: rows arrive as records
    of typed values. */
module CsvParser {
  import opened Types

  /** `parseFloat(v) || 0`: a number stays itself (its `String` form reads
      back as the same number), a string is parsed, and NaN or zero give 0;
      `undefined`, `null`, booleans and NaN do not parse. */
  function NumberOrZero(v: Option<JsValue>, num: Numeric): (r: real)
    ensures v.Some? && v.value.Num? ==> r == v.value.n
    ensures v.None? || v == Some(Null) || v == Some(NaN) || (v.Some? && v.value.Bool?) ==> r == 0.0
  {
    match v
    case Some(Num(n)) => n
    case Some(Str(s)) => OrElse(num.parseFloat(s), 0.0)
    case _ => 0.0
  }

  /** The row filter: `row.latitude !== null && row.longitude !== null`. A
      row without the key (`undefined`) is kept. */
  predicate Keep(row: Record) {
    Get(row, "latitude") != Some(Null) && Get(row, "longitude") != Some(Null)
  }

  function Kept(rows: seq<Record>): (r: seq<Record>)
    ensures |r| <= |rows|
    ensures forall x :: x in r <==> x in rows && Keep(x)
    decreases |rows|
  {
    if rows == [] then []
    else (if Keep(rows[0]) then [rows[0]] else []) + Kept(rows[1..])
  }

  /** Filtering keeps the order: it distributes over concatenation. */
  lemma {:induction false} KeptAppend(a: seq<Record>, b: seq<Record>)
    ensures Kept(a + b) == Kept(a) + Kept(b)
    decreases |a|
  {
    if a == [] {
      assert a + b == b;
    } else {
      assert (a + b)[0] == a[0] && (a + b)[1..] == a[1..] + b;
      KeptAppend(a[1..], b);
    }
  }

  /** The point record of a kept row: the three parsed coordinates, then
      every row field spread over them. */
  function RowPoint(row: Record, num: Numeric): (p: Record)
    ensures p.Keys == row.Keys + {"latitude", "longitude", "altitude"}
    ensures forall k :: k in row ==> p[k] == row[k]
    ensures "latitude" !in row ==> p["latitude"] == Num(0.0)
    ensures "longitude" !in row ==> p["longitude"] == Num(0.0)
    ensures "altitude" !in row ==> p["altitude"] == Num(0.0)
  {
    map["latitude" := Num(NumberOrZero(Get(row, "latitude"), num)),
        "longitude" := Num(NumberOrZero(Get(row, "longitude"), num)),
        "altitude" := Num(NumberOrZero(Get(row, "altitude"), num))] + row
  }

  datatype ParsedFlightData = ParsedFlightData(headers: seq<string>, points: seq<Record>)

  /** `parseFlightCSV` once the library has produced the header list (if
      any) and the typed rows. */
  function ParseFlightCsv(fields: Option<seq<string>>, rows: seq<Record>, num: Numeric): (r: ParsedFlightData)
    ensures r.headers == (if fields.Some? then fields.value else [])
    ensures |r.points| == |Kept(rows)|
    ensures forall k :: 0 <= k < |r.points| ==> r.points[k] == RowPoint(Kept(rows)[k], num)
  {
    var kept := Kept(rows);
    ParsedFlightData(if fields.Some? then fields.value else [],
                     seq(|kept|, k requires 0 <= k < |kept| => RowPoint(kept[k], num)))
  }

  /** Every parsed point has all three coordinates, and each is the row's own
      value when the row has that field. */
  lemma ParsedPointsHaveCoordinates(fields: Option<seq<string>>, rows: seq<Record>, num: Numeric, k: nat)
    requires k < |ParseFlightCsv(fields, rows, num).points|
    ensures var p := ParseFlightCsv(fields, rows, num).points[k]; var row := Kept(rows)[k];
      && Keep(row) && row in rows
      && {"latitude", "longitude", "altitude"} <= p.Keys
      && p["latitude"] != Null && p["longitude"] != Null
      && (forall c :: c in row ==> p[c] == row[c])
  {
    var row := Kept(rows)[k];
    assert row in Kept(rows);
  }

  // GeoJSON

  /** A GeoJSON position; an entry is `None` where the point lacks the field. */
  type Position = seq<Option<JsValue>>

  datatype Waypoint = Waypoint(properties: Record, coordinates: Position)

  datatype FlightGeoJson = FlightGeoJson(lineString: seq<Position>, waypoints: seq<Waypoint>)

  /** `[point.longitude, point.latitude, point.altitude]` */
  function PositionOf(p: Record): (pos: Position)
    ensures |pos| == 3
    ensures pos[0] == Get(p, "longitude") && pos[1] == Get(p, "latitude") && pos[2] == Get(p, "altitude")
  {
    [Get(p, "longitude"), Get(p, "latitude"), Get(p, "altitude")]
  }

  /** A waypoint's properties: `id` is the 1-based index unless the point
      has its own, and every field of the point is copied. */
  function WaypointProperties(p: Record, index: nat): (props: Record)
    ensures props.Keys == p.Keys + {"id"}
    ensures props["id"] == (if "id" in p then p["id"] else Num((index + 1) as real))
    ensures forall k :: k in p ==> props[k] == p[k]
  {
    map["id" := Num((index + 1) as real)] + p
  }

  /** `pointsToGeoJSON` */
  function PointsToGeoJson(points: seq<Record>): (g: FlightGeoJson)
    ensures |g.lineString| == |points| && |g.waypoints| == |points|
    ensures forall i :: 0 <= i < |points| ==> g.lineString[i] == PositionOf(points[i])
    ensures forall i :: 0 <= i < |points| ==>
      g.waypoints[i] == Waypoint(WaypointProperties(points[i], i), g.lineString[i])
  {
    FlightGeoJson(seq(|points|, i requires 0 <= i < |points| => PositionOf(points[i])),
                  seq(|points|, i requires 0 <= i < |points| =>
                    Waypoint(WaypointProperties(points[i], i), PositionOf(points[i]))))
  }

  /** From CSV rows to GeoJSON: the i-th kept row gives the i-th position of
      the line and the i-th waypoint, with every coordinate present: the
      row's own value where it has one, and 0 where it has none. The ids of
      waypoints whose rows carry no `id` are 1, 2, … in row order. */
  lemma ParsedGeoJson(fields: Option<seq<string>>, rows: seq<Record>, num: Numeric, i: nat)
    requires i < |Kept(rows)|
    ensures var g := PointsToGeoJson(ParseFlightCsv(fields, rows, num).points); var row := Kept(rows)[i];
      && |g.lineString| == |Kept(rows)|
      && g.lineString[i] == [Some(if "longitude" in row then row["longitude"] else Num(0.0)),
                             Some(if "latitude" in row then row["latitude"] else Num(0.0)),
                             Some(if "altitude" in row then row["altitude"] else Num(0.0))]
      && g.waypoints[i].coordinates == g.lineString[i]
      && ("id" !in row ==> g.waypoints[i].properties["id"] == Num((i + 1) as real))
  {
  }
}
