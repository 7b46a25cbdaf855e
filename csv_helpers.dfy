/** CSV import and export (src/lib/csv-helpers.ts): the coordinate header
    patterns, number normalisation, schema inference, turning parsed rows into
    points and turning points back into rows. CSV text itself (tokenising,
    quoting) is left to the parser library and is not part of this model: a
    row here is the header-keyed record the library produces. */
module CsvHelpers {
  import opened Types
  import opened Strings

  /** A parsed CSV row: header name to raw cell text. A short row lacks keys. */
  type CsvRow = map<string, string>

  function Cell(row: CsvRow, k: string): Option<string> {
    if k in row then Some(row[k]) else None
  }

  /** `/^(lon|lng|long|x|longitude)$/i` */
  predicate IsLonHeader(h: string) {
    Lower(h) in {"lon", "lng", "long", "x", "longitude"}
  }

  /** `/^(lat|y|latitude)$/i` */
  predicate IsLatHeader(h: string) {
    Lower(h) in {"lat", "y", "latitude"}
  }

  /** `/^(alt|z|height|elev|altitude|altitude\(m\))$/i` */
  predicate IsAltHeader(h: string) {
    Lower(h) in {"alt", "z", "height", "elev", "altitude", "altitude(m)"}
  }

  /** No header names two coordinates: the three patterns are disjoint. */
  lemma PatternsDisjoint(h: string)
    ensures !(IsLonHeader(h) && IsLatHeader(h))
    ensures !(IsLonHeader(h) && IsAltHeader(h))
    ensures !(IsLatHeader(h) && IsAltHeader(h))
  {
  }

  /** `parseAndNormalize(value)`: no number for a missing or blank cell;
      otherwise `parseFloat` after the first comma becomes a dot. */
  function ParseAndNormalize(v: Option<string>, num: Numeric): (r: Option<real>)
    ensures v.None? || IsBlank(v.value) ==> r.None?
    ensures r.Some? ==> v.Some? && r == num.parseFloat(ReplaceFirst(v.value, ",", "."))
  {
    match v
    case None => None
    case Some(s) => if IsBlank(s) then None else num.parseFloat(ReplaceFirst(s, ",", "."))
  }

  /** A decimal comma reads like a decimal point: `a,b` parses as `a.b`
      when `a` has no comma of its own. */
  lemma DecimalComma(a: string, b: string, num: Numeric)
    requires forall j :: !OccursAt(a, ",", j)
    ensures ParseAndNormalize(Some(a + "," + b), num) == num.parseFloat(a + "." + b)
  {
    var s := a + "," + b;
    assert OccursAt(s, ",", |a|) by {
      assert s[|a|..|a| + 1] == ",";
    }
    forall j | 0 <= j < |a|
      ensures !OccursAt(s, ",", j)
    {
      assert s[j..j + 1] == a[j..j + 1];
      assert !OccursAt(a, ",", j);
    }
    assert IndexOf(s, ",") == Some(|a|);
    assert s[..|a|] + "." + s[|a| + 1..] == a + "." + b;
    assert !IsBlank(s) by {
      assert s[|a|] == ',';
    }
  }

  /** `inferFieldType(value)`: `other` for a missing or blank cell, `number`
      when the whole (comma-normalised) text is numeric, `string` otherwise. */
  function InferFieldType(v: Option<string>, num: Numeric): (t: FieldType)
    ensures t == OtherField <==> v.None? || IsBlank(v.value)
    ensures t == NumberField <==> v.Some? && !IsBlank(v.value) && num.number(ReplaceFirst(v.value, ",", ".")).Some?
  {
    match v
    case None => OtherField
    case Some(s) =>
      if IsBlank(s) then OtherField
      else if num.number(ReplaceFirst(s, ",", ".")).Some? then NumberField
      else StringField
  }

  // ---------------------------------------------------------------------------
  // Schema inference

  /** The type `inferFieldType` gives each sampled cell of the column. */
  function CellTypes(sample: seq<CsvRow>, name: string, num: Numeric): (r: seq<FieldType>)
    ensures |r| == |sample| && forall i :: 0 <= i < |sample| ==> r[i] == InferFieldType(Cell(sample[i], name), num)
  {
    seq(|sample|, i requires 0 <= i < |sample| => InferFieldType(Cell(sample[i], name), num))
  }

  /** The type a column's cell types add up to: `number` as soon as one cell
      is numeric, else `string` if any cell is text, else `other`. */
  function Classify(ts: seq<FieldType>): (t: FieldType)
    ensures t == NumberField <==> NumberField in ts
    ensures t == StringField <==> NumberField !in ts && StringField in ts
    ensures t == OtherField <==> forall i :: 0 <= i < |ts| ==> ts[i] == OtherField
  {
    if NumberField in ts then NumberField
    else if StringField in ts then StringField
    else
      assert forall i :: 0 <= i < |ts| ==> ts[i] != NumberField && ts[i] != StringField;
      OtherField
  }

  /** The type the sample gives a column. */
  function SampleType(sample: seq<CsvRow>, name: string, num: Numeric): FieldType {
    Classify(CellTypes(sample, name, num))
  }

  /** The sampling loop of `inferSchema` for one column: it stops at the
      first numeric cell and otherwise remembers whether it saw text. */
  method SampleTypeLoop(sample: seq<CsvRow>, name: string, num: Numeric) returns (t: FieldType)
    ensures t == SampleType(sample, name, num)
  {
    ghost var ts := CellTypes(sample, name, num);
    t := OtherField;
    var i := 0;
    while i < |sample|
      invariant 0 <= i <= |sample|
      invariant NumberField !in ts[..i]
      invariant t == (if StringField in ts[..i] then StringField else OtherField)
    {
      var ty := InferFieldType(Cell(sample[i], name), num);
      assert ty == ts[i];
      if ty == NumberField {
        assert ts[i] in ts;
        t := NumberField;
        return;
      }
      if ty == StringField {
        t := StringField;
      }
      assert ts[..i + 1] == ts[..i] + [ts[i]];
      i := i + 1;
    }
    assert ts[..i] == ts;
  }

  /** The normalised number of every row's cell in the column. */
  function ColumnNumbers(data: seq<CsvRow>, name: string, num: Numeric): (r: seq<Option<real>>)
    ensures |r| == |data| && forall i :: 0 <= i < |data| ==> r[i] == ParseAndNormalize(Cell(data[i], name), num)
  {
    seq(|data|, i requires 0 <= i < |data| => ParseAndNormalize(Cell(data[i], name), num))
  }

  /** The least number present, or none when there is none. */
  function Lowest(vals: seq<Option<real>>): (r: Option<real>)
    ensures r.None? <==> forall i :: 0 <= i < |vals| ==> vals[i].None?
    ensures r.Some? ==> (exists i :: 0 <= i < |vals| && vals[i] == r)
    ensures r.Some? ==> forall i :: 0 <= i < |vals| && vals[i].Some? ==> r.value <= vals[i].value
  {
    if vals == [] then None
    else
      var m := Lowest(vals[..|vals| - 1]);
      var v := vals[|vals| - 1];
      if v.None? then m
      else if m.None? || v.value < m.value then v
      else m
  }

  /** The greatest number present, or none when there is none. */
  function Highest(vals: seq<Option<real>>): (r: Option<real>)
    ensures r.None? <==> forall i :: 0 <= i < |vals| ==> vals[i].None?
    ensures r.Some? ==> (exists i :: 0 <= i < |vals| && vals[i] == r)
    ensures r.Some? ==> forall i :: 0 <= i < |vals| && vals[i].Some? ==> vals[i].value <= r.value
  {
    if vals == [] then None
    else
      var m := Highest(vals[..|vals| - 1]);
      var v := vals[|vals| - 1];
      if v.None? then m
      else if m.None? || v.value > m.value then v
      else m
  }

  /** The min/max loop of `inferSchema` for a number column; the infinities
      it starts from come out as "no bound". */
  method NumberStats(data: seq<CsvRow>, name: string, num: Numeric) returns (min: Option<real>, max: Option<real>)
    ensures min == Lowest(ColumnNumbers(data, name, num)) && max == Highest(ColumnNumbers(data, name, num))
  {
    ghost var vals := ColumnNumbers(data, name, num);
    min, max := None, None;
    var i := 0;
    while i < |data|
      invariant 0 <= i <= |data|
      invariant min == Lowest(vals[..i]) && max == Highest(vals[..i])
    {
      assert vals[..i + 1][..i] == vals[..i];
      var value := ParseAndNormalize(Cell(data[i], name), num);
      if value.Some? {
        if min.None? || value.value < min.value {
          min := value;
        }
        if max.None? || value.value > max.value {
          max := value;
        }
      }
      i := i + 1;
    }
    assert vals[..i] == vals;
  }

  /** Every cell text the column holds. */
  function RawValues(data: seq<CsvRow>, name: string): set<string> {
    set i | 0 <= i < |data| && name in data[i] :: data[i][name]
  }

  /** The unique-values loop of `inferSchema` for a text column. */
  method CollectUniqueValues(data: seq<CsvRow>, name: string) returns (vals: set<string>)
    ensures vals == RawValues(data, name)
    ensures forall x :: x in vals <==> exists i :: 0 <= i < |data| && Cell(data[i], name) == Some(x)
  {
    vals := {};
    var i := 0;
    while i < |data|
      invariant 0 <= i <= |data|
      invariant vals == RawValues(data[..i], name)
    {
      var prefix, next := data[..i], data[..i + 1];
      assert forall j :: 0 <= j < i ==> next[j] == prefix[j];
      if name in data[i] {
        vals := vals + {data[i][name]};
      }
      assert RawValues(next, name) == RawValues(prefix, name) + (if name in data[i] then {data[i][name]} else {});
      i := i + 1;
    }
    assert data[..i] == data;
  }

  /** The rows `inferSchema` samples for types: the first hundred. */
  function Sample(data: seq<CsvRow>): (r: seq<CsvRow>)
    ensures |r| == if |data| < 100 then |data| else 100
    ensures r == data[..|r|]
  {
    if |data| < 100 then data else data[..100]
  }

  /** One schema field: its sampled type, and min/max for numbers or the
      set of texts for strings. */
  function FieldFor(data: seq<CsvRow>, name: string, num: Numeric): SchemaField {
    var t := SampleType(Sample(data), name, num);
    var stats :=
      if t == NumberField then FieldStats(Lowest(ColumnNumbers(data, name, num)), Highest(ColumnNumbers(data, name, num)), {})
      else if t == StringField then FieldStats(None, None, RawValues(data, name))
      else FieldStats(None, None, {});
    SchemaField(name, t, stats)
  }

  /** `inferSchema(data, headers)`: one field per header, in header order;
      with no rows every field is `other` with empty stats. */
  function InferSchema(data: seq<CsvRow>, headers: seq<string>, num: Numeric): (r: DatasetSchema)
    ensures |r.fields| == |headers|
    ensures forall i :: 0 <= i < |headers| ==> r.fields[i].name == headers[i]
    ensures |data| == 0 ==> forall i :: 0 <= i < |headers| ==>
      r.fields[i].fieldType == OtherField && r.fields[i].stats == FieldStats(None, None, {})
  {
    if |data| == 0 then
      DatasetSchema(seq(|headers|, i requires 0 <= i < |headers| => SchemaField(headers[i], OtherField, FieldStats(None, None, {}))))
    else
      DatasetSchema(seq(|headers|, i requires 0 <= i < |headers| => FieldFor(data, headers[i], num)))
  }

  /** Both passes of `inferSchema` for one column. */
  method InferField(data: seq<CsvRow>, sample: seq<CsvRow>, name: string, num: Numeric) returns (f: SchemaField)
    requires sample == Sample(data)
    ensures f == FieldFor(data, name, num)
  {
    var t := SampleTypeLoop(sample, name, num);
    var stats := FieldStats(None, None, {});
    if t == NumberField {
      var min, max := NumberStats(data, name, num);
      stats := FieldStats(min, max, {});
    } else if t == StringField {
      var vals := CollectUniqueValues(data, name);
      stats := FieldStats(None, None, vals);
    }
    f := SchemaField(name, t, stats);
  }

  /** The two `forEach` passes of `inferSchema`, field by field. */
  /** Appending keeps the earlier elements where they were. */
  lemma AppendIndex<T>(a: seq<T>, x: T)
    ensures |a + [x]| == |a| + 1 && (a + [x])[|a|] == x
    ensures forall j :: 0 <= j < |a| ==> (a + [x])[j] == a[j]
  {
  }

  method InferSchemaLoop(data: seq<CsvRow>, headers: seq<string>, num: Numeric) returns (schema: DatasetSchema)
    ensures schema == InferSchema(data, headers, num)
  {
    if |data| == 0 {
      return InferSchema(data, headers, num);
    }
    var fields: seq<SchemaField> := [];
    var sample := Sample(data);
    var k := 0;
    while k < |headers|
      invariant 0 <= k <= |headers|
      invariant |fields| == k
      invariant forall j :: 0 <= j < k ==> fields[j] == FieldFor(data, headers[j], num)
    {
      var f := InferField(data, sample, headers[k], num);
      AppendIndex(fields, f);
      fields := fields + [f];
      k := k + 1;
    }
    schema := DatasetSchema(fields);
  }

  // ---------------------------------------------------------------------------
  // Import: rows to points

  /** The column mapping chosen in the import dialog; `None` for unmapped. */
  datatype Mapping = Mapping(lat: Option<string>, lon: Option<string>, alt: Option<string>,
                             heading: Option<string>, gimbalPitch: Option<string>)

  /** A mapped column name that JavaScript treats as true: present and non-empty. */
  predicate Truthy(col: Option<string>) {
    col.Some? && col.value != ""
  }

  /** A parsed number as an attribute value; `null` when there is none. */
  function NumOrNull(v: Option<real>): JsValue {
    if v.Some? then Num(v.value) else Null
  }

  /** `schema.fields.find(f => f.name === key)?.type` */
  function FieldTypeOf(fields: seq<SchemaField>, key: string): (t: Option<FieldType>)
    ensures t.None? <==> forall i :: 0 <= i < |fields| ==> fields[i].name != key
    ensures t.Some? ==> exists i :: (0 <= i < |fields| && fields[i].name == key && fields[i].fieldType == t.value &&
                                      forall j :: 0 <= j < i ==> fields[j].name != key)
  {
    if fields == [] then None
    else if fields[0].name == key then Some(fields[0].fieldType)
    else
      var t := FieldTypeOf(fields[1..], key);
      if t.Some? then
        var i :| 0 <= i < |fields| - 1 && fields[1..][i].name == key && fields[1..][i].fieldType == t.value
          && forall j :: 0 <= j < i ==> fields[1..][j].name != key;
        assert fields[i + 1].name == key && forall j :: 0 <= j < i + 1 ==> fields[j].name != key;
        t
      else t
  }

  /** The attribute every cell of the row becomes: a number (or null) in a
      number column, the raw text elsewhere. */
  function RowAttributes(row: CsvRow, schema: DatasetSchema, num: Numeric): (r: Record)
    ensures r.Keys == row.Keys
    ensures forall k :: k in row && FieldTypeOf(schema.fields, k) == Some(NumberField) ==>
      r[k] == NumOrNull(ParseAndNormalize(Some(row[k]), num))
    ensures forall k :: k in row && FieldTypeOf(schema.fields, k) != Some(NumberField) ==> r[k] == Str(row[k])
  {
    map k | k in row :: if FieldTypeOf(schema.fields, k) == Some(NumberField)
                        then NumOrNull(ParseAndNormalize(Some(row[k]), num)) else Str(row[k])
  }

  /** The `for (const key in row)` loop of `parseCsv`. */
  method CopyRowAttributes(row: CsvRow, schema: DatasetSchema, num: Numeric) returns (attrs: Record)
    ensures attrs == RowAttributes(row, schema, num)
  {
    attrs := map[];
    var todo := row.Keys;
    while todo != {}
      invariant todo <= row.Keys
      invariant attrs.Keys == row.Keys - todo
      invariant forall k :: k in attrs ==> attrs[k] == RowAttributes(row, schema, num)[k]
      decreases |todo|
    {
      var k :| k in todo;
      if FieldTypeOf(schema.fields, k) == Some(NumberField) {
        attrs := attrs[k := NumOrNull(ParseAndNormalize(Some(row[k]), num))];
      } else {
        attrs := attrs[k := Str(row[k])];
      }
      todo := todo - {k};
    }
  }

  /** Whether the row's mapped longitude and latitude parse and lie in range. */
  predicate ValidRow(row: CsvRow, m: Mapping, num: Numeric)
    requires Truthy(m.lon) && Truthy(m.lat)
  {
    var lon := ParseAndNormalize(Cell(row, m.lon.value), num);
    var lat := ParseAndNormalize(Cell(row, m.lat.value), num);
    lon.Some? && lat.Some? && -180.0 <= lon.value <= 180.0 && -90.0 <= lat.value <= 90.0
  }

  /** A mapped optional column: parsed when mapped, 0 when not. */
  function OptionalColumn(row: CsvRow, col: Option<string>, num: Numeric): Option<real> {
    if Truthy(col) then ParseAndNormalize(Cell(row, col.value), num) else Some(0.0)
  }

  /** `(col ? parseAndNormalize(row[col]) : 0) ?? 0`: the number a point
      stores for an optional role, 0 when the role is unmapped or its cell
      does not parse. */
  function OptionalValue(row: CsvRow, col: Option<string>, num: Numeric): (v: real)
    ensures !Truthy(col) ==> v == 0.0
    ensures Truthy(col) && ParseAndNormalize(Cell(row, col.value), num).None? ==> v == 0.0
    ensures Truthy(col) && ParseAndNormalize(Cell(row, col.value), num).Some? ==>
      v == ParseAndNormalize(Cell(row, col.value), num).value
  {
    OrElse(OptionalColumn(row, col, num), 0.0)
  }

  /** The row's attributes with the mapped columns overwritten, in the
      source's order: latitude, longitude, then altitude, heading and gimbal
      pitch when mapped. */
  function ImportAttributes(base: Record, row: CsvRow, m: Mapping, num: Numeric, lat: real, lon: real): (a: Record)
    requires Truthy(m.lon) && Truthy(m.lat)
    ensures forall k :: k in a <==> k in base || Mapped(m, k)
    ensures forall k :: k in base && !Mapped(m, k) ==> a[k] == base[k]
    ensures m.lon.value in a && m.lat.value in a
    ensures DistinctColumns(m) ==> a[m.lon.value] == Num(lon) && a[m.lat.value] == Num(lat)
  {
    var a0 := SetIfMapped(SetIfMapped(base, m.lat, Num(lat)), m.lon, Num(lon));
    assert a0[m.lon.value] == Num(lon);
    assert DistinctColumns(m) ==> a0[m.lat.value] == Num(lat);
    var a1 := SetIfMapped(a0, m.alt, NumOrNull(OptionalColumn(row, m.alt, num)));
    assert DistinctColumns(m) ==> a1[m.lon.value] == Num(lon) && a1[m.lat.value] == Num(lat);
    var a2 := SetIfMapped(a1, m.heading, NumOrNull(OptionalColumn(row, m.heading, num)));
    assert DistinctColumns(m) ==> a2[m.lon.value] == Num(lon) && a2[m.lat.value] == Num(lat);
    SetIfMapped(a2, m.gimbalPitch, NumOrNull(OptionalColumn(row, m.gimbalPitch, num)))
  }

  /** The optional roles in the imported attributes: a mapped gimbal-pitch
      column holds its parsed number (null when the cell does not parse),
      and so do heading and altitude columns unless a later role was
      mapped to the same column and overwrote them. */
  lemma ImportAttributesRoles(base: Record, row: CsvRow, m: Mapping, num: Numeric, lat: real, lon: real)
    requires Truthy(m.lon) && Truthy(m.lat)
    ensures var a := ImportAttributes(base, row, m, num, lat, lon);
      && (Truthy(m.gimbalPitch) ==>
            m.gimbalPitch.value in a
            && a[m.gimbalPitch.value] == NumOrNull(ParseAndNormalize(Cell(row, m.gimbalPitch.value), num)))
      && (Truthy(m.heading) && !Clash(m.heading, m.gimbalPitch) ==>
            m.heading.value in a
            && a[m.heading.value] == NumOrNull(ParseAndNormalize(Cell(row, m.heading.value), num)))
      && (Truthy(m.alt) && !Clash(m.alt, m.heading) && !Clash(m.alt, m.gimbalPitch) ==>
            m.alt.value in a
            && a[m.alt.value] == NumOrNull(ParseAndNormalize(Cell(row, m.alt.value), num)))
  {
    var a0 := SetIfMapped(SetIfMapped(base, m.lat, Num(lat)), m.lon, Num(lon));
    var a1 := SetIfMapped(a0, m.alt, NumOrNull(OptionalColumn(row, m.alt, num)));
    var a2 := SetIfMapped(a1, m.heading, NumOrNull(OptionalColumn(row, m.heading, num)));
    assert ImportAttributes(base, row, m, num, lat, lon) == SetIfMapped(a2, m.gimbalPitch, NumOrNull(OptionalColumn(row, m.gimbalPitch, num)));
  }

  /** `if (col) attributes[col] = v` */
  function SetIfMapped(a: Record, col: Option<string>, v: JsValue): (r: Record)
    ensures r.Keys == a.Keys + (if Truthy(col) then {col.value} else {})
    ensures forall k :: k in a && !(Truthy(col) && col.value == k) ==> r[k] == a[k]
    ensures Truthy(col) ==> r[col.value] == v
  {
    if Truthy(col) then a[col.value := v] else a
  }

  /** The point's own `heading` and `gimbalPitch`, each the optional value
      of its mapped column. */
  function Orientation(row: CsvRow, m: Mapping, num: Numeric): (o: Record)
    ensures o.Keys == {"heading", "gimbalPitch"}
    ensures o["heading"] == Num(OptionalValue(row, m.heading, num))
    ensures o["gimbalPitch"] == Num(OptionalValue(row, m.gimbalPitch, num))
  {
    map["heading" := Num(OptionalValue(row, m.heading, num)),
        "gimbalPitch" := Num(OptionalValue(row, m.gimbalPitch, num))]
  }

  /** The point one valid row becomes, with the id `id`: the parsed
      coordinates, altitude/heading/gimbal pitch defaulting to 0, and the
      row's attributes with the mapped columns overwritten. */
  function RowPoint(row: CsvRow, m: Mapping, schema: DatasetSchema, num: Numeric, id: Id): (p: FeaturePoint)
    requires Truthy(m.lon) && Truthy(m.lat) && ValidRow(row, m, num)
    ensures p.id == id && p.alt == Some(OptionalValue(row, m.alt, num))
    ensures p.props == Orientation(row, m, num)
    ensures Some(p.lon) == ParseAndNormalize(Cell(row, m.lon.value), num) && -180.0 <= p.lon <= 180.0
    ensures Some(p.lat) == ParseAndNormalize(Cell(row, m.lat.value), num) && -90.0 <= p.lat <= 90.0
    ensures p.attributes == ImportAttributes(RowAttributes(row, schema, num), row, m, num, p.lat, p.lon)
  {
    var lon := ParseAndNormalize(Cell(row, m.lon.value), num).value;
    var lat := ParseAndNormalize(Cell(row, m.lat.value), num).value;
    FeaturePoint(id, lat, lon, Some(OptionalValue(row, m.alt, num)),
                 Orientation(row, m, num),
                 ImportAttributes(RowAttributes(row, schema, num), row, m, num, lat, lon))
  }

  /** Whether `k` is one of the truthy mapped columns. */
  predicate Mapped(m: Mapping, k: string) {
    || (Truthy(m.lat) && m.lat.value == k) || (Truthy(m.lon) && m.lon.value == k)
    || (Truthy(m.alt) && m.alt.value == k) || (Truthy(m.heading) && m.heading.value == k)
    || (Truthy(m.gimbalPitch) && m.gimbalPitch.value == k)
  }

  /** Two roles mapped to the same column. */
  predicate Clash(a: Option<string>, b: Option<string>) {
    Truthy(a) && Truthy(b) && a.value == b.value
  }

  /** Longitude and latitude are mapped to columns no other role uses. */
  predicate DistinctColumns(m: Mapping) {
    && !Clash(m.lat, m.lon) && !Clash(m.lon, m.alt) && !Clash(m.lon, m.heading) && !Clash(m.lon, m.gimbalPitch)
    && !Clash(m.lat, m.alt) && !Clash(m.lat, m.heading) && !Clash(m.lat, m.gimbalPitch)
  }

  /** The rows whose coordinates are valid, in order. */
  function ValidRows(rows: seq<CsvRow>, m: Mapping, num: Numeric): (r: seq<CsvRow>)
    requires Truthy(m.lon) && Truthy(m.lat)
    ensures |r| <= |rows|
    ensures forall i :: 0 <= i < |r| ==> ValidRow(r[i], m, num)
  {
    if rows == [] then []
    else if ValidRow(rows[0], m, num) then [rows[0]] + ValidRows(rows[1..], m, num)
    else ValidRows(rows[1..], m, num)
  }

  /** A row survives exactly when its coordinates are valid. */
  lemma {:induction false} ValidRowsMembers(rows: seq<CsvRow>, m: Mapping, num: Numeric)
    requires Truthy(m.lon) && Truthy(m.lat)
    ensures forall r :: r in ValidRows(rows, m, num) <==> r in rows && ValidRow(r, m, num)
  {
    if rows != [] {
      ValidRowsMembers(rows[1..], m, num);
      assert forall r :: r in rows <==> r == rows[0] || r in rows[1..];
    }
  }

  /** The `map`/`filter` of `parseCsv`: a row with invalid coordinates
      becomes `null` and is filtered out, every other row becomes its point,
      in order. The random ids are modelled as consecutive ids from
      `firstId`. */
  function BuildPoints(rows: seq<CsvRow>, m: Mapping, schema: DatasetSchema, num: Numeric, firstId: Id)
    : (r: seq<FeaturePoint>)
    requires Truthy(m.lon) && Truthy(m.lat)
    ensures |r| == |ValidRows(rows, m, num)| <= |rows|
  {
    if rows == [] then []
    else if ValidRow(rows[0], m, num) then
      [RowPoint(rows[0], m, schema, num, firstId)] + BuildPoints(rows[1..], m, schema, num, firstId + 1)
    else BuildPoints(rows[1..], m, schema, num, firstId)
  }

  /** Past a valid first row, the valid rows and the points shift by one. */
  lemma BuildPointsCons(rows: seq<CsvRow>, m: Mapping, schema: DatasetSchema, num: Numeric, firstId: Id, k: nat)
    requires Truthy(m.lon) && Truthy(m.lat) && rows != [] && ValidRow(rows[0], m, num)
    requires 0 < k < |ValidRows(rows, m, num)|
    ensures ValidRows(rows, m, num)[k] == ValidRows(rows[1..], m, num)[k - 1]
    ensures BuildPoints(rows, m, schema, num, firstId)[k] == BuildPoints(rows[1..], m, schema, num, firstId + 1)[k - 1]
  {
  }

  /** The k-th point is the point of the k-th valid row, with id `firstId + k`. */
  lemma {:induction false} BuildPointsAt(rows: seq<CsvRow>, m: Mapping, schema: DatasetSchema, num: Numeric, firstId: Id, k: nat)
    requires Truthy(m.lon) && Truthy(m.lat) && k < |ValidRows(rows, m, num)|
    ensures BuildPoints(rows, m, schema, num, firstId)[k] == RowPoint(ValidRows(rows, m, num)[k], m, schema, num, firstId + k)
    decreases |rows|
  {
    if ValidRow(rows[0], m, num) {
      if k > 0 {
        BuildPointsCons(rows, m, schema, num, firstId, k);
        BuildPointsAt(rows[1..], m, schema, num, firstId + 1, k - 1);
      }
    } else {
      BuildPointsAt(rows[1..], m, schema, num, firstId, k);
    }
  }

  /** Exactly the valid rows become points, in order, with consecutive ids
      from `firstId` and coordinates in range. */
  lemma BuildPointsRows(rows: seq<CsvRow>, m: Mapping, schema: DatasetSchema, num: Numeric, firstId: Id)
    requires Truthy(m.lon) && Truthy(m.lat)
    ensures var r := BuildPoints(rows, m, schema, num, firstId);
      forall k :: 0 <= k < |r| ==> r[k] == RowPoint(ValidRows(rows, m, num)[k], m, schema, num, firstId + k)
    ensures var r := BuildPoints(rows, m, schema, num, firstId);
      forall k :: 0 <= k < |r| ==>
        r[k].id == firstId + k && -180.0 <= r[k].lon <= 180.0 && -90.0 <= r[k].lat <= 90.0
  {
    var r := BuildPoints(rows, m, schema, num, firstId);
    forall k | 0 <= k < |r|
      ensures r[k] == RowPoint(ValidRows(rows, m, num)[k], m, schema, num, firstId + k)
      ensures r[k].id == firstId + k && -180.0 <= r[k].lon <= 180.0 && -90.0 <= r[k].lat <= 90.0
    {
      BuildPointsAt(rows, m, schema, num, firstId, k);
    }
  }

  datatype ParseOutcome =
    | Parsed(points: seq<FeaturePoint>, headers: seq<string>, schema: DatasetSchema)
    | MissingCoordinateColumns
    | CoordinateColumnsNotFound

  /** `parseCsv(file, mappings)` once the library has produced `headers` and
      `rows`: longitude and latitude must be mapped, to columns the file has;
      then the schema is inferred and the rows become points. */
  function ParseCsv(headers: seq<string>, rows: seq<CsvRow>, m: Mapping, num: Numeric, firstId: Id): (r: ParseOutcome)
    ensures r == MissingCoordinateColumns <==> !Truthy(m.lon) || !Truthy(m.lat)
    ensures r == CoordinateColumnsNotFound <==>
      Truthy(m.lon) && Truthy(m.lat) && (m.lon.value !in headers || m.lat.value !in headers)
    ensures r.Parsed? ==>
      && Truthy(m.lon) && Truthy(m.lat)
      && r.headers == headers && r.schema == InferSchema(rows, headers, num)
      && r.points == BuildPoints(rows, m, r.schema, num, firstId)
      && |r.points| <= |rows|
      && (forall k :: 0 <= k < |r.points| ==>
            r.points[k].id == firstId + k && -180.0 <= r.points[k].lon <= 180.0 && -90.0 <= r.points[k].lat <= 90.0)
  {
    if !Truthy(m.lon) || !Truthy(m.lat) then MissingCoordinateColumns
    else if m.lon.value !in headers || m.lat.value !in headers then CoordinateColumnsNotFound
    else
      var schema := InferSchema(rows, headers, num);
      BuildPointsRows(rows, m, schema, num, firstId);
      Parsed(BuildPoints(rows, m, schema, num, firstId), headers, schema)
  }

  // ---------------------------------------------------------------------------
  // Export: points to rows

  /** The last header satisfying `matches`. */
  function LastMatching(headers: seq<string>, matches: string -> bool): (r: Option<string>)
    ensures r.None? <==> forall i :: 0 <= i < |headers| ==> !matches(headers[i])
    ensures r.Some? ==> exists i :: (0 <= i < |headers| && headers[i] == r.value && matches(headers[i]) &&
                                      forall j :: i < j < |headers| ==> !matches(headers[j]))
  {
    if headers == [] then None
    else if matches(headers[|headers| - 1]) then Some(headers[|headers| - 1])
    else
      var r := LastMatching(headers[..|headers| - 1], matches);
      if r.Some? then
        var i :| 0 <= i < |headers| - 1 && headers[..|headers| - 1][i] == r.value && matches(headers[i])
          && forall j :: i < j < |headers| - 1 ==> !matches(headers[j]);
        assert headers[i] == r.value;
        r
      else r
  }

  /** The export's coordinate columns. */
  datatype ExportColumns = ExportColumns(lon: Option<string>, lat: Option<string>, alt: Option<string>)

  function ColumnSet(cols: ExportColumns): set<string> {
    (if cols.lon.Some? then {cols.lon.value} else {}) + (if cols.lat.Some? then {cols.lat.value} else {})
    + (if cols.alt.Some? then {cols.alt.value} else {})
  }

  function CoordinateColumns(headers: seq<string>): ExportColumns {
    ExportColumns(LastMatching(headers, IsLonHeader), LastMatching(headers, IsLatHeader), LastMatching(headers, IsAltHeader))
  }

  /** The columns found for the three roles are different columns. */
  lemma CoordinateColumnsDistinct(headers: seq<string>)
    ensures var cols := CoordinateColumns(headers);
      && (cols.lon.Some? ==> IsLonHeader(cols.lon.value) && cols.lon.value in headers)
      && (cols.lat.Some? ==> IsLatHeader(cols.lat.value) && cols.lat.value in headers)
      && (cols.alt.Some? ==> IsAltHeader(cols.alt.value) && cols.alt.value in headers)
      && (cols.lon.Some? ==> cols.lon != cols.lat && cols.lon != cols.alt)
      && (cols.lat.Some? ==> cols.lat != cols.alt)
  {
    var cols := CoordinateColumns(headers);
    if cols.lon.Some? {
      PatternsDisjoint(cols.lon.value);
    }
    if cols.lat.Some? {
      PatternsDisjoint(cols.lat.value);
    }
  }

  /** The header loop of `generateCsv`: each role keeps the last matching header. */
  method ChooseColumns(headers: seq<string>) returns (cols: ExportColumns)
    ensures cols == CoordinateColumns(headers)
  {
    cols := ExportColumns(None, None, None);
    var i := 0;
    while i < |headers|
      invariant 0 <= i <= |headers|
      invariant cols == CoordinateColumns(headers[..i])
    {
      assert headers[..i + 1][..i] == headers[..i];
      var h := headers[i];
      if IsLonHeader(h) {
        cols := cols.(lon := Some(h));
      }
      if IsLatHeader(h) {
        cols := cols.(lat := Some(h));
      }
      if IsAltHeader(h) {
        cols := cols.(alt := Some(h));
      }
      i := i + 1;
    }
    assert headers[..i] == headers;
  }

  /** The record `generateCsv` builds for a point before ordering it: the
      attributes with the coordinate columns set from the point. A missing
      altitude is written as empty text. */
  function ExportRecord(p: FeaturePoint, cols: ExportColumns): (r: Record)
    ensures r.Keys == p.attributes.Keys + ColumnSet(cols)
    ensures forall k :: k in p.attributes && k !in ColumnSet(cols) ==> r[k] == p.attributes[k]
    ensures cols.alt.Some? ==> r[cols.alt.value] == (if p.alt.Some? then Num(p.alt.value) else Str(""))
    ensures cols.lat.Some? && cols.lat != cols.alt ==> r[cols.lat.value] == Num(p.lat)
    ensures cols.lon.Some? && cols.lon != cols.lat && cols.lon != cols.alt ==> r[cols.lon.value] == Num(p.lon)
  {
    var r0 := p.attributes;
    var r1 := if cols.lon.Some? then r0[cols.lon.value := Num(p.lon)] else r0;
    var r2 := if cols.lat.Some? then r1[cols.lat.value := Num(p.lat)] else r1;
    if cols.alt.Some? then r2[cols.alt.value := if p.alt.Some? then Num(p.alt.value) else Str("")] else r2
  }

  /** The `orderedRow` loop: one value per header, in header order (missing
      keys stay undefined). */
  method OrderRow(record: Record, headers: seq<string>) returns (row: seq<Option<JsValue>>)
    ensures |row| == |headers|
    ensures forall i :: 0 <= i < |headers| ==> row[i] == Get(record, headers[i])
  {
    row := [];
    var i := 0;
    while i < |headers|
      invariant 0 <= i <= |headers|
      invariant |row| == i
      invariant forall j :: 0 <= j < i ==> row[j] == Get(record, headers[j])
    {
      row := row + [Get(record, headers[i])];
      i := i + 1;
    }
  }

  /** The row of one point in the export. */
  function ExportRow(p: FeaturePoint, headers: seq<string>): (row: seq<Option<JsValue>>)
    ensures |row| == |headers|
  {
    var record := ExportRecord(p, CoordinateColumns(headers));
    seq(|headers|, i requires 0 <= i < |headers| => Get(record, headers[i]))
  }

  /** Exported cells: the coordinate columns hold the point's live position
      (blank text for a missing altitude); every other header holds the
      attribute of that name, or nothing when the point has none. */
  lemma ExportRowCells(p: FeaturePoint, headers: seq<string>, i: nat)
    requires i < |headers|
    ensures var cols := CoordinateColumns(headers); var row := ExportRow(p, headers);
      && (cols.lon == Some(headers[i]) ==> row[i] == Some(Num(p.lon)))
      && (cols.lat == Some(headers[i]) ==> row[i] == Some(Num(p.lat)))
      && (cols.alt == Some(headers[i]) ==> row[i] == Some(if p.alt.Some? then Num(p.alt.value) else Str("")))
      && (headers[i] !in ColumnSet(cols) ==> row[i] == Get(p.attributes, headers[i]))
  {
    CoordinateColumnsDistinct(headers);
  }

  /** Import then export: with the import mapped to the columns the export
      picks, the exported coordinate cells are the numbers read from the row,
      and a column no role uses comes back as the value the import stored
      for it, which is the raw text for a column that is not numeric. */
  lemma ExportAfterImport(row: CsvRow, m: Mapping, schema: DatasetSchema, num: Numeric, id: Id,
                          headers: seq<string>, i: nat)
    requires Truthy(m.lon) && Truthy(m.lat) && ValidRow(row, m, num) && DistinctColumns(m)
    requires m.lon == CoordinateColumns(headers).lon && m.lat == CoordinateColumns(headers).lat
    requires i < |headers|
    ensures var out := ExportRow(RowPoint(row, m, schema, num, id), headers)[i];
      && (headers[i] == m.lon.value ==> Some(out.value.n) == ParseAndNormalize(Cell(row, m.lon.value), num))
      && (headers[i] == m.lat.value ==> Some(out.value.n) == ParseAndNormalize(Cell(row, m.lat.value), num))
      && (headers[i] in row && !Mapped(m, headers[i]) && headers[i] !in ColumnSet(CoordinateColumns(headers)) ==>
            && out == Some(RowAttributes(row, schema, num)[headers[i]])
            && (FieldTypeOf(schema.fields, headers[i]) != Some(NumberField) ==> out == Some(Str(row[headers[i]]))))
  {
    var p := RowPoint(row, m, schema, num, id);
    ExportRowCells(p, headers, i);
  }

  /** `generateCsv(points, headers)` before the rows are written as text:
      one row per point, in point order. */
  function GenerateCsv(points: seq<FeaturePoint>, headers: seq<string>): (rows: seq<seq<Option<JsValue>>>)
    ensures |rows| == |points|
    ensures forall k :: 0 <= k < |points| ==> rows[k] == ExportRow(points[k], headers)
  {
    seq(|points|, k requires 0 <= k < |points| => ExportRow(points[k], headers))
  }
}
