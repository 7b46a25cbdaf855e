/** The point editors both attribute panels share
    (src/components/AttributePanel.tsx and src/components/core/AttributePanel.tsx
    hold the same code): the batch form, whose entries become one
    `updateSelectedPoints` patch, and the single-point form, which copies a
    point into an edit record, lets the user change it and sends it to
    `updatePoint`. */
module PointEditing {
  import opened Types
  import FlightData

  // ---------------------------------------------------------------------------
  // Batch edit

  /** The keys the batch form parses as coordinates. */
  predicate CoordinateKey(k: string) {
    k == "lat" || k == "lon" || k == "alt"
  }

  /** The coordinate a batch entry sets: a filled-in box whose text parses. */
  function CoordinateEntry(values: map<string, string>, k: string, num: Numeric): Option<real> {
    if k in values && values[k] != "" then num.parseFloat(values[k]) else None
  }

  /** The attributes a batch form sets: every filled-in box other than the coordinates. */
  function AttributeEntries(values: map<string, string>): (a: Record)
    ensures forall k :: k in a <==> k in values && values[k] != "" && !CoordinateKey(k)
    ensures forall k :: k in a ==> a[k] == Str(values[k])
  {
    map k | k in values && values[k] != "" && !CoordinateKey(k) :: Str(values[k])
  }

  /** The patch the batch form sends, or `None` when nothing is left to send. */
  function BatchUpdate(values: map<string, string>, num: Numeric): (r: Option<FlightData.PointPatch>)
    ensures r.None? <==> CoordinateEntry(values, "lat", num).None? && CoordinateEntry(values, "lon", num).None?
                         && CoordinateEntry(values, "alt", num).None? && AttributeEntries(values) == map[]
    ensures r.Some? ==>
      && r.value.id.None? && r.value.props == map[]
      && r.value.lat == CoordinateEntry(values, "lat", num) && r.value.lon == CoordinateEntry(values, "lon", num)
      && r.value.alt == CoordinateEntry(values, "alt", num)
      && r.value.attributes == (if AttributeEntries(values) == map[] then None else Some(AttributeEntries(values)))
  {
    var lat := CoordinateEntry(values, "lat", num);
    var lon := CoordinateEntry(values, "lon", num);
    var alt := CoordinateEntry(values, "alt", num);
    var attrs := AttributeEntries(values);
    if lat.None? && lon.None? && alt.None? && attrs == map[] then None
    else Some(FlightData.PointPatch(None, lat, lon, alt, map[], if attrs == map[] then None else Some(attrs)))
  }

  /** The entries of the batch form read so far: the coordinates that parsed
      and the text attributes, for the keys in `done`. */
  datatype Collected = Collected(lat: Option<real>, lon: Option<real>, alt: Option<real>, attrs: Record)

  ghost predicate CollectedFrom(c: Collected, values: map<string, string>, done: set<string>, num: Numeric) {
    && c.lat == (if "lat" in done then CoordinateEntry(values, "lat", num) else None)
    && c.lon == (if "lon" in done then CoordinateEntry(values, "lon", num) else None)
    && c.alt == (if "alt" in done then CoordinateEntry(values, "alt", num) else None)
    && (forall k :: k in c.attrs <==> k in done && k in values && values[k] != "" && !CoordinateKey(k))
    && (forall k :: k in c.attrs ==> c.attrs[k] == Str(values[k]))
  }

  /** One pass of the key loop: a blank entry is skipped, a coordinate is
      kept if it parses, any other key becomes a text attribute. */
  method ReadEntry(c: Collected, values: map<string, string>, key: string, num: Numeric,
                   ghost done: set<string>) returns (c': Collected)
    requires key in values && key !in done
    requires CollectedFrom(c, values, done, num)
    ensures CollectedFrom(c', values, done + {key}, num)
  {
    c' := c;
    var value := values[key];
    if value == "" {
      return;
    }
    if CoordinateKey(key) {
      var parsed := num.parseFloat(value);
      if parsed.Some? {
        if key == "lat" {
          c' := c.(lat := parsed);
        } else if key == "lon" {
          c' := c.(lon := parsed);
        } else {
          c' := c.(alt := parsed);
        }
      }
    } else {
      c' := c.(attrs := c.attrs[key := Str(value)]);
    }
  }

  /** Taking one key off the to-do set adds it to the keys already read. */
  lemma DoneGrows<T>(all: set<T>, todo: set<T>, key: T)
    requires todo <= all && key in todo
    ensures all - todo + {key} == all - (todo - {key})
  {
  }

  /** Once every key is read, the collected entries are the form's patch
      fields. */
  lemma CollectedAll(c: Collected, values: map<string, string>, num: Numeric)
    requires CollectedFrom(c, values, values.Keys, num)
    ensures c.attrs == AttributeEntries(values)
    ensures c.lat == CoordinateEntry(values, "lat", num) && c.lon == CoordinateEntry(values, "lon", num)
    ensures c.alt == CoordinateEntry(values, "alt", num)
  {
  }

  /** `handleApplyBatchUpdate()`: the loop over the form's keys skips blank
      entries, keeps a coordinate only when it parses and collects every other
      key as a text attribute; the patch is sent only if it sets something. */
  method ApplyBatchUpdate(values: map<string, string>, num: Numeric) returns (patch: Option<FlightData.PointPatch>)
    ensures patch == BatchUpdate(values, num)
  {
    var c := Collected(None, None, None, map[]);
    var todo := values.Keys;
    while todo != {}
      invariant todo <= values.Keys
      invariant CollectedFrom(c, values, values.Keys - todo, num)
      decreases |todo|
    {
      var key :| key in todo;
      c := ReadEntry(c, values, key, num, values.Keys - todo);
      DoneGrows(values.Keys, todo, key);
      todo := todo - {key};
    }
    CollectedAll(c, values, num);
    if c.attrs != map[] || c.lat.Some? || c.lon.Some? || c.alt.Some? {
      patch := Some(FlightData.PointPatch(None, c.lat, c.lon, c.alt, map[], if c.attrs == map[] then None else Some(c.attrs)));
    } else {
      patch := None;
    }
  }

  /** What a batch edit does to the plan: nothing when the form is empty;
      otherwise every selected point takes the coordinates that parsed, every
      filled-in text lands in its attributes, the attributes nobody typed are
      kept, and unselected points are untouched. */
  lemma BatchUpdateEffect(s: FlightData.FlightState, values: map<string, string>, num: Numeric)
    requires BatchUpdate(values, num).Some?
    ensures var t := FlightData.UpdateSelectedPoints(s, BatchUpdate(values, num).value);
      && |t.points| == |s.points|
      && (forall i :: 0 <= i < |s.points| && s.points[i].id !in s.selectedPoints ==> t.points[i] == s.points[i])
      && (forall i :: 0 <= i < |s.points| && s.points[i].id in s.selectedPoints ==>
            && t.points[i].id == s.points[i].id
            && t.points[i].lat == OrElse(CoordinateEntry(values, "lat", num), s.points[i].lat)
            && t.points[i].lon == OrElse(CoordinateEntry(values, "lon", num), s.points[i].lon)
            && (CoordinateEntry(values, "alt", num).Some? ==> t.points[i].alt == CoordinateEntry(values, "alt", num))
            && (CoordinateEntry(values, "alt", num).None? ==> t.points[i].alt == s.points[i].alt)
            && (forall k :: k in values && values[k] != "" && !CoordinateKey(k) ==> t.points[i].attributes[k] == Str(values[k]))
            && (forall k :: k in s.points[i].attributes && !(k in values && values[k] != "" && !CoordinateKey(k)) ==>
                  t.points[i].attributes[k] == s.points[i].attributes[k]))
  {
  }

  /** Nothing is sent exactly when every box is blank, or holds a coordinate
      that does not parse. */
  lemma BatchUpdateNone(values: map<string, string>, num: Numeric)
    ensures BatchUpdate(values, num).None? <==>
      forall k :: k in values && values[k] != "" ==> CoordinateKey(k) && num.parseFloat(values[k]).None?
  {
    var attrs := AttributeEntries(values);
    if BatchUpdate(values, num).None? {
      forall k | k in values && values[k] != ""
        ensures CoordinateKey(k) && num.parseFloat(values[k]).None?
      {
        assert k !in attrs;
      }
    } else if attrs != map[] {
      var k :| k in attrs;
      assert k in values && values[k] != "" && !CoordinateKey(k);
    }
  }

  // ---------------------------------------------------------------------------
  // Single-point edit

  /** The keys of the edit record that are not plain attributes. */
  predicate TypedKey(k: string) {
    k == "id" || k == "lat" || k == "lon" || k == "alt" || k == "attributes"
  }

  /** The edit form: the id being edited and the `Partial<FeaturePoint>`
      being assembled, which is the same shape as a patch. */
  datatype Editor = Editor(editing: Option<Id>, values: FlightData.PointPatch)

  const EmptyPatch := FlightData.PointPatch(None, None, None, None, map[], None)

  const Idle := Editor(None, EmptyPatch)

  /** While a point is edited, the record carries that point's id. */
  predicate EditorValid(e: Editor) {
    e.editing.Some? ==> e.values.id == Some(e.editing.value)
  }

  /** `handleEdit(point)`: `{...attributes, ...rest}`. The attributes are
      flattened into the record, where the point's own keys win over
      same-named attributes, and no `attributes` key is kept. */
  function StartEdit(p: FeaturePoint): (e: Editor)
    ensures EditorValid(e) && e.editing == Some(p.id)
    ensures e.values.lat == Some(p.lat) && e.values.lon == Some(p.lon) && e.values.alt == p.alt
    ensures e.values.attributes.None?
    ensures forall k :: k in e.values.props <==> k in p.props || (k in p.attributes && !TypedKey(k))
    ensures forall k :: k in e.values.props ==>
      e.values.props[k] == if k in p.props then p.props[k] else p.attributes[k]
  {
    var flat := map k | k in p.attributes && !TypedKey(k) :: p.attributes[k];
    Editor(Some(p.id), FlightData.PointPatch(Some(p.id), Some(p.lat), Some(p.lon), p.alt, flat + p.props, None))
  }

  /** `handleInputChange(field, text)`: a coordinate box stores
      `parseFloat(text) || 0`, any other box its text. */
  function InputChange(e: Editor, field: string, text: string, num: Numeric): (r: Editor)
    requires field != "id" && field != "attributes"
    ensures r.editing == e.editing && r.values.id == e.values.id && r.values.attributes == e.values.attributes
    ensures field == "lat" ==> r.values == e.values.(lat := Some(OrElse(num.parseFloat(text), 0.0)))
    ensures field == "lon" ==> r.values == e.values.(lon := Some(OrElse(num.parseFloat(text), 0.0)))
    ensures field == "alt" ==> r.values == e.values.(alt := Some(OrElse(num.parseFloat(text), 0.0)))
    ensures !TypedKey(field) ==> r.values == e.values.(props := e.values.props[field := Str(text)])
    ensures EditorValid(e) ==> EditorValid(r)
  {
    var v := OrElse(num.parseFloat(text), 0.0);
    if field == "lat" then e.(values := e.values.(lat := Some(v)))
    else if field == "lon" then e.(values := e.values.(lon := Some(v)))
    else if field == "alt" then e.(values := e.values.(alt := Some(v)))
    else e.(values := e.values.(props := e.values.props[field := Str(text)]))
  }

  /** `handleAttributeChange(field, text)`: one key of the record's
      `attributes` is set, on top of whatever `attributes` it already holds. */
  function AttributeChange(e: Editor, field: string, text: string): (r: Editor)
    ensures r.editing == e.editing && r.values == e.values.(attributes := r.values.attributes)
    ensures r.values.attributes.Some? && field in r.values.attributes.value
    ensures r.values.attributes.value[field] == Str(text)
    ensures e.values.attributes.Some? ==> r.values.attributes.value == e.values.attributes.value[field := Str(text)]
    ensures e.values.attributes.None? ==> r.values.attributes.value == map[field := Str(text)]
    ensures EditorValid(e) ==> EditorValid(r)
  {
    var prev := if e.values.attributes.Some? then e.values.attributes.value else map[];
    e.(values := e.values.(attributes := Some(prev[field := Str(text)])))
  }

  /** A call to `updatePoint`. */
  datatype PointUpdate = PointUpdate(id: Id, patch: FlightData.PointPatch)

  /** `handleSave()`: only while a point is edited is the record sent, and
      the form is then cleared; otherwise nothing happens. */
  function Save(e: Editor): (r: (Editor, Option<PointUpdate>))
    ensures e.editing.None? ==> r == (e, None)
    ensures e.editing.Some? ==> r == (Idle, Some(PointUpdate(e.editing.value, e.values)))
    ensures EditorValid(e) && r.1.Some? ==> r.1.value.patch.id == Some(r.1.value.id)
  {
    if e.editing.Some? then (Idle, Some(PointUpdate(e.editing.value, e.values))) else (e, None)
  }

  /** `handleCancel()` */
  function Cancel(e: Editor): (r: Editor)
    ensures r.editing.None? && r.values == EmptyPatch
  {
    Idle
  }

  /** Editing a point and saving without changing anything leaves the point's
      position and attributes as they were (the flattened attributes are
      added to its other keys). */
  lemma SaveUnchanged(s: FlightData.FlightState, i: nat)
    requires i < |s.points|
    ensures var p := s.points[i]; var u := Save(StartEdit(p)).1.value;
      var q := FlightData.UpdatePoint(s, u.id, u.patch).points[i];
      && q.id == p.id && q.lat == p.lat && q.lon == p.lon && q.alt == p.alt && q.attributes == p.attributes
  {
  }

  /** As written: after changing one attribute in the form and saving, the
      point's attributes are that one key, whatever else it had. */
  lemma AttributeEditAsWritten(s: FlightData.FlightState, i: nat, field: string, text: string)
    requires i < |s.points|
    ensures var p := s.points[i]; var u := Save(AttributeChange(StartEdit(p), field, text)).1.value;
      FlightData.UpdatePoint(s, u.id, u.patch).points[i].attributes == map[field := Str(text)]
  {
  }

  /** A point with two attributes loses one of them. */
  lemma AttributeEditLosesAttributes()
    ensures var p := FeaturePoint(0, 0.0, 0.0, None, map[], map["name" := Str("a"), "speed" := Str("5")]);
      var s := FlightData.InitialState.(points := [p]);
      var u := Save(AttributeChange(StartEdit(p), "name", "b")).1.value;
      "speed" !in FlightData.UpdatePoint(s, u.id, u.patch).points[0].attributes
  {
    var p := FeaturePoint(0, 0.0, 0.0, None, map[], map["name" := Str("a"), "speed" := Str("5")]);
    AttributeEditAsWritten(FlightData.InitialState.(points := [p]), 0, "name", "b");
  }

  /** `handleEdit` as intended: the record also carries the point's attributes,
      so that an attribute change is made on top of them. */
  function StartEditCorrected(p: FeaturePoint): (e: Editor)
    ensures EditorValid(e) && e.editing == Some(p.id)
    ensures e.values.attributes == Some(p.attributes)
    ensures e.values == StartEdit(p).values.(attributes := Some(p.attributes))
  {
    var e := StartEdit(p);
    e.(values := e.values.(attributes := Some(p.attributes)))
  }

  /** Corrected: changing one attribute and saving changes that attribute
      alone and keeps every other one. */
  lemma AttributeEditCorrected(s: FlightData.FlightState, i: nat, field: string, text: string)
    requires i < |s.points|
    ensures var p := s.points[i]; var u := Save(AttributeChange(StartEditCorrected(p), field, text)).1.value;
      FlightData.UpdatePoint(s, u.id, u.patch).points[i].attributes == p.attributes[field := Str(text)]
  {
  }
}
