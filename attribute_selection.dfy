/** The two selection tools of the attribute panel
    (src/components/AttributePanel.tsx): the attribute selector, which turns
    the chosen field, operator and inputs into an `AttributeQuery`, and the
    range selector, which turns a 1-based interval of positions in the flight
    plan into a set of point ids for `applyBatchSelection`. */
module AttributeSelection {
  import opened Types
  import FlightData

  // ---------------------------------------------------------------------------
  // Attribute selector

  /** The selector's inputs. `minValue`/`maxValue` hold either the text the
      user typed or the number seeded from the field statistics. */
  datatype Selector = Selector(
    field: Option<SchemaField>,
    operator: Operator,
    value: string,
    minValue: JsValue,
    maxValue: JsValue,
    selectedValues: set<string>)

  /** `parseFloat(v)` of an input: a seeded number reads back as itself. */
  function InputNumber(v: JsValue, num: Numeric): (r: Option<real>)
    ensures v.Num? ==> r == Some(v.n)
  {
    match v
    case Num(n) => Some(n)
    case Str(s) => num.parseFloat(s)
    case _ => None
  }

  /** `parseFloat` of the value box as a query value: NaN when it does not parse. */
  function NumberValue(s: string, num: Numeric): (r: JsValue)
    ensures r.Num? <==> num.parseFloat(s).Some?
    ensures r.Num? ==> r.n == num.parseFloat(s).value
  {
    if num.parseFloat(s).Some? then Num(num.parseFloat(s).value) else NaN
  }

  /** The query the selector publishes: none without a field or for a field
      that is neither numeric nor text; `between` carries the two bounds,
      `in` the chosen texts and every other operator the single value, read
      as a number on a numeric field and as text on a text field. */
  function BuildQuery(st: Selector, num: Numeric): (q: Option<AttributeQuery>)
    ensures q.Some? <==> st.field.Some? && st.field.value.fieldType != OtherField
    ensures q.Some? ==> q.value.field == st.field.value.name && q.value.operator == st.operator
    ensures q.Some? && st.field.value.fieldType == NumberField && st.operator == Between ==>
      q.value.min == InputNumber(st.minValue, num) && q.value.max == InputNumber(st.maxValue, num)
    ensures q.Some? && st.field.value.fieldType == NumberField && st.operator != Between ==>
      q.value.value == Some(NumberValue(st.value, num))
    ensures q.Some? && st.field.value.fieldType == StringField && st.operator == In ==>
      q.value.values.Some? && forall x :: x in q.value.values.value <==> x.Str? && x.s in st.selectedValues
    ensures q.Some? && st.field.value.fieldType == StringField && st.operator != In ==>
      q.value.value == Some(Str(st.value))
  {
    match st.field
    case None => None
    case Some(f) =>
      if f.fieldType == NumberField then
        if st.operator == Between then
          Some(AttributeQuery(f.name, Between, None, InputNumber(st.minValue, num), InputNumber(st.maxValue, num), None))
        else Some(AttributeQuery(f.name, st.operator, Some(NumberValue(st.value, num)), None, None, None))
      else if f.fieldType == StringField then
        if st.operator == In then
          Some(AttributeQuery(f.name, In, None, None, None, Some(set x | x in st.selectedValues :: Str(x))))
        else Some(AttributeQuery(f.name, st.operator, Some(Str(st.value)), None, None, None))
      else
        assert f.fieldType == OtherField;
        None
  }

  /** `isApplyDisabled()` */
  predicate ApplyDisabled(st: Selector, num: Numeric) {
    match st.field
    case None => true
    case Some(f) =>
      if f.fieldType == NumberField then
        if st.operator == Between then InputNumber(st.minValue, num).None? || InputNumber(st.maxValue, num).None?
        else num.parseFloat(st.value).None?
      else if f.fieldType == StringField then
        if st.operator == In then |st.selectedValues| == 0 else st.value == ""
      else true
  }

  /** A query that can select something: its operands are all there. */
  predicate Complete(q: AttributeQuery) {
    match q.operator
    case Between => q.min.Some? && q.max.Some?
    case In => q.values.Some? && q.values.value != {}
    case _ => q.value.Some? && q.value.value != NaN && q.value.value != Str("")
  }

  /** The operators the selector's drop-down offers for the chosen field. */
  predicate OperatorOffered(st: Selector) {
    st.field.Some? ==>
      match st.field.value.fieldType
      case NumberField => st.operator != In
      case StringField => st.operator in {In, Eq, Neq}
      case OtherField => true
  }

  /** The guard and the builder agree: Apply is enabled exactly when there is
      a query and all its operands are present. */
  lemma ApplyEnabledIffComplete(st: Selector, num: Numeric)
    requires OperatorOffered(st)
    ensures !ApplyDisabled(st, num) <==> BuildQuery(st, num).Some? && Complete(BuildQuery(st, num).value)
  {
    var q := BuildQuery(st, num);
    if q.Some? && st.field.value.fieldType == StringField && st.operator == In {
      var f := st.field.value;
      if st.selectedValues != {} {
        var x :| x in st.selectedValues;
        assert Str(x) in q.value.values.value;
      }
    }
  }

  /** `schema.fields.find(f => f.name === name)` */
  function FindField(fields: seq<SchemaField>, name: string): (r: Option<SchemaField>)
    ensures r.None? <==> forall i :: 0 <= i < |fields| ==> fields[i].name != name
    ensures r.Some? ==> r.value.name == name && r.value in fields
    ensures r.Some? ==> exists i :: 0 <= i < |fields| && fields[i] == r.value &&
                                    forall j :: 0 <= j < i ==> fields[j].name != name
  {
    if fields == [] then None
    else if fields[0].name == name then Some(fields[0])
    else
      var r := FindField(fields[1..], name);
      if r.Some? then
        var i :| 0 <= i < |fields| - 1 && fields[1..][i] == r.value
          && forall j :: 0 <= j < i ==> fields[1..][j].name != name;
        assert fields[i + 1] == r.value && forall j :: 0 <= j < i + 1 ==> fields[j].name != name;
        r
      else r
  }

  /** `handleFieldChange(name)`: the field is looked up, the value box and the
      chosen texts are emptied, the bounds are seeded from the field's
      statistics and the operator defaults to `between` for numbers and `in`
      otherwise. */
  function FieldChange(st: Selector, schema: DatasetSchema, name: string): (r: Selector)
    ensures r.field == FindField(schema.fields, name)
    ensures r.value == "" && r.selectedValues == {}
    ensures r.operator == (if r.field.Some? && r.field.value.fieldType == NumberField then Between else In)
    ensures r.field.Some? && r.field.value.stats.min.Some? ==> r.minValue == Num(r.field.value.stats.min.value)
    ensures r.field.Some? && r.field.value.stats.max.Some? ==> r.maxValue == Num(r.field.value.stats.max.value)
    ensures OperatorOffered(r)
  {
    var f := FindField(schema.fields, name);
    Selector(
      f,
      if f.Some? && f.value.fieldType == NumberField then Between else In,
      "",
      if f.Some? && f.value.stats.min.Some? then Num(f.value.stats.min.value) else Str(""),
      if f.Some? && f.value.stats.max.Some? then Num(f.value.stats.max.value) else Str(""),
      {})
  }

  /** Choosing a numeric field with statistics publishes `between` over its
      whole range, ready to apply; choosing a text field publishes an `in`
      query with nothing chosen yet, which cannot be applied; a field of
      neither kind publishes nothing. */
  lemma FieldChangeQuery(st: Selector, schema: DatasetSchema, name: string, num: Numeric)
    requires FindField(schema.fields, name).Some?
    ensures var f := FindField(schema.fields, name).value; var r := FieldChange(st, schema, name);
      && (f.fieldType == NumberField && f.stats.min.Some? && f.stats.max.Some? ==>
            && BuildQuery(r, num) == Some(AttributeQuery(name, Between, None, f.stats.min, f.stats.max, None))
            && !ApplyDisabled(r, num))
      && (f.fieldType == StringField ==>
            && BuildQuery(r, num) == Some(AttributeQuery(name, In, None, None, None, Some({})))
            && ApplyDisabled(r, num))
      && (f.fieldType == OtherField ==> BuildQuery(r, num).None? && ApplyDisabled(r, num))
  {
    var f := FindField(schema.fields, name).value;
    var r := FieldChange(st, schema, name);
    if f.fieldType == StringField {
      var q := BuildQuery(r, num).value;
      assert q.values.value == {};
    }
  }

  /** `handleStringValueToggle(val)`: exactly `val` changes membership. */
  function ToggleValue(vals: set<string>, val: string): (r: set<string>)
    ensures val in r <==> val !in vals
    ensures forall x :: x != val ==> (x in r <==> x in vals)
  {
    if val in vals then vals - {val} else vals + {val}
  }

  /** Toggling the same text twice leaves the choice as it was. */
  lemma ToggleValueTwice(vals: set<string>, val: string)
    ensures ToggleValue(ToggleValue(vals, val), val) == vals
  {
    var r := ToggleValue(ToggleValue(vals, val), val);
    assert forall x :: x in r <==> x in vals;
  }

  // ---------------------------------------------------------------------------
  // Range selector

  /** The ids of the points at 0-based positions `lo` up to, not including, `hi`. */
  function PositionIds(points: seq<FeaturePoint>, lo: int, hi: int): set<Id> {
    set j | 0 <= j < |points| && lo <= j < hi :: points[j].id
  }

  /** The ids at 1-based positions `minVal` to `maxVal` of the plan. */
  function RangeIds(points: seq<FeaturePoint>, minVal: int, maxVal: int): (r: set<Id>)
    ensures forall x :: x in r <==> exists i :: 0 <= i < |points| && minVal <= i + 1 <= maxVal && points[i].id == x
    ensures r <= FlightData.Ids(points)
  {
    forall x | x in FlightData.Ids(points) <==> exists i :: 0 <= i < |points| && points[i].id == x {
      FlightData.IdsMember(points, x);
    }
    PositionIds(points, minVal - 1, maxVal)
  }

  function Max(a: int, b: int): int {
    if a >= b then a else b
  }

  function Min(a: int, b: int): int {
    if a <= b then a else b
  }

  /** `calculateIdsFromRange(minVal, maxVal)`: the bounds are converted to
      0-based indices and clamped to the plan; an empty interval gives no ids,
      otherwise the loop collects the id at every index in it. */
  method CalculateIdsFromRange(points: seq<FeaturePoint>, minVal: int, maxVal: int) returns (ids: set<Id>)
    ensures ids == RangeIds(points, minVal, maxVal)
  {
    ids := {};
    var lower := Max(0, minVal - 1);
    var upper := Min(|points| - 1, maxVal - 1);
    if lower > upper {
      assert RangeIds(points, minVal, maxVal) == {};
      return;
    }
    var i := lower;
    while i <= upper
      invariant lower <= i <= upper + 1
      invariant ids == PositionIds(points, lower, i)
    {
      if i < |points| {
        ids := ids + {points[i].id};
      }
      PositionIdsSnoc(points, lower, i);
      i := i + 1;
    }
    assert ids == PositionIds(points, minVal - 1, maxVal) by {
      PositionIdsClip(points, lower, upper, minVal, maxVal);
    }
  }

  lemma PositionIdsSnoc(points: seq<FeaturePoint>, lo: int, hi: int)
    requires lo <= hi
    ensures PositionIds(points, lo, hi + 1) == PositionIds(points, lo, hi) + (if 0 <= hi < |points| then {points[hi].id} else {})
  {
  }

  lemma PositionIdsClip(points: seq<FeaturePoint>, lower: int, upper: int, minVal: int, maxVal: int)
    requires lower == Max(0, minVal - 1) && upper == Min(|points| - 1, maxVal - 1)
    ensures PositionIds(points, lower, upper + 1) == PositionIds(points, minVal - 1, maxVal)
  {
  }

  /** Positions past the end and inverted intervals select nothing. */
  lemma RangeIdsEmpty(points: seq<FeaturePoint>, minVal: int, maxVal: int)
    requires minVal > maxVal || minVal > |points| || maxVal < 1
    ensures RangeIds(points, minVal, maxVal) == {}
  {
  }

  /** With distinct ids, an interval of positions inside the plan selects
      one point per position. */
  lemma {:induction false} PositionIdsCount(points: seq<FeaturePoint>, lo: nat, hi: nat)
    requires FlightData.DistinctIds(points)
    requires lo <= hi <= |points|
    ensures |PositionIds(points, lo, hi)| == hi - lo
    decreases hi - lo
  {
    if lo == hi {
      assert PositionIds(points, lo, hi) == {};
    } else {
      PositionIdsCount(points, lo, hi - 1);
      PositionIdsSnoc(points, lo, hi - 1);
      assert points[hi - 1].id !in PositionIds(points, lo, hi - 1);
    }
  }

  /** The interval `[a, b]` of 1-based positions, with `1 <= a <= b <= n`,
      selects exactly `b - a + 1` points. */
  lemma RangeIdsCount(points: seq<FeaturePoint>, a: int, b: int)
    requires FlightData.DistinctIds(points)
    requires 1 <= a <= b <= |points|
    ensures |RangeIds(points, a, b)| == b - a + 1
  {
    PositionIdsCount(points, a - 1, b);
  }

  /** The range shown in the two boxes. */
  datatype Range = Range(min: int, max: int)

  datatype Bound = MinBound | MaxBound

  /** `handleInputChange(which, text)`: text that is not an integer is
      ignored; a new minimum is clamped into `[1, max]`, a new maximum into
      `[min, n]`, and the other bound is kept. */
  function RangeInput(r: Range, which: Bound, text: string, n: nat, num: Numeric): (r': Range)
    ensures num.parseInt(text).None? ==> r' == r
    ensures num.parseInt(text).Some? && which == MinBound ==>
      var v := num.parseInt(text).value;
      && r'.max == r.max && 1 <= r'.min
      && (1 <= r.max ==> r'.min <= r.max)
      && (1 <= v <= r.max ==> r'.min == v)
      && (v < 1 || r.max < 1 ==> r'.min == 1)
      && (1 <= r.max < v ==> r'.min == r.max)
    ensures num.parseInt(text).Some? && which == MaxBound ==>
      var v := num.parseInt(text).value;
      && r'.min == r.min && r'.max <= n
      && (r.min <= n ==> r.min <= r'.max)
      && (r.min <= v <= n ==> r'.max == v)
      && (n < v || n < r.min ==> r'.max == n)
      && (v < r.min <= n ==> r'.max == r.min)
  {
    match num.parseInt(text)
    case None => r
    case Some(v) =>
      if which == MinBound then r.(min := Max(1, Min(v, r.max)))
      else r.(max := Min(n, Max(v, r.min)))
  }

  /** A well-formed range stays well-formed under any input. */
  lemma RangeInputKeepsOrder(r: Range, which: Bound, text: string, n: nat, num: Numeric)
    requires 1 <= r.min <= r.max <= n
    ensures var r' := RangeInput(r, which, text, n, num); 1 <= r'.min <= r'.max <= n
  {
  }

  /** `handleApply()`: `None` when the range holds no point (nothing
      happens); otherwise the preview is cleared and these ids go to
      `applyBatchSelection`. */
  function RangeApply(points: seq<FeaturePoint>, r: Range): (ids: Option<set<Id>>)
    ensures ids.None? <==> RangeIds(points, r.min, r.max) == {}
    ensures ids.Some? ==> ids.value == RangeIds(points, r.min, r.max)
  {
    var ids := RangeIds(points, r.min, r.max);
    if ids == {} then None else Some(ids)
  }

  /** Applying a range to the plan it was computed on selects exactly the
      points at those positions (outside add-mode) and enters batch edit. */
  lemma RangeApplySelects(s: FlightData.FlightState, r: Range)
    requires RangeApply(s.points, r).Some? && !s.selectionAddMode
    ensures var t := FlightData.ApplyBatchSelection(s, RangeApply(s.points, r).value);
      && t.selectionMode == BatchEdit
      && forall x :: x in t.selectedPoints <==>
           exists i :: 0 <= i < |s.points| && r.min <= i + 1 <= r.max && s.points[i].id == x
  {
    var ids := RangeApply(s.points, r).value;
    assert ids * FlightData.Ids(s.points) == ids;
  }
}
