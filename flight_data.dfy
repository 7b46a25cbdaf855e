/** The editing-session state (`FlightDataState`, src/hooks/useFlightData.ts)
    and one state-to-state updater per command of the `useFlightData` hook.
    The hook hands each updater to the history store, either appending or
    overwriting; that wiring is in module Session. */
module FlightData {
  import opened Types

  datatype Lock = Lock(lat: bool, lon: bool, alt: bool)

  datatype Delta = Delta(dLat: real, dLon: real, dAlt: real)

  datatype LockAxis = LatAxis | LonAxis | AltAxis

  datatype DeltaAxis = DLat | DLon | DAlt

  const NoDelta := Delta(0.0, 0.0, 0.0)

  function AddDelta(a: Delta, b: Delta): Delta {
    Delta(a.dLat + b.dLat, a.dLon + b.dLon, a.dAlt + b.dAlt)
  }

  function Component(d: Delta, axis: DeltaAxis): real {
    match axis
    case DLat => d.dLat
    case DLon => d.dLon
    case DAlt => d.dAlt
  }

  /** `FlightDataState` */
  datatype FlightState = FlightState(
    points: seq<FeaturePoint>,
    selectedPoints: set<Id>,
    originalHeaders: seq<string>,
    isDrawing: bool,
    drawnPolygon: seq<LngLat>,
    selectionMode: SelectionMode,
    translationLock: Lock,
    translationDelta: Delta,
    pointsBeforeTranslate: Option<seq<FeaturePoint>>,
    schema: DatasetSchema,
    attributeQuery: Option<AttributeQuery>,
    rotationCenter: Option<LonLat>,
    pointsBeforeRotate: Option<seq<FeaturePoint>>,
    selectionAddMode: bool)

  const InitialState := FlightState([], {}, [], false, [], Single, Lock(false, false, false), NoDelta,
                                    None, DatasetSchema([]), None, None, None, false)

  // ---------------------------------------------------------------------------
  // Ids and the session invariant

  function IdSeq(ps: seq<FeaturePoint>): (r: seq<Id>)
    ensures |r| == |ps| && forall i :: 0 <= i < |ps| ==> r[i] == ps[i].id
  {
    seq(|ps|, i requires 0 <= i < |ps| => ps[i].id)
  }

  /** The ids of a point list. */
  function Ids(ps: seq<FeaturePoint>): set<Id> {
    set x | x in IdSeq(ps)
  }

  lemma IdsMember(ps: seq<FeaturePoint>, x: Id)
    ensures x in Ids(ps) <==> exists i :: 0 <= i < |ps| && ps[i].id == x
  {
    if x in Ids(ps) {
      var i :| 0 <= i < |IdSeq(ps)| && IdSeq(ps)[i] == x;
    }
  }

  predicate DistinctIds(ps: seq<FeaturePoint>) {
    forall i, j :: 0 <= i < j < |ps| ==> ps[i].id != ps[j].id
  }

  predicate IdsBelow(ps: seq<FeaturePoint>, bound: nat) {
    forall i :: 0 <= i < |ps| ==> ps[i].id < bound
  }

  /** What every state the session holds satisfies, given the next unused id
      `bound`: the selection names existing points, ids are unique, and all
      ids (also in the snapshots) were handed out before `bound`. */
  ghost predicate Coherent(s: FlightState, bound: nat) {
    && s.selectedPoints <= Ids(s.points)
    && DistinctIds(s.points) && IdsBelow(s.points, bound)
    && (s.pointsBeforeTranslate.Some? ==>
          DistinctIds(s.pointsBeforeTranslate.value) && IdsBelow(s.pointsBeforeTranslate.value, bound))
    && (s.pointsBeforeRotate.Some? ==>
          DistinctIds(s.pointsBeforeRotate.value) && IdsBelow(s.pointsBeforeRotate.value, bound))
  }

  lemma CoherentMonotone(s: FlightState, b: nat, b': nat)
    requires Coherent(s, b) && b <= b'
    ensures Coherent(s, b')
  {
  }

  // ---------------------------------------------------------------------------
  // Point-list helpers

  /** The points whose id is (`wanted`) or is not (`!wanted`) in `sel`, in
      their original order: `filter(p => sel.has(p.id))` and its negation. */
  function Filter(ps: seq<FeaturePoint>, sel: set<Id>, wanted: bool): (r: seq<FeaturePoint>)
    ensures |r| <= |ps|
  {
    if ps == [] then []
    else
      var last := ps[|ps| - 1];
      Filter(ps[..|ps| - 1], sel, wanted) + (if (last.id in sel) == wanted then [last] else [])
  }

  /** The filter keeps exactly the points whose membership in `sel` is the
      wanted one. */
  lemma {:induction false} FilterMembers(ps: seq<FeaturePoint>, sel: set<Id>, wanted: bool)
    ensures forall p :: p in Filter(ps, sel, wanted) <==> p in ps && ((p.id in sel) == wanted)
  {
    if ps != [] {
      var init, last := ps[..|ps| - 1], ps[|ps| - 1];
      FilterMembers(init, sel, wanted);
      assert ps == init + [last];
    }
  }

  /** `a` is `b` with some elements left out: what remains keeps its order. */
  predicate Subsequence<T(==)>(a: seq<T>, b: seq<T>)
    decreases |b|
  {
    if b == [] then a == []
    else
      || Subsequence(a, b[..|b| - 1])
      || (a != [] && a[|a| - 1] == b[|b| - 1] && Subsequence(a[..|a| - 1], b[..|b| - 1]))
  }

  lemma {:induction false} FilterKeepsOrder(ps: seq<FeaturePoint>, sel: set<Id>, wanted: bool)
    ensures Subsequence(Filter(ps, sel, wanted), ps)
  {
    if ps != [] {
      var init := ps[..|ps| - 1];
      FilterKeepsOrder(init, sel, wanted);
      var f := Filter(ps, sel, wanted);
      assert ps[..|ps| - 1] == init;
      if (ps[|ps| - 1].id in sel) == wanted {
        assert f == Filter(init, sel, wanted) + [ps[|ps| - 1]];
        assert f[..|f| - 1] == Filter(init, sel, wanted);
        assert f != [] && f[|f| - 1] == ps[|ps| - 1];
      } else {
        assert f == Filter(init, sel, wanted);
      }
    }
  }

  function Reverse<T>(s: seq<T>): (r: seq<T>)
    ensures |r| == |s|
    ensures forall i :: 0 <= i < |s| ==> r[i] == s[|s| - 1 - i]
  {
    if s == [] then [] else Reverse(s[1..]) + [s[0]]
  }

  lemma ReverseInvolutive<T>(s: seq<T>)
    ensures Reverse(Reverse(s)) == s
  {
    assert forall i :: 0 <= i < |s| ==> Reverse(Reverse(s))[i] == s[i];
  }

  // ---------------------------------------------------------------------------
  // Per-point edits

  /** `{...p, lat: p.lat + dLat, lon: p.lon + dLon, alt: p.alt + dAlt}`, with
      a missing altitude left missing. */
  function Shift(p: FeaturePoint, d: Delta): (r: FeaturePoint)
    ensures r.id == p.id && r.props == p.props && r.attributes == p.attributes
    ensures r.alt.Some? <==> p.alt.Some?
  {
    p.(lat := p.lat + d.dLat, lon := p.lon + d.dLon,
       alt := if p.alt.Some? then Some(p.alt.value + d.dAlt) else None)
  }

  /** The points with every selected one shifted by `d`, in place. */
  function Shifted(ps: seq<FeaturePoint>, sel: set<Id>, d: Delta): (r: seq<FeaturePoint>)
    ensures |r| == |ps| && IdSeq(r) == IdSeq(ps)
    ensures forall i :: 0 <= i < |ps| && ps[i].id !in sel ==> r[i] == ps[i]
    ensures forall i :: 0 <= i < |ps| && ps[i].id in sel ==> r[i] == Shift(ps[i], d)
  {
    seq(|ps|, i requires 0 <= i < |ps| => if ps[i].id in sel then Shift(ps[i], d) else ps[i])
  }

  /** A `Partial<FeaturePoint>`: the keys it sets. Keys other than the five
      declared ones go to `props`. */
  datatype PointPatch = PointPatch(
    id: Option<Id>,
    lat: Option<real>,
    lon: Option<real>,
    alt: Option<real>,
    props: Record,
    attributes: Option<Record>)

  /** `{...p, ...patch}`: every key the patch sets wins. */
  function Spread(p: FeaturePoint, u: PointPatch): (r: FeaturePoint)
    ensures u.id.None? ==> r.id == p.id
    ensures u.lat.Some? ==> r.lat == u.lat.value
    ensures u.lat.None? ==> r.lat == p.lat
    ensures u.lon.Some? ==> r.lon == u.lon.value
    ensures u.lon.None? ==> r.lon == p.lon
    ensures r.alt == (if u.alt.Some? then u.alt else p.alt)
    ensures forall k :: k in r.props <==> k in p.props || k in u.props
    ensures forall k :: k in u.props ==> r.props[k] == u.props[k]
    ensures forall k :: k in p.props && k !in u.props ==> r.props[k] == p.props[k]
    ensures r.attributes == (if u.attributes.Some? then u.attributes.value else p.attributes)
  {
    FeaturePoint(
      if u.id.Some? then u.id.value else p.id,
      if u.lat.Some? then u.lat.value else p.lat,
      if u.lon.Some? then u.lon.value else p.lon,
      if u.alt.Some? then u.alt else p.alt,
      p.props + u.props,
      if u.attributes.Some? then u.attributes.value else p.attributes)
  }

  /** The copy `duplicateSelectedPoints` makes of a point: a new id and an
      offset of 0.0001 degree in both longitude and latitude. */
  function Clone(p: FeaturePoint, newId: Id): FeaturePoint {
    p.(id := newId, lon := p.lon + 0.0001, lat := p.lat + 0.0001)
  }

  /** The copies of the selected points, in point order, numbered from `firstId`. */
  function Clones(ps: seq<FeaturePoint>, sel: set<Id>, firstId: Id): (r: seq<FeaturePoint>)
    ensures |r| == |Filter(ps, sel, true)|
    ensures forall k :: 0 <= k < |r| ==> r[k] == Clone(Filter(ps, sel, true)[k], firstId + k)
  {
    var f := Filter(ps, sel, true);
    seq(|f|, k requires 0 <= k < |f| => Clone(f[k], firstId + k))
  }

  /** Concatenation is associative. */
  lemma AppendAssoc<T>(a: seq<T>, b: seq<T>, c: seq<T>)
    ensures (a + b) + c == a + (b + c)
  {
  }

  /** Cloning one more point of `ps` adds at most the clone of that point. */
  lemma ClonesStep(ps: seq<FeaturePoint>, i: nat, sel: set<Id>, firstId: Id)
    requires i < |ps|
    ensures ps[i].id in sel ==>
      Clones(ps[..i + 1], sel, firstId) == Clones(ps[..i], sel, firstId) + [Clone(ps[i], firstId + |Clones(ps[..i], sel, firstId)|)]
    ensures ps[i].id !in sel ==> Clones(ps[..i + 1], sel, firstId) == Clones(ps[..i], sel, firstId)
  {
    var q, p := ps[..i + 1], ps[i];
    assert q[..|q| - 1] == ps[..i] && q[|q| - 1] == p;
    var f, f' := Filter(ps[..i], sel, true), Filter(q, sel, true);
    assert f' == f + (if p.id in sel then [p] else []);
    var a := Clones(q, sel, firstId);
    var c := Clones(ps[..i], sel, firstId);
    var b := c + (if p.id in sel then [Clone(p, firstId + |c|)] else []);
    forall k | 0 <= k < |a|
      ensures a[k] == b[k]
    {
      if k < |c| {
        assert a[k] == Clone(f[k], firstId + k) == c[k];
      } else {
        assert f'[k] == p;
      }
    }
  }

  /** One more id in the range. */
  lemma IdRangeStep(first: Id, n: nat)
    ensures IdRange(first, n + 1) == IdRange(first, n) + {first + n}
  {
  }

  /** The ids `first`, ..., `first + n - 1`. */
  function IdRange(first: Id, n: nat): (r: set<Id>)
    ensures forall x :: x in r <==> first <= x < first + n
  {
    if n == 0 then {} else IdRange(first, n - 1) + {first + n - 1}
  }

  /** The ids of the points satisfying `f`. */
  function IdsWhere(ps: seq<FeaturePoint>, f: FeaturePoint -> bool): (r: set<Id>)
    ensures r <= Ids(ps)
    ensures forall i :: 0 <= i < |ps| && f(ps[i]) ==> ps[i].id in r
  {
    set i | 0 <= i < |ps| && f(ps[i]) :: ps[i].id
  }

  lemma IdsWhereSnoc(ps: seq<FeaturePoint>, f: FeaturePoint -> bool, i: nat)
    requires i < |ps|
    ensures IdsWhere(ps[..i + 1], f) == IdsWhere(ps[..i], f) + (if f(ps[i]) then {ps[i].id} else {})
  {
    var a, b := ps[..i + 1], ps[..i];
    assert forall j :: 0 <= j < i ==> a[j] == b[j];
  }

  // ---------------------------------------------------------------------------
  // Commands of the useFlightData hook

  /** Leaving translate or rotate mode for another mode puts back the points
      saved when the mode was entered. */
  predicate Restores(s: FlightState, mode: SelectionMode) {
    || (s.selectionMode == Translate && mode != Translate && s.pointsBeforeTranslate.Some?)
    || (s.selectionMode == Rotate && mode != Rotate && s.pointsBeforeRotate.Some?)
  }

  /** `setSelectionMode(mode)` as the hook writes it. The points saved on
      entering translate or rotate mode come back on leaving it, but the
      selection is kept as it is, so it can name points the restored list
      no longer has. */
  function SetSelectionModeAsWritten(s: FlightState, mode: SelectionMode): (r: FlightState)
    ensures r.selectionMode == mode && r.isDrawing == (mode == Polygon) && r.drawnPolygon == []
    ensures r.translationDelta == NoDelta && r.rotationCenter == None
    ensures r.pointsBeforeTranslate == (if mode == Translate && |s.selectedPoints| > 0 then Some(s.points) else None)
    ensures r.pointsBeforeRotate ==
      (if mode == Rotate && |s.selectedPoints| > 1 then Some(s.points) else None)
    ensures s.selectionMode == Translate && mode != Translate && s.pointsBeforeTranslate.Some? ==>
      r.points == s.pointsBeforeTranslate.value
    ensures s.selectionMode == Rotate && mode != Rotate && s.pointsBeforeRotate.Some? ==>
      r.points == s.pointsBeforeRotate.value
    ensures !Restores(s, mode) ==> r.points == s.points
    ensures r.selectedPoints == (if mode == Polygon then {} else s.selectedPoints)
    ensures r.attributeQuery == (if mode == Attribute then None else s.attributeQuery)
    ensures r.originalHeaders == s.originalHeaders && r.schema == s.schema
    ensures r.translationLock == s.translationLock && r.selectionAddMode == s.selectionAddMode
  {
    var pts :=
      if s.selectionMode == Rotate && mode != Rotate && s.pointsBeforeRotate.Some? then s.pointsBeforeRotate.value
      else if s.selectionMode == Translate && mode != Translate && s.pointsBeforeTranslate.Some? then s.pointsBeforeTranslate.value
      else s.points;
    var base := s.(points := pts, selectionMode := mode, isDrawing := mode == Polygon, drawnPolygon := [],
                   pointsBeforeTranslate := None, translationDelta := NoDelta, rotationCenter := None,
                   pointsBeforeRotate := None);
    if mode == Polygon then base.(selectedPoints := {})
    else if mode == Translate && |s.selectedPoints| > 0 then base.(pointsBeforeTranslate := Some(s.points))
    else if mode == Rotate && |s.selectedPoints| > 1 then base.(pointsBeforeRotate := Some(s.points))
    else if mode == Attribute then base.(attributeQuery := None)
    else base
  }

  /** `setSelectionMode(mode)` with the selection cut down to the points that
      are still there whenever saved points are put back. */
  function SetSelectionMode(s: FlightState, mode: SelectionMode): (r: FlightState)
    ensures Restores(s, mode) ==> r.selectedPoints == SetSelectionModeAsWritten(s, mode).selectedPoints * Ids(r.points)
    ensures !Restores(s, mode) ==> r == SetSelectionModeAsWritten(s, mode)
    ensures r.selectedPoints <= Ids(r.points) || !Restores(s, mode)
  {
    var w := SetSelectionModeAsWritten(s, mode);
    if Restores(s, mode) then w.(selectedPoints := w.selectedPoints * Ids(w.points)) else w
  }

  /** `cancelTranslation()` as the hook writes it: the saved points come back
      and the selection is kept as it is. */
  function CancelTranslationAsWritten(s: FlightState): (r: FlightState)
    ensures r.selectionMode == Single && r.selectedPoints == s.selectedPoints
    ensures s.pointsBeforeTranslate.Some? ==>
      r.points == s.pointsBeforeTranslate.value && r.pointsBeforeTranslate == None && r.translationDelta == NoDelta
    ensures s.pointsBeforeTranslate.None? ==> r == s.(selectionMode := Single)
    ensures r == s.(points := r.points, pointsBeforeTranslate := r.pointsBeforeTranslate,
                    translationDelta := r.translationDelta, selectionMode := Single)
  {
    match s.pointsBeforeTranslate
    case Some(saved) => s.(points := saved, pointsBeforeTranslate := None, translationDelta := NoDelta, selectionMode := Single)
    case None => s.(selectionMode := Single)
  }

  /** `cancelTranslation()` with the selection cut down to the restored points. */
  function CancelTranslation(s: FlightState): (r: FlightState)
    ensures s.pointsBeforeTranslate.Some? ==>
      r == CancelTranslationAsWritten(s).(selectedPoints := s.selectedPoints * Ids(s.pointsBeforeTranslate.value))
    ensures s.pointsBeforeTranslate.None? ==> r == CancelTranslationAsWritten(s)
    ensures s.pointsBeforeTranslate.Some? ==> r.selectedPoints <= Ids(r.points)
  {
    var w := CancelTranslationAsWritten(s);
    if s.pointsBeforeTranslate.Some? then w.(selectedPoints := s.selectedPoints * Ids(w.points)) else w
  }

  /** The closed ring handed to the point-in-polygon test: the drawn vertices
      and the first one again. */
  function Ring(poly: seq<LngLat>): (r: seq<LngLat>)
    requires |poly| >= 1
    ensures |r| == |poly| + 1 && r[0] == r[|poly|] == poly[0]
  {
    poly + [poly[0]]
  }

  /** The ids of the points the test `inside` places in `ring`. */
  function InsideIds(ps: seq<FeaturePoint>, ring: seq<LngLat>, inside: (LngLat, seq<LngLat>) -> bool): set<Id> {
    IdsWhere(ps, (p: FeaturePoint) => inside(LngLat(p.lon, p.lat), ring))
  }

  /** The `forEach` of `finishPolygonSelection` collecting the points inside. */
  method PointsInPolygon(ps: seq<FeaturePoint>, ring: seq<LngLat>, inside: (LngLat, seq<LngLat>) -> bool)
    returns (found: set<Id>)
    ensures found == InsideIds(ps, ring, inside)
  {
    found := {};
    var i := 0;
    while i < |ps|
      invariant 0 <= i <= |ps|
      invariant found == InsideIds(ps[..i], ring, inside)
    {
      if inside(LngLat(ps[i].lon, ps[i].lat), ring) {
        found := found + {ps[i].id};
      }
      IdsWhereSnoc(ps, (p: FeaturePoint) => inside(LngLat(p.lon, p.lat), ring), i);
      i := i + 1;
    }
    assert ps[..i] == ps;
  }

  /** `finishPolygonSelection()`: with fewer than three vertices drawing just
      stops; otherwise the points inside are selected (added to the selection
      in add mode) and the mode becomes batch-edit when anything is selected. */
  function FinishPolygonSelection(s: FlightState, inside: (LngLat, seq<LngLat>) -> bool): (r: FlightState)
    ensures !r.isDrawing && r.drawnPolygon == [] && r.points == s.points
    ensures |s.drawnPolygon| < 3 ==> r == s.(isDrawing := false, selectionMode := Single, drawnPolygon := [])
    ensures |s.drawnPolygon| >= 3 ==>
      var found := InsideIds(s.points, Ring(s.drawnPolygon), inside);
      && r.selectedPoints == (if s.selectionAddMode then s.selectedPoints + found else found)
      && r.selectionMode == (if r.selectedPoints != {} then BatchEdit else Single)
      && r == s.(selectedPoints := r.selectedPoints, selectionMode := r.selectionMode, isDrawing := false, drawnPolygon := [])
  {
    if |s.drawnPolygon| < 3 then s.(isDrawing := false, selectionMode := Single, drawnPolygon := [])
    else
      var found := InsideIds(s.points, Ring(s.drawnPolygon), inside);
      var sel := if s.selectionAddMode then s.selectedPoints + found else found;
      s.(selectedPoints := sel, drawnPolygon := [], isDrawing := false,
         selectionMode := if sel != {} then BatchEdit else Single)
  }

  /** The count `finishPolygonSelection` returns: how many points lie inside. */
  function PolygonHitCount(s: FlightState, inside: (LngLat, seq<LngLat>) -> bool): (n: nat)
    ensures |s.drawnPolygon| < 3 ==> n == 0
    ensures |s.drawnPolygon| >= 3 ==> n == |InsideIds(s.points, Ring(s.drawnPolygon), inside)|
    ensures n <= |Ids(s.points)|
  {
    if |s.drawnPolygon| < 3 then 0
    else
      var found := InsideIds(s.points, Ring(s.drawnPolygon), inside);
      assert found <= Ids(s.points);
      SubsetCard(found, Ids(s.points));
      |found|
  }

  lemma SubsetCard<T>(a: set<T>, b: set<T>)
    requires a <= b
    ensures |a| <= |b|
  {
    if a != {} {
      var x :| x in a;
      SubsetCard(a - {x}, b - {x});
    }
  }

  /** `togglePointSelection(id)`: in add mode the point joins the selection;
      otherwise it becomes the only selected point, unless it already was, in
      which case nothing stays selected. */
  function TogglePointSelection(s: FlightState, id: Id): (r: FlightState)
    ensures r == s.(selectedPoints := r.selectedPoints, selectionMode := Single)
    ensures s.selectionAddMode ==> r.selectedPoints == s.selectedPoints + {id}
    ensures !s.selectionAddMode && s.selectedPoints == {id} ==> r.selectedPoints == {}
    ensures !s.selectionAddMode && s.selectedPoints != {id} ==> r.selectedPoints == {id}
  {
    if s.selectionAddMode then s.(selectedPoints := s.selectedPoints + {id}, selectionMode := Single)
    else if |s.selectedPoints| == 1 && id in s.selectedPoints then
      SingletonIs(s.selectedPoints, id);
      s.(selectedPoints := {}, selectionMode := Single)
    else
      assert s.selectedPoints != {id};
      s.(selectedPoints := {id}, selectionMode := Single)
  }

  lemma SingletonIs<T>(a: set<T>, x: T)
    requires |a| == 1 && x in a
    ensures a == {x}
  {
    if a != {x} {
      var y :| y in a && y != x;
      assert {x, y} <= a;
      assert |{x, y}| == 2;
      SubsetCard({x, y}, a);
    }
  }

  /** `selectAll(select)` */
  function SelectAll(s: FlightState, select: bool): (r: FlightState)
    ensures select ==> r.selectedPoints == Ids(s.points) && r.selectionMode == All
    ensures !select ==> r.selectedPoints == {} && r.selectionMode == Single
    ensures r == s.(selectedPoints := r.selectedPoints, selectionMode := r.selectionMode)
  {
    if select then s.(selectedPoints := Ids(s.points), selectionMode := All)
    else s.(selectedPoints := {}, selectionMode := Single)
  }

  /** `clearSelection()`: nothing selected, single mode, add mode off. */
  function ClearSelection(s: FlightState): (r: FlightState)
    ensures r.selectedPoints == {} && r.selectionMode == Single && !r.selectionAddMode
    ensures r == s.(selectedPoints := r.selectedPoints, selectionMode := r.selectionMode,
                    selectionAddMode := r.selectionAddMode)
  {
    s.(selectedPoints := {}, selectionMode := Single, selectionAddMode := false)
  }

  /** The `forEach` of `duplicateSelectedPoints`: each selected point, in
      order, is copied to the end of the list under the next id of the
      supply starting at `firstId`, and the copies' ids are collected. */
  method DuplicateLoop(ps: seq<FeaturePoint>, sel: set<Id>, firstId: Id)
    returns (newPoints: seq<FeaturePoint>, newSelected: set<Id>, nextId: Id)
    ensures newPoints == ps + Clones(ps, sel, firstId)
    ensures nextId == firstId + |Clones(ps, sel, firstId)|
    ensures newSelected == IdRange(firstId, |Clones(ps, sel, firstId)|)
  {
    newPoints := ps;
    newSelected := {};
    nextId := firstId;
    var i := 0;
    ghost var clones: seq<FeaturePoint> := [];
    while i < |ps|
      invariant 0 <= i <= |ps|
      invariant clones == Clones(ps[..i], sel, firstId)
      invariant newPoints == ps + clones
      invariant nextId == firstId + |clones|
      invariant newSelected == IdRange(firstId, |clones|)
    {
      ClonesStep(ps, i, sel, firstId);
      if ps[i].id in sel {
        IdRangeStep(firstId, |clones|);
        AppendAssoc(ps, clones, [Clone(ps[i], nextId)]);
        newPoints := newPoints + [Clone(ps[i], nextId)];
        clones := clones + [Clone(ps[i], nextId)];
        newSelected := newSelected + {nextId};
        nextId := nextId + 1;
      }
      i := i + 1;
    }
    assert ps[..i] == ps;
  }


  /** `duplicateSelectedPoints()` with the ids `firstId`, `firstId + 1`, ...
      for the copies: the copies follow the existing points, which are kept
      as they were, and exactly the copies end up selected. */
  function DuplicateSelectedPoints(s: FlightState, firstId: Id): (r: FlightState)
    ensures |r.points| == |s.points| + |Filter(s.points, s.selectedPoints, true)|
    ensures r.points[..|s.points|] == s.points
    ensures forall k :: |s.points| <= k < |r.points| ==>
      r.points[k] == Clone(Filter(s.points, s.selectedPoints, true)[k - |s.points|], firstId + k - |s.points|)
    ensures r.selectedPoints == IdRange(firstId, |r.points| - |s.points|)
    ensures r == s.(points := r.points, selectedPoints := r.selectedPoints)
  {
    var c := Clones(s.points, s.selectedPoints, firstId);
    s.(points := s.points + c, selectedPoints := IdRange(firstId, |c|))
  }

  /** `deleteSelectedPoints()`: the unselected points remain, in order;
      nothing is selected and add mode is off. */
  function DeleteSelectedPoints(s: FlightState): (r: FlightState)
    ensures forall p :: p in r.points <==> p in s.points && p.id !in s.selectedPoints
    ensures r.selectedPoints == {} && !r.selectionAddMode
    ensures r == s.(points := r.points, selectedPoints := {}, selectionAddMode := false)
  {
    FilterMembers(s.points, s.selectedPoints, false);
    s.(points := Filter(s.points, s.selectedPoints, false), selectedPoints := {}, selectionAddMode := false)
  }

  /** `updatePoint(id, patch)`: the patch is spread onto every point with
      that id; every other point stays as it was. */
  function UpdatePoint(s: FlightState, id: Id, patch: PointPatch): (r: FlightState)
    requires patch.id.None? || patch.id == Some(id)
    ensures |r.points| == |s.points| && IdSeq(r.points) == IdSeq(s.points)
    ensures forall i :: 0 <= i < |s.points| ==>
      r.points[i] == if s.points[i].id == id then Spread(s.points[i], patch) else s.points[i]
    ensures r == s.(points := r.points)
  {
    s.(points := seq(|s.points|, i requires 0 <= i < |s.points| =>
         if s.points[i].id == id then Spread(s.points[i], patch) else s.points[i]))
  }

  /** What `updateSelectedPoints` does to one selected point: the patch's own
      keys are spread onto it, and its attributes are merged into the point's
      rather than replacing them. */
  function PatchSelected(p: FeaturePoint, patch: PointPatch): (r: FeaturePoint)
    requires patch.id.None?
    ensures r.id == p.id
    ensures patch.lat.Some? ==> r.lat == patch.lat.value
    ensures patch.lat.None? ==> r.lat == p.lat
    ensures patch.lon.Some? ==> r.lon == patch.lon.value
    ensures patch.lon.None? ==> r.lon == p.lon
    ensures r.alt == (if patch.alt.Some? then patch.alt else p.alt)
    ensures forall k :: k in r.props <==> k in p.props || k in patch.props
    ensures forall k :: k in patch.props ==> r.props[k] == patch.props[k]
    ensures forall k :: k in p.props && k !in patch.props ==> r.props[k] == p.props[k]
    ensures patch.attributes.Some? ==> r.attributes == p.attributes + patch.attributes.value
    ensures patch.attributes.None? ==> r.attributes == p.attributes
  {
    var q := Spread(p, patch.(attributes := None));
    if patch.attributes.Some? then q.(attributes := p.attributes + patch.attributes.value) else q
  }

  /** `updateSelectedPoints(patch)`: every selected point is patched, every
      other one is left alone. */
  function UpdateSelectedPoints(s: FlightState, patch: PointPatch): (r: FlightState)
    requires patch.id.None?
    ensures |r.points| == |s.points| && IdSeq(r.points) == IdSeq(s.points)
    ensures forall i :: 0 <= i < |s.points| && s.points[i].id !in s.selectedPoints ==> r.points[i] == s.points[i]
    ensures forall i :: 0 <= i < |s.points| && s.points[i].id in s.selectedPoints ==>
      r.points[i] == PatchSelected(s.points[i], patch)
    ensures r == s.(points := r.points)
  {
    s.(points := seq(|s.points|, i requires 0 <= i < |s.points| =>
         if s.points[i].id in s.selectedPoints then PatchSelected(s.points[i], patch) else s.points[i]))
  }

  /** `translateSelectedPoints(delta)`: only while a translation is under way
      (points saved); the selected points move by `delta` and the running
      total grows by it. */
  function TranslateSelectedPoints(s: FlightState, d: Delta): (r: FlightState)
    ensures s.pointsBeforeTranslate.None? ==> r == s
    ensures s.pointsBeforeTranslate.Some? ==>
      && r.points == Shifted(s.points, s.selectedPoints, d)
      && r.translationDelta == AddDelta(s.translationDelta, d)
      && r == s.(points := r.points, translationDelta := r.translationDelta)
  {
    if s.pointsBeforeTranslate.None? then s
    else s.(points := Shifted(s.points, s.selectedPoints, d), translationDelta := AddDelta(s.translationDelta, d))
  }

  /** `applyTranslation()`: the moved points stay; the saved copy and the
      running total are dropped and the mode returns to single. */
  function ApplyTranslation(s: FlightState): (r: FlightState)
    ensures r.points == s.points && r.selectedPoints == s.selectedPoints
    ensures r.pointsBeforeTranslate == None && r.translationDelta == NoDelta && r.selectionMode == Single
    ensures r == s.(pointsBeforeTranslate := r.pointsBeforeTranslate, translationDelta := r.translationDelta,
                    selectionMode := r.selectionMode)
  {
    s.(pointsBeforeTranslate := None, translationDelta := NoDelta, selectionMode := Single)
  }

  /** `setTranslationLock(axis, locked)`: that one axis flag changes. */
  function SetTranslationLock(s: FlightState, axis: LockAxis, locked: bool): (r: FlightState)
    ensures r == s.(translationLock := r.translationLock)
    ensures r.translationLock.lat == (if axis == LatAxis then locked else s.translationLock.lat)
    ensures r.translationLock.lon == (if axis == LonAxis then locked else s.translationLock.lon)
    ensures r.translationLock.alt == (if axis == AltAxis then locked else s.translationLock.alt)
  {
    match axis
    case LatAxis => s.(translationLock := s.translationLock.(lat := locked))
    case LonAxis => s.(translationLock := s.translationLock.(lon := locked))
    case AltAxis => s.(translationLock := s.translationLock.(alt := locked))
  }

  /** The delta that moves only along `axis`, by `amount`. */
  function AxisDelta(axis: DeltaAxis, amount: real): Delta {
    match axis
    case DLat => Delta(amount, 0.0, 0.0)
    case DLon => Delta(0.0, amount, 0.0)
    case DAlt => Delta(0.0, 0.0, amount)
  }

  /** `setTranslationValue(axis, value)`: while a translation is under way,
      the total along `axis` becomes `value`, and the selected points move by
      the difference so that they stay at the saved position plus the total. */
  function SetTranslationValue(s: FlightState, axis: DeltaAxis, value: real): (r: FlightState)
    ensures s.pointsBeforeTranslate.None? ==> r == s
    ensures s.pointsBeforeTranslate.Some? ==>
      && Component(r.translationDelta, axis) == value
      && (forall a :: a != axis ==> Component(r.translationDelta, a) == Component(s.translationDelta, a))
      && r.points == Shifted(s.points, s.selectedPoints, AxisDelta(axis, value - Component(s.translationDelta, axis)))
      && r == s.(points := r.points, translationDelta := r.translationDelta)
  {
    if s.pointsBeforeTranslate.None? then s
    else
      var change := value - Component(s.translationDelta, axis);
      var total := match axis
        case DLat => s.translationDelta.(dLat := value)
        case DLon => s.translationDelta.(dLon := value)
        case DAlt => s.translationDelta.(dAlt := value);
      s.(points := Shifted(s.points, s.selectedPoints, AxisDelta(axis, change)), translationDelta := total)
  }

  /** `String(x) === String(y)` */
  predicate SameText(x: Option<JsValue>, y: Option<JsValue>, show: real -> string) {
    Text(x, show) == Text(y, show)
  }

  /** Whether a point's attributes satisfy the query, operator by operator.
      The ordering operators compare numbers only; NaN satisfies none. */
  predicate Matches(attrs: Record, q: AttributeQuery, show: real -> string): (r: bool)
    ensures r && (q.operator == Gte || q.operator == Lte || q.operator == Between) ==>
      q.field in attrs && attrs[q.field].Num?
    ensures r && q.operator == In ==> q.values.Some? && q.values.value != {}
    ensures r && q.operator == Between ==> q.min.Some? && q.max.Some? && q.min.value <= q.max.value
  {
    var v := Get(attrs, q.field);
    match q.operator
    case Eq => SameText(v, q.value, show)
    case Neq => !SameText(v, q.value, show)
    case In => q.values.Some? && exists x :: x in q.values.value && SameText(Some(x), v, show)
    case Gte => v.Some? && v.value.Num? && q.value.Some? && q.value.value.Num? && v.value.n >= q.value.value.n
    case Lte => v.Some? && v.value.Num? && q.value.Some? && q.value.value.Num? && v.value.n <= q.value.value.n
    case Between => v.Some? && v.value.Num? && q.min.Some? && q.max.Some? && q.min.value <= v.value.n <= q.max.value
  }

  /** `neq` matches exactly where `eq` does not, and `between` is `gte` the
      minimum together with `lte` the maximum. */
  lemma MatchesLaws(attrs: Record, q: AttributeQuery, show: real -> string)
    ensures Matches(attrs, q.(operator := Neq), show) <==> !Matches(attrs, q.(operator := Eq), show)
    ensures q.min.Some? && q.max.Some? ==>
      (Matches(attrs, q.(operator := Between), show) <==>
        Matches(attrs, q.(operator := Gte, value := Some(Num(q.min.value))), show)
        && Matches(attrs, q.(operator := Lte, value := Some(Num(q.max.value))), show))
  {
  }

  /** The ids of the points whose attributes satisfy the query. */
  function MatchingIds(ps: seq<FeaturePoint>, q: AttributeQuery, show: real -> string): set<Id> {
    IdsWhere(ps, (p: FeaturePoint) => Matches(p.attributes, q, show))
  }

  /** The `forEach` of `applyAttributeSelection`: it starts from `base` and
      adds every matching point's id. */
  method CollectMatches(ps: seq<FeaturePoint>, q: AttributeQuery, show: real -> string, base: set<Id>)
    returns (ids: set<Id>)
    ensures ids == base + MatchingIds(ps, q, show)
  {
    ids := base;
    var i := 0;
    while i < |ps|
      invariant 0 <= i <= |ps|
      invariant ids == base + MatchingIds(ps[..i], q, show)
    {
      if Matches(ps[i].attributes, q, show) {
        ids := ids + {ps[i].id};
      }
      IdsWhereSnoc(ps, (p: FeaturePoint) => Matches(p.attributes, q, show), i);
      i := i + 1;
    }
    assert ps[..i] == ps;
  }

  /** `applyAttributeSelection()`: without a query nothing happens; otherwise
      the matching points are selected (added in add mode), the query is
      consumed and the mode is batch-edit exactly when something is selected. */
  function ApplyAttributeSelection(s: FlightState, show: real -> string): (r: FlightState)
    ensures s.attributeQuery.None? ==> r == s
    ensures s.attributeQuery.Some? ==>
      var found := MatchingIds(s.points, s.attributeQuery.value, show);
      && r.selectedPoints == (if s.selectionAddMode then s.selectedPoints + found else found)
      && r.attributeQuery == None
      && r.selectionMode == (if r.selectedPoints != {} then BatchEdit else Single)
      && r == s.(selectedPoints := r.selectedPoints, attributeQuery := None, selectionMode := r.selectionMode)
  {
    match s.attributeQuery
    case None => s
    case Some(q) =>
      var found := MatchingIds(s.points, q, show);
      var sel := if s.selectionAddMode then s.selectedPoints + found else found;
      s.(selectedPoints := sel, attributeQuery := None, selectionMode := if sel != {} then BatchEdit else Single)
  }

  /** `applyBatchSelection(ids)`: an empty request changes nothing; otherwise
      the requested ids that name existing points are selected (added in add
      mode) and the mode becomes batch-edit. */
  function ApplyBatchSelection(s: FlightState, ids: set<Id>): (r: FlightState)
    ensures ids == {} ==> r == s
    ensures ids != {} ==>
      && r.selectedPoints == (if s.selectionAddMode then s.selectedPoints + (ids * Ids(s.points)) else ids * Ids(s.points))
      && r.selectionMode == BatchEdit
      && r == s.(selectedPoints := r.selectedPoints, selectionMode := BatchEdit)
  {
    if ids == {} then s
    else
      var valid := ids * Ids(s.points);
      s.(selectedPoints := if s.selectionAddMode then s.selectedPoints + valid else valid, selectionMode := BatchEdit)
  }

  /** `rotateSelectedPoints(angle)`: only once a pivot is set; each selected
      point is moved to `rotate(point, angle, pivot)` in longitude and
      latitude, every other field and point left alone. */
  function RotateSelectedPoints(s: FlightState, angle: real, rotate: (LonLat, real, LonLat) -> LonLat): (r: FlightState)
    ensures s.rotationCenter.None? ==> r == s
    ensures |r.points| == |s.points| && IdSeq(r.points) == IdSeq(s.points)
    ensures s.rotationCenter.Some? ==>
      && (forall i :: 0 <= i < |s.points| && s.points[i].id !in s.selectedPoints ==> r.points[i] == s.points[i])
      && (forall i :: 0 <= i < |s.points| && s.points[i].id in s.selectedPoints ==>
            var q := rotate(LonLat(s.points[i].lon, s.points[i].lat), angle, s.rotationCenter.value);
            r.points[i] == s.points[i].(lon := q.lon, lat := q.lat))
      && r == s.(points := r.points)
  {
    match s.rotationCenter
    case None => s
    case Some(pivot) =>
      s.(points := seq(|s.points|, i requires 0 <= i < |s.points| =>
           if s.points[i].id in s.selectedPoints then
             var q := rotate(LonLat(s.points[i].lon, s.points[i].lat), angle, pivot);
             s.points[i].(lon := q.lon, lat := q.lat)
           else s.points[i]))
  }

  /** `applyRotation()`: only while rotating (points saved): the rotated
      points stay, the saved copy and the pivot are dropped. */
  function ApplyRotation(s: FlightState): (r: FlightState)
    ensures s.pointsBeforeRotate.None? ==> r == s
    ensures s.pointsBeforeRotate.Some? ==>
      && r.points == s.points && r.pointsBeforeRotate == None && r.rotationCenter == None && r.selectionMode == Single
      && r == s.(pointsBeforeRotate := None, rotationCenter := None, selectionMode := Single)
  {
    if s.pointsBeforeRotate.None? then s
    else s.(pointsBeforeRotate := None, rotationCenter := None, selectionMode := Single)
  }

  /** `reverseFlightPoints()`: the flight order is reversed; lists shorter
      than two are left alone. */
  function ReverseFlightPoints(s: FlightState): (r: FlightState)
    ensures |s.points| < 2 ==> r == s
    ensures |r.points| == |s.points|
    ensures forall i :: 0 <= i < |s.points| ==> r.points[i] == s.points[|s.points| - 1 - i]
    ensures r == s.(points := r.points)
  {
    if |s.points| < 2 then s else s.(points := Reverse(s.points))
  }

  // ---------------------------------------------------------------------------
  // The equality the history store dedupes with

  /** What `JSON.stringify` keeps of a state: a `Set` serialises as `{}`, so
      the selection and the schema's unique-value sets are invisible to it. */
  function JsonView(s: FlightState): (v: FlightState)
    ensures v == s.(selectedPoints := {}, schema := v.schema)
    ensures |v.schema.fields| == |s.schema.fields|
    ensures forall i :: 0 <= i < |s.schema.fields| ==>
      v.schema.fields[i].name == s.schema.fields[i].name && v.schema.fields[i].fieldType == s.schema.fields[i].fieldType
      && v.schema.fields[i].stats.min == s.schema.fields[i].stats.min
      && v.schema.fields[i].stats.max == s.schema.fields[i].stats.max
      && v.schema.fields[i].stats.uniqueValues == {}
  {
    s.(selectedPoints := {},
       schema := DatasetSchema(seq(|s.schema.fields|, i requires 0 <= i < |s.schema.fields| =>
         s.schema.fields[i].(stats := s.schema.fields[i].stats.(uniqueValues := {})))))
  }

  /** `JSON.stringify(a) === JSON.stringify(b)` */
  predicate JsonEqual(a: FlightState, b: FlightState): (r: bool)
    ensures r ==> a.points == b.points && a.pointsBeforeTranslate == b.pointsBeforeTranslate
                  && a.pointsBeforeRotate == b.pointsBeforeRotate && a.selectionMode == b.selectionMode
                  && a.attributeQuery == b.attributeQuery && a.originalHeaders == b.originalHeaders
    ensures a.(selectedPoints := b.selectedPoints) == b ==> r
  {
    JsonView(a) == JsonView(b)
  }
}
