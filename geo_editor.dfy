/** The editor screens (src/components/GeoEditor.tsx and its simpler variant
    src/components/core/GeoEditor.tsx): keyboard, click and drag events become
    session commands, an import resets the history, an export is refused for
    an empty plan, the view mode cycles, and the offline-tile code fills in
    tile URL templates. Map rendering, hit-testing and toasts are not part of
    this model: a click arrives with the id of the point under it, if any. */
module GeoEditor {
  import opened Types
  import opened Strings
  import opened FlightData
  import FlightProperties
  import CsvHelpers

  /** The session commands the screens issue. */
  datatype Command =
    | SetMode(mode: SelectionMode)
    | Cancel
    | UndoStep
    | RedoStep
    | DeleteSelected
    | Toggle(id: Id)
    | ClearAll
    | AddVertex(at: LngLat)
    | SetPivot(pivot: LonLat)
    | TranslateBy(d: Delta)
    | RotateBy(angle: real)
    | CommitRotation

  // ---------------------------------------------------------------------------
  // Keyboard

  datatype KeyEvent = KeyEvent(key: string, ctrl: bool, meta: bool)

  /** The `keydown` handler. Escape leaves polygon drawing, cancels a
      translation and, on the full screen (`rotateEscape`), leaves rotate mode;
      Ctrl/Cmd+Z undoes, Ctrl/Cmd+Y redoes, and Delete deletes only when
      something is selected. */
  function KeyCommands(s: FlightState, e: KeyEvent, rotateEscape: bool): (cmds: seq<Command>)
    ensures |cmds| <= 1
    ensures e.key == "Escape" && s.isDrawing ==> cmds == [SetMode(Single)]
    ensures e.key == "Escape" && !s.isDrawing && s.selectionMode == Translate ==> cmds == [Cancel]
    ensures e.key == "Escape" && !s.isDrawing && s.selectionMode == Rotate ==>
      cmds == (if rotateEscape then [SetMode(Single)] else [])
    ensures UndoStep in cmds <==> (e.ctrl || e.meta) && e.key == "z"
    ensures RedoStep in cmds <==> (e.ctrl || e.meta) && e.key == "y"
    ensures DeleteSelected in cmds <==> e.key == "Delete" && |s.selectedPoints| > 0
    ensures e.key !in {"Escape", "z", "y", "Delete"} ==> cmds == []
  {
    var escape :=
      if e.key != "Escape" then []
      else if s.isDrawing then [SetMode(Single)]
      else if s.selectionMode == Translate then [Cancel]
      else if s.selectionMode == Rotate && rotateEscape then [SetMode(Single)]
      else [];
    var undo := if (e.ctrl || e.meta) && e.key == "z" then [UndoStep] else [];
    var redo := if (e.ctrl || e.meta) && e.key == "y" then [RedoStep] else [];
    var delete := if e.key == "Delete" && |s.selectedPoints| > 0 then [DeleteSelected] else [];
    escape + undo + redo + delete
  }

  /** Escape during a translation puts back the points from before it. */
  lemma EscapeRevertsTranslation(s: FlightState, rotateEscape: bool)
    requires s.selectionMode == Translate && !s.isDrawing && s.pointsBeforeTranslate.Some?
    ensures KeyCommands(s, KeyEvent("Escape", false, false), rotateEscape) == [Cancel]
    ensures CancelTranslation(s).points == s.pointsBeforeTranslate.value
    ensures CancelTranslation(s).selectionMode == Single
  {
  }

  /** Escape during a rotation: the full screen leaves rotate mode, which puts
      back the points from before the rotation; the simpler screen ignores it. */
  lemma EscapeRevertsRotation(s: FlightState)
    requires s.selectionMode == Rotate && !s.isDrawing && s.pointsBeforeRotate.Some?
    ensures KeyCommands(s, KeyEvent("Escape", false, false), true) == [SetMode(Single)]
    ensures SetSelectionMode(s, Single).points == s.pointsBeforeRotate.value
    ensures KeyCommands(s, KeyEvent("Escape", false, false), false) == []
  {
  }

  // ---------------------------------------------------------------------------
  // Clicks

  /** A map click: where it landed and the id of the point feature under it. */
  datatype Click = Click(at: LngLat, hit: Option<Id>)

  /** `handleMapClick` of the full screen. Ignored mid-drag. In single mode a
      hit toggles that point and a miss clears the selection unless add-mode
      is on; otherwise a click adds a polygon vertex while drawing, or sets
      the pivot in rotate mode when there is none yet. */
  function MapClick(s: FlightState, translating: bool, c: Click): (cmds: seq<Command>)
    ensures translating ==> cmds == []
    ensures !translating && s.selectionMode == Single ==>
      cmds == (if c.hit.Some? then [Toggle(c.hit.value)] else if s.selectionAddMode then [] else [ClearAll])
    ensures !translating && s.selectionMode != Single && s.isDrawing ==> cmds == [AddVertex(c.at)]
    ensures !translating && s.selectionMode == Rotate && !s.isDrawing && s.rotationCenter.None? ==>
      cmds == [SetPivot(LonLat(c.at.lng, c.at.lat))]
    ensures |cmds| <= 1
  {
    if translating then []
    else if s.selectionMode == Single then
      if c.hit.Some? then [Toggle(c.hit.value)] else if s.selectionAddMode then [] else [ClearAll]
    else if s.isDrawing then [AddVertex(c.at)]
    else if s.selectionMode == Rotate && s.rotationCenter.None? then [SetPivot(LonLat(c.at.lng, c.at.lat))]
    else []
  }

  /** `handlePointClick` of the simpler screen: a point toggles unless a
      polygon is being drawn. Its map panel receives this handler but never
      attaches it, so as written nothing calls it (see `CoreClickOnPoint`). */
  function CorePointClick(s: FlightState, id: Id): (cmds: seq<Command>)
    ensures cmds == (if s.isDrawing then [] else [Toggle(id)])
  {
    if s.isDrawing then [] else [Toggle(id)]
  }

  /** `handleMapClick` of the simpler screen, the only click handler its map
      panel attaches: ignored mid-drag and on a point (it leaves points to a
      handler that is never attached); on empty map a single-mode selection
      is cleared, and while drawing the click also adds a vertex. */
  function CoreMapClick(s: FlightState, translating: bool, c: Click): (cmds: seq<Command>)
    ensures translating || c.hit.Some? ==> cmds == []
    ensures !translating && c.hit.None? ==>
      && (ClearAll in cmds <==> s.selectionMode == Single && |s.selectedPoints| > 0)
      && (AddVertex(c.at) in cmds <==> s.isDrawing)
      && |cmds| <= 2
  {
    if translating || c.hit.Some? then []
    else
      (if s.selectionMode == Single && |s.selectedPoints| > 0 then [ClearAll] else [])
      + (if s.isDrawing then [AddVertex(c.at)] else [])
  }

  /** As written, a click on a point of the simpler screen issues no command
      at all: only `handleMapClick` is attached, and it ignores feature hits.
      So such a click never selects the point it lands on. */
  lemma CoreClickOnPoint(s: FlightState, translating: bool, c: Click)
    ensures c.hit.Some? ==> CoreMapClick(s, translating, c) == []
  {
  }

  /** The simpler screen's click as intended: a click on a point reaches
      `handlePointClick` (which stops it from reaching the map handler), and
      any other click reaches `handleMapClick`. */
  function CoreClick(s: FlightState, translating: bool, c: Click): (cmds: seq<Command>)
    ensures c.hit.Some? && !s.isDrawing ==> cmds == [Toggle(c.hit.value)]
    ensures c.hit.Some? && s.isDrawing ==> cmds == []
    ensures c.hit.None? && translating ==> cmds == []
    ensures c.hit.None? && !translating ==>
      && (ClearAll in cmds <==> s.selectionMode == Single && |s.selectedPoints| > 0)
      && (AddVertex(c.at) in cmds <==> s.isDrawing)
  {
    if c.hit.Some? then CorePointClick(s, c.hit.value) else CoreMapClick(s, translating, c)
  }

  /** With the intended wiring, outside drawing a click on an unselected
      point selects it, as on the full screen. */
  lemma CoreClickSelects(s: FlightState, translating: bool, c: Click)
    ensures c.hit.Some? && !s.isDrawing ==> |CoreClick(s, translating, c)| == 1
    ensures c.hit.Some? && !s.isDrawing && c.hit.value !in s.selectedPoints ==>
      && c.hit.value in ApplyClick(s, CoreClick(s, translating, c)[0]).selectedPoints
      && ApplyClick(s, CoreClick(s, translating, c)[0]).selectionMode == Single
    ensures c.hit.Some? && !s.isDrawing && s.selectionAddMode ==>
      ApplyClick(s, CoreClick(s, translating, c)[0]).selectedPoints == s.selectedPoints + {c.hit.value}
  {
  }

  /** The commands a click can issue, applied to the state. */
  predicate ClickCommand(cmd: Command) {
    cmd.Toggle? || cmd.ClearAll? || cmd.AddVertex? || cmd.SetPivot?
  }

  function ApplyClick(s: FlightState, cmd: Command): (r: FlightState)
    requires ClickCommand(cmd)
    ensures r.points == s.points && r.pointsBeforeTranslate == s.pointsBeforeTranslate
    ensures r.pointsBeforeRotate == s.pointsBeforeRotate
  {
    match cmd
    case Toggle(id) => TogglePointSelection(s, id)
    case ClearAll => ClearSelection(s)
    case AddVertex(at) => s.(drawnPolygon := s.drawnPolygon + [at])
    case SetPivot(p) => s.(rotationCenter := Some(p))
  }

  /** Clicks only ever select, draw or place the pivot: no click, on either
      screen, moves, adds or removes a point. */
  lemma ClicksKeepPoints(s: FlightState, translating: bool, c: Click)
    ensures forall cmd :: cmd in MapClick(s, translating, c) ==> ClickCommand(cmd) && ApplyClick(s, cmd).points == s.points
    ensures forall cmd :: cmd in CoreMapClick(s, translating, c) ==> ClickCommand(cmd) && ApplyClick(s, cmd).points == s.points
    ensures forall id, cmd :: cmd in CorePointClick(s, id) ==> ClickCommand(cmd) && ApplyClick(s, cmd).points == s.points
    ensures forall cmd :: cmd in CoreClick(s, translating, c) ==> ClickCommand(cmd) && ApplyClick(s, cmd).points == s.points
  {
  }

  // ---------------------------------------------------------------------------
  // Dragging

  const AltitudeSensitivity: real := 0.5
  const RotationSensitivity: real := 0.5

  /** The delta one mouse move sends while translating: the pointer's
      movement since the last tick, with the locked axes zeroed, and a climb
      proportional to the vertical mouse movement. */
  function TickDelta(from: LngLat, to: LngLat, movementY: real, lock: Lock): Delta {
    Delta(if lock.lat then 0.0 else to.lat - from.lat,
          if lock.lon then 0.0 else to.lng - from.lng,
          if lock.alt then 0.0 else -movementY * AltitudeSensitivity)
  }

  /** The mouse-down, mouse-move and mouse-up handlers with the refs they
      update. `rotation` is whether the screen has the rotate tool (the
      simpler one does not). Ghost fields record where the drag started, the
      lock it started with, whether every tick so far used that lock, the
      total sent so far and the climb requested. */
  class DragController {
    const rotation: bool
    var translating: bool
    var rotating: bool
    var dragStart: Option<LngLat>
    ghost var origin: LngLat
    ghost var lock: Lock
    ghost var steady: bool
    ghost var sent: Delta
    ghost var climb: real

    /** During a translate drag the origin of the next tick is known, and as
        long as the lock has not changed the deltas sent so far add up to
        the pointer's displacement since mouse-down on every unlocked axis. */
    ghost predicate Valid()
      reads this
    {
      translating ==>
        && dragStart.Some?
        && (steady ==> sent == Delta(if lock.lat then 0.0 else dragStart.value.lat - origin.lat,
                                     if lock.lon then 0.0 else dragStart.value.lng - origin.lng,
                                     if lock.alt then 0.0 else climb))
    }

    constructor (rotation: bool)
      ensures Valid() && this.rotation == rotation
      ensures !translating && !rotating && dragStart.None?
    {
      this.rotation := rotation;
      translating := false;
      rotating := false;
      dragStart := None;
      origin := LngLat(0.0, 0.0);
      lock := Lock(false, false, false);
      steady := true;
      sent := NoDelta;
      climb := 0.0;
    }

    /** `handleMapMouseDown`: a translate drag starts only in translate mode
        with something selected; a rotate drag only in rotate mode with a
        pivot placed. */
    method MouseDown(s: FlightState, at: LngLat)
      requires Valid()
      modifies this
      ensures Valid()
      ensures s.selectionMode == Translate && |s.selectedPoints| > 0 ==>
        && translating && dragStart == Some(at) && rotating == old(rotating)
        && sent == NoDelta && origin == at && lock == s.translationLock && steady
      ensures !(s.selectionMode == Translate && |s.selectedPoints| > 0) ==>
        && translating == old(translating) && dragStart == old(dragStart)
        && rotating == (old(rotating) || (rotation && s.selectionMode == Rotate && s.rotationCenter.Some?))
    {
      if s.selectionMode == Translate && |s.selectedPoints| > 0 {
        translating := true;
        dragStart := Some(at);
        origin := at;
        lock := s.translationLock;
        steady := true;
        sent := NoDelta;
        climb := 0.0;
      } else if rotation && s.selectionMode == Rotate && s.rotationCenter.Some? {
        rotating := true;
      }
    }

    /** `handleMapMouseMove`: a translate drag sends the delta since the last
        tick and moves its origin to the pointer; a rotate drag sends an angle
        proportional to the horizontal movement. */
    method MouseMove(s: FlightState, at: LngLat, movementX: real, movementY: real) returns (cmds: seq<Command>)
      requires Valid()
      modifies this
      ensures Valid()
      ensures translating == old(translating) && rotating == old(rotating)
      ensures origin == old(origin) && lock == old(lock)
      ensures old(translating) ==>
        && cmds == [TranslateBy(TickDelta(old(dragStart).value, at, movementY, s.translationLock))]
        && dragStart == Some(at)
        && steady == (old(steady) && s.translationLock == lock)
      ensures old(translating) && steady ==>
        && sent.dLat == (if lock.lat then 0.0 else at.lat - origin.lat)
        && sent.dLon == (if lock.lon then 0.0 else at.lng - origin.lng)
      ensures !old(translating) ==> dragStart == old(dragStart)
      ensures !old(translating) && rotating && s.rotationCenter.Some? ==>
        cmds == [RotateBy(movementX * RotationSensitivity)]
      ensures !old(translating) && !(rotating && s.rotationCenter.Some?) ==> cmds == []
    {
      if translating {
        var d := TickDelta(dragStart.value, at, movementY, s.translationLock);
        cmds := [TranslateBy(d)];
        dragStart := Some(at);
        steady := steady && s.translationLock == lock;
        sent := AddDelta(sent, d);
        climb := climb - movementY * AltitudeSensitivity;
      } else if rotating && s.rotationCenter.Some? {
        cmds := [RotateBy(movementX * RotationSensitivity)];
      } else {
        cmds := [];
      }
    }

    /** `handleMapMouseUp`: a translate drag just ends (the moved points stay
        uncommitted); a rotate drag ends by committing the rotation. */
    method MouseUp() returns (cmds: seq<Command>)
      requires Valid()
      modifies this
      ensures Valid() && !translating && !rotating
      ensures dragStart == if old(translating) then None else old(dragStart)
      ensures cmds == if old(rotating) then [CommitRotation] else []
    {
      if translating {
        translating := false;
        dragStart := None;
      }
      cmds := [];
      if rotating {
        rotating := false;
        cmds := [CommitRotation];
      }
    }

    /** The click handler of the full screen, which ignores clicks mid-drag. */
    function Click(s: FlightState, c: Click): seq<Command>
      reads this
    {
      MapClick(s, translating, c)
    }
  }

  /** One mouse move of a drag. */
  datatype Move = Move(at: LngLat, movementY: real)

  /** The deltas a translate drag from `from` along `path` sends. */
  function DragTicks(from: LngLat, path: seq<Move>, lock: Lock): (ds: seq<Delta>)
    ensures |ds| == |path|
    decreases |path|
  {
    if path == [] then []
    else [TickDelta(from, path[0].at, path[0].movementY, lock)] + DragTicks(path[0].at, path[1..], lock)
  }

  function SumDeltas(ds: seq<Delta>): Delta
    decreases |ds|
  {
    if ds == [] then NoDelta else AddDelta(ds[0], SumDeltas(ds[1..]))
  }

  /** Where the pointer is after the path. */
  function End(from: LngLat, path: seq<Move>): LngLat {
    if path == [] then from else path[|path| - 1].at
  }

  function Climb(path: seq<Move>): real
    decreases |path|
  {
    if path == [] then 0.0 else -path[0].movementY * AltitudeSensitivity + Climb(path[1..])
  }

  /** The ticks of a drag telescope: whatever the path, they add up to the
      displacement from the start to the end of the drag on every unlocked
      axis, and to the requested climb in altitude. */
  lemma {:induction false} DragTelescopes(from: LngLat, path: seq<Move>, lock: Lock)
    ensures SumDeltas(DragTicks(from, path, lock)) ==
      Delta(if lock.lat then 0.0 else End(from, path).lat - from.lat,
            if lock.lon then 0.0 else End(from, path).lng - from.lng,
            if lock.alt then 0.0 else Climb(path))
    decreases |path|
  {
    if path != [] {
      DragTelescopes(path[0].at, path[1..], lock);
      assert End(path[0].at, path[1..]) == End(from, path);
    }
  }

  function Moves(ds: seq<Delta>): (ts: seq<FlightProperties.Tick>)
    ensures |ts| == |ds|
    decreases |ds|
  {
    if ds == [] then [] else [FlightProperties.Move(ds[0])] + Moves(ds[1..])
  }

  /** Applying drag ticks during a translation adds their sum to the running total. */
  lemma {:induction false} RunMovesAdds(s: FlightState, ds: seq<Delta>)
    requires s.pointsBeforeTranslate.Some?
    ensures FlightProperties.Run(s, Moves(ds)).translationDelta == AddDelta(s.translationDelta, SumDeltas(ds))
    decreases |ds|
  {
    if ds != [] {
      var s1 := TranslateSelectedPoints(s, ds[0]);
      assert FlightProperties.Run(s, Moves(ds)) == FlightProperties.Run(s1, Moves(ds[1..]));
      RunMovesAdds(s1, ds[1..]);
    }
  }

  /** A whole translate drag, tick by tick: the selected points end up at
      their saved position moved by exactly the drag's displacement on the
      unlocked axes (plus whatever total there was before), whatever path
      the pointer took. */
  lemma DragMovesByDisplacement(s: FlightState, from: LngLat, path: seq<Move>)
    requires FlightProperties.Tracks(s)
    ensures var r := FlightProperties.Run(s, Moves(DragTicks(from, path, s.translationLock)));
      && r.points == Shifted(s.pointsBeforeTranslate.value, s.selectedPoints, r.translationDelta)
      && r.translationDelta == AddDelta(s.translationDelta,
           Delta(if s.translationLock.lat then 0.0 else End(from, path).lat - from.lat,
                 if s.translationLock.lon then 0.0 else End(from, path).lng - from.lng,
                 if s.translationLock.alt then 0.0 else Climb(path)))
  {
    var ds := DragTicks(from, path, s.translationLock);
    FlightProperties.RunTracks(s, Moves(ds));
    RunMovesAdds(s, ds);
    DragTelescopes(from, path, s.translationLock);
  }

  // ---------------------------------------------------------------------------
  // Import, export, view mode

  /** The state `handleImportSubmit` resets the history to on the full screen:
      the parsed points, headers and schema, and nothing selected, drawn,
      saved, locked, queried or pivoted. */
  function ImportState(points: seq<FeaturePoint>, headers: seq<string>, schema: DatasetSchema): (s: FlightState)
    ensures s.points == points && s.originalHeaders == headers && s.schema == schema
    ensures s.selectedPoints == {} && s.selectionMode == Single && !s.selectionAddMode
    ensures s.pointsBeforeTranslate.None? && s.pointsBeforeRotate.None?
    ensures s.rotationCenter.None? && s.attributeQuery.None? && !s.isDrawing && s.drawnPolygon == []
    ensures s.translationDelta == NoDelta && s.translationLock == Lock(false, false, false)
  {
    FlightState(points, {}, headers, false, [], Single, Lock(false, false, false), NoDelta,
                None, schema, None, None, None, false)
  }

  /** The simpler screen's reset names only the first nine fields; the rest
      are left undefined, which reads as no schema fields, no query, no pivot,
      no rotation and add-mode off. */
  function CoreImportState(points: seq<FeaturePoint>, headers: seq<string>): (s: FlightState)
    ensures s == ImportState(points, headers, DatasetSchema([]))
  {
    FlightState(points, {}, headers, false, [], Single, Lock(false, false, false), NoDelta,
                None, DatasetSchema([]), None, None, None, false)
  }

  /** An import: a parse error leaves the history alone; a parsed file gives
      the state to reset it to. */
  function ImportOutcome(o: CsvHelpers.ParseOutcome, core: bool): (r: Option<FlightState>)
    ensures r.Some? <==> o.Parsed?
    ensures o.Parsed? ==> r.value.points == o.points && r.value.originalHeaders == o.headers
  {
    match o
    case Parsed(points, headers, schema) =>
      Some(if core then CoreImportState(points, headers) else ImportState(points, headers, schema))
    case _ => None
  }

  /** The state an import resets to satisfies the session invariant, with the
      ids handed to the parsed points as the new bound, so it can be given to
      `FlightSession.ResetHistory`. */
  lemma ImportCoherent(headers: seq<string>, rows: seq<CsvHelpers.CsvRow>, m: CsvHelpers.Mapping,
                       num: Numeric, firstId: Id, core: bool)
    requires CsvHelpers.ParseCsv(headers, rows, m, num, firstId).Parsed?
    ensures var o := CsvHelpers.ParseCsv(headers, rows, m, num, firstId);
      Coherent(ImportOutcome(o, core).value, firstId + |o.points|)
  {
    var o := CsvHelpers.ParseCsv(headers, rows, m, num, firstId);
    assert forall k :: 0 <= k < |o.points| ==> o.points[k].id == firstId + k;
  }

  /** `handleExport`: refused with no points, otherwise the rows of
      `generateCsv` for the points under the imported headers. */
  function Export(s: FlightState): (r: Option<seq<seq<Option<JsValue>>>>)
    ensures r.None? <==> |s.points| == 0
    ensures r.Some? ==> (|r.value| == |s.points|
      && forall k :: 0 <= k < |s.points| ==> r.value[k] == CsvHelpers.ExportRow(s.points[k], s.originalHeaders))
  {
    if |s.points| == 0 then None else Some(CsvHelpers.GenerateCsv(s.points, s.originalHeaders))
  }

  /** `handleToggleViewMode` */
  function NextViewMode(v: ViewMode): (r: ViewMode)
    ensures r != v
  {
    match v
    case SideBySide => MapOnly
    case MapOnly => AttributesOnly
    case AttributesOnly => SideBySide
  }

  /** Three presses come back to the same view, and two do not. */
  lemma ViewModeCycle(v: ViewMode)
    ensures NextViewMode(NextViewMode(NextViewMode(v))) == v
    ensures NextViewMode(NextViewMode(v)) != v
  {
  }

  // ---------------------------------------------------------------------------
  // Tile URL templates

  function Pow2(k: nat): (r: nat)
    ensures r >= 1
  {
    if k == 0 then 1 else 2 * Pow2(k - 1)
  }

  /** `1 << z` in JavaScript: the shift count is taken modulo 32 and the
      result is a signed 32-bit integer, so `1 << 31` is negative and
      `1 << 32` is 1 again. */
  function ShiftLeft32(z: int): (r: int)
    ensures 0 <= z % 32 < 31 ==> r == Pow2(z % 32)
    ensures z % 32 == 31 ==> r < 0
  {
    var k := z % 32;
    if k == 31 then -0x8000_0000 else Pow2(k)
  }

  /** The `y` written for `{-y}`: the row counted from the bottom (TMS), as
      the template asks; the plain row otherwise. */
  function FlipY(tpl: string, z: int, y: int): int {
    if Contains(tpl, "{-y}") then ShiftLeft32(z) - 1 - y else y
  }

  /** `replaceTemplate(tpl, z, x, y)`: the first `{z}`, `{x}`, `{y}` and
      `{-y}` are replaced, in that order, by the decimal numbers. */
  function ReplaceTemplate(tpl: string, z: int, x: int, y: int): (url: string)
    ensures !Contains(tpl, "{z}") && !Contains(tpl, "{x}") && !Contains(tpl, "{y}") && !Contains(tpl, "{-y}") ==>
      url == tpl
  {
    var a := ReplaceFirst(tpl, "{z}", IntText(z));
    var b := ReplaceFirst(a, "{x}", IntText(x));
    var c := ReplaceFirst(b, "{y}", IntText(y));
    ReplaceFirst(c, "{-y}", IntText(FlipY(tpl, z, y)))
  }

  /** Text without `{`: no placeholder can begin inside it. */
  predicate NoBrace(s: string) {
    forall i :: 0 <= i < |s| ==> s[i] != '{'
  }

  lemma NoBraceConcat(u: string, v: string)
    requires NoBrace(u) && NoBrace(v)
    ensures NoBrace(u + v)
  {
    forall i | 0 <= i < |u + v|
      ensures (u + v)[i] != '{'
    {
      if i >= |u| {
        assert (u + v)[i] == v[i - |u|];
      }
    }
  }

  /** A decimal number is written with digits and perhaps a minus sign. */
  lemma IntTextNoBrace(i: int)
    ensures NoBrace(IntText(i))
  {
    if i < 0 {
      var t := NatText(-i);
      forall k | 0 <= k < |"-" + t|
        ensures ("-" + t)[k] != '{'
      {
        if k > 0 {
          assert ("-" + t)[k] == t[k - 1];
        }
      }
    }
  }

  /** A placeholder that follows brace-free text is replaced right there. */
  lemma ReplaceAfter(p: string, pat: string, q: string, rep: string)
    requires NoBrace(p) && |pat| > 0 && pat[0] == '{'
    ensures ReplaceFirst(p + pat + q, pat, rep) == p + rep + q
  {
    var s := p + pat + q;
    assert s[|p|..|p| + |pat|] == pat;
    assert OccursAt(s, pat, |p|);
    forall j | 0 <= j < |p| && j + |pat| <= |s|
      ensures !OccursAt(s, pat, j)
    {
      assert s[j..j + |pat|][0] == s[j] == p[j];
    }
    assert IndexOf(s, pat) == Some(|p|);
    assert s[..|p|] == p && s[|p| + |pat|..] == q;
  }

  /** A brace-free text holds no placeholder. */
  lemma NotFound(s: string, pat: string)
    requires NoBrace(s) && |pat| > 0 && pat[0] == '{'
    ensures IndexOf(s, pat).None?
  {
    forall j | 0 <= j && j + |pat| <= |s|
      ensures !OccursAt(s, pat, j)
    {
      assert s[j..j + |pat|][0] == s[j];
    }
  }

  /** Where the only brace opens `{-y}`, there is no `{y}`. */
  lemma NoPlainY(p: string, d: string)
    requires NoBrace(p) && NoBrace(d)
    ensures IndexOf(p + "{-y}" + d, "{y}").None?
  {
    var s := p + "{-y}" + d;
    assert s[|p|..|p| + 4] == "{-y}";
    forall j | 0 <= j && j + 3 <= |s|
      ensures !OccursAt(s, "{y}", j)
    {
      assert s[j..j + 3][0] == s[j];
      assert s[j..j + 3][1] == s[j + 1];
      if j < |p| {
        assert s[j] == p[j];
      } else if j >= |p| + 4 {
        assert s[j] == d[j - |p| - 4];
      }
    }
  }

  /** `ReplaceAfter` with the text after the placeholder in two pieces. */
  lemma ReplaceAfter2(p: string, pat: string, u: string, v: string, rep: string)
    requires NoBrace(p) && |pat| > 0 && pat[0] == '{'
    ensures ReplaceFirst(p + pat + u + v, pat, rep) == p + rep + u + v
  {
    assert p + pat + u + v == p + pat + (u + v);
    ReplaceAfter(p, pat, u + v, rep);
    assert p + rep + (u + v) == p + rep + u + v;
  }

  /** `ReplaceAfter` with the text after the placeholder in four pieces. */
  lemma ReplaceAfter4(p: string, pat: string, u: string, v: string, w: string, t: string, rep: string)
    requires NoBrace(p) && |pat| > 0 && pat[0] == '{'
    ensures ReplaceFirst(p + pat + u + v + w + t, pat, rep) == p + rep + u + v + w + t
  {
    assert p + pat + u + v + w + t == p + pat + (u + v + w + t);
    ReplaceAfter(p, pat, u + v + w + t, rep);
    assert p + rep + (u + v + w + t) == p + rep + u + v + w + t;
  }

  /** The first two replacements: `{z}` and `{x}` after brace-free text. */
  lemma ReplaceZoomColumn(a: string, b: string, c: string, rest: string, z: int, x: int)
    requires NoBrace(a) && NoBrace(b) && NoBrace(c)
    ensures ReplaceFirst(ReplaceFirst(a + "{z}" + b + "{x}" + c + rest, "{z}", IntText(z)), "{x}", IntText(x))
      == a + IntText(z) + b + IntText(x) + c + rest
  {
    IntTextNoBrace(z);
    ReplaceAfter4(a, "{z}", b, "{x}", c, rest, IntText(z));
    NoBraceConcat(a, IntText(z));
    NoBraceConcat(a + IntText(z), b);
    ReplaceAfter2(a + IntText(z) + b, "{x}", c, rest, IntText(x));
  }

  /** A TMS template `a{z}b{x}c{-y}d` (no other braces) gets the zoom, the
      column and the row counted from the bottom of the `1 << z` grid. */
  lemma ReplaceTemplateFlipped(a: string, b: string, c: string, d: string, z: int, x: int, y: int)
    requires NoBrace(a) && NoBrace(b) && NoBrace(c) && NoBrace(d)
    ensures ReplaceTemplate(a + "{z}" + b + "{x}" + c + "{-y}" + d, z, x, y)
      == a + IntText(z) + b + IntText(x) + c + IntText(ShiftLeft32(z) - 1 - y) + d
  {
    var p3 := a + "{z}" + b + "{x}" + c;
    var tpl := p3 + "{-y}" + d;
    assert tpl == p3 + ("{-y}" + d);
    assert tpl[|p3|..|p3| + 4] == "{-y}";
    assert OccursAt(tpl, "{-y}", |p3|);
    ReplaceZoomColumn(a, b, c, "{-y}" + d, z, x);
    IntTextNoBrace(z);
    IntTextNoBrace(x);
    var p4 := a + IntText(z) + b + IntText(x) + c;
    NoBraceConcat(a, IntText(z));
    NoBraceConcat(a + IntText(z), b);
    NoBraceConcat(a + IntText(z) + b, IntText(x));
    NoBraceConcat(a + IntText(z) + b + IntText(x), c);
    assert p4 + ("{-y}" + d) == p4 + "{-y}" + d;
    NoPlainY(p4, d);
    ReplaceAfter(p4, "{-y}", d, IntText(ShiftLeft32(z) - 1 - y));
  }

  /** An XYZ template `a{z}b{x}c{y}d` (no other braces) gets the zoom, the
      column and the row as given. */
  lemma ReplaceTemplatePlain(a: string, b: string, c: string, d: string, z: int, x: int, y: int)
    requires NoBrace(a) && NoBrace(b) && NoBrace(c) && NoBrace(d)
    ensures ReplaceTemplate(a + "{z}" + b + "{x}" + c + "{y}" + d, z, x, y)
      == a + IntText(z) + b + IntText(x) + c + IntText(y) + d
  {
    var p3 := a + "{z}" + b + "{x}" + c;
    assert p3 + "{y}" + d == p3 + ("{y}" + d);
    ReplaceZoomColumn(a, b, c, "{y}" + d, z, x);
    IntTextNoBrace(z);
    IntTextNoBrace(x);
    IntTextNoBrace(y);
    var p4 := a + IntText(z) + b + IntText(x) + c;
    NoBraceConcat(a, IntText(z));
    NoBraceConcat(a + IntText(z), b);
    NoBraceConcat(a + IntText(z) + b, IntText(x));
    NoBraceConcat(a + IntText(z) + b + IntText(x), c);
    assert p4 + ("{y}" + d) == p4 + "{y}" + d;
    ReplaceAfter(p4, "{y}", d, IntText(y));
    NoBraceConcat(p4, IntText(y));
    NoBraceConcat(p4 + IntText(y), d);
    NotFound(p4 + IntText(y) + d, "{-y}");
  }

  /** At zoom levels below 31 the flipped row of a tile on the grid is again
      on the grid, and flipping twice gives the row back. */
  lemma FlipYOnGrid(tpl: string, z: nat, y: int)
    requires z < 31 && 0 <= y < Pow2(z) && Contains(tpl, "{-y}")
    ensures 0 <= FlipY(tpl, z, y) < Pow2(z)
    ensures FlipY(tpl, z, FlipY(tpl, z, y)) == y
  {
    assert z % 32 == z;
    assert ShiftLeft32(z) == Pow2(z);
  }

  /** From zoom 32 on the shift wraps around: zoom 32 flips like zoom 0. */
  lemma ShiftWraps(z: nat)
    ensures ShiftLeft32(z + 32) == ShiftLeft32(z)
    ensures ShiftLeft32(31) < 0
  {
    assert (z + 32) % 32 == z % 32;
  }
}
