/** Properties of the session commands of src/hooks/useFlightData.ts: what a
    translation does and how cancelling undoes it, the relations between the
    commands, which states the history store's JSON comparison cannot tell
    apart, and the session invariant each command keeps. */
module FlightProperties {
  import opened Types
  import opened FlightData

  // ---------------------------------------------------------------------------
  // Translation: a run of drag ticks and typed values

  /** One change made while translating: a drag tick or a typed total. */
  datatype Tick = Move(d: Delta) | SetValue(axis: DeltaAxis, value: real)

  function Step(s: FlightState, t: Tick): FlightState {
    match t
    case Move(d) => TranslateSelectedPoints(s, d)
    case SetValue(axis, value) => SetTranslationValue(s, axis, value)
  }

  function Run(s: FlightState, ts: seq<Tick>): FlightState
    decreases |ts|
  {
    if ts == [] then s else Run(Step(s, ts[0]), ts[1..])
  }

  /** The selected points sit at their saved position plus the running total,
      the unselected ones at their saved position. */
  ghost predicate Tracks(s: FlightState) {
    s.pointsBeforeTranslate.Some? &&
    s.points == Shifted(s.pointsBeforeTranslate.value, s.selectedPoints, s.translationDelta)
  }

  lemma ShiftCompose(p: FeaturePoint, d1: Delta, d2: Delta)
    ensures Shift(Shift(p, d1), d2) == Shift(p, AddDelta(d1, d2))
  {
  }

  lemma ShiftedCompose(ps: seq<FeaturePoint>, sel: set<Id>, d1: Delta, d2: Delta)
    ensures Shifted(Shifted(ps, sel, d1), sel, d2) == Shifted(ps, sel, AddDelta(d1, d2))
  {
    var a := Shifted(Shifted(ps, sel, d1), sel, d2);
    var b := Shifted(ps, sel, AddDelta(d1, d2));
    forall i | 0 <= i < |ps|
      ensures a[i] == b[i]
    {
      assert Shifted(ps, sel, d1)[i].id == IdSeq(Shifted(ps, sel, d1))[i] == ps[i].id;
      if ps[i].id in sel {
        ShiftCompose(ps[i], d1, d2);
      }
    }
  }

  /** Moving by nothing leaves every point where it is. */
  lemma ShiftedNone(ps: seq<FeaturePoint>, sel: set<Id>)
    ensures Shifted(ps, sel, NoDelta) == ps
  {
    var a := Shifted(ps, sel, NoDelta);
    forall i | 0 <= i < |ps|
      ensures a[i] == ps[i]
    {
    }
  }

  lemma {:induction false} StepTracks(s: FlightState, t: Tick)
    requires Tracks(s)
    ensures Tracks(Step(s, t))
    ensures Step(s, t).pointsBeforeTranslate == s.pointsBeforeTranslate
    ensures Step(s, t).selectedPoints == s.selectedPoints
  {
    var saved := s.pointsBeforeTranslate.value;
    match t
    case Move(d) =>
      ShiftedCompose(saved, s.selectedPoints, s.translationDelta, d);
    case SetValue(axis, value) =>
      var change := AxisDelta(axis, value - Component(s.translationDelta, axis));
      ShiftedCompose(saved, s.selectedPoints, s.translationDelta, change);
      var r := SetTranslationValue(s, axis, value);
      assert r.translationDelta == AddDelta(s.translationDelta, change) by {
        match axis
        case DLat =>
        case DLon =>
        case DAlt =>
      }
  }

  /** However many drag ticks and typed totals follow, the points stay at the
      saved position plus the running total, and the saved copy is untouched. */
  lemma {:induction false} RunTracks(s: FlightState, ts: seq<Tick>)
    requires Tracks(s)
    ensures Tracks(Run(s, ts))
    ensures Run(s, ts).pointsBeforeTranslate == s.pointsBeforeTranslate
    ensures Run(s, ts).selectedPoints == s.selectedPoints
    decreases |ts|
  {
    if ts != [] {
      StepTracks(s, ts[0]);
      RunTracks(Step(s, ts[0]), ts[1..]);
    }
  }

  /** Entering translate mode with something selected saves the points and
      starts the total at zero, so the tracking holds from the start (unless
      a rotation in progress is being abandoned, which puts other points back). */
  lemma EnterTranslateTracks(s: FlightState)
    requires |s.selectedPoints| > 0
    requires !(s.selectionMode == Rotate && s.pointsBeforeRotate.Some?)
    ensures Tracks(SetSelectionMode(s, Translate))
    ensures SetSelectionMode(s, Translate).pointsBeforeTranslate == Some(s.points)
  {
    ShiftedNone(s.points, SetSelectionMode(s, Translate).selectedPoints);
  }

  /** Escape after any run of translation ticks gives back exactly the
      points from before the translation. */
  lemma {:induction false} CancelUndoesTicks(s: FlightState, ts: seq<Tick>)
    requires Tracks(s)
    ensures CancelTranslation(Run(s, ts)).points == s.pointsBeforeTranslate.value
    ensures CancelTranslation(Run(s, ts)).pointsBeforeTranslate == None
    ensures CancelTranslation(Run(s, ts)).translationDelta == NoDelta
  {
    RunTracks(s, ts);
  }

  /** Entering translate mode, moving, then cancelling restores the points
      and, the selection naming existing points, the selection too. */
  lemma EnterMoveCancel(s: FlightState, ts: seq<Tick>)
    requires |s.selectedPoints| > 0 && s.selectedPoints <= Ids(s.points)
    requires !(s.selectionMode == Rotate && s.pointsBeforeRotate.Some?)
    ensures CancelTranslation(Run(SetSelectionMode(s, Translate), ts)).points == s.points
    ensures CancelTranslation(Run(SetSelectionMode(s, Translate), ts)).selectedPoints == s.selectedPoints
  {
    var e := SetSelectionMode(s, Translate);
    EnterTranslateTracks(s);
    CancelUndoesTicks(e, ts);
    RunTracks(e, ts);
  }

  /** Typing the same total twice moves the points only once. */
  lemma SetTranslationValueIdempotent(s: FlightState, axis: DeltaAxis, value: real)
    ensures SetTranslationValue(SetTranslationValue(s, axis, value), axis, value) == SetTranslationValue(s, axis, value)
  {
    var r := SetTranslationValue(s, axis, value);
    if s.pointsBeforeTranslate.Some? {
      assert AxisDelta(axis, 0.0) == NoDelta by {
        match axis
        case DLat =>
        case DLon =>
        case DAlt =>
      }
      ShiftedNone(r.points, r.selectedPoints);
    }
  }

  // ---------------------------------------------------------------------------
  // Relations between commands

  /** Deleting right after duplicating removes exactly the copies: the point
      list is the one from before the duplication. */
  lemma DeleteAfterDuplicate(s: FlightState, firstId: Id)
    requires IdsBelow(s.points, firstId)
    ensures DeleteSelectedPoints(DuplicateSelectedPoints(s, firstId)).points == s.points
  {
    var c := Clones(s.points, s.selectedPoints, firstId);
    var sel := IdRange(firstId, |c|);
    FilterAppend(s.points, c, sel, false);
    FilterKeepsAll(s.points, sel, false);
    FilterDropsAll(c, sel, false);
    assert DuplicateSelectedPoints(s, firstId).points == s.points + c;
  }

  lemma {:induction false} FilterAppend(a: seq<FeaturePoint>, b: seq<FeaturePoint>, sel: set<Id>, wanted: bool)
    ensures Filter(a + b, sel, wanted) == Filter(a, sel, wanted) + Filter(b, sel, wanted)
    decreases |b|
  {
    if b == [] {
      assert a + b == a;
    } else {
      var b', last := b[..|b| - 1], b[|b| - 1];
      assert (a + b)[..|a + b| - 1] == a + b';
      assert (a + b)[|a + b| - 1] == last;
      FilterAppend(a, b', sel, wanted);
      var tail := if (last.id in sel) == wanted then [last] else [];
      AppendAssoc(Filter(a, sel, wanted), Filter(b', sel, wanted), tail);
    }
  }

  /** A list whose every point passes the filter comes through whole. */
  lemma {:induction false} FilterKeepsAll(ps: seq<FeaturePoint>, sel: set<Id>, wanted: bool)
    requires forall i :: 0 <= i < |ps| ==> (ps[i].id in sel) == wanted
    ensures Filter(ps, sel, wanted) == ps
  {
    if ps != [] {
      FilterKeepsAll(ps[..|ps| - 1], sel, wanted);
      assert ps[..|ps| - 1] + [ps[|ps| - 1]] == ps;
    }
  }

  /** A list whose every point fails the filter comes through empty. */
  lemma {:induction false} FilterDropsAll(ps: seq<FeaturePoint>, sel: set<Id>, wanted: bool)
    requires forall i :: 0 <= i < |ps| ==> (ps[i].id in sel) != wanted
    ensures Filter(ps, sel, wanted) == []
  {
    if ps != [] {
      FilterDropsAll(ps[..|ps| - 1], sel, wanted);
    }
  }

  /** Selecting everything and deleting empties the plan. */
  lemma DeleteAfterSelectAll(s: FlightState)
    ensures DeleteSelectedPoints(SelectAll(s, true)).points == []
  {
    var all := Ids(s.points);
    forall i | 0 <= i < |s.points|
      ensures s.points[i].id in all
    {
      assert IdSeq(s.points)[i] == s.points[i].id;
    }
    FilterDropsAll(s.points, all, false);
  }

  /** Deletion keeps the order of the points that remain. */
  lemma DeleteKeepsOrder(s: FlightState)
    ensures Subsequence(DeleteSelectedPoints(s).points, s.points)
  {
    FilterKeepsOrder(s.points, s.selectedPoints, false);
  }

  /** Outside add mode, clicking the same point twice returns to the
      selection before the first click when that was empty or just that point. */
  lemma ToggleTwice(s: FlightState, id: Id)
    requires !s.selectionAddMode
    requires s.selectedPoints == {} || s.selectedPoints == {id}
    ensures TogglePointSelection(TogglePointSelection(s, id), id) == s.(selectionMode := Single)
  {
  }

  /** In add mode a click only ever adds: a second click on the same point
      changes nothing more. */
  lemma ToggleAddModeIdempotent(s: FlightState, id: Id)
    requires s.selectionAddMode
    ensures TogglePointSelection(TogglePointSelection(s, id), id) == TogglePointSelection(s, id)
  {
  }

  /** Reversing twice restores the flight order. */
  lemma ReverseTwice(s: FlightState)
    ensures ReverseFlightPoints(ReverseFlightPoints(s)) == s
  {
    if |s.points| >= 2 {
      ReverseInvolutive(s.points);
    }
  }

  /** Applying the same edit to a point twice is the same as once. */
  lemma UpdatePointIdempotent(s: FlightState, id: Id, patch: PointPatch)
    requires patch.id.None? || patch.id == Some(id)
    ensures UpdatePoint(UpdatePoint(s, id, patch), id, patch) == UpdatePoint(s, id, patch)
  {
    var r := UpdatePoint(s, id, patch);
    var rr := UpdatePoint(r, id, patch);
    forall i | 0 <= i < |s.points|
      ensures rr.points[i] == r.points[i]
    {
      assert r.points[i].id == IdSeq(r.points)[i] == s.points[i].id;
      if s.points[i].id == id {
        var p := s.points[i];
        assert Spread(Spread(p, patch), patch).props == Spread(p, patch).props;
      }
    }
  }

  /** Applying the same batch edit twice is the same as once: attributes are
      merged, so the second merge adds nothing. */
  lemma UpdateSelectedIdempotent(s: FlightState, patch: PointPatch)
    requires patch.id.None?
    ensures UpdateSelectedPoints(UpdateSelectedPoints(s, patch), patch) == UpdateSelectedPoints(s, patch)
  {
    var r := UpdateSelectedPoints(s, patch);
    var rr := UpdateSelectedPoints(r, patch);
    forall i | 0 <= i < |s.points|
      ensures rr.points[i] == r.points[i]
    {
      assert r.points[i].id == IdSeq(r.points)[i] == s.points[i].id;
      if s.points[i].id in s.selectedPoints {
        var p := s.points[i];
        var once := PatchSelected(p, patch);
        assert PatchSelected(once, patch).props == once.props;
        assert PatchSelected(once, patch).attributes == once.attributes;
      }
    }
  }

  // ---------------------------------------------------------------------------
  // What the history store cannot see

  /** Two states that differ only in their selection serialise alike. */
  lemma SelectionInvisible(s: FlightState, sel: set<Id>)
    ensures JsonEqual(s, s.(selectedPoints := sel))
  {
  }

  /** With nothing selected, duplicating produces a state the store calls
      equal to the current one, so no history entry is added. */
  lemma DuplicateNothingIsDropped(s: FlightState, firstId: Id)
    requires s.selectedPoints == {}
    ensures JsonEqual(s, DuplicateSelectedPoints(s, firstId))
  {
    var r := DuplicateSelectedPoints(s, firstId);
    FilterDropsAll(s.points, {}, true);
    assert r.points == s.points;
  }

  // ---------------------------------------------------------------------------
  // The session invariant

  lemma SameIdsCoherent(s: FlightState, r: FlightState, b: nat)
    requires Coherent(s, b)
    requires IdSeq(r.points) == IdSeq(s.points)
    requires r.selectedPoints <= s.selectedPoints
    requires r.pointsBeforeTranslate == s.pointsBeforeTranslate && r.pointsBeforeRotate == s.pointsBeforeRotate
    ensures Coherent(r, b)
  {
    assert Ids(r.points) == Ids(s.points);
    forall i | 0 <= i < |r.points|
      ensures r.points[i].id == s.points[i].id
    {
      assert IdSeq(r.points)[i] == IdSeq(s.points)[i];
    }
  }

  /** A selection made of existing ids keeps the session coherent. */
  lemma SelectionCoherent(s: FlightState, sel: set<Id>, b: nat)
    requires Coherent(s, b) && sel <= Ids(s.points)
    ensures Coherent(s.(selectedPoints := sel), b)
  {
  }

  lemma {:induction false} FilterCoherent(ps: seq<FeaturePoint>, sel: set<Id>, wanted: bool, b: nat)
    requires DistinctIds(ps) && IdsBelow(ps, b)
    ensures DistinctIds(Filter(ps, sel, wanted)) && IdsBelow(Filter(ps, sel, wanted), b)
  {
    var f := Filter(ps, sel, wanted);
    FilterMembers(ps, sel, wanted);
    forall i | 0 <= i < |f|
      ensures f[i].id < b
    {
      assert f[i] in f;
    }
    FilterKeepsOrder(ps, sel, wanted);
    SubsequenceDistinct(f, ps);
  }

  lemma {:induction false} SubsequenceDistinct(a: seq<FeaturePoint>, b: seq<FeaturePoint>)
    requires Subsequence(a, b) && DistinctIds(b)
    ensures DistinctIds(a)
    decreases |b|
  {
    if b != [] {
      var b' := b[..|b| - 1];
      assert DistinctIds(b');
      if Subsequence(a, b') {
        SubsequenceDistinct(a, b');
      } else {
        var a' := a[..|a| - 1];
        SubsequenceDistinct(a', b');
        SubsequenceElements(a', b');
        forall i | 0 <= i < |a'|
          ensures a'[i].id != a[|a| - 1].id
        {
          assert a'[i] in b';
          var j :| 0 <= j < |b'| && b'[j] == a'[i];
          assert b[j] == b'[j];
        }
        assert a == a' + [a[|a| - 1]];
      }
    }
  }

  lemma {:induction false} SubsequenceElements<T>(a: seq<T>, b: seq<T>)
    requires Subsequence(a, b)
    ensures forall i :: 0 <= i < |a| ==> a[i] in b
    decreases |b|
  {
    if b != [] {
      var b' := b[..|b| - 1];
      assert forall x :: x in b' ==> x in b;
      if Subsequence(a, b') {
        SubsequenceElements(a, b');
      } else {
        var a' := a[..|a| - 1];
        SubsequenceElements(a', b');
        assert forall i :: 0 <= i < |a'| ==> a[i] == a'[i];
      }
    }
  }

  /** Deleting keeps the session coherent. */
  lemma DeleteCoherent(s: FlightState, b: nat)
    requires Coherent(s, b)
    ensures Coherent(DeleteSelectedPoints(s), b)
  {
    FilterCoherent(s.points, s.selectedPoints, false, b);
  }

  /** Duplicating with ids from the supply's next free one keeps the session
      coherent once the supply has moved past the copies: the copies' ids are
      new, distinct, and become the selection. */
  lemma DuplicateCoherent(s: FlightState, b: nat)
    requires Coherent(s, b)
    ensures var r := DuplicateSelectedPoints(s, b);
      Coherent(r, b + (|r.points| - |s.points|))
  {
    var r := DuplicateSelectedPoints(s, b);
    var n := |r.points| - |s.points|;
    var ps := r.points;
    forall i, j | 0 <= i < j < |ps|
      ensures ps[i].id != ps[j].id
    {
      if j < |s.points| {
        assert ps[i] == s.points[i] && ps[j] == s.points[j];
      } else if i < |s.points| {
        assert ps[i] == s.points[i];
      }
    }
    forall x | x in r.selectedPoints
      ensures x in Ids(ps)
    {
      var k := x - b;
      assert ps[|s.points| + k].id == x;
      IdsMember(ps, x);
    }
  }

  /** The corrected cancel keeps the session coherent. */
  lemma CancelTranslationCoherent(s: FlightState, b: nat)
    requires Coherent(s, b)
    ensures Coherent(CancelTranslation(s), b)
  {
  }

  /** The corrected mode switch keeps the session coherent. */
  lemma SetSelectionModeCoherent(s: FlightState, mode: SelectionMode, b: nat)
    requires Coherent(s, b)
    ensures Coherent(SetSelectionMode(s, mode), b)
  {
  }

  /** A one-point plan with that point selected. */
  function Example(): FlightState {
    InitialState.(points := [FeaturePoint(0, 1.0, 2.0, Some(10.0), map[], map[])], selectedPoints := {0})
  }

  /** The example after entering translate mode and duplicating, copies
      numbered from 1, as the hook is written. */
  lemma DuplicatedExample()
    ensures var d := DuplicateSelectedPoints(SetSelectionModeAsWritten(Example(), Translate), 1);
      && d.selectedPoints == {1}
      && d.selectionMode == Translate
      && d.pointsBeforeTranslate == Some(Example().points)
  {
    var s := Example();
    var t := SetSelectionModeAsWritten(s, Translate);
    assert |s.selectedPoints| == 1;
    assert t.points == s.points && t.selectedPoints == {0};
    assert t.pointsBeforeTranslate == Some(s.points);
    assert s.points[..0] == [];
    assert Filter(s.points, {0}, true) == s.points;
    var d := DuplicateSelectedPoints(t, 1);
    assert d.selectedPoints == IdRange(1, 1);
  }

  lemma ExampleIds()
    ensures Ids(Example().points) == {0}
  {
    assert IdSeq(Example().points) == [0];
  }

  /** Duplicating during a translation and then pressing Escape, as the hook
      is written: the copies are gone but they are still the selection. */
  lemma CancelAfterDuplicateAsWritten()
    ensures var r := CancelTranslationAsWritten(DuplicateSelectedPoints(SetSelectionModeAsWritten(Example(), Translate), 1));
      && r.points == Example().points && r.selectedPoints == {1}
      && !(r.selectedPoints <= Ids(r.points))
  {
    DuplicatedExample();
    ExampleIds();
  }

  /** The same sequence ending with a switch to single mode from the toolbar,
      as the hook is written. */
  lemma LeaveTranslateAfterDuplicateAsWritten()
    ensures var r := SetSelectionModeAsWritten(DuplicateSelectedPoints(SetSelectionModeAsWritten(Example(), Translate), 1), Single);
      && r.points == Example().points && r.selectedPoints == {1}
      && !(r.selectedPoints <= Ids(r.points))
  {
    DuplicatedExample();
    ExampleIds();
  }

  /** With the corrections, the same sequence never leaves the selection
      naming a missing point: duplicating keeps the session coherent and so
      do both ways of leaving translate mode. */
  lemma CancelAfterDuplicateCorrected(s: FlightState, b: nat)
    requires Coherent(s, b)
    ensures var d := DuplicateSelectedPoints(s, b);
      var b' := b + (|d.points| - |s.points|);
      && Coherent(CancelTranslation(d), b')
      && Coherent(SetSelectionMode(d, Single), b')
  {
    var d := DuplicateSelectedPoints(s, b);
    DuplicateCoherent(s, b);
    CancelTranslationCoherent(d, b + (|d.points| - |s.points|));
    SetSelectionModeCoherent(d, Single, b + (|d.points| - |s.points|));
  }

  /** Reversing keeps the session coherent: the same ids, still distinct. */
  lemma ReverseCoherent(s: FlightState, b: nat)
    requires Coherent(s, b)
    ensures Coherent(ReverseFlightPoints(s), b)
  {
    var r := ReverseFlightPoints(s);
    var n := |s.points|;
    forall x | x in s.selectedPoints
      ensures x in Ids(r.points)
    {
      IdsMember(s.points, x);
      var i :| 0 <= i < n && s.points[i].id == x;
      assert r.points[n - 1 - i] == s.points[i];
      IdsMember(r.points, x);
    }
  }
}
