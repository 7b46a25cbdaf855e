/** The `useFlightData` hook as an object: the session state lives in an
    undo/redo store, and every command computes the next state from the
    current one and hands it to the store, either appending it (undoable) or
    overwriting the current slot (not undoable), as src/hooks/useFlightData.ts
    chooses per command. The store dedupes appends with the JSON comparison. */
module Session {
  import opened Types
  import opened HistoryStore
  import opened FlightData
  import opened FlightProperties

  class FlightSession {
    const store: History<FlightState>
    /** The next unused point id: the model's stand-in for `randomId()`. */
    var nextId: nat

    /** Every state in the store, undoable or redoable, is coherent. */
    ghost predicate Valid()
      reads this, store
    {
      store.Valid() && forall x :: x in store.history ==> Coherent(x, nextId)
    }

    function State(): FlightState
      reads this, store
      requires store.Valid()
    {
      store.State()
    }

    /** `useFlightData()`: a store holding only the initial state. */
    constructor ()
      ensures Valid() && store.View() == Reset(InitialState) && nextId == 0
    {
      store := new History(InitialState);
      nextId := 0;
    }

    /** The current state is one of the stored ones, so it is coherent. */
    lemma CurrentCoherent()
      requires Valid()
      ensures Coherent(State(), nextId)
    {
      assert store.history[store.index] in store.history;
    }

    /** `setState(next, overwrite)` with the JSON comparison. */
    method Put(next: FlightState, overwrite: bool)
      requires Valid() && Coherent(next, nextId)
      modifies store
      ensures Valid() && nextId == old(nextId)
      ensures overwrite ==> store.View() == old(store.View()).Overwrite(next)
      ensures !overwrite ==> store.View() == old(store.View()).Commit(next, JsonEqual)
    {
      store.SetState(next, overwrite, JsonEqual);
    }

    method Undo()
      requires Valid()
      modifies store
      ensures Valid() && store.View() == old(store.View()).Undo() && nextId == old(nextId)
    {
      store.Undo();
    }

    method Redo()
      requires Valid()
      modifies store
      ensures Valid() && store.View() == old(store.View()).Redo() && nextId == old(nextId)
    {
      store.Redo();
    }

    /** `resetHistory(s)` after an import whose points took ids below `nextFree`. */
    method ResetHistory(s: FlightState, nextFree: nat)
      requires Valid() && Coherent(s, nextFree) && nextId <= nextFree
      modifies this, store
      ensures Valid() && store.View() == Reset(s) && nextId == nextFree
    {
      store.ResetHistory(s);
      nextId := nextFree;
    }

    /** `cancelTranslation()`, corrected as in FlightData.CancelTranslation; appended. */
    method CancelTranslation()
      requires Valid()
      modifies store
      ensures Valid() && nextId == old(nextId)
      ensures store.View() == old(store.View()).Commit(FlightData.CancelTranslation(old(State())), JsonEqual)
    {
      CurrentCoherent();
      CancelTranslationCoherent(State(), nextId);
      Put(FlightData.CancelTranslation(State()), false);
    }

    /** `setSelectionMode(mode)`, corrected as in FlightData.SetSelectionMode; appended. */
    method SetSelectionMode(mode: SelectionMode)
      requires Valid()
      modifies store
      ensures Valid() && nextId == old(nextId)
      ensures store.View() == old(store.View()).Commit(FlightData.SetSelectionMode(old(State()), mode), JsonEqual)
    {
      CurrentCoherent();
      SetSelectionModeCoherent(State(), mode, nextId);
      Put(FlightData.SetSelectionMode(State(), mode), false);
    }

    /** `finishPolygonSelection()`: overwrites, and returns how many points
        the polygon holds. */
    method FinishPolygonSelection(inside: (LngLat, seq<LngLat>) -> bool) returns (count: nat)
      requires Valid()
      modifies store
      ensures Valid() && nextId == old(nextId)
      ensures store.View() == old(store.View()).Overwrite(FlightData.FinishPolygonSelection(old(State()), inside))
      ensures count == PolygonHitCount(old(State()), inside)
    {
      CurrentCoherent();
      var s := State();
      var next: FlightState;
      count := 0;
      if |s.drawnPolygon| < 3 {
        next := s.(isDrawing := false, selectionMode := Single, drawnPolygon := []);
      } else {
        var found := PointsInPolygon(s.points, Ring(s.drawnPolygon), inside);
        count := |found|;
        var sel := if s.selectionAddMode then s.selectedPoints + found else found;
        next := s.(selectedPoints := sel, drawnPolygon := [], isDrawing := false,
                   selectionMode := if |sel| > 0 then BatchEdit else Single);
      }
      assert next == FlightData.FinishPolygonSelection(s, inside);
      Put(next, true);
    }

    /** `togglePointSelection(id)` for a point on the map; overwrites. */
    method TogglePointSelection(id: Id)
      requires Valid() && id in Ids(State().points)
      modifies store
      ensures Valid() && nextId == old(nextId)
      ensures store.View() == old(store.View()).Overwrite(FlightData.TogglePointSelection(old(State()), id))
    {
      CurrentCoherent();
      Put(FlightData.TogglePointSelection(State(), id), true);
    }

    /** `selectAll(select)`; overwrites. */
    method SelectAll(select: bool)
      requires Valid()
      modifies store
      ensures Valid() && nextId == old(nextId)
      ensures store.View() == old(store.View()).Overwrite(FlightData.SelectAll(old(State()), select))
    {
      CurrentCoherent();
      Put(FlightData.SelectAll(State(), select), true);
    }

    /** `clearSelection()`; overwrites. */
    method ClearSelection()
      requires Valid()
      modifies store
      ensures Valid() && nextId == old(nextId)
      ensures store.View() == old(store.View()).Overwrite(FlightData.ClearSelection(old(State())))
    {
      CurrentCoherent();
      Put(FlightData.ClearSelection(State()), true);
    }

    /** `duplicateSelectedPoints()`: the copies take the next ids of the
        supply, which moves past them; appended. */
    method DuplicateSelectedPoints()
      requires Valid()
      modifies this, store
      ensures Valid()
      ensures store.View() == old(store.View()).Commit(FlightData.DuplicateSelectedPoints(old(State()), old(nextId)), JsonEqual)
      ensures nextId == old(nextId) + |Filter(old(State()).points, old(State()).selectedPoints, true)|
    {
      CurrentCoherent();
      var s := State();
      var pts, sel, next := DuplicateLoop(s.points, s.selectedPoints, nextId);
      var r := s.(points := pts, selectedPoints := sel);
      assert r == FlightData.DuplicateSelectedPoints(s, nextId);
      DuplicateCoherent(s, nextId);
      forall x | x in store.history
        ensures Coherent(x, next)
      {
        CoherentMonotone(x, nextId, next);
      }
      nextId := next;
      Put(r, false);
    }

    /** `deleteSelectedPoints()`; appended. */
    method DeleteSelectedPoints()
      requires Valid()
      modifies store
      ensures Valid() && nextId == old(nextId)
      ensures store.View() == old(store.View()).Commit(FlightData.DeleteSelectedPoints(old(State())), JsonEqual)
    {
      CurrentCoherent();
      DeleteCoherent(State(), nextId);
      Put(FlightData.DeleteSelectedPoints(State()), false);
    }

    /** `updatePoint(id, patch)`; appended. */
    method UpdatePoint(id: Id, patch: PointPatch)
      requires Valid() && (patch.id.None? || patch.id == Some(id))
      modifies store
      ensures Valid() && nextId == old(nextId)
      ensures store.View() == old(store.View()).Commit(FlightData.UpdatePoint(old(State()), id, patch), JsonEqual)
    {
      CurrentCoherent();
      SameIdsCoherent(State(), FlightData.UpdatePoint(State(), id, patch), nextId);
      Put(FlightData.UpdatePoint(State(), id, patch), false);
    }

    /** `updateSelectedPoints(patch)`; appended. */
    method UpdateSelectedPoints(patch: PointPatch)
      requires Valid() && patch.id.None?
      modifies store
      ensures Valid() && nextId == old(nextId)
      ensures store.View() == old(store.View()).Commit(FlightData.UpdateSelectedPoints(old(State()), patch), JsonEqual)
    {
      CurrentCoherent();
      SameIdsCoherent(State(), FlightData.UpdateSelectedPoints(State(), patch), nextId);
      Put(FlightData.UpdateSelectedPoints(State(), patch), false);
    }

    /** `translateSelectedPoints(delta)`; appended. */
    method TranslateSelectedPoints(d: Delta)
      requires Valid()
      modifies store
      ensures Valid() && nextId == old(nextId)
      ensures store.View() == old(store.View()).Commit(FlightData.TranslateSelectedPoints(old(State()), d), JsonEqual)
    {
      CurrentCoherent();
      SameIdsCoherent(State(), FlightData.TranslateSelectedPoints(State(), d), nextId);
      Put(FlightData.TranslateSelectedPoints(State(), d), false);
    }

    /** `applyTranslation()`; appended. */
    method ApplyTranslation()
      requires Valid()
      modifies store
      ensures Valid() && nextId == old(nextId)
      ensures store.View() == old(store.View()).Commit(FlightData.ApplyTranslation(old(State())), JsonEqual)
    {
      CurrentCoherent();
      Put(FlightData.ApplyTranslation(State()), false);
    }

    /** `setTranslationLock(axis, locked)`; overwrites. */
    method SetTranslationLock(axis: LockAxis, locked: bool)
      requires Valid()
      modifies store
      ensures Valid() && nextId == old(nextId)
      ensures store.View() == old(store.View()).Overwrite(FlightData.SetTranslationLock(old(State()), axis, locked))
    {
      CurrentCoherent();
      Put(FlightData.SetTranslationLock(State(), axis, locked), true);
    }

    /** `setTranslationValue(axis, value)`; appended. */
    method SetTranslationValue(axis: DeltaAxis, value: real)
      requires Valid()
      modifies store
      ensures Valid() && nextId == old(nextId)
      ensures store.View() == old(store.View()).Commit(FlightData.SetTranslationValue(old(State()), axis, value), JsonEqual)
    {
      CurrentCoherent();
      SameIdsCoherent(State(), FlightData.SetTranslationValue(State(), axis, value), nextId);
      Put(FlightData.SetTranslationValue(State(), axis, value), false);
    }

    /** `setAttributeQuery(query)`; appended. */
    method SetAttributeQuery(query: Option<AttributeQuery>)
      requires Valid()
      modifies store
      ensures Valid() && nextId == old(nextId)
      ensures store.View() == old(store.View()).Commit(old(State()).(attributeQuery := query), JsonEqual)
    {
      CurrentCoherent();
      Put(State().(attributeQuery := query), false);
    }

    /** `setSelectionAddMode(on)`; overwrites. */
    method SetSelectionAddMode(on: bool)
      requires Valid()
      modifies store
      ensures Valid() && nextId == old(nextId)
      ensures store.View() == old(store.View()).Overwrite(old(State()).(selectionAddMode := on))
    {
      CurrentCoherent();
      Put(State().(selectionAddMode := on), true);
    }

    /** `applyBatchSelection(ids)`; overwrites. */
    method ApplyBatchSelection(ids: set<Id>)
      requires Valid()
      modifies store
      ensures Valid() && nextId == old(nextId)
      ensures store.View() == old(store.View()).Overwrite(FlightData.ApplyBatchSelection(old(State()), ids))
    {
      CurrentCoherent();
      Put(FlightData.ApplyBatchSelection(State(), ids), true);
    }

    /** `applyAttributeSelection()`: the matching points are collected by a
        loop seeded with the current selection in add mode; overwrites. */
    method ApplyAttributeSelection(show: real -> string)
      requires Valid()
      modifies store
      ensures Valid() && nextId == old(nextId)
      ensures store.View() == old(store.View()).Overwrite(FlightData.ApplyAttributeSelection(old(State()), show))
    {
      CurrentCoherent();
      var s := State();
      var next := s;
      if s.attributeQuery.Some? {
        var base := if s.selectionAddMode then s.selectedPoints else {};
        var ids := CollectMatches(s.points, s.attributeQuery.value, show, base);
        var sel := if s.selectionAddMode then s.selectedPoints + ids else ids;
        next := s.(selectedPoints := sel, attributeQuery := None,
                   selectionMode := if |sel| > 0 then BatchEdit else Single);
      }
      assert next == FlightData.ApplyAttributeSelection(s, show);
      Put(next, true);
    }

    /** `setRotationCenter(pivot)`; overwrites. */
    method SetRotationCenter(pivot: Option<LonLat>)
      requires Valid()
      modifies store
      ensures Valid() && nextId == old(nextId)
      ensures store.View() == old(store.View()).Overwrite(old(State()).(rotationCenter := pivot))
    {
      CurrentCoherent();
      Put(State().(rotationCenter := pivot), true);
    }

    /** `rotateSelectedPoints(angle)`; appended. */
    method RotateSelectedPoints(angle: real, rotate: (LonLat, real, LonLat) -> LonLat)
      requires Valid()
      modifies store
      ensures Valid() && nextId == old(nextId)
      ensures store.View() == old(store.View()).Commit(FlightData.RotateSelectedPoints(old(State()), angle, rotate), JsonEqual)
    {
      CurrentCoherent();
      SameIdsCoherent(State(), FlightData.RotateSelectedPoints(State(), angle, rotate), nextId);
      Put(FlightData.RotateSelectedPoints(State(), angle, rotate), false);
    }

    /** `applyRotation()`; appended. */
    method ApplyRotation()
      requires Valid()
      modifies store
      ensures Valid() && nextId == old(nextId)
      ensures store.View() == old(store.View()).Commit(FlightData.ApplyRotation(old(State())), JsonEqual)
    {
      CurrentCoherent();
      Put(FlightData.ApplyRotation(State()), false);
    }

    /** `reverseFlightPoints()`; appended. */
    method ReverseFlightPoints()
      requires Valid()
      modifies store
      ensures Valid() && nextId == old(nextId)
      ensures store.View() == old(store.View()).Commit(FlightData.ReverseFlightPoints(old(State())), JsonEqual)
    {
      CurrentCoherent();
      ReverseCoherent(State(), nextId);
      Put(FlightData.ReverseFlightPoints(State()), false);
    }

    /** `setIsDrawing(on)`; overwrites. */
    method SetIsDrawing(on: bool)
      requires Valid()
      modifies store
      ensures Valid() && nextId == old(nextId)
      ensures store.View() == old(store.View()).Overwrite(old(State()).(isDrawing := on))
    {
      CurrentCoherent();
      Put(State().(isDrawing := on), true);
    }

    /** `setDrawnPolygon(update)`, with a value or an updater of the current
        polygon alike; overwrites. */
    method SetDrawnPolygon(update: seq<LngLat> -> seq<LngLat>)
      requires Valid()
      modifies store
      ensures Valid() && nextId == old(nextId)
      ensures store.View() == old(store.View()).Overwrite(old(State()).(drawnPolygon := update(old(State()).drawnPolygon)))
    {
      CurrentCoherent();
      Put(State().(drawnPolygon := update(State().drawnPolygon)), true);
    }
  }
}
