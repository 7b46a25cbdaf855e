# Flight-plan editing session, modelled in Dafny

This project models the editing engine of GeoFlightPlanner-Camp-Litchi, a
browser editor for drone flight plans kept as CSV files. The engine:

- reads a CSV file into a list of waypoints under a column mapping;
- keeps an undo/redo history of the whole editing state;
- applies the editing commands to the waypoints:
  - select by click, polygon, attribute query or position range;
  - duplicate and delete;
  - translate by drag or typed values, with per-axis locks;
  - rotate about a pivot;
  - reverse the order;
  - edit one waypoint or a batch;
- maps mouse and keyboard events to those commands;
- writes the waypoints back to CSV under the original headers.

It also models:

- the import dialog's column auto-detection;
- the v4 UUID generator;
- the stand-alone CSV-to-GeoJSON reader;
- the argument parser of the asset-generation script.

Values of the source become datatypes:

- a waypoint is `Types.FeaturePoint`;
- the editing state is `FlightData.FlightState`;
- a JavaScript cell value is `Types.JsValue`, where `undefined` is an absent key or `None`.

Code that changes state in place becomes imperative Dafny:

- The history hook is the class `HistoryStore.History`. It is specified by the `HistoryStore.Timeline` value it keeps.
- The hook's commands are the methods of `Session.FlightSession`. Each one commits or overwrites the state computed by a function of `FlightData`.
- The drag refs of the map editor are the class `GeoEditor.DragController`.
- Every loop of the source is a method with its invariants, proved equal to a specification function:
  - the polygon hit test;
  - duplication;
  - the attribute match;
  - schema inference;
  - the export column choice;
  - the row ordering;
  - column auto-detection;
  - the version-bit masking;
  - the argument scan.

Session invariant: every history entry is `Coherent`. Its points have distinct ids, all below the next fresh id. Its selection names only present points. Its saved snapshots satisfy the same conditions. Every command preserves the invariant (`Session.FlightSession.Valid`).

Everything the editor cannot compute itself is a function parameter:

- parsing numbers and formatting them as text (`Types.Numeric`);
- the point-in-polygon test;
- the turf rotation;
- `Math.random`.

## Model

| member | source | states |
|---|---|---|
| FlightData.JsonView | src/hooks/useHistory.ts:15 | what the dedupe serialisation sees: the same state with the selection emptied (a `Set` serialises as `{}`) and each field's unique values emptied; everything else, including field names, types and min/max, unchanged |
| FlightData.JsonEqual | src/hooks/useHistory.ts:15 | states equal under the dedupe comparison have the same points, snapshots, mode, query and headers; states differing only in their selection are equal under it |
| HistoryStore.Timeline.Commit | src/hooks/useHistory.ts:9-28 | a state equal to the current one (under the dedupe equality) leaves the history unchanged; otherwise the entries up to the current one are kept, the redo tail is dropped, and the new state becomes the last and current entry (undo enabled, redo disabled) |
| HistoryStore.Timeline.Overwrite | src/hooks/useHistory.ts:19-22 | only the current entry is replaced; length, index, every other entry and both undo/redo flags are unchanged |
| HistoryStore.Timeline.Undo | src/hooks/useHistory.ts:31-35 | moves the index back by one when there is something to undo, otherwise no change; entries untouched |
| HistoryStore.Timeline.Redo | src/hooks/useHistory.ts:37-41 | moves the index forward by one when there is something to redo, otherwise no change; entries untouched |
| HistoryStore.Reset | src/hooks/useHistory.ts:43-46 | a one-entry history holding the state, with nothing to undo or redo |
| HistoryStore.UndoAfterCommit | src/hooks/useHistory.ts:9-41 | undo right after a real commit returns to the previous state, and redo then restores the committed one |
| HistoryStore.UndoRedoInverse | src/hooks/useHistory.ts:31-41 | undo then redo (and redo then undo) is the identity when enabled |
| HistoryStore.UndoAll | src/hooks/useHistory.ts:9-35 | after n real commits, n undos return to the original current state with the earlier entries intact |
| HistoryStore.CommitAll | src/hooks/useHistory.ts:23-28 | n real commits advance the index by n |
| HistoryStore.UndoTimes | src/hooks/useHistory.ts:31-35 | n undos move the index back by n while it stays non-negative, entries untouched |
| HistoryStore.History.constructor | src/hooks/useHistory.ts:5-7 | the store starts as a one-entry history holding the initial state |
| HistoryStore.History.SetState | src/hooks/useHistory.ts:9-29 | the store's history becomes the overwrite or the commit of the old one, and every entry was there before or is the new state |
| HistoryStore.History.Undo | src/hooks/useHistory.ts:31-35 | the store's history becomes the undo of the old one |
| HistoryStore.History.Redo | src/hooks/useHistory.ts:37-41 | the store's history becomes the redo of the old one |
| HistoryStore.History.ResetHistory | src/hooks/useHistory.ts:43-46 | the store's history becomes the one-entry history of the given state |
| FlightData.IdsMember | src/hooks/useFlightData.ts:8-23 | an id is in the id set exactly when some point carries it |
| FlightData.CoherentMonotone | src/hooks/useFlightData.ts:195-220 | the session invariant survives raising the fresh-id bound |
| FlightData.Filter | src/hooks/useFlightData.ts:222-233 | never more points than given |
| FlightData.FilterMembers | src/hooks/useFlightData.ts:222-233 | keeps exactly the points whose selection membership is the wanted one |
| FlightData.FilterKeepsOrder | src/hooks/useFlightData.ts:222-233 | the kept points are a subsequence of the input, order preserved |
| FlightData.Reverse | src/hooks/useFlightData.ts:528-534 | position i holds the input's position n-1-i |
| FlightData.ReverseInvolutive | src/hooks/useFlightData.ts:528-534 | reversing twice gives the input back |
| FlightData.Shift | src/hooks/useFlightData.ts:264-290 | a moved point keeps its id, extra keys, attributes and whether it has an altitude |
| FlightData.Shifted | src/hooks/useFlightData.ts:264-290 | selected points are moved by the delta, unselected ones are unchanged, ids and order kept |
| FlightData.Spread | src/hooks/useFlightData.ts:235-243 | object spread of a patch over a point: each field the patch has wins, the others are kept |
| FlightData.Clones | src/hooks/useFlightData.ts:195-220 | one copy per selected point, in plan order, with fresh consecutive ids |
| FlightData.IdRange | src/hooks/useFlightData.ts:195-220 | exactly the ids first..first+n-1 |
| FlightData.IdsWhere | src/hooks/useFlightData.ts:418-490 | the ids of the points satisfying a test, all of them present |
| FlightData.IdsWhereSnoc | src/hooks/useFlightData.ts:131-136 | scanning one more point adds its id exactly when it passes the test |
| FlightData.SetSelectionModeAsWritten | src/hooks/useFlightData.ts:77-112 | the mode switch as written: a pending translation or rotation is reverted, the snapshot is taken on entering translate with a selection (rotate likewise), drawing follows polygon mode, the polygon selection and the attribute query are reset, and the selection is otherwise kept |
| FlightData.SetSelectionMode | src/hooks/useFlightData.ts:77-112 | the same switch, except that when points are restored the selection is cut down to the restored points, so it always names present points |
| FlightData.CancelTranslationAsWritten | src/hooks/useFlightData.ts:61-75 | Escape in translate mode as written: back to the saved points, no delta, no snapshot, single mode, selection untouched; every other field of the state unchanged |
| FlightData.CancelTranslation | src/hooks/useFlightData.ts:61-75 | the same, with the selection cut down to the restored points |
| FlightData.Ring | src/hooks/useFlightData.ts:126-128 | the drawn polygon closed by repeating its first vertex |
| FlightData.PointsInPolygon | src/hooks/useFlightData.ts:131-136 | the loop collects exactly the ids of the points the polygon test accepts |
| FlightData.FinishPolygonSelection | src/hooks/useFlightData.ts:114-158 | fewer than three vertices cancels drawing; otherwise the points inside become (or join, in add mode) the selection, the mode becomes batch edit when something is selected, and drawing ends |
| FlightData.PolygonHitCount | src/hooks/useFlightData.ts:114-158 | the reported count is 0 without a polygon, otherwise the number of points inside the closed ring, and never more than the number of points |
| FlightData.SubsetCard | src/hooks/useFlightData.ts:114-158 | a subset has at most as many elements |
| FlightData.TogglePointSelection | src/hooks/useFlightData.ts:160-177 | in add mode the point joins the selection; otherwise clicking the sole selected point clears it and any other click selects just that point; the mode becomes single |
| FlightData.SingletonIs | src/hooks/useFlightData.ts:160-177 | a one-element set containing x is {x} |
| FlightData.SelectAll | src/hooks/useFlightData.ts:179-189 | selecting all selects every point id in mode all; deselecting empties the selection in single mode |
| FlightData.ClearSelection | src/hooks/useFlightData.ts:191-193 | empty selection, single mode, add mode off; every other field of the state unchanged |
| FlightData.DuplicateLoop | src/hooks/useFlightData.ts:195-220 | the loop appends the clones, selects exactly their fresh ids and advances the id supply by their number |
| FlightData.DuplicateSelectedPoints | src/hooks/useFlightData.ts:195-220 | the old points stay in front, followed by one clone per selected point in order with fresh ids, and the clones become the selection |
| FlightData.DeleteSelectedPoints | src/hooks/useFlightData.ts:222-233 | exactly the unselected points remain; selection emptied and add mode off |
| FlightData.UpdatePoint | src/hooks/useFlightData.ts:235-243 | the point with the id receives the patch by spread; all others, and the order and ids, are unchanged |
| FlightData.PatchSelected | src/hooks/useFlightData.ts:245-262 | the point keeps its id; each coordinate the patch carries wins and the others are kept; the top-level keys are those of the point and the patch, and the patch's values win; the attributes are merged with the patch's attributes, which win |
| FlightData.UpdateSelectedPoints | src/hooks/useFlightData.ts:245-262 | every selected point is patched with merged attributes; unselected points are unchanged |
| FlightData.TranslateSelectedPoints | src/hooks/useFlightData.ts:264-290 | without a snapshot nothing changes; otherwise the selected points move by the delta and the running total grows by it |
| FlightData.ApplyTranslation | src/hooks/useFlightData.ts:292-302 | points kept as moved, the snapshot and total dropped, mode back to single; every other field of the state unchanged |
| FlightData.SetTranslationLock | src/hooks/useFlightData.ts:304-315 | only the named axis lock changes |
| FlightData.SetTranslationValue | src/hooks/useFlightData.ts:317-350 | without a snapshot nothing changes; otherwise the axis total becomes the typed value, the other axes keep theirs, and the selected points move by the difference |
| FlightData.Matches | src/hooks/useFlightData.ts:445-468 | a match by `gte`, `lte` or `between` needs a numeric value at the field; `in` needs a non-empty value list; `between` needs both bounds with min ≤ max |
| FlightData.MatchesLaws | src/hooks/useFlightData.ts:449-467 | `neq` matches exactly where `eq` does not; `between` is `gte` the minimum together with `lte` the maximum |
| FlightData.CollectMatches | src/hooks/useFlightData.ts:418-490 | the loop adds to the base set exactly the ids of the points matching the query |
| FlightData.ApplyAttributeSelection | src/hooks/useFlightData.ts:418-490 | without a query nothing changes; otherwise the matching points become (or join) the selection, the query is dropped, and the mode becomes batch edit when something is selected |
| FlightData.ApplyBatchSelection | src/hooks/useFlightData.ts:360-416 | an empty set changes nothing; otherwise the given ids that are present become (or join) the selection in batch-edit mode |
| FlightData.RotateSelectedPoints | src/hooks/useFlightData.ts:496-513 | without a pivot nothing changes; otherwise each selected point takes the rotated position of itself about the pivot and the others are unchanged |
| FlightData.ApplyRotation | src/hooks/useFlightData.ts:515-526 | without a snapshot nothing changes; otherwise the points are kept, snapshot and pivot dropped, mode back to single |
| FlightData.ReverseFlightPoints | src/hooks/useFlightData.ts:528-534 | fewer than two points changes nothing; otherwise position i takes the point from position n-1-i |
| FlightProperties.ShiftCompose | src/hooks/useFlightData.ts:264-290 | moving by d1 then d2 is moving by their sum |
| FlightProperties.ShiftedCompose | src/hooks/useFlightData.ts:264-290 | the same for a whole selection |
| FlightProperties.ShiftedNone | src/hooks/useFlightData.ts:264-290 | moving by the zero delta changes nothing |
| FlightProperties.StepTracks | src/hooks/useFlightData.ts:264-350 | one drag tick or typed value keeps the points equal to the snapshot moved by the running total |
| FlightProperties.RunTracks | src/hooks/useFlightData.ts:264-350 | any sequence of ticks and typed values keeps that relation, the snapshot and the selection |
| FlightProperties.EnterTranslateTracks | src/hooks/useFlightData.ts:77-112 | entering translate mode with a selection establishes the relation with a snapshot of the current points |
| FlightProperties.CancelUndoesTicks | src/hooks/useFlightData.ts:61-75 | after any ticks, Escape restores exactly the snapshot with a zero total |
| FlightProperties.EnterMoveCancel | src/hooks/useFlightData.ts:61-112 | enter translate, move in any way, cancel: the points and selection are back to what they were |
| FlightProperties.SetTranslationValueIdempotent | src/hooks/useFlightData.ts:317-350 | typing the same value twice is the same as once |
| FlightProperties.DeleteAfterDuplicate | src/hooks/useFlightData.ts:195-233 | deleting right after duplicating gives the original points back |
| FlightProperties.FilterAppend | src/hooks/useFlightData.ts:222-233 | filtering distributes over concatenation |
| FlightProperties.FilterKeepsAll | src/hooks/useFlightData.ts:222-233 | filtering keeps a list whose every point passes |
| FlightProperties.FilterDropsAll | src/hooks/useFlightData.ts:222-233 | filtering empties a list whose every point fails |
| FlightProperties.DeleteAfterSelectAll | src/hooks/useFlightData.ts:179-233 | select all then delete leaves no points |
| FlightProperties.DeleteKeepsOrder | src/hooks/useFlightData.ts:222-233 | the surviving points keep their order |
| FlightProperties.ToggleTwice | src/hooks/useFlightData.ts:160-177 | outside add mode, clicking a point twice restores a selection that was empty or just that point |
| FlightProperties.ToggleAddModeIdempotent | src/hooks/useFlightData.ts:160-177 | in add mode a second click on the same point changes nothing |
| FlightProperties.ReverseTwice | src/hooks/useFlightData.ts:528-534 | reversing the flight twice restores the state |
| FlightProperties.UpdatePointIdempotent | src/hooks/useFlightData.ts:235-243 | applying the same point patch twice equals once |
| FlightProperties.UpdateSelectedIdempotent | src/hooks/useFlightData.ts:245-262 | applying the same batch patch twice equals once |
| FlightProperties.SelectionInvisible | src/hooks/useFlightData.ts:8-23 | the history's JSON comparison cannot see the selection (a Set serialises as `{}`) |
| FlightProperties.DuplicateNothingIsDropped | src/hooks/useFlightData.ts:195-220 | duplicating with nothing selected is deduplicated away by the history |
| FlightProperties.SameIdsCoherent | src/hooks/useFlightData.ts:235-262 | an update keeping the id sequence, snapshots and (a subset of) the selection keeps the invariant |
| FlightProperties.SelectionCoherent | src/hooks/useFlightData.ts:160-193 | any selection of present ids keeps the invariant |
| FlightProperties.FilterCoherent | src/hooks/useFlightData.ts:222-233 | filtering keeps ids distinct and below the bound |
| FlightProperties.SubsequenceDistinct | src/hooks/useFlightData.ts:222-233 | a subsequence of a list with distinct ids has distinct ids |
| FlightProperties.SubsequenceElements | src/hooks/useFlightData.ts:222-233 | every element of a subsequence is in the list |
| FlightProperties.DeleteCoherent | src/hooks/useFlightData.ts:222-233 | deleting keeps the invariant |
| FlightProperties.DuplicateCoherent | src/hooks/useFlightData.ts:195-220 | duplicating keeps the invariant with the bound raised by the number of clones |
| FlightProperties.CancelTranslationCoherent | src/hooks/useFlightData.ts:61-75 | the corrected cancel keeps the invariant |
| FlightProperties.SetSelectionModeCoherent | src/hooks/useFlightData.ts:77-112 | the corrected mode switch keeps the invariant |
| FlightProperties.DuplicatedExample | src/hooks/useFlightData.ts:77-112 | a concrete plan after entering translate and duplicating: the clone is selected and the snapshot holds only the original |
| FlightProperties.ExampleIds | src/hooks/useFlightData.ts:8-23 | the example plan has the single id 0 |
| FlightProperties.CancelAfterDuplicateAsWritten | src/hooks/useFlightData.ts:61-75 | as written, Escape then leaves the selection naming a point that no longer exists |
| FlightProperties.LeaveTranslateAfterDuplicateAsWritten | src/hooks/useFlightData.ts:77-112 | as written, switching to single mode does the same |
| FlightProperties.CancelAfterDuplicateCorrected | src/hooks/useFlightData.ts:61-112 | with the corrected functions both ways out keep the invariant for every coherent state |
| FlightProperties.ReverseCoherent | src/hooks/useFlightData.ts:528-534 | reversing keeps the invariant |
| Session.FlightSession.constructor | src/hooks/useFlightData.ts:25-43 | a one-entry history holding the initial state, id supply at 0 |
| Session.FlightSession.CurrentCoherent | src/hooks/useFlightData.ts:42-59 | the current state satisfies the invariant |
| Session.FlightSession.Put | src/hooks/useHistory.ts:9-29 | a coherent state is committed or overwritten, keeping every entry coherent |
| Session.FlightSession.Undo | src/hooks/useHistory.ts:31-35 | the history steps back and stays coherent |
| Session.FlightSession.Redo | src/hooks/useHistory.ts:37-41 | the history steps forward and stays coherent |
| Session.FlightSession.ResetHistory | src/hooks/useHistory.ts:43-46 | the history becomes the given coherent state alone, with the id supply moved to its bound |
| Session.FlightSession.CancelTranslation | src/hooks/useFlightData.ts:61-75 | commits the corrected cancel of the current state |
| Session.FlightSession.SetSelectionMode | src/hooks/useFlightData.ts:77-112 | commits the corrected mode switch of the current state |
| Session.FlightSession.FinishPolygonSelection | src/hooks/useFlightData.ts:114-158 | overwrites with the polygon selection and returns the number of points found |
| Session.FlightSession.TogglePointSelection | src/hooks/useFlightData.ts:160-177 | overwrites with the toggled selection |
| Session.FlightSession.SelectAll | src/hooks/useFlightData.ts:179-189 | overwrites with all or nothing selected |
| Session.FlightSession.ClearSelection | src/hooks/useFlightData.ts:191-193 | overwrites with the cleared selection |
| Session.FlightSession.DuplicateSelectedPoints | src/hooks/useFlightData.ts:195-220 | commits the duplication using fresh ids from the supply, which advances by the number of clones |
| Session.FlightSession.DeleteSelectedPoints | src/hooks/useFlightData.ts:222-233 | commits the deletion |
| Session.FlightSession.UpdatePoint | src/hooks/useFlightData.ts:235-243 | commits the point update |
| Session.FlightSession.UpdateSelectedPoints | src/hooks/useFlightData.ts:245-262 | commits the batch update |
| Session.FlightSession.TranslateSelectedPoints | src/hooks/useFlightData.ts:264-290 | commits the drag tick |
| Session.FlightSession.ApplyTranslation | src/hooks/useFlightData.ts:292-302 | commits the applied translation |
| Session.FlightSession.SetTranslationLock | src/hooks/useFlightData.ts:304-315 | overwrites with the changed lock |
| Session.FlightSession.SetTranslationValue | src/hooks/useFlightData.ts:317-350 | commits the typed translation value |
| Session.FlightSession.SetAttributeQuery | src/hooks/useFlightData.ts:352-354 | commits the state with the new query |
| Session.FlightSession.SetSelectionAddMode | src/hooks/useFlightData.ts:356-358 | overwrites with the new add mode |
| Session.FlightSession.ApplyBatchSelection | src/hooks/useFlightData.ts:360-416 | overwrites with the batch selection |
| Session.FlightSession.ApplyAttributeSelection | src/hooks/useFlightData.ts:418-490 | overwrites with the attribute selection |
| Session.FlightSession.SetRotationCenter | src/hooks/useFlightData.ts:492-494 | overwrites with the new pivot |
| Session.FlightSession.RotateSelectedPoints | src/hooks/useFlightData.ts:496-513 | commits the rotation tick |
| Session.FlightSession.ApplyRotation | src/hooks/useFlightData.ts:515-526 | commits the applied rotation |
| Session.FlightSession.ReverseFlightPoints | src/hooks/useFlightData.ts:528-534 | commits the reversed flight |
| Session.FlightSession.SetIsDrawing | src/hooks/useFlightData.ts:555 | overwrites with the drawing flag |
| Session.FlightSession.SetDrawnPolygon | src/hooks/useFlightData.ts:557 | overwrites with the updated polygon |
| CsvHelpers.PatternsDisjoint | src/lib/csv-helpers.ts:5-9 | no header matches two of the longitude, latitude and altitude patterns |
| CsvHelpers.ParseAndNormalize | src/lib/csv-helpers.ts:11-15 | a missing or blank cell gives no number; a number is the parse of the cell with its first comma read as a decimal point |
| CsvHelpers.DecimalComma | src/lib/csv-helpers.ts:11-15 | "a,b" with no earlier comma parses as "a.b" |
| CsvHelpers.InferFieldType | src/lib/csv-helpers.ts:17-22 | other exactly for a missing or blank value, number exactly when `Number` accepts the comma-normalised text, string otherwise |
| CsvHelpers.Classify | src/lib/csv-helpers.ts:34-47 | number if any sample is numeric, else string if any is text, else other |
| CsvHelpers.SampleTypeLoop | src/lib/csv-helpers.ts:34-47 | the sampling loop yields that classification |
| CsvHelpers.Lowest | src/lib/csv-helpers.ts:50-62 | none when no cell is numeric; otherwise a value present and at most every other |
| CsvHelpers.Highest | src/lib/csv-helpers.ts:50-62 | none when no cell is numeric; otherwise a value present and at least every other |
| CsvHelpers.NumberStats | src/lib/csv-helpers.ts:50-62 | the loop computes that minimum and maximum |
| CsvHelpers.CollectUniqueValues | src/lib/csv-helpers.ts:63-69 | exactly the raw texts the column holds |
| CsvHelpers.Sample | src/lib/csv-helpers.ts:34 | the first min(n, 100) rows |
| CsvHelpers.InferSchema | src/lib/csv-helpers.ts:24-73 | one field per header in order; with no rows every field is other with empty stats |
| CsvHelpers.InferField | src/lib/csv-helpers.ts:24-73 | one header's type and stats, as the schema specifies |
| CsvHelpers.InferSchemaLoop | src/lib/csv-helpers.ts:24-73 | the per-header loop yields the inferred schema |
| CsvHelpers.FieldTypeOf | src/lib/csv-helpers.ts:118 | none when no field has the name, otherwise the type of the first field that does |
| CsvHelpers.RowAttributes | src/lib/csv-helpers.ts:116-131 | an attribute for every key of the row: the parsed number (or null) in a number column, the raw text elsewhere |
| CsvHelpers.CopyRowAttributes | src/lib/csv-helpers.ts:116-131 | the loop over the row's keys builds those attributes |
| CsvHelpers.ImportAttributes | src/lib/csv-helpers.ts:112-139 | the row's attributes plus the mapped columns, with the coordinates stored as the parsed numbers when the columns are distinct |
| CsvHelpers.ImportAttributesRoles | src/lib/csv-helpers.ts:112-130 | a mapped gimbal-pitch column holds its parsed number, or null when the cell does not parse; so do heading and altitude columns unless a later role overwrote the same column |
| CsvHelpers.SetIfMapped | src/lib/csv-helpers.ts:112-139 | a truthy column name gets the value, everything else is untouched |
| CsvHelpers.OptionalValue | src/lib/csv-helpers.ts:112-138 | 0 for an unmapped role or a cell that does not parse, otherwise the cell's parsed number |
| CsvHelpers.Orientation | src/lib/csv-helpers.ts:132-140 | the point's own keys are exactly heading and gimbalPitch, each the optional value of its column |
| CsvHelpers.RowPoint | src/lib/csv-helpers.ts:102-145 | a valid row becomes a point with the given id, parsed in-range coordinates and the imported attributes; its altitude, heading and gimbal pitch are the optional values of their columns |
| CsvHelpers.ValidRows | src/lib/csv-helpers.ts:102-111 | only rows with parseable in-range latitude and longitude survive |
| CsvHelpers.ValidRowsMembers | src/lib/csv-helpers.ts:102-111 | a row survives exactly when it is in the input and valid |
| CsvHelpers.BuildPoints | src/lib/csv-helpers.ts:102-145 | one point per row with valid coordinates, never more points than rows |
| CsvHelpers.BuildPointsAt | src/lib/csv-helpers.ts:102-145 | the k-th point is the point the k-th valid row becomes, with id `firstId + k` |
| CsvHelpers.BuildPointsRows | src/lib/csv-helpers.ts:102-145 | invalid rows are dropped and the order kept: every point is its valid row's point, with consecutive ids and coordinates in range |
| CsvHelpers.ParseCsv | src/lib/csv-helpers.ts:76-150 | a missing latitude or longitude mapping is one error, a mapping naming no header another; otherwise the headers, the inferred schema and the points of the valid rows |
| CsvHelpers.LastMatching | src/lib/csv-helpers.ts:157-162 | none exactly when no header matches, otherwise the last header that does |
| CsvHelpers.CoordinateColumnsDistinct | src/lib/csv-helpers.ts:157-162 | the export columns match their patterns, are headers and are pairwise different |
| CsvHelpers.ChooseColumns | src/lib/csv-helpers.ts:157-162 | the header loop picks those columns |
| CsvHelpers.ExportRecord | src/lib/csv-helpers.ts:164-170 | the attributes overlaid with the point's coordinates in the chosen columns, with a blank altitude when there is none |
| CsvHelpers.OrderRow | src/lib/csv-helpers.ts:171-174 | the loop lays the record out in header order |
| CsvHelpers.ExportRow | src/lib/csv-helpers.ts:164-176 | one cell per header |
| CsvHelpers.ExportRowCells | src/lib/csv-helpers.ts:155-178 | a coordinate column holds the point's coordinate and any other header its attribute |
| CsvHelpers.ExportAfterImport | src/lib/csv-helpers.ts:76-178 | import then export writes the numbers read from the row back into its coordinate columns, and an unmapped text column unchanged |
| CsvHelpers.GenerateCsv | src/lib/csv-helpers.ts:155-178 | one row per point, in order |
| AttributeSelection.InputNumber | src/components/AttributePanel.tsx:38-44 | a seeded number reads back as itself |
| AttributeSelection.NumberValue | src/components/AttributePanel.tsx:43 | a number exactly when the text parses, and then that number |
| AttributeSelection.BuildQuery | src/components/AttributePanel.tsx:32-54 | no query without a field or for an other-typed field; otherwise field and operator, with bounds for between, numeric value on numbers, chosen texts for in, text value otherwise |
| AttributeSelection.ApplyEnabledIffComplete | src/components/AttributePanel.tsx:79-92 | apply is enabled exactly when the published query is complete |
| AttributeSelection.FindField | src/components/AttributePanel.tsx:57-58 | none when no schema field has the name, otherwise the first field with it, as `find` returns |
| AttributeSelection.FieldChange | src/components/AttributePanel.tsx:57-66 | the field is looked up, the inputs reset, the bounds seeded from the statistics and the operator set to between or in |
| AttributeSelection.FieldChangeQuery | src/components/AttributePanel.tsx:32-92 | a numeric field with statistics gives an applicable between query over its range; a text field gives an empty in query that cannot be applied |
| AttributeSelection.ToggleValue | src/components/AttributePanel.tsx:67-77 | exactly the clicked value changes membership |
| AttributeSelection.ToggleValueTwice | src/components/AttributePanel.tsx:67-77 | toggling twice restores the set |
| AttributeSelection.RangeIds | src/components/AttributePanel.tsx:203-230 | exactly the ids at 1-based positions within [min, max] |
| AttributeSelection.CalculateIdsFromRange | src/components/AttributePanel.tsx:203-230 | the clamped loop computes those ids |
| AttributeSelection.PositionIdsSnoc | src/components/AttributePanel.tsx:219-226 | one more position adds that point's id |
| AttributeSelection.PositionIdsClip | src/components/AttributePanel.tsx:208-217 | clamping the bounds to the plan changes nothing |
| AttributeSelection.RangeIdsEmpty | src/components/AttributePanel.tsx:203-230 | an inverted or out-of-plan range selects nothing |
| AttributeSelection.PositionIdsCount | src/components/AttributePanel.tsx:203-230 | with distinct ids, a window of positions has as many ids as positions |
| AttributeSelection.RangeIdsCount | src/components/AttributePanel.tsx:203-230 | a range a..b inside the plan selects b-a+1 points |
| AttributeSelection.RangeInput | src/components/AttributePanel.tsx:248-260 | non-integer text is ignored; a new minimum is clamped into [1, max] (1 below the range, max above it) and a new maximum into [min, n] (min below the range, n above it); the other bound is kept |
| AttributeSelection.RangeInputKeepsOrder | src/components/AttributePanel.tsx:248-260 | a well-formed range stays well-formed |
| AttributeSelection.RangeApply | src/components/AttributePanel.tsx:262-278 | nothing when the range holds no point, otherwise its ids |
| AttributeSelection.RangeApplySelects | src/components/AttributePanel.tsx:262-278 | applying selects exactly the points in the range, in batch-edit mode |
| PointEditing.AttributeEntries | src/components/AttributePanel.tsx:432-458 | every filled-in non-coordinate box becomes a text attribute |
| PointEditing.ReadEntry | src/components/AttributePanel.tsx:436-448 | one more box read extends what was collected |
| PointEditing.BatchUpdate | src/components/AttributePanel.tsx:432-458 | no patch exactly when no coordinate box parses and no attribute box is filled; otherwise a patch without id or top-level keys, carrying the parsed lat/lon/alt and, when any attribute box is filled, those attributes |
| PointEditing.ApplyBatchUpdate | src/components/AttributePanel.tsx:432-458 | the loop builds the batch patch, or none when nothing is left |
| PointEditing.BatchUpdateEffect | src/components/AttributePanel.tsx:432-458 | selected points take the parsed coordinates and typed attributes and keep the rest; unselected points are untouched |
| PointEditing.BatchUpdateNone | src/components/AttributePanel.tsx:432-458 | nothing is sent exactly when every filled box is a coordinate that does not parse |
| PointEditing.StartEdit | src/components/AttributePanel.tsx:389-394 | the record holds the point's id, coordinates and flattened attributes (the point's own keys win), with no attributes key |
| PointEditing.InputChange | src/components/AttributePanel.tsx:408-414 | a coordinate box stores the parsed number or 0, any other box its text |
| PointEditing.AttributeChange | src/components/AttributePanel.tsx:415-423 | one key of the record's attributes is set on top of the attributes it already holds |
| PointEditing.Save | src/components/AttributePanel.tsx:395-402 | sends the record for the edited id and clears the form; does nothing when no point is being edited |
| PointEditing.Cancel | src/components/AttributePanel.tsx:403-407 | clears the form |
| PointEditing.SaveUnchanged | src/components/core/AttributePanel.tsx:50-63 | edit then save without changes keeps position and attributes |
| PointEditing.AttributeEditAsWritten | src/components/AttributePanel.tsx:389-423 | as written, editing one attribute and saving leaves only that attribute |
| PointEditing.AttributeEditLosesAttributes | src/components/core/AttributePanel.tsx:50-84 | a concrete point loses its other attribute |
| PointEditing.StartEditCorrected | src/components/core/AttributePanel.tsx:50-55 | the record also carries the point's attributes |
| PointEditing.AttributeEditCorrected | src/components/core/AttributePanel.tsx:50-84 | with the corrected start, the save changes only that attribute |
| GeoEditor.KeyCommands | src/components/GeoEditor.tsx:391-417 | Escape leaves drawing, cancels a translation, or (full screen) leaves rotate mode; Ctrl/Cmd+Z undoes and Ctrl/Cmd+Y redoes exactly then; Delete deletes exactly when something is selected; other keys do nothing |
| GeoEditor.EscapeRevertsTranslation | src/components/core/GeoEditor.tsx:191-215 | Escape during a translation restores the saved points in single mode |
| GeoEditor.EscapeRevertsRotation | src/components/GeoEditor.tsx:391-401 | on the full screen Escape during a rotation restores the saved points; the simpler screen ignores it |
| GeoEditor.MapClick | src/components/GeoEditor.tsx:289-326 | ignored mid-drag; in single mode a hit toggles and a miss clears unless in add mode; while drawing it adds a vertex; in rotate mode without a pivot it sets the pivot |
| GeoEditor.CorePointClick | src/components/core/GeoEditor.tsx:99-110 | the point handler toggles the point unless drawing; its map panel never attaches it (see Findings) |
| GeoEditor.CoreMapClick | src/components/core/GeoEditor.tsx:110-133 | the only attached click handler: ignored mid-drag or on a point; otherwise clears a single-mode selection and adds a vertex while drawing |
| GeoEditor.CoreClickOnPoint | src/components/core/MapPanel.tsx:182-184 | as wired, a click on a point issues no command, so it selects nothing |
| GeoEditor.CoreClick | src/components/core/GeoEditor.tsx:99-133 | the intended dispatch: a point click toggles the point unless drawing; an empty-map click clears a non-empty single-mode selection and adds a vertex while drawing |
| GeoEditor.CoreClickSelects | src/components/core/GeoEditor.tsx:99-110 | with the intended dispatch, outside drawing a click on an unselected point selects it in single mode, and in add mode adds it to the selection |
| GeoEditor.ApplyClick | src/components/GeoEditor.tsx:289-326 | a click command never changes the points or the snapshots |
| GeoEditor.ClicksKeepPoints | src/components/GeoEditor.tsx:285-326 | no click, on either screen, moves or removes a point |
| GeoEditor.DragController.constructor | src/components/GeoEditor.tsx:329-372 | no drag in progress and no drag origin |
| GeoEditor.DragController.MouseDown | src/components/GeoEditor.tsx:329-340 | in translate mode with a selection a translate drag starts at the pointer; in rotate mode with a pivot (full screen) a rotate drag starts |
| GeoEditor.DragController.MouseMove | src/components/GeoEditor.tsx:342-358 | a translate drag sends the lock-zeroed delta since the last tick and moves its origin to the pointer, and the deltas sent add up to the displacement from the start; a rotate drag sends movementX times the sensitivity |
| GeoEditor.DragController.MouseUp | src/components/GeoEditor.tsx:360-372 | both drags end; a rotate drag commits the rotation |
| GeoEditor.DragTicks | src/components/GeoEditor.tsx:342-358 | one delta per pointer move |
| GeoEditor.DragTelescopes | src/components/GeoEditor.tsx:342-358 | the deltas of a drag sum to the end-minus-start displacement on the unlocked axes, plus the altitude climb |
| GeoEditor.Moves | src/components/GeoEditor.tsx:352 | one translation tick per delta |
| GeoEditor.RunMovesAdds | src/hooks/useFlightData.ts:264-290 | applying the ticks adds their sum to the running total |
| GeoEditor.DragMovesByDisplacement | src/components/GeoEditor.tsx:342-358 | a whole drag moves the selected points from the snapshot by exactly the drag's displacement, whatever path the pointer took |
| GeoEditor.ImportState | src/components/GeoEditor.tsx:428-455 | the parsed points, headers and schema, with nothing selected, drawn, saved, locked, queried or pivoted |
| GeoEditor.CoreImportState | src/components/core/GeoEditor.tsx:226-255 | the same with no schema fields, because the fields left undefined read as empty |
| GeoEditor.ImportOutcome | src/components/GeoEditor.tsx:428-455 | a parse error leaves the history alone; a parsed file gives the state to reset to |
| GeoEditor.ImportCoherent | src/components/GeoEditor.tsx:428-455 | the imported state satisfies the session invariant |
| GeoEditor.Export | src/components/GeoEditor.tsx:457-469 | refused exactly when there are no points; otherwise the export rows of the points under the original headers |
| GeoEditor.NextViewMode | src/components/GeoEditor.tsx:485-491 | always a different mode |
| GeoEditor.ViewModeCycle | src/components/core/GeoEditor.tsx:285-291 | three presses come back to the start, two do not |
| GeoEditor.Pow2 | src/components/GeoEditor.tsx:125 | a power of two is positive |
| GeoEditor.ShiftLeft32 | src/components/GeoEditor.tsx:125 | `1 << z` is 2^(z mod 32), negative for z mod 32 = 31 |
| GeoEditor.ReplaceTemplate | src/components/GeoEditor.tsx:124-132 | a template without placeholders is returned unchanged |
| GeoEditor.ReplaceTemplateFlipped | src/components/GeoEditor.tsx:124-132 | a template `a{z}b{x}c{-y}d` with no other braces becomes `a`, the zoom, `b`, the column, `c`, `(1 << z) - 1 - y`, `d` |
| GeoEditor.ReplaceTemplatePlain | src/components/GeoEditor.tsx:124-132 | a template `a{z}b{x}c{y}d` with no other braces becomes `a`, the zoom, `b`, the column, `c`, the row, `d` |
| GeoEditor.FlipYOnGrid | src/components/GeoEditor.tsx:124-132 | for zoom below 31 the flipped row stays on the grid and flipping twice gives it back |
| GeoEditor.ShiftWraps | src/components/GeoEditor.tsx:125 | the shift count wraps at 32, and 31 gives a negative grid size |
| ImportDialog.FirstMatching | src/components/ImportDialog.tsx:45-55 | none exactly when no header matches, otherwise the first header that does |
| ImportDialog.FirstMatchingSnoc | src/components/ImportDialog.tsx:47-53 | one more header changes the first match only when there was none |
| ImportDialog.Detected | src/components/ImportDialog.tsx:45-55 | each proposed column is a header matching its role's pattern (for gimbal pitch: both words on one line, as `.*` does not cross a line terminator) |
| ImportDialog.GimbalPitchSpaced | src/components/ImportDialog.tsx:52 | `Gimbal Pitch` matches the gimbal-pitch pattern |
| ImportDialog.GimbalPitchLineBreak | src/components/ImportDialog.tsx:52 | `Gimbal⏎Pitch` does not match it, as `.` does not match a line break |
| ImportDialog.PatternsNeedText | src/components/ImportDialog.tsx:45-55 | no pattern matches the empty header |
| ImportDialog.AutoDetectColumns | src/components/ImportDialog.tsx:45-55 | the loop proposes, per role, the first matching header |
| ImportDialog.FallbackHeaders | src/components/ImportDialog.tsx:62-67 | col_1 … col_n |
| ImportDialog.FallbackHeadersDistinct | src/components/ImportDialog.tsx:62-67 | the invented names are pairwise different |
| ImportDialog.DialogHeaders | src/components/ImportDialog.tsx:57-72 | the headers meant to be offered: the file's own, or invented ones for each cell of the first row (the source's fallback never gets there; see Findings) |
| ImportDialog.FallbackDetectsNoCoordinates | src/components/ImportDialog.tsx:57-72 | a file without headers gets no coordinate column proposed |
| ImportDialog.LoadFileAsWritten | src/components/ImportDialog.tsx:57-72 | a file with a non-empty header list replaces the headers and the detected mapping; a file with no non-blank row (empty or whitespace-only) leaves the dialog as it was, because the fallback throws a TypeError in the parse callback |
| ImportDialog.LoadFile | src/components/ImportDialog.tsx:57-72 | the intended loading: the offered headers and the mapping detected from them, with nothing kept from the previous file |
| ImportDialog.StaleMappingAsWritten | src/components/ImportDialog.tsx:57-72 | in a dialog kept mounted across files, after a `lat, lon` file, a file with no non-blank row still offers and submits `lat` and `lon` |
| ImportDialog.LoadFileWithoutHeaders | src/components/ImportDialog.tsx:57-85 | with the intended loading, a file with no non-blank row offers one name per first-row cell, and submitting its proposal is refused |
| ImportDialog.MappingChange | src/components/ImportDialog.tsx:74-76 | the chosen role takes the column, or is unset by `none`; the others are unchanged |
| ImportDialog.MappingChangeLaws | src/components/ImportDialog.tsx:74-76 | re-choosing the current column changes nothing, and the later choice wins |
| ImportDialog.Submit | src/components/ImportDialog.tsx:78-85 | refused exactly when latitude or longitude is unset; otherwise the mapping is handed on unchanged |
| ImportDialog.SubmitDetected | src/components/ImportDialog.tsx:45-85 | submitting the proposal succeeds exactly when some header looks like a latitude and some like a longitude |
| ImportDialog.DetectedCoordinatesDistinct | src/components/ImportDialog.tsx:45-55 | the proposal gives latitude, longitude and altitude different columns |
| ImportDialog.CoordinateLetters | src/lib/csv-helpers.ts:6-7 | the coordinate spellings contain neither h nor m |
| ImportDialog.CoordinateNotOrientation | src/components/ImportDialog.tsx:45-55 | a coordinate header never matches the heading or gimbal-pitch pattern |
| ImportDialog.DetectedDistinct | src/components/ImportDialog.tsx:45-55 | the proposal meets the distinct-columns condition of the import round trip |
| Uuid.HexDigit | src/lib/uuid.ts:14 | a lower-case hex digit |
| Uuid.DigitValue | src/lib/uuid.ts:14 | the value of a hex digit, below 16, inverse of HexDigit |
| Uuid.ByteHex | src/lib/uuid.ts:14 | two hex digits whose value is the byte |
| Uuid.Hex | src/lib/uuid.ts:14-15 | two hex digits per byte, in order |
| Uuid.Unhex | src/lib/uuid.ts:14-15 | half as many bytes as digits |
| Uuid.ByteHexRoundTrip | src/lib/uuid.ts:14 | reading a byte's two digits gives the byte |
| Uuid.UnhexHex | src/lib/uuid.ts:14-15 | reading the hex text of bytes gives the bytes back |
| Uuid.VersionMask | src/lib/uuid.ts:12 | `(b & 0x0f) \| 0x40` is the low nibble plus 64 |
| Uuid.VariantMask | src/lib/uuid.ts:13 | `(b & 0x3f) \| 0x80` is the low six bits plus 128 |
| Uuid.VersionBits | src/lib/uuid.ts:12-13 | byte 6 gets version nibble 4 and byte 8 variant bits 10, their other bits and all other bytes kept |
| Uuid.VersionBitsIdempotent | src/lib/uuid.ts:12-13 | masking twice is masking once |
| Uuid.SetVersionBits | src/lib/uuid.ts:12-13 | the array is masked in place |
| Uuid.Group | src/lib/uuid.ts:16 | 32 hex digits become 36 characters |
| Uuid.UngroupGroup | src/lib/uuid.ts:16 | removing the dashes gives the digits back |
| Uuid.GroupAt | src/lib/uuid.ts:16 | dashes at positions 8, 13, 18 and 23, digits elsewhere in order |
| Uuid.FromBytesIsV4 | src/lib/uuid.ts:8-17 | the result is a version 4 UUID whose digits encode the masked bytes |
| Uuid.Xs | src/lib/uuid.ts:20 | n copies of x |
| Uuid.Nibble | src/lib/uuid.ts:21 | `(r * 16) \| 0` is below 16 |
| Uuid.Replacement | src/lib/uuid.ts:21-23 | a hex digit, one of 8, 9, a, b for the y position |
| Uuid.Fill | src/lib/uuid.ts:20-24 | each x becomes a hex digit, y one of 8 9 a b, other characters kept |
| Uuid.FallbackIsV4 | src/lib/uuid.ts:20-24 | the fallback text is a version 4 UUID |
| Uuid.RandomId | src/lib/uuid.ts:1-25 | the native UUID when available; otherwise the random bytes masked in place and formatted, or the fallback; a version 4 UUID in both generated cases |
| CsvParser.NumberOrZero | src/lib/csvParser.ts:34-41 | a number is itself; missing, null, NaN or boolean give 0 |
| CsvParser.Kept | src/lib/csvParser.ts:33 | exactly the rows whose latitude and longitude are not null |
| CsvParser.KeptAppend | src/lib/csvParser.ts:33 | the filter distributes over concatenation, keeping order |
| CsvParser.RowPoint | src/lib/csvParser.ts:34-41 | the three coordinates parsed or 0, overridden by every field of the row |
| CsvParser.ParseFlightCsv | src/lib/csvParser.ts:20-56 | the header list (or none) and one point per kept row, in order |
| CsvParser.ParsedPointsHaveCoordinates | src/lib/csvParser.ts:20-56 | every point has non-null coordinates and keeps every field of its row |
| CsvParser.PositionOf | src/lib/csvParser.ts:73-77 | longitude, latitude, altitude, in that order |
| CsvParser.WaypointProperties | src/lib/csvParser.ts:88-92 | every field of the point, and id the 1-based index unless the point has one |
| CsvParser.PointsToGeoJson | src/lib/csvParser.ts:63-101 | one line position and one waypoint per point, in order, the waypoint at the line's position |
| CsvParser.ParsedGeoJson | src/lib/csvParser.ts:20-101 | row i gives line position i and waypoint i, with the row's coordinates or 0 and id i+1 when the row has none |
| GenerateAssets.Set | scripts/generate-assets.mjs:22-25 | each flag sets exactly its own argument |
| GenerateAssets.Landing | scripts/generate-assets.mjs:20-26 | the scan never moves backwards |
| GenerateAssets.ParseArgs | scripts/generate-assets.mjs:18-28 | the loop from index 2 computes the scan's result from the defaults |
| GenerateAssets.NoArguments | scripts/generate-assets.mjs:19 | no arguments give the defaults |
| GenerateAssets.ScanAppend | scripts/generate-assets.mjs:20-26 | scanning a concatenation continues from where the first part ended |
| GenerateAssets.FlagThenValue | scripts/generate-assets.mjs:22-25 | a flag followed by a value sets it |
| GenerateAssets.TrailingFlag | scripts/generate-assets.mjs:22-25 | a trailing flag sets its argument to undefined |
| GenerateAssets.OtherTokenSkipped | scripts/generate-assets.mjs:20-26 | any other token is skipped |
| GenerateAssets.ValueNotRescanned | scripts/generate-assets.mjs:22-25 | a value that looks like a flag is consumed as the value |
| Strings.Lower | src/lib/csv-helpers.ts:5-9 | case folding of ASCII letters, position by position, as the `/i` patterns compare |
| Strings.IndexOf | src/components/GeoEditor.tsx:126 | the first occurrence of the pattern, none exactly when there is none |
| Strings.ReplaceFirst | src/lib/csv-helpers.ts:13 | the first occurrence is replaced; without one the text is unchanged |
| Strings.NatTextRoundTrip | src/components/ImportDialog.tsx:66 | the decimal text of n reads back as n |
| Strings.NatTextInjective | src/components/ImportDialog.tsx:66 | different numbers have different decimal texts |

## Left out

- Geometry is given as function parameters rather than computed:
  - turf's `booleanPointInPolygon` in `finishPolygonSelection`;
  - turf's rotation about the pivot in `rotateSelectedPoints`.
- JavaScript number parsing and formatting are oracles in `Types.Numeric`: `parseFloat`, `Number`, `parseInt` and `String(number)`. Floating point is modelled as exact reals.
- Papa Parse is not part of this model. Rows arrive as maps from header to text, and the header list as a sequence.
- The CSV text writer is not part of this model. `generateCsv` is modelled up to the ordered rows of cells, not the quoting or the text form.
- Ids are naturals drawn from a counter in `Session.FlightSession`, not `randomId` strings. The UUID generator is modelled separately in `Uuid`, with its entropy as parameters:
  - the native UUID;
  - the random bytes;
  - the `Math.random` draws.
- React mechanics are left out:
  - hooks, re-rendering and stale closures;
  - toasts, console output and cursor styles;
  - the file input and download.
- Map rendering is left out. Hit testing is an input: a click carries the id of the point under the pointer, if any.
- The map-missing early return is left out.
- A drag event's `originalEvent` is taken to be present.
- The offline tile cache is left out, except `replaceTemplate`. Its template text, tile count and storage are I/O.
- The slider handler of the range selector is left out. It sets both bounds directly, with no check.
- The context-menu polygon finish is left out. It calls the same `finishPolygonSelection` as the toolbar.
- The AI smart defaults, local storage, IndexedDB, the service worker, the PWA setup and the asset images are left out. They are not part of the editing engine.
- The simpler screen resets the history with only nine fields. `GeoEditor.CoreImportState` reads the missing ones as their defaults:
  - no schema fields, query, pivot or rotation snapshot;
  - add mode off.
- `pointsToGeoJSON` writes `altitude: undefined` for a point without one. In the model that key is absent.
- PointEditing.InputChange: the boxes named `id` and `attributes` are not modelled (it requires the field to be neither). The form never offers them.
- Session.FlightSession.TogglePointSelection requires the id to be in the plan. Ids come from clicked rendered points.
- CsvParser.NumberOrZero: a number cell is taken as itself. The source computes `parseFloat(String(n))`, which is the same number for every finite value.
- GeoEditor.ReplaceTemplate: the substitution is proved for templates with no placeholder (unchanged) and for `{z}`, `{x}`, then `{y}` or `{-y}`, each once and with no other `{`. Templates that repeat a placeholder or order them differently are not covered by a lemma.
- ImportDialog.DialogHeaders: the length of the first row is taken as given. The header-row parse skips blank lines, so its header list is empty only for a file with no non-blank row, and then the intended fallback invents no names either.
- PointEditing.StartEdit: an attribute named `attributes`, and an attribute named `alt` on a point with no altitude of its own, are dropped from the edit record. JavaScript's spread keeps them, and a save then writes that cell over the point's `attributes` or `alt`. The edit record's typed `attributes` and `alt` fields cannot hold a cell value.
- FlightData.JsonView: `JSON.stringify` also writes NaN as `null` and depends on the order in which keys were inserted. The model compares values, so it treats a NaN and a `null` as different and ignores key order.
- GeoEditor.DragController.MouseMove: the displacement law holds only while the axis locks do not change mid-drag. A lock change breaks the sum, as in the source.

## Findings

| source | as written | input that shows it | evidently intended | confidence | as-written member | corrected member |
|---|---|---|---|---|---|---|
| src/hooks/useFlightData.ts:61-112 | leaving translate mode (Escape or a mode switch) restores the saved points but keeps the selection | a plan with one point selected; enter translate mode, duplicate (the clone becomes the selection), press Escape: the selection names the removed clone | the selection names only points of the restored plan | not executed | FlightProperties.CancelAfterDuplicateAsWritten | FlightProperties.CancelAfterDuplicateCorrected |
| src/components/AttributePanel.tsx:389-423 | `handleEdit` flattens the attributes into the edit record without an `attributes` key, so `handleAttributeChange` builds `attributes` from one key and the save replaces the point's attributes with it | a point with attributes name and speed; edit, change name, save: speed is gone | an attribute edit changes that attribute and keeps the others | not executed | PointEditing.AttributeEditLosesAttributes | PointEditing.AttributeEditCorrected |
| src/components/ImportDialog.tsx:57-72 | for an empty or whitespace-only file the header list is empty, and the fallback calls `Papa.parse(file, …)` with no `complete` callback; the parser returns nothing for a file, so `alt.data` throws a TypeError in the parse callback before `setHeaders`. Both editors mount a fresh dialog per file (src/components/GeoEditor.tsx:660-670, src/components/core/GeoEditor.tsx:440-446), so there the TypeError is the only observable effect; a dialog kept mounted across files keeps the previous file's headers and mapping | in a dialog kept mounted, load a file with headers `lat, lon`, then an empty file: `lat` and `lon` are still offered, and submitting sends them | an empty or whitespace-only file gets only its own (here no) column names, no exception and no stale mapping | not executed | ImportDialog.StaleMappingAsWritten | ImportDialog.LoadFileWithoutHeaders |
| src/components/core/MapPanel.tsx:73-184 | the simpler screen (the one src/app/page.tsx renders) passes `handlePointClick` as `onPointClick`, but its map panel never attaches it: the map's only click handler is `onClick={onMapClick}`, and `handleMapClick` returns on any hit on `points-layer` (src/components/core/GeoEditor.tsx:118-120) | with nothing selected, click a point: it stays unselected, since no click on the map selects a point | a click on a point toggles it, as `handlePointClick` does | not executed | GeoEditor.CoreClickOnPoint | GeoEditor.CoreClickSelects |
