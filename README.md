# Football training planner — a Dafny model of its core

The football training planner is a browser editor for drawing training exercises on a
football pitch. Players, goals, cones and other equipment are placed as elements.
Arrows, curves, zones and text notes are drawn over them. Elements can carry keyframes
and be animated. A server side imports a written training plan, lays the material out
on the pitch, and exports the plan as a PDF or an animated GIF.

This project models the logic of that system in Dafny and proves what its code promises:

- **Scene types** (`types.dfy`, module `SceneTypes`): the closed unions of element types,
  drawing types, tool modes and field types, and the display names.
- **Scene store** (`sceneops.dfy`, `keyframes.dfy`, `concept.dfy`, `store.dfy`): the editor
  state is the class `SceneStore.Store`. It covers element and drawing edits with one shared
  id counter, z-order moves, sorted keyframe insertion with near-duplicate replacement, and
  smoothstep interpolation. It also covers snapshot undo/redo bounded to 50 entries,
  switching between exercises, importing a plan with dense renumbering, and the training
  concept editor. The list operations are pure functions in `SceneOps`, `Keyframes` and
  `ConceptOps`.
- **Hit-testing** (`hittest.dfy`): the topmost-first element scan with its type-dependent
  radius, point-to-segment distance (compared squared), and the drawing scan.
- **Canvas mouse state machine** (`canvas.dfy`, class `Canvas.CanvasController`): the drag state
  and the drawing draft, mouse down/move/up, double-click editing, drop, the field↔screen
  mapping, and the visibility window of animated elements.
- **Playback clock** (`playback.dfy`, class `Playback.PlaybackController`): play, stop,
  rewind, step, one animation tick per call with its timestamp, and the keyboard actions.
- **Auto-placement** (`placement.dfy`): players by team and row, goals, cones, balls and
  generic material, with per-type caps and the field choice.
- **Training-plan parser** (`parser.dfy`, module `TrainingPlan`): line normalisation,
  sectioning by headers, phase building, material counting, field-size selection,
  defaults and fallbacks, and the split into one result per training phase.
- **PDF export helpers** (`pdfexport.dfy`): HTML escaping with its decoding inverse, the
  material table, and the blank filtering of lists.
- **GIF89a encoder** (`lzw.dfy`, `gif.dfy`, `videoexport.dfy`): the 12-bit palette quantiser,
  variable-length-code LZW (GIF89a Appendix F) with least-significant-bit-first packing,
  data sub-blocks (GIF89a section 15), and the header, screen descriptor, trailer and
  little-endian shorts (GIF89a sections 17, 18 and 27). The encoder is the class
  `Gif.GifEncoder`. A reader for the produced stream (`Gif.ReadGif`) is the partner that
  the round trip is proved against. `VideoExport` holds the export frame schedule and the
  per-frame visibility.

Coordinates and times are `real`. JavaScript's `NaN` is modelled where the code can
produce it: an unset time is `Option<real>` and every comparison with it is false.
`Math.round(x)` is `(x + 0.5).Floor` and `Math.ceil(x)` is `-((-x).Floor)`.

## Model

| member | source | states |
|---|---|---|
| Text.NatToString | server/src/services/element-placement.ts:45 | `String(n)` of a count is a non-empty run of decimal digits |
| Text.ParseNatToString | server/src/services/element-placement.ts:45 | reading the digits of `String(n)` back gives `n` |
| Text.NatToStringNoLeadingZero | client/src/components/FieldCanvas.tsx:359 | `String(n)` starts with '0' exactly when `n` is 0 |
| Text.TrimStartMeaning | server/src/services/training-plan-parser.ts:82 | the leading part of `trim` removes exactly the leading white space and stops at a non-space |
| Text.TrimEndMeaning | server/src/services/training-plan-parser.ts:82 | the trailing part of `trim` removes exactly the trailing white space and stops at a non-space |
| Text.BlankIffAllSpace | server/src/services/training-plan-parser.ts:104 | `l.trim()` is empty (falsy) exactly when every character of `l` is white space |
| Text.TrimTwice | server/src/services/training-plan-parser.ts:165 | trimming is idempotent |
| Text.NonBlankMeaning | server/src/services/training-plan-parser.ts:104 | `filter(l => l.trim())` keeps exactly the non-blank lines |
| Text.Split | server/src/services/training-plan-parser.ts:172 | `split(/[,;]/)` gives at least one part and no part holds a separator (the runs themselves: `SplitRuns`) |
| Text.SplitRuns | server/src/services/training-plan-parser.ts:172 | for any separator set the parts are the separator-free runs in order: one more part than separators, and the parts with the separators put back between them rebuild the input |
| Text.Utf16Length | server/src/services/training-plan-parser.ts:99 | JavaScript's `length`: at least one code unit and at most two per character |
| Text.Utf16LengthBmp | server/src/services/training-plan-parser.ts:99 | the code-unit count equals the character count exactly when no character lies above U+FFFF |
| Text.Utf16LengthExample | server/src/services/training-plan-parser.ts:99 | `"A😀"` has two characters but three code units |
| Text.JoinSplit | server/src/services/training-plan-parser.ts:77 | splitting on `'\n'` and joining with `'\n'` gives the text back |
| Text.FirstNumber | server/src/services/training-plan-parser.ts:179-180 | `match(/(\d+)/)` finds no number exactly when the string holds no digit |
| Text.DigitRun | server/src/services/training-plan-parser.ts:179 | the matched run is the longest digit prefix at its position |
| SceneTypes.ParseElementType | client/src/types/index.ts:1-5 | a tag read back names a kind whose tag is that string |
| SceneTypes.ParseTypeTag | client/src/types/index.ts:1-5 | each kind's tag reads back as that kind |
| SceneTypes.ElementTypeClosed | client/src/types/index.ts:1-5 | exactly fifteen distinct kinds with pairwise distinct tags |
| SceneTypes.PlayerTagExactly | client/src/components/FieldCanvas.tsx:352 | `type.startsWith('player')` holds exactly for the three field-player kinds |
| SceneTypes.GoalTagExactly | client/src/utils/renderer.ts:747 | `type.includes('goal')` holds for the three goals and also for `goalkeeper` |
| SceneTypes.ToolModeClosed | client/src/types/index.ts:7-9 | a tool mode is `select` or one of five drawing kinds, six in all |
| SceneTypes.HalfFieldExactly | client/src/components/FieldCanvas.tsx:26 | `fieldType.includes('half')` holds exactly for the two half-pitch types |
| SceneTypes.GreenFieldExactly | client/src/utils/renderer.ts:22 | `fieldType.includes('green')` holds exactly for the two green types |
| SceneTypes.FieldTypeCombinations | client/src/types/index.ts:11 | each field type is one distinct combination of half/full with green/white |
| ConceptOps.ApplyConceptPatch | client/src/store/useStore.ts:260-262 | each of the nine fields takes the patch's value when the patch carries it and keeps the concept's otherwise |
| ConceptOps.ConceptPatchLaws | client/src/store/useStore.ts:260-262 | an empty patch changes nothing, and merging the same patch twice equals merging it once |
| ConceptOps.ReplaceAt | client/src/store/useStore.ts:297 | the `map` keeps the length and every entry at another index |
| ConceptOps.ReplaceAtMeaning | client/src/store/useStore.ts:297 | an index in range replaces that one entry; any other index changes nothing |
| ConceptOps.AppendPhase | client/src/store/useStore.ts:265-274 | one empty phase is appended and nothing else in the concept changes |
| ConceptOps.UpdatePhase | client/src/store/useStore.ts:276-281 | phases with the id take the given name/description, all others and all ids are unchanged |
| ConceptOps.RemovePhase | client/src/store/useStore.ts:283-288 | exactly the phases without the id remain; an absent id changes nothing |
| ConceptOps.AddCoachingPoint | client/src/store/useStore.ts:290-292 | one empty coaching point is appended and nothing else changes |
| ConceptOps.UpdateCoachingPoint | client/src/store/useStore.ts:294-299 | the coaching points are replaced at `index` as `ReplaceAt` says, nothing else changes |
| ConceptOps.AddVariation | client/src/store/useStore.ts:301-303 | one empty variation is appended and nothing else changes |
| ConceptOps.UpdateVariation | client/src/store/useStore.ts:305-310 | the variations are replaced at `index`, nothing else changes |
| SceneOps.CountPositive | client/src/store/useStore.ts:158 | an id is counted exactly when some entry carries it |
| SceneOps.FindById | client/src/store/useStore.ts:158 | `find` returns the first entry carrying the id (none before it carries it), and nothing exactly when no entry carries it |
| SceneOps.RemoveById | client/src/store/useStore.ts:153 | `filter` keeps exactly the entries without the id, drops every count of the id, keeps every other count, and changes nothing for an absent id |
| SceneOps.AppendElementFresh | client/src/store/useStore.ts:138-146 | an element appended with `nextId` keeps ids unique and below the incremented `nextId` |
| SceneOps.AppendDrawingFresh | client/src/store/useStore.ts:189-195 | a drawing appended with `nextId` keeps ids unique and below the incremented `nextId` |
| SceneOps.SameElementIds | client/src/store/useStore.ts:148-150 | a `map` that keeps every element's id keeps the scene well numbered |
| SceneOps.SameDrawingIds | client/src/store/useStore.ts:201-203 | a `map` that keeps every drawing's id keeps the scene well numbered |
| SceneOps.UniqueIdsDistinct | client/src/store/useStore.ts:138-146 | the store's id invariant makes element ids pairwise distinct |
| SceneOps.ApplyElementPatch | client/src/store/useStore.ts:149 | `{ ...e, ...updates }` keeps the id, and an empty patch changes nothing |
| SceneOps.ApplyEdit | client/src/store/useStore.ts:210-233 | every per-element edit keeps the id; keyframe edits change only the keyframes |
| SceneOps.EditElements | client/src/store/useStore.ts:148-150 | the `map` keeps the length and every id |
| SceneOps.EditOnlyTarget | client/src/store/useStore.ts:148-150 | exactly the entries carrying the id are edited; an absent id changes nothing |
| SceneOps.Clone | client/src/store/useStore.ts:162 | the duplicate has the new id, is offset by (20, 20), has no keyframes, and is otherwise the original |
| SceneOps.ApplyDrawingPatch | client/src/store/useStore.ts:202 | `{ ...d, ...updates }` keeps the drawing's id |
| SceneOps.PatchDrawings | client/src/store/useStore.ts:201-203 | the `map` keeps the length and every id |
| SceneOps.PatchOnlyTarget | client/src/store/useStore.ts:201-203 | only drawings carrying the id change; an absent id changes nothing |
| SceneOps.BringToFront | client/src/store/useStore.ts:168-172 | `bringToFront`; stated by `ZOrderMoves`, `ZOrderPlaces` and `ZOrderPermutes` |
| SceneOps.SendToBack | client/src/store/useStore.ts:174-178 | `sendToBack`; stated by `ZOrderMoves`, `ZOrderPlaces` and `ZOrderPermutes` |
| SceneOps.ZOrderMoves | client/src/store/useStore.ts:168-178 | absent id: no change; else the target is last (first) and the rest keep their order; with a unique id the result is a permutation |
| SceneOps.RemoveUniquePermutes | client/src/store/useStore.ts:171 | with the id carried once, the filtered list plus the found element is the original multiset |
| SceneOps.ZOrderKeepsNumbering | client/src/store/useStore.ts:168-178 | moving an element to the front or back keeps the scene well numbered |
| Keyframes.KeepFar | client/src/store/useStore.ts:213 | the filter keeps exactly the keyframes farther than 0.05 s from the new one, as a sub-multiset |
| Keyframes.KeepFarAscending | client/src/store/useStore.ts:213 | the filter keeps a strictly ascending list strictly ascending |
| Keyframes.KeepFarSeparated | client/src/store/useStore.ts:213 | the filter keeps a list whose keyframes are more than 0.05 s apart so |
| Keyframes.InsertIndex | client/src/store/useStore.ts:215 | the insertion point of the stable sort: all before it are not later, the one at it is later |
| Keyframes.InsertByT | client/src/store/useStore.ts:215 | one insertion step of the stable sort splices the keyframe in at its insertion point |
| Keyframes.InsertKeepsSorted | client/src/store/useStore.ts:215 | inserting into a sorted list keeps it sorted and adds exactly one keyframe |
| Keyframes.SortByTSortsAndPermutes | client/src/store/useStore.ts:215 | `sort((a, b) => a.t - b.t)` yields a sorted permutation |
| Keyframes.SortByTOfAscending | client/src/store/useStore.ts:215 | sorting a strictly ascending list changes nothing |
| Keyframes.AddKeyframe | client/src/store/useStore.ts:210-217 | filter, push and sort of `addKeyframe`; stated by `AddKeyframeContents` and `AddKeyframeKeepsOrder` |
| Keyframes.AddKeyframeContents | client/src/store/useStore.ts:210-217 | the new keyframe is present, exactly the far keyframes survive (as a multiset), and the list is sorted |
| Keyframes.AddKeyframeKeepsOrder | client/src/store/useStore.ts:210-217 | `addKeyframe` keeps a strictly ascending list strictly ascending and a 0.05 s spacing intact |
| Keyframes.SpliceStart | client/src/store/useStore.ts:224 | `splice`'s start index lies in [0, length], negative indices counting from the end |
| Keyframes.RemoveKeyframeAt | client/src/store/useStore.ts:220-227 | `splice(index, 1)` removes exactly the keyframe at `index`, or at `length + index` for a negative one, the first for one below `-length`, and none past the end |
| Keyframes.RemoveKeyframeKeepsOrder | client/src/store/useStore.ts:220-227 | removing a keyframe from a strictly ascending list leaves it strictly ascending, for every index |
| Keyframes.SmoothstepRange | client/src/store/useStore.ts:247 | on [0, 1] the ease stays in [0, 1] and fixes both ends |
| Keyframes.BlendBetween | client/src/store/useStore.ts:250-252 | a blend with weight in [0, 1] lies between its two ends |
| Keyframes.BracketIndex | client/src/store/useStore.ts:242-245 | the search finds the first pair with `kf1.t <= t <= kf2.t`, and `kf1.t < t` |
| Keyframes.Interpolate | client/src/store/useStore.ts:237-256 | there is a pose exactly when the element has at least two keyframes |
| Keyframes.InterpolateClamps | client/src/store/useStore.ts:240-241 | outside the keyframe range the pose is the first or the last keyframe's |
| Keyframes.InterpolateBetween | client/src/store/useStore.ts:242-254 | inside the range x and y lie between those of the bracketing pair |
| Keyframes.InterpolateHitsKeyframes | client/src/store/useStore.ts:237-256 | on a strictly ascending list the interpolation passes through every keyframe |
| Keyframes.InterpolateExample | client/src/store/useStore.ts:246-253 | keyframes (0,0,0,0) and (2,100,50,90) give (50,25,45) at t = 1 and clamp at t = −1 and 5 |
| Keyframes.InterpolateElement | client/src/store/useStore.ts:236-257 | id, kind and keyframes are kept; fewer than two keyframes leave the element unchanged |
| Keyframes.InterpolateAll | client/src/store/useStore.ts:235-258 | one re-posed element per element, in order |
| Keyframes.InterpolateAllIdempotent | client/src/store/useStore.ts:235-258 | interpolating twice at the same time equals interpolating once |
| SceneStore.LastN | client/src/store/useStore.ts:313 | `slice(-n)` gives the last n entries, or all of them when there are fewer |
| SceneStore.SaveUndoH | client/src/store/useStore.ts:312-318 | the current scene is pushed as the newest entry, at most 50 remain (the oldest dropped), redo is emptied |
| SceneStore.UndoH | client/src/store/useStore.ts:320-331 | `undo` on the history; stated by `UndoRedoInverse` and `HistoryBounded` |
| SceneStore.RedoH | client/src/store/useStore.ts:333-344 | `redo` on the history; stated by `UndoRedoInverse` and `HistoryBounded` |
| SceneStore.UndoRedoInverse | client/src/store/useStore.ts:320-344 | empty stacks change nothing; undo and redo move one entry each way and undo each other |
| SceneStore.HistoryBounded | client/src/store/useStore.ts:312-344 | save, undo and redo keep the two stacks within 50 entries together |
| SceneStore.ClampZoom | client/src/store/useStore.ts:187 | the zoom lands in [0.5, 2], equal to the request inside it and to the nearer bound outside |
| SceneStore.Renumber | client/src/store/useStore.ts:380-384 | each imported element gets the next id and loses its keyframes, nothing else changes |
| SceneStore.ImportExercises | client/src/store/useStore.ts:379-391 | one exercise per imported one, with its concept, no drawings and `full-green` when no field type is given |
| SceneStore.ImportNumbersDensely | client/src/store/useStore.ts:377-384 | across all exercises the elements carry the ids start, start+1, … in order, none with keyframes |
| SceneStore.ConsecutiveCount | client/src/store/useStore.ts:382 | consecutive ids count each id of their range once |
| SceneStore.ImportedExerciseNumbered | client/src/store/useStore.ts:380-384 | one renumbered exercise is well numbered below its last id + 1 |
| SceneStore.ImportedAt | client/src/store/useStore.ts:379-391 | imported exercise k holds its own elements numbered from a start inside the import's range |
| SceneStore.ImportWellNumbered | client/src/store/useStore.ts:377-391 | every imported exercise is well numbered below the final `nextId` |
| SceneStore.ImportAllNumbered | client/src/store/useStore.ts:377-399 | all imported exercises are well numbered below the `nextId` the import stores |
| SceneStore.ScenesNumberedMonotone | client/src/store/useStore.ts:142 | raising `nextId` keeps history entries and exercises well numbered |
| SceneStore.StoreExercise | client/src/store/useStore.ts:351-357 | writing a well-numbered exercise into a slot keeps all exercises well numbered |
| SceneStore.ImportedStoreValid | client/src/store/useStore.ts:376-409 | the state an import leaves satisfies the store invariant |
| SceneStore.SwitchedStoreValid | client/src/store/useStore.ts:346-374 | storing the current scene and loading another exercise keeps the store invariant |
| SceneStore.Store.constructor | client/src/store/useStore.ts:115-137 | the initial state, field by field, satisfies the invariant |
| SceneStore.Store.AddElement | client/src/store/useStore.ts:138-146 | appends the element under `nextId`, increments it, selects and returns the id, keeps the invariant |
| SceneStore.Store.UpdateElement | client/src/store/useStore.ts:148-150 | merges the patch into the elements carrying the id, keeps the invariant |
| SceneStore.Store.RemoveElement | client/src/store/useStore.ts:152-155 | drops the elements carrying the id and clears the selection only if it was that id |
| SceneStore.Store.DuplicateElement | client/src/store/useStore.ts:157-166 | absent id: no change; else appends the clone under `nextId` and selects it |
| SceneStore.Store.BringToFront | client/src/store/useStore.ts:168-172 | the elements become `SceneOps.BringToFront` of the old ones, invariant kept |
| SceneStore.Store.SendToBack | client/src/store/useStore.ts:174-178 | the elements become `SceneOps.SendToBack` of the old ones, invariant kept |
| SceneStore.Store.SetSelected | client/src/store/useStore.ts:180 | sets the selection only |
| SceneStore.Store.SetSelectedColor | client/src/store/useStore.ts:181 | sets the element colour only |
| SceneStore.Store.SetDrawColor | client/src/store/useStore.ts:182 | sets the drawing colour only |
| SceneStore.Store.SetMode | client/src/store/useStore.ts:183 | sets the tool mode only |
| SceneStore.Store.SetFieldType | client/src/store/useStore.ts:184 | sets the field type only |
| SceneStore.Store.ToggleGrid | client/src/store/useStore.ts:185 | flips the grid flag only |
| SceneStore.Store.TogglePlayerStyle | client/src/store/useStore.ts:186 | switches circle and figure |
| SceneStore.Store.SetZoom | client/src/store/useStore.ts:187 | stores the clamped zoom, always in [0.5, 2] |
| SceneStore.Store.SetAnimTime | client/src/store/useStore.ts:205 | sets the animation clock only |
| SceneStore.Store.SetAnimDuration | client/src/store/useStore.ts:206 | sets the duration only |
| SceneStore.Store.SetAnimSpeed | client/src/store/useStore.ts:207 | sets the speed only |
| SceneStore.Store.SetAnimPlaying | client/src/store/useStore.ts:208 | sets the playing flag only |
| SceneStore.Store.AddDrawing | client/src/store/useStore.ts:189-195 | appends the drawing under `nextId` and increments it, selection untouched, invariant kept |
| SceneStore.Store.RemoveDrawing | client/src/store/useStore.ts:197-199 | drops the drawings carrying the id |
| SceneStore.Store.UpdateDrawing | client/src/store/useStore.ts:201-203 | merges the patch into the drawings carrying the id |
| SceneStore.Store.AddKeyframe | client/src/store/useStore.ts:210-218 | applies `addKeyframe` to the elements carrying the id, invariant kept |
| SceneStore.Store.RemoveKeyframe | client/src/store/useStore.ts:220-227 | applies `splice(index, 1)` to the keyframes of the elements carrying the id |
| SceneStore.Store.ClearKeyframes | client/src/store/useStore.ts:229-233 | empties the keyframes of the elements carrying the id |
| SceneStore.Store.InterpolateElements | client/src/store/useStore.ts:235-258 | re-poses every element as `Keyframes.InterpolateAll` says, invariant kept |
| SceneStore.Store.UpdateConcept | client/src/store/useStore.ts:260-262 | the concept becomes the patched concept |
| SceneStore.Store.ToggleConcept | client/src/store/useStore.ts:263 | flips the concept panel flag only |
| SceneStore.Store.AddPhase | client/src/store/useStore.ts:265-274 | appends an empty phase with the given id |
| SceneStore.Store.UpdatePhase | client/src/store/useStore.ts:276-281 | patches the phases carrying the id |
| SceneStore.Store.RemovePhase | client/src/store/useStore.ts:283-288 | drops the phases carrying the id |
| SceneStore.Store.AddCoachingPoint | client/src/store/useStore.ts:290-292 | appends an empty coaching point |
| SceneStore.Store.UpdateCoachingPoint | client/src/store/useStore.ts:294-299 | replaces the coaching point at `index` |
| SceneStore.Store.AddVariation | client/src/store/useStore.ts:301-303 | appends an empty variation |
| SceneStore.Store.UpdateVariation | client/src/store/useStore.ts:305-310 | replaces the variation at `index` |
| SceneStore.Store.SaveUndo | client/src/store/useStore.ts:312-318 | the history becomes `SaveUndoH` of the old one, invariant kept |
| SceneStore.Store.Undo | client/src/store/useStore.ts:320-331 | the history becomes `UndoH` of the old one; the selection is cleared unless the stack was empty |
| SceneStore.Store.Redo | client/src/store/useStore.ts:333-344 | the history becomes `RedoH` of the old one; the selection is cleared unless the stack was empty |
| SceneStore.Store.SwitchExercise | client/src/store/useStore.ts:346-374 | the current or an out-of-range index changes nothing; otherwise the scene is stored and the target loaded |
| SceneStore.Store.LoadExercise | client/src/store/useStore.ts:350-373 | stores the scene at the current slot, loads the target, resets selection, clock, playing and history |
| SceneStore.Store.ImportTrainingPlan | client/src/store/useStore.ts:376-409 | installs the renumbered exercises, loads the first, sets `nextId` past the last id, resets the rest |
| SceneStore.Store.ResetAll | client/src/store/useStore.ts:411-419 | empties scene and exercises, resets selection, clock and playing, keeps `nextId`, history and concept |
| SceneStore.ImportStep | client/src/store/useStore.ts:377-384 | imported exercise k > 0 is exercise k-1 of the rest, numbered after the first exercise's elements |
| Canvas.CanvasToField | client/src/components/FieldCanvas.tsx:182-185 | `canvasToField`; its inverse relation to the renderer's transform is `CanvasFieldRoundTrip` |
| Canvas.CanvasFieldRoundTrip | client/src/components/FieldCanvas.tsx:182-185 | `canvasToField` and the renderer's `offset + field × scale` undo each other for any non-zero scale |
| Canvas.RenderModeCases | client/src/components/FieldCanvas.tsx:76-89 | an element is hidden iff playing and out of its window, dimmed iff paused and out of it, drawn normally iff in it |
| Canvas.WindowDefaults | client/src/components/FieldCanvas.tsx:77-79 | with start 0 and end −1 by default an element is visible at every time ≥ 0; a dropped element from its drop time on |
| Canvas.OutOfWindow | client/src/components/FieldCanvas.tsx:77-80 | the window test with default start 0 and end −1; its cases are stated by `WindowDefaults` |
| Canvas.RenderModeOf | client/src/components/FieldCanvas.tsx:76-89 | hidden, dimmed or normal; stated both ways by `RenderModeCases` |
| Canvas.DrawList | client/src/components/FieldCanvas.tsx:76-89 | the drawn elements are exactly the non-hidden ones, each with its dim flag; paused, every element is drawn |
| Canvas.DrawListCons | client/src/components/FieldCanvas.tsx:76-89 | the frame begins with what the first element contributes: nothing when hidden, else the element and its dim flag |
| Canvas.DrawListAppend | client/src/components/FieldCanvas.tsx:76-89 | drawing a list is drawing its parts one after the other, so paint order and multiplicity follow the element (z-)order |
| Canvas.DrawListPaused | client/src/components/FieldCanvas.tsx:76-89 | while paused, entry i is element i with its dim flag, for every i |
| Canvas.Grab | client/src/components/FieldCanvas.tsx:207 | the grab offset puts the element's position plus the offset at the mouse |
| Canvas.PressDraft | client/src/components/FieldCanvas.tsx:198-215 | the draft a press starts; stated by `PressDraftMeaning` |
| Canvas.PressDraftMeaning | client/src/components/FieldCanvas.tsx:198-215 | a press starts a draft at the mouse exactly in the drawing modes, curve mode seeding the samples with it; other modes reset the draft |
| Canvas.MoveDraft | client/src/components/FieldCanvas.tsx:235-246 | the draft after a move; stated by `MoveDraftMeaning` and `MoveDraftSpaced` |
| Canvas.MoveDraftMeaning | client/src/components/FieldCanvas.tsx:235-246 | a move keeps the start, sets the end of a started draft, and appends the mouse only in curve mode past 8 units from the last sample |
| Canvas.MoveDraftSpaced | client/src/components/FieldCanvas.tsx:238-246 | consecutive curve samples stay more than 8 units apart (squared distance > 64) |
| Canvas.Committed | client/src/components/FieldCanvas.tsx:262-286 | the drawing a release commits, if any; stated by `CommittedMeaning` |
| Canvas.CommittedMeaning | client/src/components/FieldCanvas.tsx:262-286 | a line drawing of the mode's kind from start to end iff both are set, a curve through the samples iff there are ≥ 2 |
| Canvas.CurveDrawingShape | client/src/components/FieldCanvas.tsx:276-286 | a committed curve carries its ≥ 2 samples |
| Canvas.PlayerCount | client/src/components/FieldCanvas.tsx:352 | the count of field players is at most the element count and 0 iff no element is a field player |
| Canvas.DroppedElementShape | client/src/components/FieldCanvas.tsx:353-364 | a dropped element has no keyframes, is visible at the drop time, and field players get the number one past the count |
| Canvas.NumberTargetMeaning | client/src/components/FieldCanvas.tsx:296-297 | the renumber target is the topmost hit exactly when it is a field player or goalkeeper |
| Canvas.DoubleClickEdit | client/src/components/FieldCanvas.tsx:288-318 | the edit a double click makes; stated by `DoubleClickEditMeaning` |
| Canvas.DoubleClickEditMeaning | client/src/components/FieldCanvas.tsx:288-318 | only select mode with an answer edits; a number edit targets a player hit, a label edit the topmost arrow/dashed/curve when no player is hit, an empty label becoming undefined |
| Canvas.CanvasController.constructor | client/src/components/FieldCanvas.tsx:15-20 | no drag and an empty draft over a valid store |
| Canvas.CanvasController.OnMouseDown | client/src/components/FieldCanvas.tsx:192-223 | right clicks change nothing; otherwise the draft, selection, drag, snapshot and text drawing are as `PressOutcome` states |
| Canvas.CanvasController.PressSelect | client/src/components/FieldCanvas.tsx:203-211 | a hit is selected and grabbed at the mouse's offset; a miss clears the selection |
| Canvas.CanvasController.PressText | client/src/components/FieldCanvas.tsx:216-221 | a non-empty answer takes one snapshot and appends the text drawing at the mouse under `nextId` |
| Canvas.CanvasController.OnMouseMove | client/src/components/FieldCanvas.tsx:225-250 | dragging moves the element to mouse minus offset without a snapshot; otherwise the draft advances as `MoveDraft` |
| Canvas.CanvasController.Track | client/src/components/FieldCanvas.tsx:235-246 | the draft becomes `MoveDraft` of the old draft, samples kept spaced |
| Canvas.CanvasController.OnMouseUp | client/src/components/FieldCanvas.tsx:254-287 | one snapshot for an ended drag (after the moves), one more for a commit, the committed drawing appended and the draft cleared |
| Canvas.CanvasController.EndDrag | client/src/components/FieldCanvas.tsx:256-260 | an active drag ends with exactly one snapshot; otherwise nothing changes |
| Canvas.CanvasController.CommitDraft | client/src/components/FieldCanvas.tsx:262-286 | a ready draft is committed after one snapshot under `nextId` and cleared; otherwise nothing changes |
| Canvas.CanvasController.SaveAndAdd | client/src/components/FieldCanvas.tsx:219-220 | one snapshot, then the drawing appended under `nextId` |
| Canvas.CanvasController.OnDoubleClick | client/src/components/FieldCanvas.tsx:288-318 | the history becomes `AfterEdit` of the edit `DoubleClickEdit` picks |
| Canvas.CanvasController.ApplyEdit | client/src/components/FieldCanvas.tsx:299-313 | no edit keeps the history; an edit takes one snapshot and patches number or label |
| Canvas.CanvasController.SaveAndPatchElement | client/src/components/FieldCanvas.tsx:299-302 | one snapshot, then the number patch on the element carrying the id |
| Canvas.CanvasController.SaveAndPatchDrawing | client/src/components/FieldCanvas.tsx:310-313 | one snapshot, then the label patch on the drawing carrying the id |
| Canvas.CanvasController.OnDrop | client/src/components/FieldCanvas.tsx:339-366 | an empty drop does nothing; otherwise one snapshot and the dropped element appended under `nextId` and selected |
| HitTest.Clamp01 | client/src/utils/renderer.ts:721 | the projection parameter lands in [0, 1], unchanged inside it and at the nearer bound outside |
| HitTest.ProjParam | client/src/utils/renderer.ts:721 | for a segment of non-zero length the clamped parameter lies in [0, 1] |
| HitTest.SegmentDistSq | client/src/utils/renderer.ts:718-725 | the squared distance is non-negative, the distance to `a` for a zero-length segment, else to the clamped projection |
| HitTest.SegmentDistIsMinimal | client/src/utils/renderer.ts:718-725 | for a segment of non-zero length no point of the segment is nearer than the one returned |
| HitTest.ProjectionNearest | client/src/utils/renderer.ts:721-724 | the point at the clamped projection parameter is at least as near as the point at any s in [0, 1] |
| HitTest.AlongMinimal | client/src/utils/renderer.ts:721-724 | the clamped parameter minimises the squared distance along the segment over [0, 1] |
| HitTest.ClampedMinimiser | client/src/utils/renderer.ts:721 | clamping the unconstrained minimiser to [0, 1] keeps it a minimiser of the quadratic over [0, 1] |
| HitTest.HitRadius | client/src/utils/renderer.ts:747 | the hit radius is positive |
| HitTest.HitRadiusByType | client/src/utils/renderer.ts:747 | 30 for goalkeeper and the three goals (the `goal` substring), 28 for ladder, 20 for every other type |
| HitTest.TopmostBelow | client/src/utils/renderer.ts:743 | the downward scan returns an index below its bound |
| HitTest.TopmostBelowMeaning | client/src/utils/renderer.ts:743-750 | the scan returns the highest hit index, with none above it hit, and None only when nothing is hit |
| HitTest.HitTestElement | client/src/utils/renderer.ts:742-751 | `hitTestElement`; its topmost-first result is stated by `HitTestElementMeaning` |
| HitTest.HitTestElementMeaning | client/src/utils/renderer.ts:742-751 | the result is a hit element with no element above it hit; None iff no element is strictly within its radius |
| HitTest.ElementHitExample | client/src/utils/renderer.ts:745-748 | a cone is hit 15 units away and missed 25 units away |
| HitTest.AnySegmentNearMeaning | client/src/utils/renderer.ts:733-735 | a curve is near iff some consecutive pair of its samples is within 15 |
| HitTest.HitTestDrawing | client/src/utils/renderer.ts:727-740 | `hitTestDrawing`; its result is stated by `HitTestDrawingMeaning` |
| HitTest.HitTestDrawingMeaning | client/src/utils/renderer.ts:727-740 | the result is always an arrow, dashed line or curve, hit with nothing above it hit; None iff no drawing is hit |
| Playback.PosePatchSetsPose | client/src/components/AnimationBar.tsx:21 | writing a saved pose through `updateElement` sets exactly x, y and rotation |
| Playback.PoseForSnoc | client/src/components/AnimationBar.tsx:13 | a later `map.set` for the same id overrides the earlier entry |
| Playback.ApplyPosesSnoc | client/src/components/AnimationBar.tsx:20-22 | restoring one more entry is one more `updateElement` on top of the earlier ones |
| Playback.ApplyPosesMeaning | client/src/components/AnimationBar.tsx:18-23 | restoring keeps the list length and gives each element the pose last saved for its id, others untouched |
| Playback.PoseListLookup | client/src/components/AnimationBar.tsx:10-16 | with distinct ids the saved map holds, for each element, exactly the pose recorded for it |
| Playback.PoseListAbsent | client/src/components/AnimationBar.tsx:10-16 | an id no element carries has no saved pose |
| Playback.RestoreReturnsToBaseline | client/src/components/AnimationBar.tsx:10-23 | after save and restore every saved element is back at its saved pose and elements added since are untouched |
| Playback.RewoundMeaning | client/src/components/AnimationBar.tsx:105-119 | after a rewind an element with keyframes sits at its first keyframe, overriding the baseline; others at their restored pose |
| Playback.TickDelta | client/src/components/AnimationBar.tsx:30-31 | the first tick after play advances the clock by 0 |
| Playback.TickDeltaNonneg | client/src/components/AnimationBar.tsx:30-31 | with non-decreasing timestamps and non-negative speed the clock never runs backwards |
| Playback.ClampTime | client/src/components/AnimationBar.tsx:124 | the stepped time lies in [0, duration], equal to the request inside it |
| Playback.PlaybackController.constructor | client/src/components/AnimationBar.tsx:6-8 | no last timestamp and an empty baseline |
| Playback.PlaybackController.SavePositions | client/src/components/AnimationBar.tsx:10-16 | the baseline becomes the current pose of every element in list order |
| Playback.PlaybackController.RestorePositions | client/src/components/AnimationBar.tsx:18-23 | the elements become the saved poses applied one `updateElement` at a time |
| Playback.PlaybackController.Play | client/src/components/AnimationBar.tsx:92-98 | a clock at or past the duration restarts at 0; the baseline is recorded, the timestamp forgotten, playing set |
| Playback.PlaybackController.Stop | client/src/components/AnimationBar.tsx:100-103 | playing cleared and the timestamp forgotten; the clock is untouched |
| Playback.PlaybackController.Rewind | client/src/components/AnimationBar.tsx:105-119 | stops, clock to 0, elements become `Rewound` (baseline, then first keyframes) |
| Playback.PlaybackController.SnapToFirstKeyframes | client/src/components/AnimationBar.tsx:110-118 | every element with keyframes takes its first keyframe's pose |
| Playback.PlaybackController.Step | client/src/components/AnimationBar.tsx:121-127 | stops, the clock becomes the clamped sum, the scene is interpolated at it |
| Playback.PlaybackController.Tick | client/src/components/AnimationBar.tsx:28-48 | no effect unless playing; reaching the duration pins the clock there, interpolates and stops; otherwise advances and interpolates; the clock stays in [0, duration] |
| Playback.PlaybackController.Finish | client/src/components/AnimationBar.tsx:37-42 | the clock is pinned at the duration, the scene posed there, playing cleared and the timestamp forgotten |
| Playback.PlaybackController.Advance | client/src/components/AnimationBar.tsx:45-46 | the clock moves to the new time and the scene is posed there |
| Playback.PlaybackController.DeleteSelection | client/src/components/AnimationBar.tsx:69-75 | only with a (truthy) selection: one snapshot, then the selected element removed; the clock, drawings, `nextId`, mode and controller untouched |
| Playback.PlaybackController.DuplicateSelection | client/src/components/AnimationBar.tsx:82-86 | only with a (truthy) selection: one snapshot, then the clone appended under `nextId` and selected; the clock, drawings, mode and controller untouched |
| Playback.PlaybackController.TogglePlaying | client/src/components/AnimationBar.tsx:61-68 | space pauses a playing clock in place and otherwise plays; the scene, history, selection, `nextId` and mode untouched |
| Playback.PlaybackController.Escape | client/src/components/AnimationBar.tsx:78-81 | select mode with nothing selected; everything else untouched |
| Playback.ClassifyMeaning | client/src/components/AnimationBar.tsx:59-87 | a key press fires a shortcut exactly when it is outside a text field and matches that shortcut's key (and Ctrl where needed); it is ignored exactly when in a text field or no shortcut matches |
| Playback.PlaybackController.OnKeyDown | client/src/components/AnimationBar.tsx:59-87 | ignored presses change neither the store nor the controller; each shortcut has exactly its handler's effect and leaves every other store field and the controller as they were |
| TrainingPlan.AddCountMeaning | server/src/services/training-plan-parser.ts:181 | adding n under one kind raises that kind's count by n, leaves the others alone and keeps one entry per kind |
| TrainingPlan.AddCountKinds | server/src/services/training-plan-parser.ts:181 | the record's keys after an addition are the old keys plus the added kind |
| TrainingPlan.ReplaceCr | server/src/services/training-plan-parser.ts:59 | same length; each CR becomes LF, every other character kept |
| TrainingPlan.ExtractText | server/src/services/training-plan-parser.ts:58-60 | `extractText`; stated by `ExtractTextNormalises`, `ExtractTextNoCr` and `ExtractTextKeepsPlain` |
| TrainingPlan.ExtractTextNormalises | server/src/services/training-plan-parser.ts:58-60 | both replacements together turn each CRLF and each lone CR into exactly one LF |
| TrainingPlan.ExtractTextNoCr | server/src/services/training-plan-parser.ts:58-60 | no carriage return survives |
| TrainingPlan.ExtractTextKeepsPlain | server/src/services/training-plan-parser.ts:58-60 | text without CR passes unchanged |
| TrainingPlan.ReplaceCrLfPlain | server/src/services/training-plan-parser.ts:59 | the CRLF replacement is the identity on text without CR |
| TrainingPlan.TaggedSnoc | server/src/services/training-plan-parser.ts:113-117 | closing one more section appends its tagged lines |
| TrainingPlan.TagSectionSnoc | server/src/services/training-plan-parser.ts:110-113 | a line pushed to the open section is tagged with its name unless it is blank |
| TrainingPlan.StepAgrees | server/src/services/training-plan-parser.ts:79-114 | one loop turn keeps the section state in agreement with the reference reading |
| TrainingPlan.ScanAgrees | server/src/services/training-plan-parser.ts:76-117 | after any lines the section loop agrees with the reference reading |
| TrainingPlan.SectionedMeaning | server/src/services/training-plan-parser.ts:76-118 | at least one section, and the sections hold every non-blank, non-header line, in order, under the most recent header |
| TrainingPlan.DetectSections | server/src/services/training-plan-parser.ts:76-118 | the loop returns the sections `Sectioned` describes, an all-caps header needing at least 3 UTF-16 code units |
| TrainingPlan.MeaningfulSections | server/src/services/training-plan-parser.ts:361-364 | exactly the sections that are neither title-only nor empty, a sub-list of the input |
| TrainingPlan.BuildPhases | server/src/services/training-plan-parser.ts:359-379 | `buildPhases`; stated by `BuildPhasesMeaning` and `BuildPhasesDropsTitles` |
| TrainingPlan.BuildPhasesMeaning | server/src/services/training-plan-parser.ts:359-379 | at least one phase, ids 1..m in order; the single default `Übung` phase when nothing is meaningful, else one per meaningful section with its name and joined lines |
| TrainingPlan.BuildPhasesDropsTitles | server/src/services/training-plan-parser.ts:361-364 | no title-only or empty section becomes a phase |
| TrainingPlan.DropSeparators | server/src/services/training-plan-parser.ts:168 | what remains starts with neither a colon nor white space |
| TrainingPlan.FirstMaterialMeaning | server/src/services/training-plan-parser.ts:176-183 | the first matching pattern of the table gives the kind; None iff no pattern matches |
| TrainingPlan.TallyMeaning | server/src/services/training-plan-parser.ts:159-189 | one entry per kind, each kind's count the sum of what the items contribute to it |
| TrainingPlan.ContributionMeaning | server/src/services/training-plan-parser.ts:173-183 | blank and skip-listed items add nothing; an item's kind is the first match; an item without digits counts 1 |
| TrainingPlan.TallySnoc | server/src/services/training-plan-parser.ts:174-185 | one more item adds its contribution to the record, or nothing |
| TrainingPlan.MatchMaterial | server/src/services/training-plan-parser.ts:176-183 | the pattern loop with `break` returns the first match |
| TrainingPlan.TallyItems | server/src/services/training-plan-parser.ts:172-185 | the item loop extends the record exactly as `Tally` over the items seen so far |
| TrainingPlan.AllItemsSnoc | server/src/services/training-plan-parser.ts:161-186 | one more line adds its items to the end of the item list |
| TrainingPlan.ExtractMaterial | server/src/services/training-plan-parser.ts:159-189 | the nested loops return the record `MaterialCounts` of the lines |
| TrainingPlan.LargestIndex | server/src/services/training-plan-parser.ts:148-155 | an index of largest area, the first such (the sort is stable) |
| TrainingPlan.FieldSize | server/src/services/training-plan-parser.ts:145-157 | '' without candidates; otherwise the text of the first candidate of largest width × height |
| TrainingPlan.OrBlank | server/src/services/training-plan-parser.ts:241 | never empty, `['']` replacing an empty list and any other list kept |
| TrainingPlan.DefaultsAndFallbacks | server/src/services/training-plan-parser.ts:120-142 | duration 15 and players 16 by default; a section's duration positive; its players fall back to the global count iff 16, its field size to the global one when empty |
| TrainingPlan.PhaseSections | server/src/services/training-plan-parser.ts:439-441 | every kept section is a training phase with content |
| TrainingPlan.ParseTrainingPlan | server/src/services/training-plan-parser.ts:415-482 | `parseTrainingPlan`; stated by `ParseTrainingPlanMeaning` |
| TrainingPlan.ParseTrainingPlanMeaning | server/src/services/training-plan-parser.ts:415-482 | one result per phase section, in order and named after it, each with the category of its own name and lines, when there are more than one; otherwise exactly one result named by `extractName` and categorised from the whole text; every category one of the seven; large goals iff counted |
| TrainingPlan.SeveralPhasesMeaning | server/src/services/training-plan-parser.ts:439-450 | with several training-phase sections, one result per section, named and categorised by it, with one material entry per kind and large goals iff counted |
| TrainingPlan.SinglePlanMeaning | server/src/services/training-plan-parser.ts:452-482 | with at most one training-phase section, a single result named by `extractName`, categorised from the whole text, with one material entry per kind and large goals iff counted |
| TrainingPlan.SectionData | server/src/services/training-plan-parser.ts:387-413 | `extractSectionData`; stated by `SectionDataMeaning` and `DefaultsAndFallbacks` |
| TrainingPlan.SectionDataMeaning | server/src/services/training-plan-parser.ts:387-413 | the section's name and single phase, the category of its name and text, its material record, and large goals iff some were counted |
| TrainingPlan.IndexOf | server/src/services/training-plan-parser.ts:328 | `indexOf`: an index holding the line, and no earlier one does |
| TrainingPlan.FirstNonBlankMeaning | server/src/services/training-plan-parser.ts:329-332 | the first non-blank line from the start index, trimmed and non-empty; none exactly when all those lines are blank |
| TrainingPlan.ThemaAtMeaning | server/src/services/training-plan-parser.ts:323-332 | a name a line yields is non-empty and trimmed, and the line is a `Thema` line |
| TrainingPlan.ThemaNextLineTrimmed | server/src/services/training-plan-parser.ts:328-332 | the next non-blank line after a bare `Thema` line is non-empty and trimmed |
| TrainingPlan.ThemaNameNone | server/src/services/training-plan-parser.ts:322-334 | the `Thema` loop finds no name exactly when no line yields one |
| TrainingPlan.ThemaNameFirst | server/src/services/training-plan-parser.ts:322-334 | a name the `Thema` loop returns is that of the first line yielding one |
| TrainingPlan.ThemaNameMeaning | server/src/services/training-plan-parser.ts:322-334 | the `Thema` loop returns the non-empty trimmed name of the first `Thema` line that yields one, and none iff no line does |
| TrainingPlan.DropDocExtension | server/src/services/training-plan-parser.ts:344 | the file name unchanged, or shortened by exactly the 5 or 4 characters of a `.docx` or `.pdf` suffix |
| TrainingPlan.FilenameStemMeaning | server/src/services/training-plan-parser.ts:344 | the fallback name holds no `_` or `-`, keeps every other character in place, and is at most 5 characters shorter |
| TrainingPlan.FilenameStemExample | server/src/services/training-plan-parser.ts:344 | `Plan_A-1.PDF` becomes `Plan A 1`: the suffix goes in any case |
| TrainingPlan.FilenameStemKeepsOtherSuffix | server/src/services/training-plan-parser.ts:344 | `notes.txt` keeps its suffix |
| TrainingPlan.ExtractNameMeaning | server/src/services/training-plan-parser.ts:318-345 | a `Thema` line's name wins; else the first non-blank line when shorter than 100 code units and not title-only; else the file-name stem |
| TrainingPlan.CategoryMeaning | server/src/services/training-plan-parser.ts:347-357 | the category is one of the seven, that of the first matching pattern, `Taktik` when none matches |
| Placement.Min | server/src/services/element-placement.ts:119 | `Math.min` of two counts |
| Placement.TeamRowCentred | server/src/services/element-placement.ts:33-47 | a player's row holds at most 4 players on one y, its first and last x symmetric about CX |
| Placement.TeamRowsApart | server/src/services/element-placement.ts:33-69 | the next row is 70 below (blue) or above (red) |
| Placement.PlaceTeam | server/src/services/element-placement.ts:31-50 | the row/column loops place exactly `size` players, player k at its team slot numbered k + 1 |
| Placement.PlacePlayers | server/src/services/element-placement.ts:25-75 | exactly n stands: ceil(n/2) blue slots numbered 1.., then the red team's slots, no keyframes |
| Placement.TeamsBalanced | server/src/services/element-placement.ts:27-28 | the teams add up to n and blue has the same size or one more |
| Placement.PlaceLargeGoals | server/src/services/element-placement.ts:77-106 | min(count, 2) goals, top centre then bottom centre turned 180 |
| Placement.SmallGoalSpotsInside | server/src/services/element-placement.ts:110-117 | the six spots are distinct and inside the margin |
| Placement.PlaceSmallGoals | server/src/services/element-placement.ts:108-133 | min(count, 6) goals at the spots in order, each facing the centre |
| Placement.FractionBelowOne | server/src/services/element-placement.ts:164 | i / steps lies in [0, 1) |
| Placement.PerimeterOnInsetRectangle | server/src/services/element-placement.ts:159-182 | every perimeter point lies on the rectangle inset 70 from the field edges |
| Placement.PlaceCones | server/src/services/element-placement.ts:135-198 | up to 4: that many corner cones; more: exactly count cones on the perimeter |
| Placement.PlaceBalls | server/src/services/element-placement.ts:200-218 | count balls, ball i at radius 40 from the centre along the given unit direction |
| Placement.LineCentred | server/src/services/element-placement.ts:223-227 | the line's ends are symmetric about CX and neighbours 50 apart |
| Placement.PlaceGeneric | server/src/services/element-placement.ts:220-237 | count elements on y = CY, spaced 50 and centred on CX |
| Placement.CapCount | server/src/services/element-placement.ts:248-258 | the capped count is min(count, cap) for a capped type and the count otherwise |
| Placement.CapAll | server/src/services/element-placement.ts:257-259 | one capped entry per entry, in order |
| Placement.CountOfCapAll | server/src/services/element-placement.ts:257-259 | looking up a capped record gives the capped count |
| Placement.CountOfSnoc | server/src/services/element-placement.ts:258 | a new key's entry is found under that key only |
| Placement.CountOfAbsent | server/src/services/element-placement.ts:265 | a missing key reads as 0 |
| Placement.TotalSplits | server/src/services/element-placement.ts:261-288 | the non-player total splits into the goal, cone and ball counts plus the generic rest |
| Placement.CapAllDistinct | server/src/services/element-placement.ts:257-259 | capping keeps one entry per kind |
| Placement.PlaceIfAny | server/src/services/element-placement.ts:265-280 | `if (cappedCounts[k])` appends the placed elements only for a non-zero count |
| Placement.CapCounts | server/src/services/element-placement.ts:257-259 | the loop computes `CapAll` |
| Placement.PlaceDedicated | server/src/services/element-placement.ts:261-280 | players first, then as many goals, cones and balls as the capped counts say |
| Placement.PlaceRest | server/src/services/element-placement.ts:283-288 | the other types add their capped counts, the players staying first |
| Placement.PlaceElements | server/src/services/element-placement.ts:239-291 | full green iff ≥ 14 players or large goals; playerCount + capped non-player counts elements, players first, no keyframes |
| PdfExport.ReplaceAllAppend | server/src/services/pdf-export.ts:289-292 | a global single-character replace distributes over concatenation |
| PdfExport.ReplaceAllAbsent | server/src/services/pdf-export.ts:289-292 | replacing a character that does not occur changes nothing |
| PdfExport.ReplaceAllSingle | server/src/services/pdf-export.ts:289-292 | on one character the replace gives the replacement or the character itself |
| PdfExport.AmpStays | server/src/services/pdf-export.ts:290-292 | the later replaces leave `&amp;` alone |
| PdfExport.LtGtStay | server/src/services/pdf-export.ts:291-292 | the later replaces leave `&lt;` and `&gt;` alone |
| PdfExport.EscapeOne | server/src/services/pdf-export.ts:287-293 | one character escapes to its entity (`'` and all other characters stay as they are) |
| PdfExport.EscapeHtml | server/src/services/pdf-export.ts:287-293 | `escapeHtml`; stated by `EscapeHtmlSafe`, `EscapeHtmlPlain`, `UnescapeEscapeHtml` and `AmpersandsOpenEntities` |
| PdfExport.EscapeHtmlIsEscapeEach | server/src/services/pdf-export.ts:287-293 | the chain of four replaces equals escaping character by character |
| PdfExport.EscapeHtmlSafe | server/src/services/pdf-export.ts:287-293 | the output contains no `<`, `>` or `"` |
| PdfExport.EscapeEachSafe | server/src/services/pdf-export.ts:287-293 | per-character escaping yields no `<`, `>` or `"` |
| PdfExport.EscapeHtmlPlain | server/src/services/pdf-export.ts:287-293 | the identity on text without `&`, `<`, `>` and `"` |
| PdfExport.UnescapeEntity | server/src/services/pdf-export.ts:289-292 | decoding an entity followed by anything gives its character followed by the decoded rest |
| PdfExport.UnescapeEscapeHtml | server/src/services/pdf-export.ts:287-293 | decoding the four entities recovers the input |
| PdfExport.UnescapeEscapeEach | server/src/services/pdf-export.ts:287-293 | decoding inverts per-character escaping |
| PdfExport.AmpersandsOpenEntities | server/src/services/pdf-export.ts:287-293 | every `&` of the output begins `&amp;`, `&lt;`, `&gt;` or `&quot;` |
| PdfExport.EntityOpens | server/src/services/pdf-export.ts:289-292 | an `&` inside an entity is its first character and opens the entity |
| PdfExport.EscapeEachAmpersands | server/src/services/pdf-export.ts:287-293 | every `&` of per-character escaping opens an entity |
| PdfExport.ConcatItemsEmpty | server/src/services/pdf-export.ts:54-55 | the joined `<li>` list is empty iff there are no items |
| PdfExport.ListHtml | server/src/services/pdf-export.ts:52-60 | the blank-filtered list; stated by `ListHtmlMeaning` |
| PdfExport.ListHtmlMeaning | server/src/services/pdf-export.ts:52-60 | the list is empty iff every point is blank; exactly the non-blank points are listed |
| PdfExport.MaterialNameMeaning | server/src/services/pdf-export.ts:271-279 | the three player tags share the name `Spieler`, unknown tags keep their own string, other known tags have names of their own |
| PdfExport.BumpRows | server/src/services/pdf-export.ts:280 | after counting a name the rows are the old ones plus that name |
| PdfExport.BumpMeaning | server/src/services/pdf-export.ts:280 | counting a name adds 1 to its row only, keeps one row per name and raises the total by 1 |
| PdfExport.CountInAbsent | server/src/services/pdf-export.ts:280 | a name without a row counts 0 |
| PdfExport.Table | server/src/services/pdf-export.ts:269-285 | the material table; stated by `TableMeaning` |
| PdfExport.TableMeaning | server/src/services/pdf-export.ts:269-285 | one row per name, each counting the elements with that display name, rows exactly for names that occur, counts summing to the element count |
| PdfExport.BuildMaterialTable | server/src/services/pdf-export.ts:269-285 | the `forEach` loop builds the rows `Table` describes |
| Lzw.ShlAdd | server/src/services/video-export.ts:196 | a left shift distributes over addition, so OR-ing a code into free high bits is adding it |
| Lzw.Pow2Values | server/src/services/video-export.ts:180-218 | 2^8 = 256 (the clear code), 2^9 = 512 (the first code-size limit) and 2^12 = 4096 (the table limit) |
| Lzw.LiteralsMeaning | server/src/services/video-export.ts:187-189 | the first n literals map each one-byte string b < n to b and hold nothing else |
| Lzw.InitialTableMeaning | server/src/services/video-export.ts:186-189 | the initial table holds the 256 literals and only codes below the clear code |
| Lzw.TextsSnoc | server/src/services/video-export.ts:195-203 | the text of one more emitted code follows the text of the earlier codes |
| Lzw.StartReached | server/src/services/video-export.ts:205-206 | after the clear code and the first index the encoder state covers the input so far |
| Lzw.AppendOk | server/src/services/video-export.ts:195-197 | emitting a code that fits its width keeps all codes fitting, and the runs the codes stand for grow by that code's run |
| Lzw.CurrentFits | server/src/services/video-export.ts:215 | the code for the current string fits the current code size |
| Lzw.StepReached | server/src/services/video-export.ts:208-231 | one loop turn keeps the invariant: the runs the codes so far stand for concatenate to the input minus the current string |
| Lzw.ExtendReached | server/src/services/video-export.ts:212-213 | a known combined string only extends the current string |
| Lzw.EmitGrowReached | server/src/services/video-export.ts:215-220 | emitting and adding a table entry keeps the invariant |
| Lzw.EmitResetReached | server/src/services/video-export.ts:221-229 | emitting, then the clear code and a table reset, keeps the invariant |
| Lzw.FreshReached | server/src/services/video-export.ts:222-230 | after a reset the state with the fresh table and the new byte satisfies the invariant |
| Lzw.StepGrows | server/src/services/video-export.ts:216-220 | adding an entry keeps codes below nextCode ≤ 4096 and the code size at most 12 and large enough for every code |
| Lzw.RunReached | server/src/services/video-export.ts:205-232 | the whole main loop satisfies the invariant over the input |
| Lzw.LzwCodes | server/src/services/video-export.ts:179-242 | the code sequence `lzwEncode` emits; stated by `LzwCodesMeaning` and `ResetOnFullTable` |
| Lzw.LzwCodesMeaning | server/src/services/video-export.ts:179-242 | the codes start with the clear code (width 9), end with EOI (257), all fit their width (at most 12 bits), and the runs the codes were emitted for concatenate to the input |
| Lzw.FinishMeaning | server/src/services/video-export.ts:234-235 | the last code and EOI complete the stream: at least three codes, the clear code first, EOI last, all fitting their width, and the runs they stand for concatenate to the whole input |
| Lzw.ResetOnFullTable | server/src/services/video-export.ts:221-229 | a full table emits the clear code at the current width and returns to the 256 literals, nextCode 258 and code size 9 |
| Lzw.LeValueSnoc | server/src/services/video-export.ts:199 | bytes are read least significant first |
| Lzw.DrainOne | server/src/services/video-export.ts:198-202 | moving the low byte out of the buffer keeps the packed value |
| Lzw.DrainKeeps | server/src/services/video-export.ts:198-202 | the drain loop keeps the packed value and leaves fewer than 8 bits |
| Lzw.TotalsSnoc | server/src/services/video-export.ts:196-197 | one more code adds its width to the bit count and its value above the earlier bits |
| Lzw.PutKeeps | server/src/services/video-export.ts:195-203 | `emit` places the code above the bits already written (LSB first) and leaves fewer than 8 bits buffered |
| Lzw.PackAllMeaning | server/src/services/video-export.ts:195-203 | all emits together produce the little-endian packing of the codes |
| Lzw.PutStaysSmall | server/src/services/video-export.ts:196 | the buffer stays below 2^19, so the 32-bit shift and OR never overflow |
| Lzw.PackMeaning | server/src/services/video-export.ts:195-239 | the output bytes read as a little-endian number are the codes laid end to end, in ceil(bits / 8) bytes |
| Lzw.FlushMeaning | server/src/services/video-export.ts:237-239 | the final partial byte is written only when bits remain |
| Lzw.InitialCodeTable | server/src/services/video-export.ts:186-189 | the initialisation loop builds the literal table |
| Lzw.EmitCode | server/src/services/video-export.ts:195-203 | `emit` computes `Put` of the code at the current width |
| Lzw.LzwEncode | server/src/services/video-export.ts:179-242 | the encoder's bytes are the packing of the codes `LzwCodes` specifies |
| Lzw.EncodeTail | server/src/services/video-export.ts:234-241 | the epilogue writes the last code, EOI and the partial byte |
| Lzw.Advance | server/src/services/video-export.ts:209-231 | one loop turn updates table, nextCode, code size, current string and bit buffer exactly as `Step` |
| Lzw.PackAllSnoc | server/src/services/video-export.ts:195-203 | emitting one more code is one more `Put` |
| Gif.WriteShort | server/src/services/video-export.ts:248-250 | a short is two bytes |
| Gif.ReadShort | server/src/services/video-export.ts:248-250 | a little-endian pair reads as a value below 65536 |
| Gif.WriteShortRoundTrip | server/src/services/video-export.ts:248-250 | reading back gives the value modulo 65536 (low byte first, then high byte), the value itself when it fits 16 bits |
| Gif.ReadShortRoundTrip | server/src/services/video-export.ts:248-250 | every byte pair is the encoding of the value it reads as |
| Gif.WriteStringRoundTrip | server/src/services/video-export.ts:244-246 | one byte per character, decoding back to the string for 8-bit characters |
| Gif.Latin1RoundTrip | server/src/services/video-export.ts:244-246 | every byte string is written by the string it decodes to |
| Gif.SignatureBytes | server/src/services/video-export.ts:115 | the signature bytes spell `GIF89a` (section 17 of the GIF89a specification) |
| Gif.ApplicationNameBytes | server/src/services/video-export.ts:133-134 | the application identifier bytes spell `NETSCAPE2.0` |
| Gif.WriteStringTo | server/src/services/video-export.ts:244-246 | the loop appends the string's bytes |
| Gif.TakeLiteralAppend | server/src/services/video-export.ts:133-137 | a fixed byte run is recognised at the head of the stream |
| Gif.TakeShortAppend | server/src/services/video-export.ts:248-250 | a written short is read back modulo 65536 with the rest untouched |
| Gif.ReadBlocks | server/src/services/video-export.ts:160-170 | the sub-block reader always consumes input |
| Gif.ReadSubBlocks | server/src/services/video-export.ts:160-170 | sub-blocks followed by the 0x00 terminator read back as exactly the compressed data (section 15 of GIF89a) |
| Gif.SubBlocksSize | server/src/services/video-export.ts:161-169 | one length byte per started block of 255, each length between 1 and 255 |
| Gif.SubBlocksFrom | server/src/services/video-export.ts:162-168 | from any offset the next block takes min(255, remaining) bytes |
| Gif.AppendBytes | server/src/services/video-export.ts:165-167 | the copy loop appends exactly the block's bytes |
| Gif.WriteSubBlocks | server/src/services/video-export.ts:161-169 | the block loop appends `SubBlocks` of the data |
| Gif.ColorKey | server/src/services/video-export.ts:84-87 | the 12-bit key is below 4096 |
| Gif.ColorKeyMeaning | server/src/services/video-export.ts:84-87 | two colours share a key iff their top four bits agree in all three channels |
| Gif.KeyDigits | server/src/services/video-export.ts:87 | the three 4-bit fields of the key can be read back |
| Gif.AdmitKeeps | server/src/services/video-export.ts:89-92 | admitting a pixel keeps the palette and map in step, adds at most its colour at the end, and only while fewer than 256 are stored |
| Gif.AdmitAllMeaning | server/src/services/video-export.ts:83-93 | after the first pass every pixel's key is in the map unless the palette is full, and every palette entry is a pixel's colour |
| Gif.AdmitStep | server/src/services/video-export.ts:83-93 | one more pixel keeps the first pass's invariants |
| Gif.CoverStep | server/src/services/video-export.ts:89-90 | keys admitted before stay admitted |
| Gif.ColorsStep | server/src/services/video-export.ts:91 | the palette only gains colours of the pixels |
| Gif.QuantizeSpec | server/src/services/video-export.ts:77-108 | the palette has 256 entries and there is one index per pixel |
| Gif.QuantizeMeaning | server/src/services/video-export.ts:77-108 | an admitted pixel's index points to a colour with its key; one whose key was not admitted (palette full) maps to 0; padding is black |
| Gif.Quantize | server/src/services/video-export.ts:77-108 | the two loops and the padding compute `QuantizeSpec` |
| Gif.AdmitPixels | server/src/services/video-export.ts:83-93 | the first loop computes `AdmitAll` |
| Gif.PadPalette | server/src/services/video-export.ts:96 | the palette is padded with black to 256 entries |
| Gif.IndexPixels | server/src/services/video-export.ts:99-105 | the second loop gives each pixel its mapped index, 0 when its key is absent |
| Gif.Header | server/src/services/video-export.ts:114-122 | the header and logical screen descriptor take 13 bytes |
| Gif.PaletteBytes | server/src/services/video-export.ts:127-129 | three bytes per colour |
| Gif.PaletteBytesSnoc | server/src/services/video-export.ts:127-129 | one more colour appends its r, g, b |
| Gif.LoopingExtension | server/src/services/video-export.ts:133-137 | the application extension takes 19 bytes |
| Gif.CentisecondsMeaning | server/src/services/video-export.ts:144 | the written delay is the millisecond delay rounded to hundredths of a second |
| Gif.ImageHead | server/src/services/video-export.ts:142-158 | graphic control extension, image descriptor and code size take 19 bytes |
| Gif.ImagesSnoc | server/src/services/video-export.ts:140-171 | one more frame appends its image block |
| Gif.ImagesPrefix | server/src/services/video-export.ts:140-171 | the frame loop's output after i + 1 frames extends that after i frames by frame i's block |
| Gif.StreamBounds | server/src/services/video-export.ts:110-177 | the stream starts with `GIF89a` and ends with the 0x3B trailer (sections 17 and 27 of GIF89a) |
| Gif.ReadPaletteBytes | server/src/services/video-export.ts:125-130 | the colour table reads back as the palette |
| Gif.ReadImage | server/src/services/video-export.ts:140-171 | the image reader always consumes input |
| Gif.Infos | server/src/services/video-export.ts:140-171 | one image record per frame |
| Gif.InfosCons | server/src/services/video-export.ts:140-171 | the first frame's record comes first |
| Gif.ReadImageBlock | server/src/services/video-export.ts:142-170 | a frame's block reads back as its delay, origin (0, 0), the screen size modulo 65536 and its compressed data |
| Gif.HeadShorts | server/src/services/video-export.ts:142-158 | the head's fixed bytes and its five shorts are where the image reader looks for them |
| Gif.ReadImageOf | server/src/services/video-export.ts:142-170 | a block with the fixed bytes in place reads as its shorts and sub-block data |
| Gif.ReadHeadAndData | server/src/services/video-export.ts:142-170 | head, sub-blocks and terminator read back as the frame's image record |
| Gif.ReadImagesBack | server/src/services/video-export.ts:140-174 | the frame blocks and the trailer read back as one record per frame, in order |
| Gif.Stream | server/src/services/video-export.ts:110-177 | the bytes `finish()` writes; stated by `StreamBounds`, `StreamLayout` and `ReadStream` |
| Gif.ReadGif | server/src/services/video-export.ts:110-177 | a reader for the layout `finish()` writes, the partner of `Stream` in `ReadStream` |
| Gif.ReadStream | server/src/services/video-export.ts:110-177 | a stream with frames reads back as its size modulo 65536, the first frame's palette and one image per frame |
| Gif.StreamLayout | server/src/services/video-export.ts:114-174 | signature, sizes, flags 0xF7, the 768-byte colour table, then looping extension, images and trailer |
| Gif.HeaderLayout | server/src/services/video-export.ts:114-120 | signature, width and height as shorts, then the flags byte 0xF7 |
| Gif.Parts | server/src/services/video-export.ts:110-177 | the stream splits into its parts at their lengths |
| Gif.SizesAt | server/src/services/video-export.ts:118-119 | the screen size is read back modulo 65536 |
| Gif.ReadGifOf | server/src/services/video-export.ts:110-177 | a stream with the header, the colour table and the extension in place reads as its size, palette and images |
| Gif.EmptyStreamUnreadable | server/src/services/video-export.ts:120-130 | with no frames the 0xF7 flags announce a 768-byte colour table that is not written, so the stream does not read back |
| Gif.GifEncoder.constructor | server/src/services/video-export.ts:60-65 | the given size, no frames, delay 100 |
| Gif.GifEncoder.SetDelay | server/src/services/video-export.ts:67 | sets the delay, frames kept |
| Gif.GifEncoder.AddFrame | server/src/services/video-export.ts:69-75 | appends the quantised frame with the current delay |
| Gif.GifEncoder.Finish | server/src/services/video-export.ts:110-177 | returns `Stream` of the size and the frames |
| Gif.WriteFrames | server/src/services/video-export.ts:140-171 | the frame loop appends the image blocks of all frames |
| Gif.WriteHeader | server/src/services/video-export.ts:114-122 | writes the 13 header bytes |
| Gif.WriteLoopingExtension | server/src/services/video-export.ts:133-137 | appends the looping extension |
| Gif.WriteColorTable | server/src/services/video-export.ts:125-130 | appends the first 256 colours of the palette |
| Gif.WriteImage | server/src/services/video-export.ts:141-170 | appends the frame's image block |
| Gif.WriteImageHead | server/src/services/video-export.ts:141-158 | appends the frame's 19-byte head |
| VideoExport.Round | server/src/services/video-export.ts:394 | `Math.round`: the integer within half of x, halves rounding up |
| VideoExport.Ceil | server/src/services/video-export.ts:396 | `Math.ceil`: the least integer not below x |
| VideoExport.Position | server/src/services/video-export.ts:267-282 | the clamp-and-search loop of `interpolate` returns `Place`: the element's own position for fewer than 2 keyframes or a NaN time, else the editor's blend |
| VideoExport.Place | server/src/services/video-export.ts:267-282 | `interpolate`; stated by `PlaceMatchesEditor` and `PlaceHitsKeyframes` |
| VideoExport.PlaceMatchesEditor | server/src/services/video-export.ts:267-282 | the export places an element exactly where the editor's `interpolateElements` puts its x and y |
| VideoExport.PlaceHitsKeyframes | server/src/services/video-export.ts:271-279 | with ascending keyframes, at a keyframe's time the element stands on that keyframe |
| VideoExport.UndrawnKinds | server/src/services/video-export.ts:309-347 | `drawEl` draws nothing exactly for trainer, dummy, pole, ladder, flag, ring and goal-cone |
| VideoExport.SkippedMatchesPlayback | server/src/services/video-export.ts:382-385 | the export skips an element at time t iff the editor hides it while playing |
| VideoExport.Scene | server/src/services/video-export.ts:377-389 | the draw calls of one frame; stated by `SceneMeaning` and `NaNFrameDrawsAll` |
| VideoExport.SceneMeaning | server/src/services/video-export.ts:377-389 | a frame holds one call per element that is in its window and of a drawn kind, at its interpolated position, and nothing else |
| VideoExport.NaNFrameDrawsAll | server/src/services/video-export.ts:382-386 | at a NaN time no element is skipped and each is drawn at its own position |
| VideoExport.RenderFrame | server/src/services/video-export.ts:377-389 | the element loop returns `Scene` of the elements and the time |
| VideoExport.FrameTime | server/src/services/video-export.ts:396-398 | the time of frame i; stated by `FrameSchedule` and `SingleFrameAtNaN` |
| VideoExport.StepTimes | server/src/services/video-export.ts:398 | consecutive frame times differ by duration / totalFrames |
| VideoExport.TimeBounds | server/src/services/video-export.ts:397-398 | for a non-negative duration frame times are ordered and within [0, duration] |
| VideoExport.Quotients | server/src/services/video-export.ts:398 | i / n and j / n lie in [0, 1] in order for 0 ≤ i ≤ j ≤ n |
| VideoExport.FrameSchedule | server/src/services/video-export.ts:396-401 | the first frame is at 0, the last at the duration, the spacing even, and (duration ≥ 0) the times non-decreasing within [0, duration] |
| VideoExport.SingleFrameAtNaN | server/src/services/video-export.ts:396-398 | a product in (−1, 0] gives totalFrames 0: one frame, at time NaN |
| VideoExport.FrameOf | server/src/services/video-export.ts:69-75 | a captured frame has 256 palette entries, one index per pixel and the encoder's delay |
| VideoExport.Frames | server/src/services/video-export.ts:392-401 | totalFrames + 1 frames (none for a negative total), each with a full palette and delay `Math.round(1000 / fps)` |
| VideoExport.GenerateGif | server/src/services/video-export.ts:392-403 | the bytes are the GIF stream of the frames rendered at the scheduled times |
| VideoExport.NegativeDurationUnreadable | server/src/services/video-export.ts:396-403 | duration × fps ≤ −1 produces no frame and a stream that does not read back as a GIF |
| Keyframes.ConsAscending | client/src/store/useStore.ts:215 | a keyframe earlier than every keyframe of an ascending list can go in front of it |
| Keyframes.HeadBelowRest | client/src/store/useStore.ts:215 | in an ascending (separated) list the first keyframe is earlier (by more than 0.05 s) than every later one |
| Keyframes.InsertIndexPastAll | client/src/store/useStore.ts:215 | a keyframe not earlier than all others is inserted at the end |
| Keyframes.AppendPastAll | client/src/store/useStore.ts:215 | inserting a keyframe not earlier than all others appends it |
| Keyframes.InsertByTAt | client/src/store/useStore.ts:215 | after insertion, entries before the insertion point are unchanged, the new keyframe is at it, later ones shift by one |
| Keyframes.InsertSortedPair | client/src/store/useStore.ts:215 | insertion into a sorted list leaves any two positions in order |
| Keyframes.InsertPermutes | client/src/store/useStore.ts:215 | insertion adds exactly the new keyframe to the multiset |
| Keyframes.InsertKeepsStrict | client/src/store/useStore.ts:215 | inserting a keyframe at a new time keeps a strictly ascending list strictly ascending |
| Keyframes.InsertKeepsSeparated | client/src/store/useStore.ts:213-215 | inserting a keyframe more than 0.05 s from all others keeps the list separated by more than 0.05 s |
| SceneOps.ZOrderPlaces | client/src/store/useStore.ts:168-178 | with the id present, `bringToFront` puts its element last and `sendToBack` first, the others in their old order |
| SceneOps.ZOrderPermutes | client/src/store/useStore.ts:168-178 | with the id carried once, both moves are permutations |
| SceneOps.WellNumberedMonotone | client/src/store/useStore.ts:142 | a scene numbered below one bound is numbered below any larger bound |

## Left out

- Pixel drawing on the canvas is not modelled: `drawField`, `drawPlayerFigure`, `drawElement`, `drawDrawing`, the wavy curve preview and `resize`. They produce pixels through trigonometry. In the GIF export, painting a frame is the parameter `paint`.
- Browser scheduling is modelled only as calls. The animation loop becomes one `Tick` call per frame timestamp, and cancelling it is the `playing` flag.
- `prompt`, `confirm` and `alert` are not modelled; their answers are method parameters. The same holds for drag-and-drop transfer data.
- The cursor style the canvas sets while hovering is not modelled.
- `onContextMenu` in client/src/components/FieldCanvas.tsx:320-333 is not modelled. It only opens the context menu widget.
- `seekTimeline` in client/src/components/AnimationBar.tsx:129-135 is not modelled. It maps a click position on the timeline bar to a time.
- Trigonometry is not modelled. Ball positions in `placeBalls` come from a parameter `unit(i, n)` standing for the point on the unit circle.
- Numbers are exact reals, not IEEE doubles. `Math.sqrt` is avoided by comparing squared distances.
- HitTest.SegmentDistIsMinimal: proved only for a segment of non-zero length. For a zero-length segment the distance to `a` is stated by `SegmentDistSq` itself.
- Regular expressions are not modelled. In the parser, each pattern is a recogniser in the `Recognisers` parameter, and facts read from the whole text are the `TextFacts` parameter.
- Document extraction with mammoth and pdf-parse is not modelled; `extractText` starts from the raw text.
- The parser's keyword heuristics `extractCoachingPoints`, `extractVariations` and `extractDescription` are modelled only by their empty-result defaults, through the `TextFacts` parameter. `extractName` and `detectCategory` are modelled; their regular expressions, and `toLowerCase` before the category tests, are recognisers in `Recognisers`.
- JavaScript objects used as dictionaries are sequences of pairs in insertion order. Lookups through the prototype chain are not modelled. For example, a type named `constructor` in the display-name table is not modelled.
- PdfExport.Table: JavaScript enumerates an object's integer-like keys first, in ascending order, and then the other keys in insertion order. The model keeps plain insertion order, so the rows for an unknown element type whose name is a number are not placed as in the source.
- Table rows in the PDF carry unescaped names as in the source. The HTML and CSS templates, puppeteer, `page.pdf`, and base64 and `btoa` encoding are not modelled.
- `getExportData` and the server routes are plumbing and are not modelled.
- SceneStore.Store.AddPhase: the new phase's id comes from `Date.now()` in the source. Here it is a parameter.
- SceneStore.Store.ImportTrainingPlan: requires at least one exercise. The source reads `exercises[0]` unguarded and would fail on an empty plan.
- The store's handling of an element whose `keyframes` field is missing is not modelled. Every element has a keyframe list, possibly empty.
- Copying snapshots through JSON is not modelled, because Dafny values are already independent.
- Gif.GifEncoder: a frame is a sequence of pixel records rather than a flat RGBA byte array. Its length is taken to be width × height.
- Lzw: the code table is keyed by byte strings rather than by the comma-joined strings the source builds. The two are in one-to-one correspondence.
- Lzw: no LZW decoder is modelled. Each emitted code records the run of input bytes it was emitted for, and the lemmas prove that these runs concatenate to the input; they do not prove what a GIF decoder would recover from the codes.
- VideoExport.GenerateGif: requires a positive frame rate. A zero frame rate, or one producing infinite or `NaN` delays, is not modelled.
- Canvas.CanvasController.OnMouseMove: a curve draft with a start point but no samples can arise when the mode switches to curve drawing mid-press. There the source sets the end point and then fails reading the last sample. The model sets the end point and stops.
- Playback.PlaybackController.TogglePlaying: the space key pauses through `setAnimPlaying(false)`, and the frame loop's cleanup then drops the pending frame. The model folds both into `Stop`.
