/**
 * The scene store: elements and drawings sharing one id counter, selection and tool
 * state, animation settings, the concept, the exercise list, and snapshot undo/redo.
 */
module SceneStore {
  import opened Wrappers
  import opened SceneTypes
  import opened SceneOps
  import Keyframes
  import ConceptOps

  datatype PlayerStyle = Circle | Figure

  /** A history entry: the elements and drawings at one moment. */
  datatype Snapshot = Snapshot(elements: seq<FieldElement>, drawings: seq<Drawing>)

  datatype Exercise = Exercise(
    concept: ConceptData,
    elements: seq<FieldElement>,
    drawings: seq<Drawing>,
    fieldType: FieldType)

  /**
   * One exercise of an import. Element ids are ignored (they are reassigned); a missing
   * or empty field type is `None`.
   */
  datatype ImportedExercise = ImportedExercise(
    concept: ConceptData,
    elements: seq<FieldElement>,
    fieldType: Option<FieldType>)

  // ---------------------------------------------------------------- history

  /** Undo keeps at most this many entries. */
  const HistoryLimit: nat := 50

  /** The part of the state undo and redo act on. */
  datatype History = History(current: Snapshot, undo: seq<Snapshot>, redo: seq<Snapshot>)

  /** `slice(-n)` for n >= 1: the last n entries, or all of them when there are fewer. */
  function LastN<T>(s: seq<T>, n: nat): (r: seq<T>)
    ensures |r| == if |s| < n then |s| else n
    ensures r == s[|s| - |r|..]
  {
    if |s| <= n then s else s[|s| - n..]
  }

  /** `saveUndo`: push the current scene, keep the newest 50 entries, empty redo. */
  function SaveUndoH(h: History): (r: History)
    ensures r.current == h.current && r.redo == []
    ensures |r.undo| >= 1 && r.undo[|r.undo| - 1] == h.current
    ensures |r.undo| <= HistoryLimit
    ensures |h.undo| < HistoryLimit ==> r.undo == h.undo + [h.current]
    ensures |h.undo| >= HistoryLimit ==> r.undo == h.undo[|h.undo| - (HistoryLimit - 1)..] + [h.current]
  {
    History(h.current, LastN(h.undo, HistoryLimit - 1) + [h.current], [])
  }

  /** `undo`: restore the newest entry and push the current scene onto redo. */
  function UndoH(h: History): History {
    if |h.undo| == 0 then h
    else History(h.undo[|h.undo| - 1], h.undo[..|h.undo| - 1], h.redo + [h.current])
  }

  /** `redo`: the mirror image of `undo`. */
  function RedoH(h: History): History {
    if |h.redo| == 0 then h
    else History(h.redo[|h.redo| - 1], h.undo + [h.current], h.redo[..|h.redo| - 1])
  }

  /**
   * Undo and redo on an empty stack change nothing, each moves exactly one entry
   * between the stacks, and each undoes the other.
   */
  lemma UndoRedoInverse(h: History)
    ensures |h.undo| == 0 ==> UndoH(h) == h
    ensures |h.redo| == 0 ==> RedoH(h) == h
    ensures |h.undo| > 0 ==> RedoH(UndoH(h)) == h
    ensures |h.redo| > 0 ==> UndoH(RedoH(h)) == h
    ensures |h.undo| > 0 ==> |UndoH(h).undo| == |h.undo| - 1 && |UndoH(h).redo| == |h.redo| + 1
    ensures |h.redo| > 0 ==> |RedoH(h).redo| == |h.redo| - 1 && |RedoH(h).undo| == |h.undo| + 1
  {
    if |h.undo| > 0 {
      assert h.undo[..|h.undo| - 1] + [h.undo[|h.undo| - 1]] == h.undo;
    }
    if |h.redo| > 0 {
      assert h.redo[..|h.redo| - 1] + [h.redo[|h.redo| - 1]] == h.redo;
    }
  }

  /** The two stacks together never hold more than 50 entries. */
  lemma HistoryBounded(h: History)
    requires |h.undo| + |h.redo| <= HistoryLimit
    ensures |SaveUndoH(h).undo| + |SaveUndoH(h).redo| <= HistoryLimit
    ensures |UndoH(h).undo| + |UndoH(h).redo| <= HistoryLimit
    ensures |RedoH(h).undo| + |RedoH(h).redo| <= HistoryLimit
  {
  }

  // ---------------------------------------------------------------- zoom

  /** `Math.max(0.5, Math.min(2.0, z))` */
  function ClampZoom(z: real): (r: real)
    ensures 0.5 <= r <= 2.0
    ensures 0.5 <= z <= 2.0 ==> r == z
    ensures z < 0.5 ==> r == 0.5
    ensures z > 2.0 ==> r == 2.0
  {
    var m := if z < 2.0 then z else 2.0;
    if m > 0.5 then m else 0.5
  }

  // ---------------------------------------------------------------- import

  /** The elements of one imported exercise, numbered from `start`, with no keyframes. */
  function Renumber(els: seq<FieldElement>, start: int): (r: seq<FieldElement>)
    ensures |r| == |els|
    ensures forall i :: 0 <= i < |els| ==> r[i] == els[i].(id := start + i, keyframes := [])
  {
    seq(|els|, i requires 0 <= i < |els| => els[i].(id := start + i, keyframes := []))
  }

  function TotalElements(data: seq<ImportedExercise>): nat
    decreases |data|
  {
    if data == [] then 0 else |data[0].elements| + TotalElements(data[1..])
  }

  /** The exercises of an import, numbered consecutively across all of them from `start`. */
  function ImportExercises(data: seq<ImportedExercise>, start: int): (r: seq<Exercise>)
    ensures |r| == |data|
    ensures forall k :: 0 <= k < |data| ==>
      r[k].concept == data[k].concept && r[k].drawings == []
      && r[k].fieldType == data[k].fieldType.GetOr(FullGreen)
    decreases |data|
  {
    if data == [] then []
    else [ImportOne(data[0], start)] + ImportExercises(data[1..], start + |data[0].elements|)
  }

  /** One imported exercise, its elements numbered from `start`, no drawings, a full green field by default. */
  function ImportOne(d: ImportedExercise, start: int): Exercise {
    Exercise(d.concept, Renumber(d.elements, start), [], d.fieldType.GetOr(FullGreen))
  }

  /** All elements of a list of exercises, in order. */
  function AllElements(exs: seq<Exercise>): seq<FieldElement>
    decreases |exs|
  {
    if exs == [] then [] else exs[0].elements + AllElements(exs[1..])
  }

  /**
   * Import numbering: across all exercises the elements carry the ids start, start+1, …
   * in order, one per imported element, and none keeps a keyframe.
   */
  lemma {:induction false} ImportNumbersDensely(data: seq<ImportedExercise>, start: int)
    ensures |AllElements(ImportExercises(data, start))| == TotalElements(data)
    ensures forall j :: 0 <= j < TotalElements(data) ==>
      AllElements(ImportExercises(data, start))[j].id == start + j
      && AllElements(ImportExercises(data, start))[j].keyframes == []
    decreases |data|
  {
    if data != [] {
      var n0 := |data[0].elements|;
      ImportNumbersDensely(data[1..], start + n0);
      var r := ImportExercises(data, start);
      assert r[1..] == ImportExercises(data[1..], start + n0);
      assert r[0].elements == Renumber(data[0].elements, start);
    }
  }

  /** Consecutive ids count each id of the range once and nothing else. */
  lemma {:induction false} ConsecutiveCount(r: seq<FieldElement>, start: int, x: int)
    requires forall i :: 0 <= i < |r| ==> r[i].id == start + i
    ensures Count(r, ElementId, x) == if start <= x < start + |r| then 1 else 0
    decreases |r|
  {
    if r != [] {
      ConsecutiveCount(r[1..], start + 1, x);
    }
  }

  lemma ImportedExerciseNumbered(els: seq<FieldElement>, start: int)
    requires start >= 1
    ensures WellNumbered(Renumber(els, start), [], start + |els|)
  {
    var r := Renumber(els, start);
    forall x ensures Count(r, ElementId, x) + Count([], DrawingId, x) <= 1 {
      ConsecutiveCount(r, start, x);
    }
  }

  /** Imported exercise `k > 0` is exercise `k - 1` of the import of the rest, numbered after the first. */
  lemma ImportStep(data: seq<ImportedExercise>, start: int, k: nat)
    requires 0 < k < |data|
    ensures ImportExercises(data, start)[k] == ImportExercises(data[1..], start + |data[0].elements|)[k - 1]
    ensures data[k] == data[1..][k - 1]
    ensures TotalElements(data) == |data[0].elements| + TotalElements(data[1..])
  {
  }

  /** Imported exercise `k` holds its own elements, numbered from a start inside the import's range. */
  lemma {:induction false} ImportedAt(data: seq<ImportedExercise>, start: int, k: nat) returns (from: int)
    requires k < |data|
    ensures ImportExercises(data, start)[k] == ImportOne(data[k], from)
    ensures start <= from && from + |data[k].elements| <= start + TotalElements(data)
    decreases |data|
  {
    if k == 0 {
      from := start;
      assert ImportExercises(data, start)[0] == ImportOne(data[0], start);
    } else {
      ImportStep(data, start, k);
      from := ImportedAt(data[1..], start + |data[0].elements|, k - 1);
      assert ImportExercises(data[1..], start + |data[0].elements|)[k - 1] == ImportOne(data[1..][k - 1], from);
      assert ImportExercises(data, start)[k] == ImportOne(data[k], from);
    }
  }

  /** Every imported exercise is well numbered below `start + TotalElements(data)`. */
  lemma ImportWellNumbered(data: seq<ImportedExercise>, start: int, k: nat)
    requires start >= 1 && k < |data|
    ensures WellNumbered(ImportExercises(data, start)[k].elements, [], start + TotalElements(data))
  {
    var from := ImportedAt(data, start, k);
    assert ImportExercises(data, start)[k].elements == Renumber(data[k].elements, from);
    ImportedExerciseNumbered(data[k].elements, from);
    WellNumberedMonotone(Renumber(data[k].elements, from), [], from + |data[k].elements|, start + TotalElements(data));
  }

  /** Every exercise of the list is well numbered below `bound`. */
  ghost predicate ExercisesNumbered(exs: seq<Exercise>, bound: int) {
    forall k :: 0 <= k < |exs| ==> WellNumbered(exs[k].elements, exs[k].drawings, bound)
  }

  lemma ImportAllNumbered(data: seq<ImportedExercise>)
    ensures ExercisesNumbered(ImportExercises(data, 1), TotalElements(data) + 1)
  {
    var exs := ImportExercises(data, 1);
    forall k | 0 <= k < |exs| ensures WellNumbered(exs[k].elements, exs[k].drawings, TotalElements(data) + 1) {
      ImportWellNumbered(data, 1, k);
    }
  }

  // ---------------------------------------------------------------- the store

  ghost predicate ScenesNumbered(undo: seq<Snapshot>, redo: seq<Snapshot>, exs: seq<Exercise>, bound: int) {
    (forall s :: s in undo ==> WellNumbered(s.elements, s.drawings, bound))
    && (forall s :: s in redo ==> WellNumbered(s.elements, s.drawings, bound))
    && ExercisesNumbered(exs, bound)
  }

  lemma ScenesNumberedMonotone(undo: seq<Snapshot>, redo: seq<Snapshot>, exs: seq<Exercise>, b: int, b': int)
    requires ScenesNumbered(undo, redo, exs, b) && b <= b'
    ensures ScenesNumbered(undo, redo, exs, b')
  {
    forall s | s in undo ensures WellNumbered(s.elements, s.drawings, b') {
      WellNumberedMonotone(s.elements, s.drawings, b, b');
    }
    forall s | s in redo ensures WellNumbered(s.elements, s.drawings, b') {
      WellNumberedMonotone(s.elements, s.drawings, b, b');
    }
    forall k | 0 <= k < |exs| ensures WellNumbered(exs[k].elements, exs[k].drawings, b') {
      WellNumberedMonotone(exs[k].elements, exs[k].drawings, b, b');
    }
  }

  /** Writing a well-numbered exercise into a slot keeps every exercise well numbered. */
  lemma StoreExercise(exs: seq<Exercise>, i: nat, ex: Exercise, bound: int)
    requires i < |exs|
    requires ExercisesNumbered(exs, bound)
    requires WellNumbered(ex.elements, ex.drawings, bound)
    ensures ExercisesNumbered(exs[i := ex], bound)
  {
  }

  /** The store's invariant over the values of its numbered and history fields. */
  ghost predicate StoreInvariant(nextId: int, els: seq<FieldElement>, drs: seq<Drawing>, undo: seq<Snapshot>,
                                 redo: seq<Snapshot>, exs: seq<Exercise>, index: int) {
    nextId >= 1
    && WellNumbered(els, drs, nextId)
    && ScenesNumbered(undo, redo, exs, nextId)
    && |undo| + |redo| <= HistoryLimit
    && (if exs == [] then index == 0 else 0 <= index < |exs|)
  }

  /** The state an import leaves behind satisfies the invariant. */
  lemma ImportedStoreValid(data: seq<ImportedExercise>)
    requires |data| >= 1
    ensures var exs := ImportExercises(data, 1);
      StoreInvariant(TotalElements(data) + 1, exs[0].elements, exs[0].drawings, [], [], exs, 0)
  {
    var exs := ImportExercises(data, 1);
    ImportAllNumbered(data);
  }

  /** Loading exercise `index` after storing the current scene at `cur` keeps the invariant. */
  lemma SwitchedStoreValid(nextId: int, els: seq<FieldElement>, drs: seq<Drawing>, undo: seq<Snapshot>,
                           redo: seq<Snapshot>, exs: seq<Exercise>, cur: int, index: int, packed: Exercise)
    requires StoreInvariant(nextId, els, drs, undo, redo, exs, cur)
    requires 0 <= index < |exs| && packed.elements == els && packed.drawings == drs
    ensures StoreInvariant(nextId, exs[index].elements, exs[index].drawings, [], [], exs[cur := packed], index)
  {
    StoreExercise(exs, cur, packed, nextId);
    if index != cur {
      assert exs[cur := packed][index] == exs[index];
    }
  }

  class Store {
    var elements: seq<FieldElement>
    var drawings: seq<Drawing>
    var nextId: int
    var selectedId: Option<int>
    var selectedColor: string
    var drawColor: string
    var mode: ToolMode
    var fieldType: FieldType
    var showGrid: bool
    var playerStyle: PlayerStyle
    var zoom: real
    var animTime: real
    var animDuration: real
    var animSpeed: real
    var animPlaying: bool
    var concept: ConceptData
    var showConcept: bool
    var exercises: seq<Exercise>
    var currentExerciseIndex: int
    var undoStack: seq<Snapshot>
    var redoStack: seq<Snapshot>

    /**
     * Ids are positive, below `nextId` and unique across elements and drawings, in the
     * scene, in every history entry and in every stored exercise; the history holds at
     * most 50 entries; the exercise index is in range.
     */
    ghost predicate Valid()
      reads this
    {
      StoreInvariant(nextId, elements, drawings, undoStack, redoStack, exercises, currentExerciseIndex)
    }

    function Hist(): History
      reads this
    {
      History(Snapshot(elements, drawings), undoStack, redoStack)
    }

    constructor ()
      ensures Valid()
      ensures elements == [] && drawings == [] && nextId == 1 && selectedId == None
      ensures selectedColor == "#3498db" && drawColor == "#ffffff" && mode == Select
      ensures fieldType == FullGreen && !showGrid && playerStyle == Circle && zoom == 1.0
      ensures animTime == 0.0 && animDuration == 5.0 && animSpeed == 1.0 && !animPlaying
      ensures concept == DefaultConcept && showConcept
      ensures exercises == [] && currentExerciseIndex == 0 && undoStack == [] && redoStack == []
    {
      elements := [];
      drawings := [];
      nextId := 1;
      selectedId := None;
      selectedColor := "#3498db";
      drawColor := "#ffffff";
      mode := Select;
      fieldType := FullGreen;
      showGrid := false;
      playerStyle := Circle;
      zoom := 1.0;
      animTime := 0.0;
      animDuration := 5.0;
      animSpeed := 1.0;
      animPlaying := false;
      concept := DefaultConcept;
      showConcept := true;
      exercises := [];
      currentExerciseIndex := 0;
      undoStack := [];
      redoStack := [];
    }

    // ------------------------------------------------------------ elements

    /** Appends the element under the next id, selects it and returns the id. */
    method AddElement(e: FieldElement) returns (id: int)
      requires Valid()
      modifies this`elements, this`nextId, this`selectedId
      ensures Valid()
      ensures id == old(nextId) && nextId == old(nextId) + 1
      ensures elements == old(elements) + [e.(id := id)]
      ensures selectedId == Some(id)
    {
      id := nextId;
      AppendElementFresh(elements, drawings, e.(id := id), nextId);
      ScenesNumberedMonotone(undoStack, redoStack, exercises, nextId, nextId + 1);
      elements := elements + [e.(id := id)];
      nextId := nextId + 1;
      selectedId := Some(id);
    }

    /** Merges the patch into every element carrying `id`. */
    method UpdateElement(id: int, p: ElementPatch)
      requires Valid()
      modifies this`elements
      ensures Valid()
      ensures elements == EditElements(old(elements), id, Patch(p))
    {
      SameElementIds(elements, EditElements(elements, id, Patch(p)), drawings, nextId);
      elements := EditElements(elements, id, Patch(p));
    }

    /** Drops every element carrying `id`; the selection is cleared only if it was `id`. */
    method RemoveElement(id: int)
      requires Valid()
      modifies this`elements, this`selectedId
      ensures Valid()
      ensures elements == RemoveById(old(elements), ElementId, id)
      ensures selectedId == if old(selectedId) == Some(id) then None else old(selectedId)
    {
      elements := RemoveById(elements, ElementId, id);
      if selectedId == Some(id) {
        selectedId := None;
      }
    }

    /**
     * For a present id, appends a clone at (x+20, y+20) with no keyframes under the
     * next id and selects it; an absent id changes nothing.
     */
    method DuplicateElement(id: int)
      requires Valid()
      modifies this`elements, this`nextId, this`selectedId
      ensures Valid()
      ensures FindById(old(elements), ElementId, id).None? ==>
        elements == old(elements) && nextId == old(nextId) && selectedId == old(selectedId)
      ensures FindById(old(elements), ElementId, id).Some? ==>
        elements == old(elements) + [Clone(FindById(old(elements), ElementId, id).value, old(nextId))]
        && nextId == old(nextId) + 1 && selectedId == Some(old(nextId))
    {
      var found := FindById(elements, ElementId, id);
      if found.Some? {
        var copy := Clone(found.value, nextId);
        assert copy.(id := nextId) == copy;
        var _ := AddElement(copy);
      }
    }

    method BringToFront(id: int)
      requires Valid()
      modifies this`elements
      ensures Valid()
      ensures elements == SceneOps.BringToFront(old(elements), id)
    {
      ZOrderKeepsNumbering(elements, drawings, id, nextId);
      elements := SceneOps.BringToFront(elements, id);
    }

    method SendToBack(id: int)
      requires Valid()
      modifies this`elements
      ensures Valid()
      ensures elements == SceneOps.SendToBack(old(elements), id)
    {
      ZOrderKeepsNumbering(elements, drawings, id, nextId);
      elements := SceneOps.SendToBack(elements, id);
    }

    // ------------------------------------------------------------ plain setters

    method SetSelected(id: Option<int>)
      modifies this`selectedId
      ensures selectedId == id
    {
      selectedId := id;
    }

    method SetSelectedColor(color: string)
      modifies this`selectedColor
      ensures selectedColor == color
    {
      selectedColor := color;
    }

    method SetDrawColor(color: string)
      modifies this`drawColor
      ensures drawColor == color
    {
      drawColor := color;
    }

    method SetMode(m: ToolMode)
      modifies this`mode
      ensures mode == m
    {
      mode := m;
    }

    method SetFieldType(f: FieldType)
      modifies this`fieldType
      ensures fieldType == f
    {
      fieldType := f;
    }

    method ToggleGrid()
      modifies this`showGrid
      ensures showGrid == !old(showGrid)
    {
      showGrid := !showGrid;
    }

    method TogglePlayerStyle()
      modifies this`playerStyle
      ensures playerStyle == if old(playerStyle) == Circle then Figure else Circle
    {
      playerStyle := if playerStyle == Circle then Figure else Circle;
    }

    /** The zoom is clamped to [0.5, 2]. */
    method SetZoom(z: real)
      modifies this`zoom
      ensures zoom == ClampZoom(z) && 0.5 <= zoom <= 2.0
    {
      zoom := ClampZoom(z);
    }

    method SetAnimTime(t: real)
      modifies this`animTime
      ensures animTime == t
    {
      animTime := t;
    }

    method SetAnimDuration(d: real)
      modifies this`animDuration
      ensures animDuration == d
    {
      animDuration := d;
    }

    method SetAnimSpeed(s: real)
      modifies this`animSpeed
      ensures animSpeed == s
    {
      animSpeed := s;
    }

    method SetAnimPlaying(p: bool)
      modifies this`animPlaying
      ensures animPlaying == p
    {
      animPlaying := p;
    }

    // ------------------------------------------------------------ drawings

    /** Appends the drawing under the next id; the selection is not touched. */
    method AddDrawing(d: Drawing)
      requires Valid()
      modifies this`drawings, this`nextId
      ensures Valid()
      ensures drawings == old(drawings) + [d.(id := old(nextId))]
      ensures nextId == old(nextId) + 1
    {
      AppendDrawingFresh(elements, drawings, d.(id := nextId), nextId);
      ScenesNumberedMonotone(undoStack, redoStack, exercises, nextId, nextId + 1);
      drawings := drawings + [d.(id := nextId)];
      nextId := nextId + 1;
    }

    method RemoveDrawing(id: int)
      requires Valid()
      modifies this`drawings
      ensures Valid()
      ensures drawings == RemoveById(old(drawings), DrawingId, id)
    {
      drawings := RemoveById(drawings, DrawingId, id);
    }

    method UpdateDrawing(id: int, p: DrawingPatch)
      requires Valid()
      modifies this`drawings
      ensures Valid()
      ensures drawings == PatchDrawings(old(drawings), id, p)
    {
      SameDrawingIds(elements, drawings, PatchDrawings(drawings, id, p), nextId);
      drawings := PatchDrawings(drawings, id, p);
    }

    // ------------------------------------------------------------ keyframes

    /** Inserts the keyframe into the element's list, replacing keyframes within 0.05 s. */
    method AddKeyframe(elementId: int, kf: Keyframe)
      requires Valid()
      modifies this`elements
      ensures Valid()
      ensures elements == EditElements(old(elements), elementId, AddKeyframeEdit(kf))
    {
      SameElementIds(elements, EditElements(elements, elementId, AddKeyframeEdit(kf)), drawings, nextId);
      elements := EditElements(elements, elementId, AddKeyframeEdit(kf));
    }

    /** `splice(index, 1)` on the element's keyframe list. */
    method RemoveKeyframe(elementId: int, index: int)
      requires Valid()
      modifies this`elements
      ensures Valid()
      ensures elements == EditElements(old(elements), elementId, RemoveKeyframeEdit(index))
    {
      SameElementIds(elements, EditElements(elements, elementId, RemoveKeyframeEdit(index)), drawings, nextId);
      elements := EditElements(elements, elementId, RemoveKeyframeEdit(index));
    }

    method ClearKeyframes(elementId: int)
      requires Valid()
      modifies this`elements
      ensures Valid()
      ensures elements == EditElements(old(elements), elementId, ClearKeyframesEdit)
    {
      SameElementIds(elements, EditElements(elements, elementId, ClearKeyframesEdit), drawings, nextId);
      elements := EditElements(elements, elementId, ClearKeyframesEdit);
    }

    /** Poses every element with two or more keyframes at time `t`. */
    method InterpolateElements(t: real)
      requires Valid()
      modifies this`elements
      ensures Valid()
      ensures elements == Keyframes.InterpolateAll(old(elements), t)
    {
      SameElementIds(elements, Keyframes.InterpolateAll(elements, t), drawings, nextId);
      elements := Keyframes.InterpolateAll(elements, t);
    }

    // ------------------------------------------------------------ concept

    method UpdateConcept(p: ConceptOps.ConceptPatch)
      modifies this`concept
      ensures concept == ConceptOps.ApplyConceptPatch(old(concept), p)
    {
      concept := ConceptOps.ApplyConceptPatch(concept, p);
    }

    method ToggleConcept()
      modifies this`showConcept
      ensures showConcept == !old(showConcept)
    {
      showConcept := !showConcept;
    }

    /** Appends an empty phase; the id is supplied by the caller. */
    method AddPhase(phaseId: int)
      modifies this`concept
      ensures concept == ConceptOps.AppendPhase(old(concept), phaseId)
    {
      concept := ConceptOps.AppendPhase(concept, phaseId);
    }

    method UpdatePhase(id: int, name: Option<string>, description: Option<string>)
      modifies this`concept
      ensures concept == ConceptOps.UpdatePhase(old(concept), id, name, description)
    {
      concept := ConceptOps.UpdatePhase(concept, id, name, description);
    }

    method RemovePhase(id: int)
      modifies this`concept
      ensures concept == ConceptOps.RemovePhase(old(concept), id)
    {
      concept := ConceptOps.RemovePhase(concept, id);
    }

    method AddCoachingPoint()
      modifies this`concept
      ensures concept == ConceptOps.AddCoachingPoint(old(concept))
    {
      concept := ConceptOps.AddCoachingPoint(concept);
    }

    method UpdateCoachingPoint(index: int, v: string)
      modifies this`concept
      ensures concept == ConceptOps.UpdateCoachingPoint(old(concept), index, v)
    {
      concept := ConceptOps.UpdateCoachingPoint(concept, index, v);
    }

    method AddVariation()
      modifies this`concept
      ensures concept == ConceptOps.AddVariation(old(concept))
    {
      concept := ConceptOps.AddVariation(concept);
    }

    method UpdateVariation(index: int, v: string)
      modifies this`concept
      ensures concept == ConceptOps.UpdateVariation(old(concept), index, v)
    {
      concept := ConceptOps.UpdateVariation(concept, index, v);
    }

    // ------------------------------------------------------------ history

    /** Pushes the current scene onto undo (keeping the newest 50) and empties redo. */
    method SaveUndo()
      requires Valid()
      modifies this`undoStack, this`redoStack
      ensures Valid()
      ensures Hist() == SaveUndoH(old(Hist()))
    {
      undoStack := LastN(undoStack, HistoryLimit - 1) + [Snapshot(elements, drawings)];
      redoStack := [];
    }

    /** Restores the newest undo entry, pushing the current scene onto redo; clears the selection. */
    method Undo()
      requires Valid()
      modifies this`elements, this`drawings, this`undoStack, this`redoStack, this`selectedId
      ensures Valid()
      ensures Hist() == UndoH(old(Hist()))
      ensures selectedId == if old(|undoStack|) == 0 then old(selectedId) else None
    {
      if |undoStack| == 0 {
        return;
      }
      var prev := undoStack[|undoStack| - 1];
      assert prev in undoStack;
      redoStack := redoStack + [Snapshot(elements, drawings)];
      undoStack := undoStack[..|undoStack| - 1];
      elements := prev.elements;
      drawings := prev.drawings;
      selectedId := None;
    }

    /** Restores the newest redo entry, pushing the current scene onto undo; clears the selection. */
    method Redo()
      requires Valid()
      modifies this`elements, this`drawings, this`undoStack, this`redoStack, this`selectedId
      ensures Valid()
      ensures Hist() == RedoH(old(Hist()))
      ensures selectedId == if old(|redoStack|) == 0 then old(selectedId) else None
    {
      if |redoStack| == 0 {
        return;
      }
      var next := redoStack[|redoStack| - 1];
      assert next in redoStack;
      undoStack := undoStack + [Snapshot(elements, drawings)];
      redoStack := redoStack[..|redoStack| - 1];
      elements := next.elements;
      drawings := next.drawings;
      selectedId := None;
    }

    // ------------------------------------------------------------ exercises

    /**
     * For an index in range other than the current one: stores the current scene,
     * concept and field type at the current index, loads the target, and resets the
     * selection, the clock, playing and both history stacks. Otherwise nothing changes.
     */
    method SwitchExercise(index: int)
      requires Valid()
      modifies this`exercises, this`currentExerciseIndex, this`elements, this`drawings,
        this`concept, this`fieldType, this`selectedId, this`animTime, this`animPlaying,
        this`undoStack, this`redoStack
      ensures Valid()
      ensures index == old(currentExerciseIndex) || index < 0 || index >= old(|exercises|) ==>
        exercises == old(exercises) && currentExerciseIndex == old(currentExerciseIndex)
        && elements == old(elements) && drawings == old(drawings) && concept == old(concept)
        && fieldType == old(fieldType) && selectedId == old(selectedId) && animTime == old(animTime)
        && animPlaying == old(animPlaying) && undoStack == old(undoStack) && redoStack == old(redoStack)
      ensures !(index == old(currentExerciseIndex) || index < 0 || index >= old(|exercises|)) ==>
        exercises == old(exercises)[old(currentExerciseIndex) := Exercise(old(concept), old(elements), old(drawings), old(fieldType))]
        && currentExerciseIndex == index
        && elements == old(exercises)[index].elements && drawings == old(exercises)[index].drawings
        && concept == old(exercises)[index].concept && fieldType == old(exercises)[index].fieldType
        && selectedId == None && animTime == 0.0 && !animPlaying && undoStack == [] && redoStack == []
    {
      if index == currentExerciseIndex || index < 0 || index >= |exercises| {
        return;
      }
      LoadExercise(index);
    }

    /** The switch proper, for a target other than the current exercise. */
    method LoadExercise(index: int)
      requires Valid() && 0 <= index < |exercises| && index != currentExerciseIndex
      modifies this`exercises, this`currentExerciseIndex, this`elements, this`drawings,
        this`concept, this`fieldType, this`selectedId, this`animTime, this`animPlaying,
        this`undoStack, this`redoStack
      ensures Valid()
      ensures exercises == old(exercises)[old(currentExerciseIndex) := Exercise(old(concept), old(elements), old(drawings), old(fieldType))]
      ensures currentExerciseIndex == index
      ensures elements == old(exercises)[index].elements && drawings == old(exercises)[index].drawings
      ensures concept == old(exercises)[index].concept && fieldType == old(exercises)[index].fieldType
      ensures selectedId == None && animTime == 0.0 && !animPlaying && undoStack == [] && redoStack == []
    {
      var packed := Exercise(concept, elements, drawings, fieldType);
      var target := exercises[index];
      SwitchedStoreValid(nextId, elements, drawings, undoStack, redoStack, exercises,
        currentExerciseIndex, index, packed);
      exercises, currentExerciseIndex := exercises[currentExerciseIndex := packed], index;
      elements, drawings := target.elements, target.drawings;
      concept, fieldType := target.concept, target.fieldType;
      selectedId, animTime, animPlaying := None, 0.0, false;
      undoStack, redoStack := [], [];
    }

    /**
     * Replaces the exercise list by the import, numbering elements 1..n across all
     * exercises, dropping keyframes and drawings, and loads the first exercise.
     * `nextId` becomes n + 1; selection, clock and history are reset.
     */
    method ImportTrainingPlan(data: seq<ImportedExercise>)
      requires |data| >= 1
      modifies this`exercises, this`currentExerciseIndex, this`elements, this`drawings,
        this`nextId, this`selectedId, this`concept, this`fieldType, this`showConcept,
        this`animTime, this`animPlaying, this`undoStack, this`redoStack
      ensures Valid()
      ensures exercises == ImportExercises(data, 1) && currentExerciseIndex == 0
      ensures nextId == TotalElements(data) + 1
      ensures elements == exercises[0].elements && drawings == [] && concept == data[0].concept
      ensures fieldType == data[0].fieldType.GetOr(FullGreen)
      ensures selectedId == None && showConcept && animTime == 0.0 && !animPlaying
      ensures undoStack == [] && redoStack == []
    {
      var exs := ImportExercises(data, 1);
      ImportedStoreValid(data);
      exercises, currentExerciseIndex, nextId := exs, 0, TotalElements(data) + 1;
      elements, drawings := exs[0].elements, exs[0].drawings;
      concept, fieldType := exs[0].concept, exs[0].fieldType;
      selectedId, showConcept, animTime, animPlaying := None, true, 0.0, false;
      undoStack, redoStack := [], [];
    }

    /**
     * Empties the scene and the exercise list and resets selection and clock;
     * `nextId`, both history stacks and the concept are left as they are.
     */
    method ResetAll()
      requires Valid()
      modifies this`elements, this`drawings, this`exercises, this`currentExerciseIndex,
        this`selectedId, this`animTime, this`animPlaying
      ensures Valid()
      ensures elements == [] && drawings == [] && exercises == [] && currentExerciseIndex == 0
      ensures selectedId == None && animTime == 0.0 && !animPlaying
    {
      elements := [];
      drawings := [];
      exercises := [];
      currentExerciseIndex := 0;
      selectedId := None;
      animTime := 0.0;
      animPlaying := false;
    }
  }
}
