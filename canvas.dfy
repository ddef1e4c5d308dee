/**
 * The field canvas's mouse handling: the mapping between canvas pixels and field
 * coordinates, the drag draft and the draw draft, the mouse-button, mouse-move and drop handlers that
 * turn mouse events into store actions, and the time-window rule that decides how
 * an element is rendered.
 */
module Canvas {
  import opened Wrappers
  import opened Text
  import opened SceneTypes
  import opened SceneOps
  import opened SceneStore
  import HitTest

  // ---------------------------------------------------------------- coordinates

  /** `canvasToField`: undoes `canvas = offset + field × scale`. */
  function CanvasToField(cx: real, cy: real, scale: real, ox: real, oy: real): Point
    requires scale != 0.0
  {
    Point((cx - ox) / scale, (cy - oy) / scale)
  }

  /** The forward mapping the renderer uses. */
  function FieldToCanvas(p: Point, scale: real, ox: real, oy: real): (c: Point)
  {
    Point(ox + p.x * scale, oy + p.y * scale)
  }

  /** The two mappings are inverse to each other for any non-zero scale. */
  lemma CanvasFieldRoundTrip(cx: real, cy: real, p: Point, scale: real, ox: real, oy: real)
    requires scale != 0.0
    ensures FieldToCanvas(CanvasToField(cx, cy, scale, ox, oy), scale, ox, oy) == Point(cx, cy)
    ensures CanvasToField(FieldToCanvas(p, scale, ox, oy).x, FieldToCanvas(p, scale, ox, oy).y, scale, ox, oy) == p
  {
    assert (cx - ox) / scale * scale == cx - ox;
    assert (cy - oy) / scale * scale == cy - oy;
    assert (ox + p.x * scale - ox) / scale == p.x;
    assert (oy + p.y * scale - oy) / scale == p.y;
  }

  // ---------------------------------------------------------------- visibility

  /**
   * An element is out of its time window when the clock is before its start time
   * (default 0) or, for a non-negative end time (default −1), after it.
   */
  predicate OutOfWindow(e: FieldElement, animTime: real) {
    var st := e.startTime.GetOr(0.0);
    var et := e.endTime.GetOr(-1.0);
    animTime < st || (et >= 0.0 && animTime > et)
  }

  datatype RenderMode = Hidden | Dimmed | Normal

  /** Out-of-window elements are skipped while playing and drawn at 20 % opacity when paused. */
  function RenderModeOf(e: FieldElement, animTime: real, playing: bool): (m: RenderMode)
  {
    if OutOfWindow(e, animTime) then (if playing then Hidden else Dimmed) else Normal
  }

  /** The three modes partition the cases: hidden iff playing and out of window, and so on. */
  lemma RenderModeCases(e: FieldElement, animTime: real, playing: bool)
    ensures RenderModeOf(e, animTime, playing) == Hidden <==> playing && OutOfWindow(e, animTime)
    ensures RenderModeOf(e, animTime, playing) == Dimmed <==> !playing && OutOfWindow(e, animTime)
    ensures RenderModeOf(e, animTime, playing) == Normal <==> !OutOfWindow(e, animTime)
  {
  }

  /**
   * Without time bounds an element is in its window at every non-negative time; an
   * element dropped at time t (start t, end −1) is in its window from t on.
   */
  lemma WindowDefaults(e: FieldElement, animTime: real, t: real)
    ensures e.startTime.None? && e.endTime.None? ==> (OutOfWindow(e, animTime) <==> animTime < 0.0)
    ensures e.startTime == Some(t) && e.endTime == Some(-1.0) ==> (OutOfWindow(e, animTime) <==> animTime < t)
  {
  }

  /**
   * The elements drawn in one frame, in list order, each paired with whether it is
   * dimmed: exactly the elements that are not hidden.
   */
  function DrawList(els: seq<FieldElement>, animTime: real, playing: bool): (r: seq<(FieldElement, bool)>)
    ensures |r| <= |els|
    ensures !playing ==> |r| == |els|
    ensures forall p :: p in r ==>
      p.0 in els && RenderModeOf(p.0, animTime, playing) != Hidden && (p.1 <==> OutOfWindow(p.0, animTime))
    ensures forall e :: e in els && RenderModeOf(e, animTime, playing) != Hidden ==> (e, OutOfWindow(e, animTime)) in r
  {
    if els == [] then []
    else
      var rest := DrawList(els[1..], animTime, playing);
      assert forall e :: e in els[1..] ==> e in els;
      assert forall e :: e in els ==> e == els[0] || e in els[1..];
      match RenderModeOf(els[0], animTime, playing)
      case Hidden => rest
      case Dimmed => [(els[0], true)] + rest
      case Normal => [(els[0], false)] + rest
  }

  /** What one element contributes to the frame: nothing when hidden, else itself and its dimming. */
  function Drawn(e: FieldElement, animTime: real, playing: bool): seq<(FieldElement, bool)> {
    if RenderModeOf(e, animTime, playing) == Hidden then [] else [(e, OutOfWindow(e, animTime))]
  }

  /** The frame starts with what the first element contributes. */
  lemma DrawListCons(els: seq<FieldElement>, animTime: real, playing: bool)
    requires els != []
    ensures DrawList(els, animTime, playing) == Drawn(els[0], animTime, playing) + DrawList(els[1..], animTime, playing)
  {
  }

  /** The list is drawn piece by piece: order and multiplicity follow the element list. */
  lemma {:induction false} DrawListAppend(a: seq<FieldElement>, b: seq<FieldElement>, animTime: real, playing: bool)
    ensures DrawList(a + b, animTime, playing) == DrawList(a, animTime, playing) + DrawList(b, animTime, playing)
    decreases |a|
  {
    if a == [] {
      assert a + b == b;
    } else {
      var e, t := a[0], a[1..];
      DrawListAppend(t, b, animTime, playing);
      assert a == [e] + t;
      ConcatAssoc([e], t, b);
      DrawListConsOf(e, t + b, animTime, playing);
      DrawListConsOf(e, t, animTime, playing);
      ConcatAssoc(Drawn(e, animTime, playing), DrawList(t, animTime, playing), DrawList(b, animTime, playing));
    }
  }

  /** A list with a known head is drawn as that head's contribution, then the rest. */
  lemma DrawListConsOf(e: FieldElement, rest: seq<FieldElement>, animTime: real, playing: bool)
    ensures DrawList([e] + rest, animTime, playing) == Drawn(e, animTime, playing) + DrawList(rest, animTime, playing)
  {
    assert ([e] + rest)[1..] == rest;
    DrawListCons([e] + rest, animTime, playing);
  }

  /** While paused every element is drawn, in list order, dimmed exactly when out of its window. */
  lemma {:induction false} DrawListPaused(els: seq<FieldElement>, animTime: real)
    ensures |DrawList(els, animTime, false)| == |els|
    ensures forall i :: 0 <= i < |els| ==> DrawList(els, animTime, false)[i] == (els[i], OutOfWindow(els[i], animTime))
    decreases |els|
  {
    if els != [] {
      var e, t := els[0], els[1..];
      DrawListPaused(t, animTime);
      assert els == [e] + t;
      DrawListConsOf(e, t, animTime, false);
      var r, rest := DrawList(els, animTime, false), DrawList(t, animTime, false);
      assert r == [(e, OutOfWindow(e, animTime))] + rest;
      forall i | 1 <= i < |els|
        ensures r[i] == (els[i], OutOfWindow(els[i], animTime))
      {
        assert r[i] == rest[i - 1] && els[i] == t[i - 1];
      }
    }
  }

  // ---------------------------------------------------------------- drafts

  /** The element being dragged and where inside it the mouse grabbed it. */
  datatype DragState = DragState(id: int, offsetX: real, offsetY: real)

  /** Grabbing element e at field point p remembers p's offset from the element's position. */
  function Grab(e: FieldElement, p: Point): (g: DragState)
    ensures g.id == e.id && e.x + g.offsetX == p.x && e.y + g.offsetY == p.y
  {
    DragState(e.id, p.x - e.x, p.y - e.y)
  }

  /** Arrow, dashed and zone modes draw a straight two-point shape. */
  predicate IsLineMode(m: ToolMode) {
    m == Draw(Arrow) || m == Draw(Dashed) || m == Draw(Zone)
  }

  /** Select and text are the modes that do not draw a draft. */
  predicate IsDraftMode(m: ToolMode) {
    IsLineMode(m) || m == Draw(Curved)
  }

  /** Curve samples are more than 8 field units apart (squared distance above 64). */
  const SampleGapSq: real := 64.0

  predicate SamplesSpaced(pts: seq<Point>) {
    forall i :: 0 < i < |pts| ==> HitTest.DistSq(pts[i - 1].x, pts[i - 1].y, pts[i].x, pts[i].y) > SampleGapSq
  }

  /** The stroke width every drawing made on the canvas gets. */
  const StrokeWidth: real := 2.5

  function LineDrawing(kind: DrawingType, s: Point, e: Point, color: string): (d: Drawing)
  {
    Drawing(0, kind, color, StrokeWidth, s.x, s.y, e.x, e.y, None, None, None)
  }

  function CurveDrawing(pts: seq<Point>, color: string): (d: Drawing)
  {
    Drawing(0, Curved, color, StrokeWidth, 0.0, 0.0, 0.0, 0.0, Some(pts), None, None)
  }

  function TextDrawing(p: Point, text: string, color: string): (d: Drawing)
  {
    Drawing(0, TextNote, color, StrokeWidth, p.x, p.y, 0.0, 0.0, None, Some(text), None)
  }

  /** The draw draft: where the press started, the latest mouse position and the curve samples. */
  datatype Draft = Draft(start: Option<Point>, end: Option<Point>, points: seq<Point>)

  const NoDraft: Draft := Draft(None, None, [])

  /**
   * The draft after a press at p: line modes start at p, curve mode also takes p as
   * its first sample, select and text mode discard the draft.
   */
  function PressDraft(mode: ToolMode, p: Point): Draft {
    if IsLineMode(mode) then Draft(Some(p), None, [])
    else if mode == Draw(Curved) then Draft(Some(p), None, [p])
    else NoDraft
  }

  lemma PressDraftMeaning(mode: ToolMode, p: Point)
    ensures var d := PressDraft(mode, p);
      SamplesSpaced(d.points)
      && (d.start.Some? <==> IsDraftMode(mode))
      && (d.start.Some? ==> d.start == Some(p) && d.end.None?)
      && d.points == if mode == Draw(Curved) then [p] else []
  {
  }

  /** `if (text)`: text mode adds a drawing only for an answer that is neither cancelled nor empty. */
  predicate TextCommits(mode: ToolMode, input: Option<string>) {
    mode == Draw(TextNote) && input.Some? && input.value != ""
  }

  /**
   * The draft after a move to p with no drag in progress. A started line draft
   * tracks the end. A started curve draft tracks the end and appends p only when p
   * is more than 8 from the last sample; one without samples (started in another
   * mode) stops after setting the end. Anything else is unchanged.
   */
  function MoveDraft(mode: ToolMode, d: Draft, p: Point): Draft {
    if d.start.Some? && IsLineMode(mode) then d.(end := Some(p))
    else if mode == Draw(Curved) && d.start.Some? then
      if d.points != [] && HitTest.DistSq(Last(d.points).x, Last(d.points).y, p.x, p.y) > SampleGapSq
      then Draft(d.start, Some(p), d.points + [p])
      else d.(end := Some(p))
    else d
  }

  lemma MoveDraftMeaning(mode: ToolMode, d: Draft, p: Point)
    ensures var r := MoveDraft(mode, d, p);
      r.start == d.start
      && (d.start.Some? && IsDraftMode(mode) ==> r.end == Some(p))
      && (!(d.start.Some? && IsDraftMode(mode)) ==> r == d)
      && (r.points == d.points || (mode == Draw(Curved) && d.points != [] && r.points == d.points + [p]
                                   && HitTest.DistSq(Last(d.points).x, Last(d.points).y, p.x, p.y) > SampleGapSq))
  {
  }

  /** Moving keeps consecutive curve samples more than 8 apart. */
  lemma MoveDraftSpaced(mode: ToolMode, d: Draft, p: Point)
    requires SamplesSpaced(d.points)
    ensures SamplesSpaced(MoveDraft(mode, d, p).points)
  {
    MoveDraftMeaning(mode, d, p);
  }

  /**
   * The drawing mouse-up commits: a shape of the line mode's kind from start to end
   * when both are set, or a curve through the samples when there are two or more.
   */
  function Committed(mode: ToolMode, d: Draft, color: string): Option<Drawing> {
    if d.start.Some? && d.end.Some? && IsLineMode(mode) then Some(LineDrawing(mode.kind, d.start.value, d.end.value, color))
    else if mode == Draw(Curved) && |d.points| >= 2 then Some(CurveDrawing(d.points, color))
    else None
  }

  lemma CommittedMeaning(mode: ToolMode, d: Draft, color: string)
    ensures var r := Committed(mode, d, color);
      (r.Some? <==> (d.start.Some? && d.end.Some? && IsLineMode(mode)) || (mode == Draw(Curved) && |d.points| >= 2))
      && (r.Some? ==> r.value.kind in {Arrow, Dashed, Zone, Curved} && r.value.color == color)
      && (r.Some? && IsLineMode(mode) ==>
            r.value.kind == mode.kind && Point(r.value.x1, r.value.y1) == d.start.value
            && Point(r.value.x2, r.value.y2) == d.end.value)
      && (r.Some? && mode == Draw(Curved) ==> r.value.kind == Curved && r.value.points == Some(d.points))
  {
  }

  /** A committed curve is always hit-testable: it carries at least two samples. */
  lemma CurveDrawingShape(pts: seq<Point>, color: string)
    requires |pts| >= 2
    ensures CurveDrawing(pts, color).points == Some(pts) && CurveDrawing(pts, color).kind == Curved
    ensures |CurveDrawing(pts, color).points.value| >= 2
  {
  }

  /** `filter(el => el.type.startsWith('player')).length` */
  function PlayerCount(els: seq<FieldElement>): (n: nat)
    ensures n <= |els|
    ensures n == 0 <==> forall e :: e in els ==> !IsPlayerTag(e.kind)
  {
    if els == [] then 0
    else (if IsPlayerTag(els[0].kind) then 1 else 0) + PlayerCount(els[1..])
  }

  /** The element `onDrop` adds: the store gives it its id, numbers only for field players. */
  function DroppedElement(kind: ElementType, p: Point, color: string, players: nat, animTime: real): (e: FieldElement)
  {
    FieldElement(0, kind, p.x, p.y, color, 0.0,
      if IsPlayerTag(kind) then NatToString(players + 1) else "",
      "", [], Some(animTime), Some(-1.0))
  }

  /** A dropped element starts visible at the drop time and numbers field players 1, 2, … */
  lemma DroppedElementShape(kind: ElementType, p: Point, color: string, players: nat, animTime: real)
    ensures var e := DroppedElement(kind, p, color, players, animTime);
      e.keyframes == [] && !OutOfWindow(e, animTime)
      && (IsPlayerTag(kind) ==> e.number == NatToString(players + 1) && ParseDigits(e.number) == players + 1)
      && (!IsPlayerTag(kind) ==> e.number == "")
  {
    if IsPlayerTag(kind) {
      ParseNatToString(players + 1);
    }
  }

  /** The element a double-click renumbers: the topmost hit, when it is a field player or goalkeeper. */
  function NumberTarget(els: seq<FieldElement>, p: Point): Option<FieldElement> {
    var hit := HitTest.HitTestElement(els, p.x, p.y);
    if hit.Some? && (IsPlayerTag(hit.value.kind) || hit.value.kind == Goalkeeper) then hit else None
  }

  /** What a double-click changes: nothing, an element's number or a drawing's label. */
  datatype ClickEdit = NoEdit | EditNumber(id: int, number: string) | EditLabel(id: int, labelText: Option<string>)

  /**
   * The double-click decision. Only select mode reacts. A topmost hit on a field
   * player or goalkeeper asks for its number, and the element handler returns there
   * even when the prompt is cancelled; otherwise the topmost arrow, dashed line or
   * curve asks for its label, an empty answer clearing it. A cancelled prompt (None)
   * edits nothing.
   */
  function DoubleClickEdit(mode: ToolMode, els: seq<FieldElement>, drs: seq<Drawing>, p: Point, answer: Option<string>): ClickEdit {
    if mode != Select || answer.None? then NoEdit
    else
      var num := NumberTarget(els, p);
      if num.Some? then EditNumber(num.value.id, answer.value)
      else
        var lab := HitTest.HitTestDrawing(drs, p.x, p.y);
        if lab.Some? then EditLabel(lab.value.id, LabelAnswer(answer.value)) else NoEdit
  }

  /** The number target is the topmost hit exactly when that hit is a field player or goalkeeper. */
  lemma NumberTargetMeaning(els: seq<FieldElement>, p: Point)
    ensures var r := NumberTarget(els, p); var hit := HitTest.HitTestElement(els, p.x, p.y);
      (r.Some? ==> r == hit && (IsPlayerTag(r.value.kind) || r.value.kind == Goalkeeper))
      && (r.None? ==> hit.None? || !(IsPlayerTag(hit.value.kind) || hit.value.kind == Goalkeeper))
  {
  }

  lemma DoubleClickEditMeaning(mode: ToolMode, els: seq<FieldElement>, drs: seq<Drawing>, p: Point, answer: Option<string>)
    ensures var r := DoubleClickEdit(mode, els, drs, p, answer);
      (answer.None? || mode != Select ==> r == NoEdit)
      && (r.EditNumber? ==> (var hit := HitTest.HitTestElement(els, p.x, p.y);
            hit.Some? && hit.value.id == r.id && (IsPlayerTag(hit.value.kind) || hit.value.kind == Goalkeeper)
            && answer == Some(r.number)))
      && (r.EditLabel? ==> (var hit := HitTest.HitTestDrawing(drs, p.x, p.y);
            hit.Some? && hit.value.id == r.id && hit.value.kind in {Arrow, Dashed, Curved}
            && NumberTarget(els, p).None? && answer.Some? && r.labelText == LabelAnswer(answer.value)))
      && (r == NoEdit && answer.Some? && mode == Select ==>
            NumberTarget(els, p).None? && HitTest.HitTestDrawing(drs, p.x, p.y).None?)
  {
    NumberTargetMeaning(els, p);
    HitTest.HitTestDrawingMeaning(drs, p.x, p.y);
  }

  /**
   * The scene and history after an edit: nothing for no edit, otherwise one snapshot
   * (clearing redo) and the number patch on the elements or the label patch on the
   * drawings carrying the id.
   */
  function AfterEdit(edit: ClickEdit, h: History): History {
    match edit
    case NoEdit => h
    case EditNumber(id, n) =>
      History(Snapshot(EditElements(h.current.elements, id, Patch(NumberPatch(n))), h.current.drawings),
              SaveUndoH(h).undo, [])
    case EditLabel(id, l) =>
      History(Snapshot(h.current.elements, PatchDrawings(h.current.drawings, id, LabelPatch(l))),
              SaveUndoH(h).undo, [])
  }

  /** The patch that sets only the shirt number. */
  function NumberPatch(n: string): ElementPatch {
    NoPatch.(number := Some(n))
  }

  /** `label: newLabel || undefined` */
  function LabelAnswer(s: string): Option<string> {
    if s == "" then None else Some(s)
  }

  // ---------------------------------------------------------------- controller

  /**
   * The canvas's mutable mouse state over a store. The transform (scale and
   * offsets) is fixed for the controller's life.
   */
  class CanvasController {
    const store: Store
    const scale: real
    const offsetX: real
    const offsetY: real
    var drag: Option<DragState>
    var draft: Draft

    /** The transform is invertible and curve samples are spaced; the store keeps its own invariant. */
    ghost predicate Valid()
      reads this
    {
      scale > 0.0 && SamplesSpaced(draft.points)
    }

    /** The mouse position in field coordinates. */
    function FieldPoint(cx: real, cy: real): Point
      reads this
      requires scale > 0.0
    {
      CanvasToField(cx, cy, scale, offsetX, offsetY)
    }

    constructor (s: Store, sc: real, ox: real, oy: real)
      requires s.Valid() && sc > 0.0
      ensures Valid() && store.Valid() && store == s && scale == sc && offsetX == ox && offsetY == oy
      ensures drag.None? && draft == NoDraft
    {
      store := s;
      scale := sc;
      offsetX := ox;
      offsetY := oy;
      drag := None;
      draft := NoDraft;
    }

    /**
     * Right clicks are ignored. Otherwise the draft becomes `PressDraft` of the mode
     * and the mouse. Select mode selects the topmost element under the mouse and
     * starts a drag remembering the grab offset, or clears the selection on a miss.
     * Text mode with a non-empty answer takes one snapshot and adds a text drawing at
     * the mouse.
     */
    method OnMouseDown(button: int, cx: real, cy: real, textInput: Option<string>)
      requires Valid() && store.Valid()
      modifies this`drag, this`draft, store`selectedId, store`undoStack, store`redoStack, store`drawings, store`nextId
      ensures Valid() && store.Valid()
      ensures button == 2 ==>
        draft == old(draft) && drag == old(drag) && store.selectedId == old(store.selectedId)
        && store.Hist() == old(store.Hist()) && store.nextId == old(store.nextId)
      ensures button != 2 ==>
        var fp := FieldPoint(cx, cy);
        PressOutcome(fp, textInput, HitTest.HitTestElement(store.elements, fp.x, fp.y),
          old(drag), old(store.Hist()), old(store.nextId), old(store.selectedId))
    {
      if button == 2 {
        return;
      }
      var fp := CanvasToField(cx, cy, scale, offsetX, offsetY);
      var hit := HitTest.HitTestElement(store.elements, fp.x, fp.y);
      draft := PressDraft(store.mode, fp);
      PressDraftMeaning(store.mode, fp);
      if store.mode == Select {
        PressSelect(fp, hit);
      } else if TextCommits(store.mode, textInput) {
        PressText(fp, textInput, hit);
      }
    }

    /**
     * What a left or middle press at `fp` leaves behind, given the topmost element
     * `hit` under the mouse: the draft is `PressDraft` of the mode; in select mode
     * the hit element is selected and grabbed (a miss clears the selection); in text
     * mode with a non-empty answer one snapshot is taken and a text drawing is added
     * at the mouse; nothing else moves.
     */
    ghost predicate PressOutcome(fp: Point, textInput: Option<string>, hit: Option<FieldElement>,
                                 drag0: Option<DragState>, hist0: History, nextId0: int, selected0: Option<int>)
      reads this, store
    {
      && draft == PressDraft(store.mode, fp)
      && (store.mode == Select ==>
           (hit.Some? ==> store.selectedId == Some(hit.value.id) && drag == Some(Grab(hit.value, fp)))
           && (hit.None? ==> store.selectedId == None && drag == drag0))
      && (store.mode != Select ==> drag == drag0 && store.selectedId == selected0)
      && (TextCommits(store.mode, textInput) ==>
           store.undoStack == SaveUndoH(hist0).undo && store.redoStack == []
           && store.drawings == hist0.current.drawings + [TextDrawing(fp, textInput.value, store.drawColor).(id := nextId0)]
           && store.nextId == nextId0 + 1)
      && (!TextCommits(store.mode, textInput) ==>
           store.drawings == hist0.current.drawings && store.undoStack == hist0.undo
           && store.redoStack == hist0.redo && store.nextId == nextId0)
    }

    /** A select-mode press selects and grabs the hit element, or clears the selection on a miss. */
    method PressSelect(fp: Point, hit: Option<FieldElement>)
      requires Valid() && store.Valid() && store.mode == Select && draft == PressDraft(store.mode, fp)
      modifies this`drag, store`selectedId
      ensures Valid() && store.Valid()
      ensures PressOutcome(fp, None, hit, old(drag), old(store.Hist()), old(store.nextId), old(store.selectedId))
    {
      if hit.Some? {
        store.SetSelected(Some(hit.value.id));
        drag := Some(Grab(hit.value, fp));
      } else {
        store.SetSelected(None);
      }
    }

    /** A text-mode press with a non-empty answer takes one snapshot and adds the text at the mouse. */
    method PressText(fp: Point, textInput: Option<string>, hit: Option<FieldElement>)
      requires store.Valid() && TextCommits(store.mode, textInput) && draft == PressDraft(store.mode, fp)
      modifies store`undoStack, store`redoStack, store`drawings, store`nextId
      ensures store.Valid()
      ensures PressOutcome(fp, textInput, hit, drag, old(store.Hist()), old(store.nextId), store.selectedId)
    {
      SaveAndAdd(TextDrawing(fp, textInput.value, store.drawColor));
    }

    /**
     * While dragging, moves the dragged element to the mouse minus the grab offset
     * (no snapshot). Otherwise the draft becomes `MoveDraft` of the mode, the draft
     * and the mouse.
     */
    method OnMouseMove(cx: real, cy: real)
      requires Valid() && store.Valid()
      modifies this`draft, store`elements
      ensures Valid() && store.Valid()
      ensures store.undoStack == old(store.undoStack) && store.redoStack == old(store.redoStack)
      ensures drag.Some? ==>
        (var fp := FieldPoint(cx, cy);
         store.elements == EditElements(old(store.elements), drag.value.id,
           Patch(MovePatch(fp.x - drag.value.offsetX, fp.y - drag.value.offsetY)))
         && draft == old(draft))
      ensures drag.None? ==>
        store.elements == old(store.elements) && draft == MoveDraft(store.mode, old(draft), FieldPoint(cx, cy))
    {
      var fp := CanvasToField(cx, cy, scale, offsetX, offsetY);
      if drag.Some? {
        store.UpdateElement(drag.value.id, MovePatch(fp.x - drag.value.offsetX, fp.y - drag.value.offsetY));
      } else {
        Track(fp);
      }
    }

    /** A move with no drag in progress updates the draft as `MoveDraft` says, keeping the samples spaced. */
    method Track(fp: Point)
      requires Valid()
      modifies this`draft
      ensures Valid()
      ensures draft == MoveDraft(store.mode, old(draft), fp)
    {
      if draft.start.Some? && IsLineMode(store.mode) {
        draft := draft.(end := Some(fp));
      } else if store.mode == Draw(Curved) && draft.start.Some? {
        draft := draft.(end := Some(fp));
        if draft.points == [] {
          return;
        }
        var last := draft.points[|draft.points| - 1];
        var dx, dy := fp.x - last.x, fp.y - last.y;
        assert dx * dx + dy * dy == HitTest.DistSq(last.x, last.y, fp.x, fp.y);
        if dx * dx + dy * dy > SampleGapSq {
          draft := draft.(points := draft.points + [fp]);
        }
      }
      MoveDraftSpaced(store.mode, old(draft), fp);
    }

    /**
     * Ends a drag with one snapshot of the scene as it is after the moves. Then
     * commits a ready line draft (start and end set, line mode) or a ready curve
     * draft (two or more samples), each after one snapshot, and clears the draft.
     */
    method OnMouseUp()
      requires Valid() && store.Valid()
      modifies this`drag, this`draft, store`undoStack, store`redoStack, store`drawings, store`nextId
      ensures Valid() && store.Valid()
      ensures drag.None?
      ensures store.undoStack == AfterSaves(old(store.Hist()), old(drag).Some?, Committed(old(store.mode), old(draft), store.drawColor).Some?).undo
      ensures store.redoStack == AfterSaves(old(store.Hist()), old(drag).Some?, Committed(old(store.mode), old(draft), store.drawColor).Some?).redo
      ensures Committed(old(store.mode), old(draft), store.drawColor).Some? ==>
        draft == NoDraft && store.nextId == old(store.nextId) + 1
        && store.drawings == old(store.drawings) + [Committed(old(store.mode), old(draft), store.drawColor).value.(id := old(store.nextId))]
      ensures Committed(old(store.mode), old(draft), store.drawColor).None? ==>
        draft == old(draft) && store.drawings == old(store.drawings) && store.nextId == old(store.nextId)
    {
      EndDrag();
      CommitDraft();
    }

    /** Ends a drag, if any, with one snapshot of the scene as it is now. */
    method EndDrag()
      requires store.Valid()
      modifies this`drag, store`undoStack, store`redoStack
      ensures store.Valid() && drag.None?
      ensures old(drag).Some? ==> store.Hist() == SaveUndoH(old(store.Hist()))
      ensures old(drag).None? ==> store.Hist() == old(store.Hist())
    {
      if drag.Some? {
        store.SaveUndo();
        drag := None;
      }
    }

    /** Commits a ready line or curve draft after one snapshot and clears the draft. */
    method CommitDraft()
      requires Valid() && store.Valid()
      modifies this`draft, store`undoStack, store`redoStack, store`drawings, store`nextId
      ensures Valid() && store.Valid()
      ensures Committed(store.mode, old(draft), store.drawColor).Some? ==>
        draft == NoDraft && store.nextId == old(store.nextId) + 1
        && store.undoStack == SaveUndoH(old(store.Hist())).undo && store.redoStack == []
        && store.drawings == old(store.drawings) + [Committed(store.mode, old(draft), store.drawColor).value.(id := old(store.nextId))]
      ensures Committed(store.mode, old(draft), store.drawColor).None? ==>
        draft == old(draft) && store.Hist() == old(store.Hist()) && store.nextId == old(store.nextId)
    {
      var c := Committed(store.mode, draft, store.drawColor);
      if c.Some? {
        SaveAndAdd(c.value);
        draft := NoDraft;
      }
    }

    /** One snapshot, then the drawing under the next id. */
    method SaveAndAdd(d: Drawing)
      requires store.Valid()
      modifies store`undoStack, store`redoStack, store`drawings, store`nextId
      ensures store.Valid()
      ensures store.undoStack == SaveUndoH(old(store.Hist())).undo && store.redoStack == []
      ensures store.drawings == old(store.drawings) + [d.(id := old(store.nextId))]
      ensures store.nextId == old(store.nextId) + 1
    {
      store.SaveUndo();
      store.AddDrawing(d);
    }

    /**
     * Applies the edit `DoubleClickEdit` picks for the mouse and the prompt's
     * answer, after one snapshot; no edit changes nothing.
     */
    method OnDoubleClick(cx: real, cy: real, answer: Option<string>)
      requires Valid() && store.Valid()
      modifies store`undoStack, store`redoStack, store`elements, store`drawings
      ensures store.Valid()
      ensures var edit := DoubleClickEdit(store.mode, old(store.elements), old(store.drawings), FieldPoint(cx, cy), answer);
        store.Hist() == AfterEdit(edit, old(store.Hist()))
    {
      var fp := CanvasToField(cx, cy, scale, offsetX, offsetY);
      ApplyEdit(DoubleClickEdit(store.mode, store.elements, store.drawings, fp, answer));
    }

    /** Applies an edit after one snapshot; no edit changes nothing. */
    method ApplyEdit(edit: ClickEdit)
      requires store.Valid()
      modifies store`undoStack, store`redoStack, store`elements, store`drawings
      ensures store.Valid()
      ensures store.Hist() == AfterEdit(edit, old(store.Hist()))
    {
      match edit
      case NoEdit =>
      case EditNumber(id, n) =>
        SaveAndPatchElement(id, NumberPatch(n));
      case EditLabel(id, l) =>
        SaveAndPatchDrawing(id, LabelPatch(l));
    }

    /** One snapshot, then the patch on the elements carrying `id`. */
    method SaveAndPatchElement(id: int, p: ElementPatch)
      requires store.Valid()
      modifies store`undoStack, store`redoStack, store`elements
      ensures store.Valid()
      ensures store.undoStack == SaveUndoH(old(store.Hist())).undo && store.redoStack == []
      ensures store.elements == EditElements(old(store.elements), id, Patch(p))
    {
      store.SaveUndo();
      store.UpdateElement(id, p);
    }

    /** One snapshot, then the patch on the drawings carrying `id`. */
    method SaveAndPatchDrawing(id: int, p: DrawingPatch)
      requires store.Valid()
      modifies store`undoStack, store`redoStack, store`drawings
      ensures store.Valid()
      ensures store.undoStack == SaveUndoH(old(store.Hist())).undo && store.redoStack == []
      ensures store.drawings == PatchDrawings(old(store.drawings), id, p)
    {
      store.SaveUndo();
      store.UpdateDrawing(id, p);
    }

    /**
     * A drop carrying an element kind takes one snapshot and adds that element at the
     * mouse with the selected colour, starting at the current time with no end;
     * field players are numbered one past the count of field players already
     * placed. An empty drop does nothing.
     */
    method OnDrop(dropped: Option<ElementType>, cx: real, cy: real)
      requires Valid() && store.Valid()
      modifies store`undoStack, store`redoStack, store`elements, store`nextId, store`selectedId
      ensures store.Valid()
      ensures dropped.None? ==>
        store.Hist() == old(store.Hist()) && store.nextId == old(store.nextId) && store.selectedId == old(store.selectedId)
      ensures dropped.Some? ==>
        store.undoStack == SaveUndoH(old(store.Hist())).undo && store.redoStack == []
        && store.elements == old(store.elements)
             + [DroppedElement(dropped.value, FieldPoint(cx, cy), store.selectedColor,
                  PlayerCount(old(store.elements)), store.animTime).(id := old(store.nextId))]
        && store.nextId == old(store.nextId) + 1 && store.selectedId == Some(old(store.nextId))
    {
      if dropped.None? {
        return;
      }
      var fp := CanvasToField(cx, cy, scale, offsetX, offsetY);
      store.SaveUndo();
      var players := PlayerCount(store.elements);
      var _ := store.AddElement(DroppedElement(dropped.value, fp, store.selectedColor, players, store.animTime));
    }
  }

  function Last(pts: seq<Point>): Point
    requires pts != []
  {
    pts[|pts| - 1]
  }

  /** The history after mouse-up's snapshots: one for an ended drag, then one for a commit. */
  function AfterSaves(h: History, dragged: bool, commit: bool): History {
    var h1 := if dragged then SaveUndoH(h) else h;
    if commit then SaveUndoH(h1) else h1
  }
}
