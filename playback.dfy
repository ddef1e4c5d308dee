/**
 * The animation bar: the playback clock driven by explicit frame ticks, the baseline
 * poses saved on play and restored on rewind, stepping, and the keyboard shortcuts.
 * Frame scheduling is replaced by calls to `Tick` carrying the frame timestamp (ms).
 */
module Playback {
  import opened Wrappers
  import opened SceneTypes
  import opened SceneOps
  import opened SceneStore
  import Keyframes

  // ---------------------------------------------------------------- saved poses

  /** One entry of the id-to-pose map: `{ x, y, rotation }` saved for element `id`. */
  datatype SavedPose = SavedPose(id: int, pose: Pose)

  /** The entries `f` yields for the elements of `s`, in list order. */
  function PoseList(s: seq<FieldElement>, f: FieldElement -> Option<Pose>): seq<SavedPose>
    decreases |s|
  {
    if s == [] then []
    else
      var last := s[|s| - 1];
      PoseList(s[..|s| - 1], f) + (match f(last) case None => [] case Some(p) => [SavedPose(last.id, p)])
  }

  function CurrentPoseOf(e: FieldElement): Option<Pose> {
    Some(e.CurrentPose())
  }

  /** The pose of an element's first keyframe, if it has one. */
  function FirstPose(e: FieldElement): Option<Pose> {
    if e.keyframes == [] then None else Some(KeyframePose(e.keyframes[0]))
  }

  /** `savePositions`: the current pose of every element. */
  function Baseline(s: seq<FieldElement>): seq<SavedPose> {
    PoseList(s, CurrentPoseOf)
  }

  /** The first-keyframe pose of every element that has keyframes. */
  function FirstKeyframePoses(s: seq<FieldElement>): seq<SavedPose> {
    PoseList(s, FirstPose)
  }

  /** The pose recorded for `id`; a later entry overrides an earlier one, as `Map.set` does. */
  function PoseFor(saved: seq<SavedPose>, id: int): Option<Pose>
    decreases |saved|
  {
    if saved == [] then None
    else if saved[|saved| - 1].id == id then Some(saved[|saved| - 1].pose)
    else PoseFor(saved[..|saved| - 1], id)
  }

  /** `updateElement(id, pose)` for every entry, in order. */
  function ApplyPoses(els: seq<FieldElement>, saved: seq<SavedPose>): seq<FieldElement>
    decreases |saved|
  {
    if saved == [] then els
    else
      var last := saved[|saved| - 1];
      EditElements(ApplyPoses(els, saved[..|saved| - 1]), last.id, Patch(PosePatch(last.pose)))
  }

  function Posed(e: FieldElement, p: Option<Pose>): FieldElement {
    match p
    case None => e
    case Some(q) => e.WithPose(q)
  }

  lemma PosePatchSetsPose(e: FieldElement, p: Pose)
    ensures ApplyElementPatch(e, PosePatch(p)) == e.WithPose(p)
  {
  }

  lemma PoseForSnoc(a: seq<SavedPose>, x: SavedPose, id: int)
    ensures PoseFor(a + [x], id) == if x.id == id then Some(x.pose) else PoseFor(a, id)
  {
    assert (a + [x])[..|a|] == a;
  }

  /** One more element adds its first-keyframe pose, if it has keyframes. */
  lemma FirstPosesStep(els: seq<FieldElement>, i: nat)
    requires i < |els|
    ensures els[i].keyframes != [] ==>
      FirstKeyframePoses(els[..i + 1]) == FirstKeyframePoses(els[..i]) + [SavedPose(els[i].id, KeyframePose(els[i].keyframes[0]))]
    ensures els[i].keyframes == [] ==> FirstKeyframePoses(els[..i + 1]) == FirstKeyframePoses(els[..i])
  {
    assert els[..i + 1][..i] == els[..i];
  }

  lemma ApplyPosesSnoc(els: seq<FieldElement>, a: seq<SavedPose>, x: SavedPose)
    ensures ApplyPoses(els, a + [x]) == EditElements(ApplyPoses(els, a), x.id, Patch(PosePatch(x.pose)))
  {
    assert (a + [x])[..|a|] == a;
  }

  /**
   * Applying the entries in order leaves each element with the pose last recorded
   * for its id, and untouched when its id has no entry; the list keeps its length.
   */
  lemma {:induction false} ApplyPosesMeaning(els: seq<FieldElement>, saved: seq<SavedPose>)
    ensures |ApplyPoses(els, saved)| == |els|
    ensures forall j :: 0 <= j < |els| ==> ApplyPoses(els, saved)[j] == Posed(els[j], PoseFor(saved, els[j].id))
    decreases |saved|
  {
    if saved != [] {
      var init, x := saved[..|saved| - 1], saved[|saved| - 1];
      ApplyPosesMeaning(els, init);
      var prev := ApplyPoses(els, init);
      forall j | 0 <= j < |els| ensures ApplyPoses(els, saved)[j] == Posed(els[j], PoseFor(saved, els[j].id)) {
        if els[j].id == x.id {
          assert prev[j].id == x.id;
          PosePatchSetsPose(prev[j], x.pose);
        }
      }
    }
  }

  /** With distinct ids, the entry list records for each element exactly what `f` yields for it. */
  lemma {:induction false} PoseListLookup(s: seq<FieldElement>, f: FieldElement -> Option<Pose>, j: int)
    requires DistinctIds(s) && 0 <= j < |s|
    ensures PoseFor(PoseList(s, f), s[j].id) == f(s[j])
    decreases |s|
  {
    var init, last := s[..|s| - 1], s[|s| - 1];
    var rest := PoseList(init, f);
    if j == |s| - 1 {
      PoseListAbsent(init, f, last.id);
      match f(last)
      case None => assert PoseList(s, f) == rest;
      case Some(p) => PoseForSnoc(rest, SavedPose(last.id, p), last.id);
    } else {
      assert init[j] == s[j];
      PoseListLookup(init, f, j);
      match f(last)
      case None => assert PoseList(s, f) == rest;
      case Some(p) => PoseForSnoc(rest, SavedPose(last.id, p), s[j].id);
    }
  }

  /** An id no element carries has no entry. */
  lemma {:induction false} PoseListAbsent(s: seq<FieldElement>, f: FieldElement -> Option<Pose>, id: int)
    requires forall k :: 0 <= k < |s| ==> s[k].id != id
    ensures PoseFor(PoseList(s, f), id) == None
    decreases |s|
  {
    if s != [] {
      var init, last := s[..|s| - 1], s[|s| - 1];
      var rest := PoseList(init, f);
      assert forall k :: 0 <= k < |init| ==> init[k] == s[k];
      PoseListAbsent(init, f, id);
      match f(last)
      case None => assert PoseList(s, f) == rest;
      case Some(p) => PoseForSnoc(rest, SavedPose(last.id, p), id);
    }
  }

  /**
   * Restoring a baseline saved from `saved` puts every element whose id was saved back
   * at its saved pose and leaves elements created since untouched.
   */
  lemma RestoreReturnsToBaseline(saved: seq<FieldElement>, els: seq<FieldElement>, j: int)
    requires DistinctIds(saved) && 0 <= j < |els|
    ensures |ApplyPoses(els, Baseline(saved))| == |els|
    ensures forall k :: 0 <= k < |saved| && saved[k].id == els[j].id ==>
      ApplyPoses(els, Baseline(saved))[j] == els[j].WithPose(saved[k].CurrentPose())
    ensures (forall k :: 0 <= k < |saved| ==> saved[k].id != els[j].id) ==>
      ApplyPoses(els, Baseline(saved))[j] == els[j]
  {
    ApplyPosesMeaning(els, Baseline(saved));
    forall k | 0 <= k < |saved| && saved[k].id == els[j].id
      ensures ApplyPoses(els, Baseline(saved))[j] == els[j].WithPose(saved[k].CurrentPose())
    {
      PoseListLookup(saved, CurrentPoseOf, k);
    }
    if forall k :: 0 <= k < |saved| ==> saved[k].id != els[j].id {
      PoseListAbsent(saved, CurrentPoseOf, els[j].id);
    }
  }

  /** `rewind`'s effect on the elements: restore the baseline, then snap to first keyframes. */
  function Rewound(els: seq<FieldElement>, saved: seq<SavedPose>): seq<FieldElement> {
    var restored := ApplyPoses(els, saved);
    ApplyPoses(restored, FirstKeyframePoses(restored))
  }

  /**
   * After a rewind an element with keyframes sits at its first keyframe, overriding
   * the baseline; any other element is at its restored pose.
   */
  lemma RewoundMeaning(els: seq<FieldElement>, saved: seq<SavedPose>, j: int)
    requires DistinctIds(els) && 0 <= j < |els|
    ensures |Rewound(els, saved)| == |els|
    ensures els[j].keyframes != [] ==>
      Rewound(els, saved)[j] == els[j].WithPose(KeyframePose(els[j].keyframes[0]))
    ensures els[j].keyframes == [] ==>
      Rewound(els, saved)[j] == Posed(els[j], PoseFor(saved, els[j].id))
  {
    var restored := ApplyPoses(els, saved);
    ApplyPosesMeaning(els, saved);
    assert forall k :: 0 <= k < |els| ==> restored[k].id == els[k].id && restored[k].keyframes == els[k].keyframes;
    assert DistinctIds(restored);
    ApplyPosesMeaning(restored, FirstKeyframePoses(restored));
    PoseListLookup(restored, FirstPose, j);
  }

  // ---------------------------------------------------------------- clock arithmetic

  /** `((ts - lastTs) / 1000) * speed`, where the first tick after play takes lastTs = ts. */
  function TickDelta(last: Option<real>, ts: real, speed: real): (dt: real)
    ensures last.None? ==> dt == 0.0
  {
    var from := last.GetOr(ts);
    ((ts - from) / 1000.0) * speed
  }

  /** With non-decreasing timestamps and a non-negative speed the clock never runs backwards. */
  lemma TickDeltaNonneg(last: Option<real>, ts: real, speed: real)
    requires last.Some? ==> ts >= last.value
    requires speed >= 0.0
    ensures TickDelta(last, ts, speed) >= 0.0
  {
    var from := last.GetOr(ts);
    assert (ts - from) / 1000.0 >= 0.0;
    Keyframes.MulNonneg((ts - from) / 1000.0, speed);
  }

  /** `Math.max(0, Math.min(duration, t))` */
  function ClampTime(t: real, duration: real): (r: real)
    ensures duration >= 0.0 ==> 0.0 <= r <= duration
    ensures 0.0 <= t <= duration ==> r == t
    ensures r == 0.0 || r == t || r == duration
  {
    Keyframes.Max(0.0, Keyframes.Min(duration, t))
  }

  /** `if (s.selectedId)`: JavaScript truthiness, so an id of 0 counts as no selection. */
  predicate HasSelection(sel: Option<int>) {
    sel.Some? && sel.value != 0
  }

  // ---------------------------------------------------------------- keyboard

  datatype KeyAction = TogglePlay | DeleteSelected | UndoKey | RedoKey | EscapeKey | DuplicateSelected | Ignored

  /**
   * Which shortcut a key press triggers. The handler tests each shortcut in turn, but
   * the keys are pairwise different, so at most one fires; presses inside text inputs
   * are ignored.
   */
  function Classify(key: string, ctrl: bool, inTextField: bool): KeyAction {
    if inTextField then Ignored
    else if key == " " then TogglePlay
    else if key == "Delete" || key == "Backspace" then DeleteSelected
    else if ctrl && key == "z" then UndoKey
    else if ctrl && key == "y" then RedoKey
    else if key == "Escape" then EscapeKey
    else if ctrl && key == "d" then DuplicateSelected
    else Ignored
  }

  /**
   * The handler's separate tests, one per shortcut, as written. They run in sequence
   * with no `else`.
   */
  predicate Fires(a: KeyAction, key: string, ctrl: bool) {
    match a
    case TogglePlay => key == " "
    case DeleteSelected => key == "Delete" || key == "Backspace"
    case UndoKey => ctrl && key == "z"
    case RedoKey => ctrl && key == "y"
    case EscapeKey => key == "Escape"
    case DuplicateSelected => ctrl && key == "d"
    case Ignored => false
  }

  /**
   * Running every test in turn comes to the same thing as `Classify`'s first match. A
   * press outside a text field runs a shortcut exactly when that shortcut's test holds.
   * No two tests hold for the same press, and a press runs nothing exactly when it is in
   * a text field or no test holds.
   */
  lemma ClassifyMeaning(key: string, ctrl: bool, inTextField: bool, a: KeyAction)
    ensures a != Ignored ==> (Classify(key, ctrl, inTextField) == a <==> !inTextField && Fires(a, key, ctrl))
    ensures Classify(key, ctrl, inTextField) == Ignored <==>
      inTextField || forall b: KeyAction :: !Fires(b, key, ctrl)
  {
    if !inTextField && forall b: KeyAction :: !Fires(b, key, ctrl) {
      assert !Fires(TogglePlay, key, ctrl) && !Fires(DeleteSelected, key, ctrl) && !Fires(UndoKey, key, ctrl);
      assert !Fires(RedoKey, key, ctrl) && !Fires(EscapeKey, key, ctrl) && !Fires(DuplicateSelected, key, ctrl);
    }
  }

  // ---------------------------------------------------------------- the controller

  class PlaybackController {
    const store: Store
    /** The previous frame's timestamp; None until the first tick after play. */
    var lastTs: Option<real>
    /** The baseline poses recorded by the last play. */
    var origPositions: seq<SavedPose>

    constructor (s: Store)
      ensures store == s && lastTs == None && origPositions == []
    {
      store := s;
      lastTs := None;
      origPositions := [];
    }

    /** Records the current pose of every element. */
    method SavePositions()
      modifies this`origPositions
      ensures origPositions == Baseline(store.elements)
    {
      var els := store.elements;
      var saved: seq<SavedPose> := [];
      var i := 0;
      while i < |els|
        invariant 0 <= i <= |els|
        invariant saved == Baseline(els[..i])
      {
        assert els[..i + 1][..i] == els[..i];
        saved := saved + [SavedPose(els[i].id, els[i].CurrentPose())];
        i := i + 1;
      }
      assert els[..|els|] == els;
      origPositions := saved;
    }

    /** Moves every saved id back to its saved pose, one update at a time. */
    method RestorePositions()
      requires store.Valid()
      modifies store`elements
      ensures store.Valid()
      ensures store.elements == ApplyPoses(old(store.elements), origPositions)
    {
      var i := 0;
      while i < |origPositions|
        invariant 0 <= i <= |origPositions|
        invariant store.Valid()
        invariant store.elements == ApplyPoses(old(store.elements), origPositions[..i])
      {
        ApplyPosesSnoc(old(store.elements), origPositions[..i], origPositions[i]);
        assert origPositions[..i + 1] == origPositions[..i] + [origPositions[i]];
        store.UpdateElement(origPositions[i].id, PosePatch(origPositions[i].pose));
        i := i + 1;
      }
      assert origPositions[..|origPositions|] == origPositions;
    }

    /**
     * Restarts from 0 when the clock has reached the duration, records the baseline,
     * forgets the last timestamp and starts playing.
     */
    method Play()
      modifies store`animTime, store`animPlaying, this`lastTs, this`origPositions
      ensures store.animTime == if old(store.animTime) >= store.animDuration then 0.0 else old(store.animTime)
      ensures origPositions == Baseline(store.elements)
      ensures lastTs == None && store.animPlaying
    {
      if store.animTime >= store.animDuration {
        store.SetAnimTime(0.0);
      }
      SavePositions();
      lastTs := None;
      store.SetAnimPlaying(true);
    }

    /** Stops playing and forgets the last timestamp; the clock keeps its value. */
    method Stop()
      modifies store`animPlaying, this`lastTs
      ensures !store.animPlaying && lastTs == None
    {
      store.SetAnimPlaying(false);
      lastTs := None;
    }

    /** Stops, sets the clock to 0, restores the baseline and then snaps to first keyframes. */
    method Rewind()
      requires store.Valid()
      modifies store`animPlaying, store`animTime, store`elements, this`lastTs
      ensures store.Valid()
      ensures !store.animPlaying && lastTs == None && store.animTime == 0.0
      ensures store.elements == Rewound(old(store.elements), origPositions)
    {
      Stop();
      store.SetAnimTime(0.0);
      RestorePositions();
      SnapToFirstKeyframes();
    }

    /** Every element with keyframes takes the pose of its first keyframe. */
    method SnapToFirstKeyframes()
      requires store.Valid()
      modifies store`elements
      ensures store.Valid()
      ensures store.elements == ApplyPoses(old(store.elements), FirstKeyframePoses(old(store.elements)))
    {
      var els := store.elements;
      var i := 0;
      while i < |els|
        invariant 0 <= i <= |els|
        invariant store.Valid()
        invariant store.elements == ApplyPoses(els, FirstKeyframePoses(els[..i]))
      {
        FirstPosesStep(els, i);
        if els[i].keyframes != [] {
          var p := KeyframePose(els[i].keyframes[0]);
          ApplyPosesSnoc(els, FirstKeyframePoses(els[..i]), SavedPose(els[i].id, p));
          store.UpdateElement(els[i].id, PosePatch(p));
        }
        i := i + 1;
      }
      assert els[..|els|] == els;
    }

    /**
     * Stops, moves the clock by dt clamped to [0, duration] and shows the
     * interpolated scene at the new time.
     */
    method Step(dt: real)
      requires store.Valid()
      modifies store`animPlaying, store`animTime, store`elements, this`lastTs
      ensures store.Valid() && !store.animPlaying && lastTs == None
      ensures store.animTime == ClampTime(old(store.animTime) + dt, store.animDuration)
      ensures store.elements == Keyframes.InterpolateAll(old(store.elements), store.animTime)
    {
      Stop();
      var t := ClampTime(store.animTime + dt, store.animDuration);
      store.SetAnimTime(t);
      store.InterpolateElements(t);
    }

    /**
     * One animation frame at timestamp ts. Nothing happens unless playing. The clock
     * advances by `TickDelta`; reaching the duration pins it there, shows the final
     * scene and stops; otherwise the scene is interpolated at the new time.
     */
    method Tick(ts: real)
      requires store.Valid()
      modifies store`animTime, store`elements, store`animPlaying, this`lastTs
      ensures store.Valid()
      ensures !old(store.animPlaying) ==>
        store.animTime == old(store.animTime) && store.elements == old(store.elements)
        && !store.animPlaying && lastTs == old(lastTs)
      ensures old(store.animPlaying) ==>
        var t := old(store.animTime) + TickDelta(old(lastTs), ts, store.animSpeed);
        if t >= store.animDuration then
          store.animTime == store.animDuration && !store.animPlaying && lastTs == None
        else
          store.animTime == t && store.animPlaying && lastTs == Some(ts)
      ensures old(store.animPlaying) ==> store.elements == Keyframes.InterpolateAll(old(store.elements), store.animTime)
      ensures 0.0 <= old(store.animTime) <= store.animDuration && store.animSpeed >= 0.0
              && (old(lastTs).Some? ==> ts >= old(lastTs).value) ==>
        0.0 <= store.animTime <= store.animDuration
    {
      if !store.animPlaying {
        return;
      }
      var dt := TickDelta(lastTs, ts, store.animSpeed);
      if (lastTs.Some? ==> ts >= lastTs.value) && store.animSpeed >= 0.0 {
        TickDeltaNonneg(lastTs, ts, store.animSpeed);
      }
      var t := store.animTime + dt;
      if t >= store.animDuration {
        Finish();
      } else {
        lastTs := Some(ts);
        Advance(t);
      }
    }

    /** The tick that reaches the end: the clock stops at the duration, posed there. */
    method Finish()
      requires store.Valid()
      modifies store`animTime, store`elements, store`animPlaying, this`lastTs
      ensures store.Valid()
      ensures store.animTime == store.animDuration && !store.animPlaying && lastTs == None
      ensures store.elements == Keyframes.InterpolateAll(old(store.elements), store.animTime)
    {
      var duration := store.animDuration;
      store.SetAnimTime(duration);
      store.InterpolateElements(duration);
      store.SetAnimPlaying(false);
      lastTs := None;
    }

    /** A tick within the duration: the clock moves to `t` and the scene is posed there. */
    method Advance(t: real)
      requires store.Valid()
      modifies store`animTime, store`elements
      ensures store.Valid()
      ensures store.animTime == t && store.elements == Keyframes.InterpolateAll(old(store.elements), store.animTime)
    {
      store.SetAnimTime(t);
      store.InterpolateElements(t);
    }

    /** Delete/Backspace: with a selection, one snapshot, then the selected element is removed. */
    method DeleteSelection()
      requires store.Valid()
      modifies store`undoStack, store`redoStack, store`elements, store`selectedId
      ensures store.Valid()
      ensures !HasSelection(old(store.selectedId)) ==>
        store.Hist() == old(store.Hist()) && store.selectedId == old(store.selectedId)
      ensures HasSelection(old(store.selectedId)) ==>
        store.undoStack == SaveUndoH(old(store.Hist())).undo && store.redoStack == []
        && store.elements == RemoveById(old(store.elements), ElementId, old(store.selectedId).value)
        && store.selectedId == None
      ensures unchanged(store`animTime, store`animPlaying, store`drawings, store`nextId, store`mode)
      ensures unchanged(this)
    {
      if HasSelection(store.selectedId) {
        var id := store.selectedId.value;
        store.SaveUndo();
        store.RemoveElement(id);
      }
    }

    /** Ctrl+D: with a selection, one snapshot, then the selected element is duplicated. */
    method DuplicateSelection()
      requires store.Valid()
      modifies store`undoStack, store`redoStack, store`elements, store`nextId, store`selectedId
      ensures store.Valid()
      ensures !HasSelection(old(store.selectedId)) ==>
        store.Hist() == old(store.Hist()) && store.selectedId == old(store.selectedId)
        && store.nextId == old(store.nextId)
      ensures HasSelection(old(store.selectedId)) ==>
        var found := FindById(old(store.elements), ElementId, old(store.selectedId).value);
        store.undoStack == SaveUndoH(old(store.Hist())).undo && store.redoStack == []
        && (found.None? ==> store.elements == old(store.elements) && store.nextId == old(store.nextId)
                            && store.selectedId == old(store.selectedId))
        && (found.Some? ==> store.elements == old(store.elements) + [Clone(found.value, old(store.nextId))]
                            && store.nextId == old(store.nextId) + 1 && store.selectedId == Some(old(store.nextId)))
      ensures unchanged(store`animTime, store`animPlaying, store`drawings, store`mode)
      ensures unchanged(this)
    {
      if HasSelection(store.selectedId) {
        var id := store.selectedId.value;
        ghost var els, next := store.elements, store.nextId;
        store.SaveUndo();
        assert store.elements == els && store.nextId == next;
        store.DuplicateElement(id);
      }
    }

    /** Space: pause when playing (the frame loop's cleanup forgets the timestamp), else play. */
    method TogglePlaying()
      modifies store`animTime, store`animPlaying, this`lastTs, this`origPositions
      ensures lastTs == None && store.animPlaying == !old(store.animPlaying)
      ensures old(store.animPlaying) ==> store.animTime == old(store.animTime) && origPositions == old(origPositions)
      ensures !old(store.animPlaying) ==>
        store.animTime == (if old(store.animTime) >= store.animDuration then 0.0 else old(store.animTime))
        && origPositions == Baseline(store.elements)
      ensures unchanged(store`elements, store`drawings, store`undoStack, store`redoStack, store`selectedId, store`nextId, store`mode)
    {
      if store.animPlaying {
        Stop();
      } else {
        Play();
      }
    }

    /** Escape: back to select mode with nothing selected. */
    method Escape()
      modifies store`mode, store`selectedId
      ensures store.mode == Select && store.selectedId == None
      ensures unchanged(store`animTime, store`animPlaying, store`elements, store`drawings, store`undoStack, store`redoStack, store`nextId)
      ensures unchanged(this)
    {
      store.SetMode(Select);
      store.SetSelected(None);
    }

    /** The keyboard handler: runs the action `Classify` picks for the press. */
    method OnKeyDown(key: string, ctrl: bool, inTextField: bool)
      requires store.Valid()
      modifies store`animTime, store`animPlaying, store`elements, store`drawings, store`undoStack,
               store`redoStack, store`selectedId, store`nextId, store`mode, this`lastTs, this`origPositions
      ensures store.Valid()
      ensures Classify(key, ctrl, inTextField) == Ignored ==> unchanged(store) && unchanged(this)
      ensures Classify(key, ctrl, inTextField) == TogglePlay ==>
        lastTs == None && store.animPlaying == !old(store.animPlaying)
        && (old(store.animPlaying) ==> store.animTime == old(store.animTime) && origPositions == old(origPositions))
        && (!old(store.animPlaying) ==>
              store.animTime == (if old(store.animTime) >= store.animDuration then 0.0 else old(store.animTime))
              && origPositions == Baseline(store.elements))
        && unchanged(store`elements, store`drawings, store`undoStack, store`redoStack, store`selectedId,
                     store`nextId, store`mode)
      ensures Classify(key, ctrl, inTextField) == DeleteSelected ==>
        (!HasSelection(old(store.selectedId)) ==>
           store.Hist() == old(store.Hist()) && store.selectedId == old(store.selectedId))
        && (HasSelection(old(store.selectedId)) ==>
              store.undoStack == SaveUndoH(old(store.Hist())).undo && store.redoStack == []
              && store.elements == RemoveById(old(store.elements), ElementId, old(store.selectedId).value)
              && store.selectedId == None)
        && unchanged(store`animTime, store`animPlaying, store`drawings, store`nextId, store`mode, this)
      ensures Classify(key, ctrl, inTextField) == UndoKey ==>
        store.Hist() == UndoH(old(store.Hist()))
        && store.selectedId == (if old(|store.undoStack|) == 0 then old(store.selectedId) else None)
        && unchanged(store`animTime, store`animPlaying, store`nextId, store`mode, this)
      ensures Classify(key, ctrl, inTextField) == RedoKey ==>
        store.Hist() == RedoH(old(store.Hist()))
        && store.selectedId == (if old(|store.redoStack|) == 0 then old(store.selectedId) else None)
        && unchanged(store`animTime, store`animPlaying, store`nextId, store`mode, this)
      ensures Classify(key, ctrl, inTextField) == EscapeKey ==>
        store.mode == Select && store.selectedId == None
        && unchanged(store`animTime, store`animPlaying, store`elements, store`drawings, store`undoStack,
                     store`redoStack, store`nextId, this)
      ensures Classify(key, ctrl, inTextField) == DuplicateSelected ==>
        (!HasSelection(old(store.selectedId)) ==>
           store.Hist() == old(store.Hist()) && store.selectedId == old(store.selectedId)
           && store.nextId == old(store.nextId))
        && (HasSelection(old(store.selectedId)) ==>
              var found := FindById(old(store.elements), ElementId, old(store.selectedId).value);
              store.undoStack == SaveUndoH(old(store.Hist())).undo && store.redoStack == []
              && (found.None? ==> store.elements == old(store.elements) && store.nextId == old(store.nextId)
                                  && store.selectedId == old(store.selectedId))
              && (found.Some? ==> store.elements == old(store.elements) + [Clone(found.value, old(store.nextId))]
                                  && store.nextId == old(store.nextId) + 1 && store.selectedId == Some(old(store.nextId))))
        && unchanged(store`animTime, store`animPlaying, store`drawings, store`mode, this)
    {
      match Classify(key, ctrl, inTextField)
      case TogglePlay => TogglePlaying();
      case DeleteSelected => DeleteSelection();
      case UndoKey => store.Undo();
      case RedoKey => store.Redo();
      case EscapeKey => Escape();
      case DuplicateSelected => DuplicateSelection();
      case Ignored =>
    }
  }
}
