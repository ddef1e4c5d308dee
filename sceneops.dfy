/**
 * Pure list operations behind the scene store: id bookkeeping shared by elements and
 * drawings, lookup and removal by id, per-element edits, and the z-order moves.
 */
module SceneOps {
  import opened Wrappers
  import opened SceneTypes
  import Keyframes

  function ElementId(e: FieldElement): int { e.id }
  function DrawingId(d: Drawing): int { d.id }

  // ---------------------------------------------------------------- counting ids

  /** How many entries of `s` carry `id`. */
  function Count<T>(s: seq<T>, idOf: T -> int, id: int): nat
    decreases |s|
  {
    if s == [] then 0 else (if idOf(s[0]) == id then 1 else 0) + Count(s[1..], idOf, id)
  }

  lemma {:induction false} CountAppend<T>(s: seq<T>, x: T, idOf: T -> int, id: int)
    ensures Count(s + [x], idOf, id) == Count(s, idOf, id) + (if idOf(x) == id then 1 else 0)
    decreases |s|
  {
    if s != [] {
      assert (s + [x])[1..] == s[1..] + [x];
      CountAppend(s[1..], x, idOf, id);
    }
  }

  lemma CountPrepend<T>(x: T, s: seq<T>, idOf: T -> int, id: int)
    ensures Count([x] + s, idOf, id) == Count(s, idOf, id) + (if idOf(x) == id then 1 else 0)
  {
    assert ([x] + s)[1..] == s;
  }

  /** An id is counted exactly when some entry carries it. */
  lemma {:induction false} CountPositive<T>(s: seq<T>, idOf: T -> int, id: int)
    ensures Count(s, idOf, id) > 0 <==> exists x :: x in s && idOf(x) == id
    decreases |s|
  {
    if s != [] {
      CountPositive(s[1..], idOf, id);
      assert s == [s[0]] + s[1..];
      if Count(s[1..], idOf, id) > 0 {
        var x :| x in s[1..] && idOf(x) == id;
        assert x in s;
      }
    }
  }

  /** Two lists with the same id at every position count every id alike. */
  lemma {:induction false} SameIdsSameCount<T>(a: seq<T>, b: seq<T>, idOf: T -> int, id: int)
    requires |a| == |b|
    requires forall i :: 0 <= i < |a| ==> idOf(a[i]) == idOf(b[i])
    ensures Count(a, idOf, id) == Count(b, idOf, id)
    decreases |a|
  {
    if a != [] {
      SameIdsSameCount(a[1..], b[1..], idOf, id);
    }
  }

  // ---------------------------------------------------------------- lookup and removal

  /** `find(e => e.id === id)`: the first entry carrying `id`, if any. */
  function FindById<T(!new)>(s: seq<T>, idOf: T -> int, id: int): (r: Option<T>)
    ensures r.Some? ==> r.value in s && idOf(r.value) == id
    ensures r.None? <==> forall x :: x in s ==> idOf(x) != id
    ensures r.Some? ==> Count(s, idOf, id) > 0
    ensures r.Some? ==> exists i :: 0 <= i < |s| && s[i] == r.value && forall j :: 0 <= j < i ==> idOf(s[j]) != id
    decreases |s|
  {
    if s == [] then None
    else if idOf(s[0]) == id then Some(s[0])
    else
      assert forall x :: x in s ==> x == s[0] || x in s[1..];
      var r := FindById(s[1..], idOf, id);
      assert r.Some? ==> exists i :: 1 <= i < |s| && s[i] == r.value && forall j :: 0 <= j < i ==> idOf(s[j]) != id by {
        if r.Some? {
          var i :| 0 <= i < |s[1..]| && s[1..][i] == r.value && forall j :: 0 <= j < i ==> idOf(s[1..][j]) != id;
          assert s[i + 1] == r.value;
          assert forall j :: 0 <= j < i + 1 ==> idOf(s[j]) != id by {
            forall j | 0 <= j < i + 1 ensures idOf(s[j]) != id {
              if j > 0 { assert s[j] == s[1..][j - 1]; }
            }
          }
        }
      }
      r
  }

  /** `filter(e => e.id !== id)`: every entry carrying `id` goes, the rest stay in order. */
  function RemoveById<T(!new)>(s: seq<T>, idOf: T -> int, id: int): (r: seq<T>)
    ensures forall x :: x in r <==> x in s && idOf(x) != id
    ensures forall other :: Count(r, idOf, other) == if other == id then 0 else Count(s, idOf, other)
    ensures (forall x :: x in s ==> idOf(x) != id) ==> r == s
    decreases |s|
  {
    if s == [] then []
    else
      assert s == [s[0]] + s[1..];
      var rest := RemoveById(s[1..], idOf, id);
      if idOf(s[0]) == id then rest
      else
        assert forall other :: Count([s[0]] + rest, idOf, other) == (if idOf(s[0]) == other then 1 else 0) + Count(rest, idOf, other) by {
          forall other { CountPrepend(s[0], rest, idOf, other); }
        }
        [s[0]] + rest
  }

  // ---------------------------------------------------------------- well-numbered scenes

  /**
   * Every element and drawing id lies in [1, bound) and no id is carried twice,
   * within the elements, within the drawings or across the two.
   */
  ghost predicate WellNumbered(els: seq<FieldElement>, drs: seq<Drawing>, bound: int) {
    IdsBelow(els, drs, bound) && UniqueIds(els, drs)
  }

  predicate IdsBelow(els: seq<FieldElement>, drs: seq<Drawing>, bound: int) {
    (forall e :: e in els ==> 1 <= e.id < bound)
    && (forall d :: d in drs ==> 1 <= d.id < bound)
  }

  ghost predicate UniqueIds(els: seq<FieldElement>, drs: seq<Drawing>) {
    forall id :: Count(els, ElementId, id) + Count(drs, DrawingId, id) <= 1
  }

  lemma WellNumberedMonotone(els: seq<FieldElement>, drs: seq<Drawing>, b: int, b': int)
    requires WellNumbered(els, drs, b) && b <= b'
    ensures WellNumbered(els, drs, b')
  {
  }

  /** Appending an element that takes the next id keeps the numbering and moves the bound. */
  lemma AppendElementFresh(els: seq<FieldElement>, drs: seq<Drawing>, e: FieldElement, b: int)
    requires WellNumbered(els, drs, b) && e.id == b && b >= 1
    ensures WellNumbered(els + [e], drs, b + 1)
  {
    forall id ensures Count(els + [e], ElementId, id) + Count(drs, DrawingId, id) <= 1 {
      CountAppend(els, e, ElementId, id);
      if id == b {
        CountPositive(els, ElementId, id);
        CountPositive(drs, DrawingId, id);
      }
    }
  }

  /** Appending a drawing that takes the next id keeps the numbering and moves the bound. */
  lemma AppendDrawingFresh(els: seq<FieldElement>, drs: seq<Drawing>, d: Drawing, b: int)
    requires WellNumbered(els, drs, b) && d.id == b && b >= 1
    ensures WellNumbered(els, drs + [d], b + 1)
  {
    forall id ensures Count(els, ElementId, id) + Count(drs + [d], DrawingId, id) <= 1 {
      CountAppend(drs, d, DrawingId, id);
      if id == b {
        CountPositive(els, ElementId, id);
        CountPositive(drs, DrawingId, id);
      }
    }
  }

  /** Replacing the elements by a list with the same ids position by position keeps the numbering. */
  lemma SameElementIds(els: seq<FieldElement>, els': seq<FieldElement>, drs: seq<Drawing>, b: int)
    requires WellNumbered(els, drs, b)
    requires |els'| == |els| && forall i :: 0 <= i < |els| ==> els'[i].id == els[i].id
    ensures WellNumbered(els', drs, b)
  {
    forall id ensures Count(els', ElementId, id) == Count(els, ElementId, id) {
      SameIdsSameCount(els', els, ElementId, id);
    }
    forall e | e in els' ensures 1 <= e.id < b {
      var i :| 0 <= i < |els'| && els'[i] == e;
      assert els[i] in els;
    }
  }

  /** Same for the drawings. */
  lemma SameDrawingIds(els: seq<FieldElement>, drs: seq<Drawing>, drs': seq<Drawing>, b: int)
    requires WellNumbered(els, drs, b)
    requires |drs'| == |drs| && forall i :: 0 <= i < |drs| ==> drs'[i].id == drs[i].id
    ensures WellNumbered(els, drs', b)
  {
    forall id ensures Count(drs', DrawingId, id) == Count(drs, DrawingId, id) {
      SameIdsSameCount(drs', drs, DrawingId, id);
    }
    forall d | d in drs' ensures 1 <= d.id < b {
      var i :| 0 <= i < |drs'| && drs'[i] == d;
      assert drs[i] in drs;
    }
  }

  /** No two positions of the element list carry the same id. */
  predicate DistinctIds(els: seq<FieldElement>) {
    forall i, j :: 0 <= i < j < |els| ==> els[i].id != els[j].id
  }

  /** Two positions carrying one id make that id counted at least twice. */
  lemma {:induction false} CountTwice<T>(s: seq<T>, idOf: T -> int, i: nat, j: nat)
    requires i < j < |s| && idOf(s[i]) == idOf(s[j])
    ensures Count(s, idOf, idOf(s[i])) >= 2
    decreases i
  {
    if i == 0 {
      CountPositive(s[1..], idOf, idOf(s[0]));
      assert s[1..][j - 1] == s[j];
    } else {
      CountTwice(s[1..], idOf, i - 1, j - 1);
      assert s[1..][i - 1] == s[i];
    }
  }

  /** The store's counting invariant implies that element ids are pairwise distinct. */
  lemma UniqueIdsDistinct(els: seq<FieldElement>, drs: seq<Drawing>)
    requires UniqueIds(els, drs)
    ensures DistinctIds(els)
  {
    forall i, j | 0 <= i < j < |els| ensures els[i].id != els[j].id {
      if els[i].id == els[j].id {
        CountTwice(els, ElementId, i, j);
        assert false;
      }
    }
  }

  // ---------------------------------------------------------------- element edits

  /** `Partial<FieldElement>` without `id`: each present field overwrites the element's. */
  datatype ElementPatch = ElementPatch(
    kind: Option<ElementType>,
    x: Option<real>,
    y: Option<real>,
    color: Option<string>,
    rotation: Option<real>,
    number: Option<string>,
    labelText: Option<string>,
    keyframes: Option<seq<Keyframe>>,
    startTime: Option<real>,
    endTime: Option<real>)

  const NoPatch: ElementPatch := ElementPatch(None, None, None, None, None, None, None, None, None, None)

  /** The patch that moves an element to (x, y). */
  function MovePatch(x: real, y: real): ElementPatch {
    NoPatch.(x := Some(x), y := Some(y))
  }

  /** The patch that sets position and rotation. */
  function PosePatch(p: Pose): ElementPatch {
    NoPatch.(x := Some(p.x), y := Some(p.y), rotation := Some(p.rotation))
  }

  /** `{ ...e, ...updates }` */
  function ApplyElementPatch(e: FieldElement, p: ElementPatch): (r: FieldElement)
    ensures r.id == e.id
    ensures p == NoPatch ==> r == e
  {
    FieldElement(e.id, p.kind.GetOr(e.kind), p.x.GetOr(e.x), p.y.GetOr(e.y),
      p.color.GetOr(e.color), p.rotation.GetOr(e.rotation), p.number.GetOr(e.number),
      p.labelText.GetOr(e.labelText), p.keyframes.GetOr(e.keyframes),
      if p.startTime.Some? then p.startTime else e.startTime,
      if p.endTime.Some? then p.endTime else e.endTime)
  }

  /** The per-element changes the store applies to the element with a given id. */
  datatype ElementEdit =
    | Patch(patch: ElementPatch)
    | AddKeyframeEdit(kf: Keyframe)
    | RemoveKeyframeEdit(index: int)
    | ClearKeyframesEdit

  function ApplyEdit(e: FieldElement, edit: ElementEdit): (r: FieldElement)
    ensures r.id == e.id
    ensures !edit.Patch? ==> r == e.(keyframes := r.keyframes)
  {
    match edit
    case Patch(p) => ApplyElementPatch(e, p)
    case AddKeyframeEdit(kf) => e.(keyframes := Keyframes.AddKeyframe(e.keyframes, kf))
    case RemoveKeyframeEdit(i) => e.(keyframes := Keyframes.RemoveKeyframeAt(e.keyframes, i))
    case ClearKeyframesEdit => e.(keyframes := [])
  }

  /** `elements.map(e => e.id === id ? edit(e) : e)` */
  function EditElements(els: seq<FieldElement>, id: int, edit: ElementEdit): (r: seq<FieldElement>)
    ensures |r| == |els|
    ensures forall i :: 0 <= i < |els| ==> r[i].id == els[i].id
  {
    seq(|els|, i requires 0 <= i < |els| => if els[i].id == id then ApplyEdit(els[i], edit) else els[i])
  }

  /**
   * An edit touches exactly the entries carrying the id: those become the edited
   * element, every other entry is untouched, and an absent id changes nothing.
   */
  lemma EditOnlyTarget(els: seq<FieldElement>, id: int, edit: ElementEdit)
    ensures forall i :: 0 <= i < |els| && els[i].id != id ==> EditElements(els, id, edit)[i] == els[i]
    ensures forall i :: 0 <= i < |els| && els[i].id == id ==> EditElements(els, id, edit)[i] == ApplyEdit(els[i], edit)
    ensures (forall e :: e in els ==> e.id != id) ==> EditElements(els, id, edit) == els
  {
  }

  /** The copy `duplicateElement` appends: new id, offset by (20, 20), no keyframes. */
  function Clone(e: FieldElement, newId: int): (r: FieldElement)
    ensures r.id == newId && r.x == e.x + 20.0 && r.y == e.y + 20.0 && r.keyframes == []
    ensures r.(id := e.id, x := e.x, y := e.y, keyframes := e.keyframes) == e
  {
    e.(id := newId, x := e.x + 20.0, y := e.y + 20.0, keyframes := [])
  }

  // ---------------------------------------------------------------- drawing edits

  /**
   * `Partial<Drawing>` without `id`. `labelText` is doubly optional: `Some(None)` sets
   * the label to undefined.
   */
  datatype DrawingPatch = DrawingPatch(
    kind: Option<DrawingType>,
    color: Option<string>,
    width: Option<real>,
    x1: Option<real>,
    y1: Option<real>,
    x2: Option<real>,
    y2: Option<real>,
    points: Option<seq<Point>>,
    text: Option<string>,
    labelText: Option<Option<string>>)

  /** The patch that sets only the label. */
  function LabelPatch(l: Option<string>): DrawingPatch {
    DrawingPatch(None, None, None, None, None, None, None, None, None, Some(l))
  }

  function ApplyDrawingPatch(d: Drawing, p: DrawingPatch): (r: Drawing)
    ensures r.id == d.id
  {
    Drawing(d.id, p.kind.GetOr(d.kind), p.color.GetOr(d.color), p.width.GetOr(d.width),
      p.x1.GetOr(d.x1), p.y1.GetOr(d.y1), p.x2.GetOr(d.x2), p.y2.GetOr(d.y2),
      if p.points.Some? then p.points else d.points,
      if p.text.Some? then p.text else d.text,
      p.labelText.GetOr(d.labelText))
  }

  /** `drawings.map(d => d.id === id ? { ...d, ...updates } : d)` */
  function PatchDrawings(drs: seq<Drawing>, id: int, p: DrawingPatch): (r: seq<Drawing>)
    ensures |r| == |drs|
    ensures forall i :: 0 <= i < |drs| ==> r[i].id == drs[i].id
  {
    seq(|drs|, i requires 0 <= i < |drs| => if drs[i].id == id then ApplyDrawingPatch(drs[i], p) else drs[i])
  }

  /** Only drawings carrying the id change; an absent id changes nothing. */
  lemma PatchOnlyTarget(drs: seq<Drawing>, id: int, p: DrawingPatch)
    ensures forall i :: 0 <= i < |drs| && drs[i].id != id ==> PatchDrawings(drs, id, p)[i] == drs[i]
    ensures (forall d :: d in drs ==> d.id != id) ==> PatchDrawings(drs, id, p) == drs
  {
  }

  // ---------------------------------------------------------------- z-order

  /** `bringToFront`: the element moves to the end of the list (drawn last, on top). */
  function BringToFront(els: seq<FieldElement>, id: int): seq<FieldElement> {
    match FindById(els, ElementId, id)
    case None => els
    case Some(e) => RemoveById(els, ElementId, id) + [e]
  }

  /** `sendToBack`: the element moves to the start of the list. */
  function SendToBack(els: seq<FieldElement>, id: int): seq<FieldElement> {
    match FindById(els, ElementId, id)
    case None => els
    case Some(e) => [e] + RemoveById(els, ElementId, id)
  }

  /** With `id` carried once, removing it and adding the carrier back gives the same multiset. */
  lemma {:induction false} RemoveUniquePermutes(s: seq<FieldElement>, id: int)
    requires Count(s, ElementId, id) == 1
    ensures FindById(s, ElementId, id).Some?
    ensures multiset(RemoveById(s, ElementId, id)) + multiset{FindById(s, ElementId, id).value} == multiset(s)
    decreases |s|
  {
    assert s != [];
    assert s == [s[0]] + s[1..];
    if s[0].id == id {
      CountPositive(s[1..], ElementId, id);
    } else {
      RemoveUniquePermutes(s[1..], id);
    }
  }

  /**
   * The z-order moves: an absent id changes nothing; otherwise the target ends up
   * last (or first), the others keep their relative order, and when the id is carried
   * once the result is a permutation of the list.
   */
  lemma ZOrderMoves(els: seq<FieldElement>, id: int)
    ensures (forall e :: e in els ==> e.id != id) ==> BringToFront(els, id) == els && SendToBack(els, id) == els
    ensures (exists e :: e in els && e.id == id) ==>
      var f := BringToFront(els, id);
      var b := SendToBack(els, id);
      |f| >= 1 && f[|f| - 1].id == id && f[..|f| - 1] == RemoveById(els, ElementId, id)
      && |b| >= 1 && b[0].id == id && b[1..] == RemoveById(els, ElementId, id)
    ensures Count(els, ElementId, id) == 1 ==>
      multiset(BringToFront(els, id)) == multiset(els) && multiset(SendToBack(els, id)) == multiset(els)
  {
    if exists e :: e in els && e.id == id {
      ZOrderPlaces(els, id);
    }
    if Count(els, ElementId, id) == 1 {
      ZOrderPermutes(els, id);
    }
  }

  lemma ZOrderPlaces(els: seq<FieldElement>, id: int)
    requires exists e :: e in els && e.id == id
    ensures var f := BringToFront(els, id);
      |f| >= 1 && f[|f| - 1].id == id && f[..|f| - 1] == RemoveById(els, ElementId, id)
    ensures var b := SendToBack(els, id);
      |b| >= 1 && b[0].id == id && b[1..] == RemoveById(els, ElementId, id)
  {
    var found := FindById(els, ElementId, id);
    assert found.Some?;
    var rest := RemoveById(els, ElementId, id);
    assert (rest + [found.value])[..|rest|] == rest;
    assert ([found.value] + rest)[1..] == rest;
  }

  lemma ZOrderPermutes(els: seq<FieldElement>, id: int)
    requires Count(els, ElementId, id) == 1
    ensures multiset(BringToFront(els, id)) == multiset(els)
    ensures multiset(SendToBack(els, id)) == multiset(els)
  {
    RemoveUniquePermutes(els, id);
  }

  /** Moving a uniquely numbered element keeps the scene well numbered. */
  lemma ZOrderKeepsNumbering(els: seq<FieldElement>, drs: seq<Drawing>, id: int, b: int)
    requires WellNumbered(els, drs, b)
    ensures WellNumbered(BringToFront(els, id), drs, b)
    ensures WellNumbered(SendToBack(els, id), drs, b)
  {
    match FindById(els, ElementId, id)
    case None =>
    case Some(e) =>
      var rest := RemoveById(els, ElementId, id);
      forall x ensures Count(rest + [e], ElementId, x) == Count(els, ElementId, x)
        && Count([e] + rest, ElementId, x) == Count(els, ElementId, x)
      {
        CountAppend(rest, e, ElementId, x);
        CountPrepend(e, rest, ElementId, x);
        assert Count(drs, DrawingId, id) == 0 || Count(els, ElementId, id) == 0;
      }
  }
}
