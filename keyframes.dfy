/**
 * Keyframe lists: insertion that replaces near-duplicates and keeps the list sorted,
 * removal by `splice`, and smoothstep interpolation between the bracketing pair.
 */
module Keyframes {
  import opened Wrappers
  import opened SceneTypes

  /** Keyframes closer than this (in seconds) to a new one are replaced by it. */
  const ReplaceWindow: real := 0.05

  function Abs(x: real): real {
    if x < 0.0 then -x else x
  }

  predicate SortedByT(s: seq<Keyframe>) {
    forall i, j :: 0 <= i < j < |s| ==> s[i].t <= s[j].t
  }

  predicate StrictlyAscending(s: seq<Keyframe>) {
    forall i, j :: 0 <= i < j < |s| ==> s[i].t < s[j].t
  }

  /** Every two keyframes lie more than the replace window apart. */
  predicate Separated(s: seq<Keyframe>) {
    forall i, j :: 0 <= i < j < |s| ==> s[j].t - s[i].t > ReplaceWindow
  }

  /** `keyframes.filter(k => Math.abs(k.t - kf.t) > 0.05)` */
  function KeepFar(s: seq<Keyframe>, kf: Keyframe): (r: seq<Keyframe>)
    ensures forall k :: k in r <==> k in s && Abs(k.t - kf.t) > ReplaceWindow
    ensures multiset(r) <= multiset(s)
    decreases |s|
  {
    if s == [] then []
    else
      assert s == [s[0]] + s[1..];
      if Abs(s[0].t - kf.t) > ReplaceWindow then [s[0]] + KeepFar(s[1..], kf)
      else KeepFar(s[1..], kf)
  }

  /** The filter keeps a strictly ascending list strictly ascending. */
  lemma {:induction false} KeepFarAscending(s: seq<Keyframe>, kf: Keyframe)
    requires StrictlyAscending(s)
    ensures StrictlyAscending(KeepFar(s, kf))
    decreases |s|
  {
    if s != [] {
      AscendingTail(s);
      KeepFarAscending(s[1..], kf);
      if Abs(s[0].t - kf.t) > ReplaceWindow {
        var rest := KeepFar(s[1..], kf);
        forall k | k in rest ensures s[0].t < k.t {
          HeadBelowRest(s, k);
        }
        ConsAscending(s[0], rest);
      }
    }
  }

  /** The filter keeps a separated list separated. */
  lemma {:induction false} KeepFarSeparated(s: seq<Keyframe>, kf: Keyframe)
    requires Separated(s)
    ensures Separated(KeepFar(s, kf))
    decreases |s|
  {
    if s != [] {
      SeparatedTail(s);
      KeepFarSeparated(s[1..], kf);
      if Abs(s[0].t - kf.t) > ReplaceWindow {
        var rest := KeepFar(s[1..], kf);
        forall k | k in rest ensures k.t - s[0].t > ReplaceWindow {
          HeadBelowRest(s, k);
        }
        ConsSeparated(s[0], rest);
      }
    }
  }

  lemma ConsAscending(a: Keyframe, rest: seq<Keyframe>)
    requires StrictlyAscending(rest)
    requires forall k :: k in rest ==> a.t < k.t
    ensures StrictlyAscending([a] + rest)
  {
    var r := [a] + rest;
    forall i, j | 0 <= i < j < |r| ensures r[i].t < r[j].t {
      assert r[j] == rest[j - 1];
      if i > 0 { assert r[i] == rest[i - 1]; }
    }
  }

  lemma ConsSeparated(a: Keyframe, rest: seq<Keyframe>)
    requires Separated(rest)
    requires forall k :: k in rest ==> k.t - a.t > ReplaceWindow
    ensures Separated([a] + rest)
  {
    var r := [a] + rest;
    forall i, j | 0 <= i < j < |r| ensures r[j].t - r[i].t > ReplaceWindow {
      assert r[j] == rest[j - 1];
      if i > 0 { assert r[i] == rest[i - 1]; }
    }
  }

  lemma AscendingTail(s: seq<Keyframe>)
    requires s != [] && StrictlyAscending(s)
    ensures StrictlyAscending(s[1..])
  {
    forall i, j | 0 <= i < j < |s[1..]| ensures s[1..][i].t < s[1..][j].t {
      assert s[1..][i] == s[i + 1] && s[1..][j] == s[j + 1];
    }
  }

  lemma SeparatedTail(s: seq<Keyframe>)
    requires s != [] && Separated(s)
    ensures Separated(s[1..])
  {
    forall i, j | 0 <= i < j < |s[1..]| ensures s[1..][j].t - s[1..][i].t > ReplaceWindow {
      assert s[1..][i] == s[i + 1] && s[1..][j] == s[j + 1];
    }
  }

  /** In an ordered list every later keyframe is later than the first one, by the spacing. */
  lemma HeadBelowRest(s: seq<Keyframe>, k: Keyframe)
    requires s != [] && k in s[1..]
    ensures StrictlyAscending(s) ==> s[0].t < k.t
    ensures Separated(s) ==> k.t - s[0].t > ReplaceWindow
  {
    var j :| 0 <= j < |s[1..]| && s[1..][j] == k;
    assert s[j + 1] == k;
  }

  /** Number of leading keyframes of `s` whose time is at most `x.t`. */
  function InsertIndex(s: seq<Keyframe>, x: Keyframe): (k: nat)
    ensures k <= |s|
    ensures forall i :: 0 <= i < k ==> s[i].t <= x.t
    ensures k < |s| ==> s[k].t > x.t
    decreases |s|
  {
    if s == [] || x.t < s[0].t then 0 else 1 + InsertIndex(s[1..], x)
  }

  /** When no keyframe is later than `x`, it goes at the end. */
  lemma {:induction false} InsertIndexPastAll(s: seq<Keyframe>, x: Keyframe)
    requires forall i :: 0 <= i < |s| ==> s[i].t <= x.t
    ensures InsertIndex(s, x) == |s|
    decreases |s|
  {
    if s != [] {
      assert forall i :: 0 <= i < |s[1..]| ==> s[1..][i] == s[i + 1];
      InsertIndexPastAll(s[1..], x);
    }
  }

  /** A keyframe no earlier than all others is appended. */
  lemma AppendPastAll(s: seq<Keyframe>, x: Keyframe)
    requires forall i :: 0 <= i < |s| ==> s[i].t <= x.t
    ensures InsertByT(s, x) == s + [x]
  {
    InsertIndexPastAll(s, x);
    assert s[..|s|] == s && s[|s|..] == [];
  }

  /** Where each keyframe of `s` and `x` itself end up after the insertion. */
  lemma InsertByTAt(s: seq<Keyframe>, x: Keyframe, i: nat)
    requires i <= |s|
    ensures var k := InsertIndex(s, x); var r := InsertByT(s, x);
      |r| == |s| + 1
      && (i < k ==> r[i] == s[i])
      && (i == k ==> r[i] == x)
      && (i > k ==> r[i] == s[i - 1])
  {
  }

  /** Inserts `x` after every leading keyframe whose time is at most `x.t`. */
  function InsertByT(s: seq<Keyframe>, x: Keyframe): (r: seq<Keyframe>)
    ensures r == s[..InsertIndex(s, x)] + [x] + s[InsertIndex(s, x)..]
    decreases |s|
  {
    if s == [] || x.t < s[0].t then [x] + s
    else
      var rest := InsertByT(s[1..], x);
      assert s[1..][..InsertIndex(s[1..], x)] == s[1..InsertIndex(s, x)];
      [s[0]] + rest
  }

  /**
   * The stable sort by `t` that `Array.prototype.sort((a, b) => a.t - b.t)` performs:
   * insertion sort, each keyframe placed after the equal ones already placed.
   */
  function SortByT(s: seq<Keyframe>): seq<Keyframe>
    decreases |s|
  {
    if s == [] then [] else InsertByT(SortByT(s[..|s| - 1]), s[|s| - 1])
  }

  lemma {:induction false} InsertKeepsSorted(s: seq<Keyframe>, x: Keyframe)
    requires SortedByT(s)
    ensures SortedByT(InsertByT(s, x))
    ensures multiset(InsertByT(s, x)) == multiset(s) + multiset{x}
  {
    var r := InsertByT(s, x);
    forall i, j | 0 <= i < j < |r| ensures r[i].t <= r[j].t {
      InsertSortedPair(s, x, i, j);
    }
    InsertPermutes(s, x);
  }

  lemma InsertSortedPair(s: seq<Keyframe>, x: Keyframe, i: nat, j: nat)
    requires SortedByT(s) && i < j <= |s|
    ensures InsertByT(s, x)[i].t <= InsertByT(s, x)[j].t
  {
    InsertByTAt(s, x, i);
    InsertByTAt(s, x, j);
  }

  lemma {:induction false} InsertPermutes(s: seq<Keyframe>, x: Keyframe)
    ensures multiset(InsertByT(s, x)) == multiset(s) + multiset{x}
    decreases |s|
  {
    if s != [] && x.t >= s[0].t {
      InsertPermutes(s[1..], x);
      assert s == [s[0]] + s[1..];
    }
  }

  /** The sort yields a sorted permutation of its input. */
  lemma {:induction false} SortByTSortsAndPermutes(s: seq<Keyframe>)
    ensures SortedByT(SortByT(s))
    ensures multiset(SortByT(s)) == multiset(s)
    decreases |s|
  {
    if s != [] {
      var init, x := s[..|s| - 1], s[|s| - 1];
      SplitLast(s);
      var sorted := SortByT(init);
      SortByTSortsAndPermutes(init);
      InsertKeepsSorted(sorted, x);
    }
  }

  lemma SplitLast(s: seq<Keyframe>)
    requires s != []
    ensures s == s[..|s| - 1] + [s[|s| - 1]]
    ensures multiset(s) == multiset(s[..|s| - 1]) + multiset{s[|s| - 1]}
  {
  }

  /** On a strictly ascending list the sort changes nothing. */
  lemma {:induction false} SortByTOfAscending(s: seq<Keyframe>)
    requires StrictlyAscending(s)
    ensures SortByT(s) == s
    decreases |s|
  {
    if s != [] {
      var init, x := s[..|s| - 1], s[|s| - 1];
      SplitLast(s);
      AscendingInit(init, x);
      SortByTOfAscending(init);
      AppendPastAll(init, x);
    }
  }

  /** Dropping the last keyframe of a strictly ascending list leaves one, all below it. */
  lemma AscendingInit(init: seq<Keyframe>, x: Keyframe)
    requires StrictlyAscending(init + [x])
    ensures StrictlyAscending(init)
    ensures forall i :: 0 <= i < |init| ==> init[i].t <= x.t
  {
    var s := init + [x];
    forall i, j | 0 <= i < j < |init| ensures init[i].t < init[j].t {
      assert init[i] == s[i] && init[j] == s[j];
    }
    forall i | 0 <= i < |init| ensures init[i].t <= x.t {
      assert init[i] == s[i] && x == s[|init|];
    }
  }

  /** `addKeyframe` on one list: drop near-duplicates, append, sort by `t`. */
  function AddKeyframe(s: seq<Keyframe>, kf: Keyframe): seq<Keyframe> {
    SortByT(KeepFar(s, kf) + [kf])
  }

  /**
   * The new keyframe is present, exactly the keyframes farther than the window from it
   * survive (as a multiset), and the result is sorted.
   */
  lemma AddKeyframeContents(s: seq<Keyframe>, kf: Keyframe)
    ensures multiset(AddKeyframe(s, kf)) == multiset(KeepFar(s, kf)) + multiset{kf}
    ensures kf in AddKeyframe(s, kf)
    ensures forall k :: k in AddKeyframe(s, kf) && k != kf ==> k in s && Abs(k.t - kf.t) > ReplaceWindow
    ensures SortedByT(AddKeyframe(s, kf))
  {
    SortByTSortsAndPermutes(KeepFar(s, kf) + [kf]);
    assert kf in multiset(AddKeyframe(s, kf));
    forall k | k in AddKeyframe(s, kf) && k != kf
      ensures k in s && Abs(k.t - kf.t) > ReplaceWindow
    {
      assert k in multiset(AddKeyframe(s, kf));
      assert k in multiset(KeepFar(s, kf));
    }
  }

  lemma {:induction false} InsertKeepsStrict(s: seq<Keyframe>, x: Keyframe)
    requires StrictlyAscending(s)
    requires forall k :: k in s ==> k.t != x.t
    ensures StrictlyAscending(InsertByT(s, x))
  {
    var k := InsertIndex(s, x);
    var r := InsertByT(s, x);
    forall i, j | 0 <= i < j < |r| ensures r[i].t < r[j].t {
      InsertByTAt(s, x, i);
      InsertByTAt(s, x, j);
      if j == k { assert s[i] in s; }
      if i == k { assert s[j - 1] in s; }
    }
  }

  lemma {:induction false} InsertKeepsSeparated(s: seq<Keyframe>, x: Keyframe)
    requires Separated(s)
    requires forall k :: k in s ==> Abs(k.t - x.t) > ReplaceWindow
    ensures Separated(InsertByT(s, x))
  {
    var k := InsertIndex(s, x);
    var r := InsertByT(s, x);
    forall i, j | 0 <= i < j < |r| ensures r[j].t - r[i].t > ReplaceWindow {
      InsertByTAt(s, x, i);
      InsertByTAt(s, x, j);
      if j == k { assert s[i] in s; }
      if i == k { assert s[j - 1] in s; }
    }
  }

  /**
   * A strictly ascending list stays strictly ascending after `addKeyframe`, and a list
   * whose keyframes lie more than 0.05 s apart keeps that spacing.
   */
  lemma AddKeyframeKeepsOrder(s: seq<Keyframe>, kf: Keyframe)
    ensures StrictlyAscending(s) ==> StrictlyAscending(AddKeyframe(s, kf))
    ensures Separated(s) ==> Separated(AddKeyframe(s, kf))
  {
    var far := KeepFar(s, kf);
    assert (far + [kf])[..|far + [kf]| - 1] == far;
    if StrictlyAscending(s) {
      KeepFarAscending(s, kf);
      SortByTOfAscending(far);
      InsertKeepsStrict(far, kf);
    }
    if Separated(s) {
      KeepFarSeparated(s, kf);
      assert StrictlyAscending(far);
      SortByTOfAscending(far);
      InsertKeepsSeparated(far, kf);
    }
  }

  /** The index `splice(index, 1)` starts at: negative indices count from the end. */
  function SpliceStart(len: nat, index: int): (start: nat)
    ensures start <= len
  {
    if index < 0 then (if len + index < 0 then 0 else len + index)
    else if index > len then len
    else index
  }

  /** `keyframes.splice(index, 1)`: removes one keyframe when the start is in range. */
  function RemoveKeyframeAt(s: seq<Keyframe>, index: int): (r: seq<Keyframe>)
    ensures SpliceStart(|s|, index) < |s| ==> |r| == |s| - 1
    ensures 0 <= index < |s| ==> r == s[..index] + s[index + 1..]
    ensures -|s| <= index < 0 ==> r == s[..|s| + index] + s[|s| + index + 1..]
    ensures index >= |s| || |s| == 0 ==> r == s
    ensures index < -|s| && |s| > 0 ==> r == s[1..]
    ensures SpliceStart(|s|, index) >= |s| ==> r == s
  {
    var start := SpliceStart(|s|, index);
    if start < |s| then s[..start] + s[start + 1..] else s
  }

  /** Removing a keyframe keeps a strictly ascending list strictly ascending. */
  lemma RemoveKeyframeKeepsOrder(s: seq<Keyframe>, index: int)
    requires StrictlyAscending(s)
    ensures StrictlyAscending(RemoveKeyframeAt(s, index))
  {
    var start := SpliceStart(|s|, index);
    if start < |s| {
      DropKeepsAscending(s, start);
    }
  }

  /** Dropping one keyframe from an ascending list leaves it ascending. */
  lemma DropKeepsAscending(s: seq<Keyframe>, k: nat)
    requires StrictlyAscending(s) && k < |s|
    ensures StrictlyAscending(s[..k] + s[k + 1..])
  {
    var r := s[..k] + s[k + 1..];
    forall i, j | 0 <= i < j < |r| ensures r[i].t < r[j].t {
      var i' := if i < k then i else i + 1;
      var j' := if j < k then j else j + 1;
      assert r[i] == s[i'] && r[j] == s[j'];
    }
  }



  // ---------------------------------------------------------------- interpolation

  /** The smoothstep ease `p²(3 − 2p)`. */
  function Smoothstep(p: real): real {
    p * p * (3.0 - 2.0 * p)
  }

  /** On [0, 1] the ease stays in [0, 1] and fixes both ends. */
  lemma SmoothstepRange(p: real)
    requires 0.0 <= p <= 1.0
    ensures 0.0 <= Smoothstep(p) <= 1.0
    ensures p == 0.0 ==> Smoothstep(p) == 0.0
    ensures p == 1.0 ==> Smoothstep(p) == 1.0
  {
    MulNonneg(p * p, 3.0 - 2.0 * p);
    assert 1.0 - Smoothstep(p) == (1.0 - p) * (1.0 - p) * (1.0 + 2.0 * p);
    MulNonneg((1.0 - p) * (1.0 - p), 1.0 + 2.0 * p);
  }

  lemma MulNonneg(x: real, y: real)
    requires x >= 0.0 && y >= 0.0
    ensures x * y >= 0.0
  {
  }

  lemma DivSelf(d: real)
    requires d > 0.0
    ensures d / d == 1.0
  {
  }

  /** The bracket parameter `(t - t1) / (t2 - t1)` lies in (0, 1]. */
  lemma DivUnit(n: real, d: real)
    requires 0.0 < n <= d
    ensures 0.0 < n / d <= 1.0
  {
    assert (n / d) * d == n;
  }

  function Blend(a: real, b: real, s: real): real {
    a + (b - a) * s
  }

  /** A blend weight in [0, 1] keeps the value between the two ends. */
  lemma BlendBetween(a: real, b: real, s: real)
    requires 0.0 <= s <= 1.0
    ensures Min(a, b) <= Blend(a, b, s) <= Max(a, b)
  {
    if a <= b {
      MulNonneg(b - a, s);
      MulNonneg(b - a, 1.0 - s);
    } else {
      MulNonneg(a - b, s);
      MulNonneg(a - b, 1.0 - s);
    }
  }

  function Min(a: real, b: real): real { if a <= b then a else b }
  function Max(a: real, b: real): real { if a <= b then b else a }

  /** x, y and rotation blended between two keyframes with weight `s`. */
  function BlendPose(k1: Keyframe, k2: Keyframe, s: real): Pose {
    Pose(Blend(k1.x, k2.x, s), Blend(k1.y, k2.y, s), Blend(k1.rotation, k2.rotation, s))
  }

  /**
   * The loop's search from index `i` for the first pair with `k1.t <= t <= k2.t`.
   * All keyframes before it are earlier than `t`, so the pair found has `k1.t < t`.
   */
  function BracketIndex(s: seq<Keyframe>, t: real, i: nat): (k: nat)
    requires i < |s| - 1 && t < s[|s| - 1].t
    requires forall j :: 0 <= j <= i ==> s[j].t < t
    ensures i <= k < |s| - 1
    ensures s[k].t < t <= s[k + 1].t
    ensures forall j :: i <= j < k ==> !(s[j].t <= t <= s[j + 1].t)
    decreases |s| - i
  {
    if t <= s[i + 1].t then i else BracketIndex(s, t, i + 1)
  }

  /**
   * `interpolateElements` for one keyframe list: None (the element is left unchanged)
   * when there are fewer than two keyframes; the first or last pose outside the
   * keyframe range; otherwise the smoothstep blend of the first bracketing pair.
   * The source's fall-through after its search loop is unreachable: when
   * `first.t < t < last.t` some pair always brackets `t`.
   */
  function Interpolate(s: seq<Keyframe>, t: real): (r: Option<Pose>)
    ensures r.None? <==> |s| < 2
  {
    if |s| < 2 then None
    else if t <= s[0].t then Some(KeyframePose(s[0]))
    else if t >= s[|s| - 1].t then Some(KeyframePose(s[|s| - 1]))
    else
      var k := BracketIndex(s, t, 0);
      var p := (t - s[k].t) / (s[k + 1].t - s[k].t);
      Some(BlendPose(s[k], s[k + 1], Smoothstep(p)))
  }

  /** Outside the keyframe range the pose is clamped to the first or last keyframe. */
  lemma InterpolateClamps(s: seq<Keyframe>, t: real)
    requires |s| >= 2
    ensures t <= s[0].t ==> Interpolate(s, t) == Some(KeyframePose(s[0]))
    ensures s[0].t < t && t >= s[|s| - 1].t ==> Interpolate(s, t) == Some(KeyframePose(s[|s| - 1]))
  {
  }

  /**
   * Strictly inside the range the pose lies between the two keyframes of the first
   * pair that brackets `t`, component by component.
   */
  lemma InterpolateBetween(s: seq<Keyframe>, t: real)
    requires |s| >= 2 && s[0].t < t < s[|s| - 1].t
    ensures var k := BracketIndex(s, t, 0);
      var r := Interpolate(s, t).value;
      s[k].t < t <= s[k + 1].t
      && Min(s[k].x, s[k + 1].x) <= r.x <= Max(s[k].x, s[k + 1].x)
      && Min(s[k].y, s[k + 1].y) <= r.y <= Max(s[k].y, s[k + 1].y)
      && Min(s[k].rotation, s[k + 1].rotation) <= r.rotation <= Max(s[k].rotation, s[k + 1].rotation)
  {
    var k := BracketIndex(s, t, 0);
    var p := (t - s[k].t) / (s[k + 1].t - s[k].t);
    DivUnit(t - s[k].t, s[k + 1].t - s[k].t);
    SmoothstepRange(p);
    var w := Smoothstep(p);
    BlendBetween(s[k].x, s[k + 1].x, w);
    BlendBetween(s[k].y, s[k + 1].y, w);
    BlendBetween(s[k].rotation, s[k + 1].rotation, w);
  }

  /** On a strictly ascending list the interpolation passes through every keyframe. */
  lemma InterpolateHitsKeyframes(s: seq<Keyframe>, i: nat)
    requires |s| >= 2 && i < |s| && StrictlyAscending(s)
    ensures Interpolate(s, s[i].t) == Some(KeyframePose(s[i]))
  {
    var t := s[i].t;
    if 0 < i < |s| - 1 {
      var k := BracketIndex(s, t, 0);
      assert k == i - 1;
      DivSelf(s[k + 1].t - s[k].t);
      SmoothstepRange(1.0);
    }
  }

  /** The worked example: keyframes (0,0,0,0) and (2,100,50,90) at t = 1, -1 and 5. */
  lemma InterpolateExample()
    ensures var s := [Keyframe(0.0, 0.0, 0.0, 0.0), Keyframe(2.0, 100.0, 50.0, 90.0)];
      Interpolate(s, 1.0) == Some(Pose(50.0, 25.0, 45.0))
      && Interpolate(s, -1.0) == Some(Pose(0.0, 0.0, 0.0))
      && Interpolate(s, 5.0) == Some(Pose(100.0, 50.0, 90.0))
  {
    var s := [Keyframe(0.0, 0.0, 0.0, 0.0), Keyframe(2.0, 100.0, 50.0, 90.0)];
    assert BracketIndex(s, 1.0, 0) == 0;
    assert Smoothstep(0.5) == 0.5;
  }

  /** One element at time `t`: unchanged with fewer than two keyframes, else re-posed. */
  function InterpolateElement(e: FieldElement, t: real): (r: FieldElement)
    ensures r.id == e.id && r.kind == e.kind && r.keyframes == e.keyframes
    ensures |e.keyframes| < 2 ==> r == e
    ensures |e.keyframes| >= 2 ==> r == e.WithPose(Interpolate(e.keyframes, t).value)
  {
    match Interpolate(e.keyframes, t)
    case None => e
    case Some(p) => e.WithPose(p)
  }

  /** `interpolateElements(t)` over the whole list. */
  function InterpolateAll(els: seq<FieldElement>, t: real): (r: seq<FieldElement>)
    ensures |r| == |els|
    ensures forall i :: 0 <= i < |els| ==> r[i] == InterpolateElement(els[i], t)
  {
    seq(|els|, i requires 0 <= i < |els| => InterpolateElement(els[i], t))
  }

  /** Interpolating twice at the same time gives the same scene as interpolating once. */
  lemma InterpolateAllIdempotent(els: seq<FieldElement>, t: real)
    ensures InterpolateAll(InterpolateAll(els, t), t) == InterpolateAll(els, t)
  {
    var once := InterpolateAll(els, t);
    var twice := InterpolateAll(once, t);
    forall i | 0 <= i < |els| ensures twice[i] == once[i] {
      var e := els[i];
      if |e.keyframes| >= 2 {
        var p := Interpolate(e.keyframes, t).value;
        assert once[i] == e.WithPose(p);
        assert once[i].WithPose(p) == once[i];
      }
    }
  }
}
