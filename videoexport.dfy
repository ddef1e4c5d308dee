/**
 * The animation export's page script: where an element stands at a frame time, which
 * elements a frame draws and with which shape, the schedule of frame times, and the
 * loop that renders each frame and hands it to the GIF encoder.
 *
 * Frame times are JavaScript numbers and can be NaN (`0 / 0` when the animation has no
 * frame steps). A time is an `Option<real>` here, with `None` standing for NaN: every
 * comparison with it is false.
 */
module VideoExport {
  import opened Wrappers
  import opened SceneTypes
  import opened Keyframes
  import Canvas
  import Gif
  import Lzw

  // ---------------------------------------------------------------- numbers

  /** `Math.round`: the nearest integer, halves upward. */
  function Round(x: real): (n: int)
    ensures x - 0.5 < n as real <= x + 0.5
  {
    (x + 0.5).Floor
  }

  /** `Math.ceil`: the least integer not below `x`. */
  function Ceil(x: real): (n: int)
    ensures x <= n as real < x + 1.0
  {
    -((-x).Floor)
  }

  /** `t <= a` for a number that may be NaN. */
  predicate AtMost(t: Option<real>, a: real) {
    t.Some? && t.value <= a
  }

  /** `t >= a` for a number that may be NaN. */
  predicate AtLeast(t: Option<real>, a: real) {
    t.Some? && t.value >= a
  }

  // ---------------------------------------------------------------- positions

  /**
   * Where `interpolate(el, t)` puts an element: its own position with fewer than two
   * keyframes or at a NaN time, otherwise the x and y of the keyframe interpolation
   * the editor uses.
   */
  function Place(e: FieldElement, t: Option<real>): Point {
    if t.None? || |e.keyframes| < 2 then Point(e.x, e.y)
    else
      var p := Interpolate(e.keyframes, t.value).value;
      Point(p.x, p.y)
  }

  /**
   * `interpolate(el, t)`: clamp to the first or last keyframe, else search for the first
   * pair with `k1.t <= t <= k2.t` and blend with the smoothstep ease. A NaN time fails
   * every comparison and falls through to the element's own position.
   */
  method Position(e: FieldElement, t: Option<real>) returns (p: Point)
    ensures p == Place(e, t)
  {
    p := Point(e.x, e.y);
    var s := e.keyframes;
    if |s| < 2 {
      return;
    }
    if AtMost(t, s[0].t) {
      return Point(s[0].x, s[0].y);
    }
    if AtLeast(t, s[|s| - 1].t) {
      return Point(s[|s| - 1].x, s[|s| - 1].y);
    }
    for i := 0 to |s| - 1
      invariant t.Some? ==> s[i].t < t.value
      invariant t.Some? ==> forall j :: 0 <= j < i ==> !(s[j].t <= t.value <= s[j + 1].t)
    {
      if AtLeast(t, s[i].t) && AtMost(t, s[i + 1].t) {
        var time := t.value;
        ghost var k := BracketIndex(s, time, 0);
        assert k == i;
        var q := (time - s[i].t) / (s[i + 1].t - s[i].t);
        var w := q * q * (3.0 - 2.0 * q);
        return Point(s[i].x + (s[i + 1].x - s[i].x) * w, s[i].y + (s[i + 1].y - s[i].y) * w);
      }
    }
  }

  /** At a real time the export places an element where the editor's interpolation puts it. */
  lemma PlaceMatchesEditor(e: FieldElement, t: real)
    ensures Place(e, Some(t)) == Point(InterpolateElement(e, t).x, InterpolateElement(e, t).y)
  {
  }

  /** On a strictly ascending keyframe list the export passes through every keyframe. */
  lemma PlaceHitsKeyframes(e: FieldElement, i: nat)
    requires |e.keyframes| >= 2 && i < |e.keyframes| && StrictlyAscending(e.keyframes)
    ensures Place(e, Some(e.keyframes[i].t)) == Point(e.keyframes[i].x, e.keyframes[i].y)
  {
    InterpolateHitsKeyframes(e.keyframes, i);
  }

  // ---------------------------------------------------------------- drawing

  /** What `drawEl` paints, centred on the element's position. */
  datatype Shape =
    | Disc(radius: real, fill: string, outline: string, caption: string)
    | Triangle(fill: string)
    | GoalFrame(halfWidth: real, halfDepth: real, stroke: string, lineWidth: real)

  datatype DrawCall = DrawCall(shape: Shape, x: real, y: real)

  /** `s || fallback` for a string. */
  function Or(s: string, fallback: string): string {
    if s == "" then fallback else s
  }

  /** The shape of each kind `drawEl` knows; None for the kinds it has no case for. */
  function ShapeOf(e: FieldElement): Option<Shape> {
    match e.kind
    case PlayerRun => Some(Disc(16.0, e.color, "rgba(0,0,0,.4)", e.number))
    case PlayerStand => Some(Disc(16.0, e.color, "rgba(0,0,0,.4)", e.number))
    case PlayerPass => Some(Disc(16.0, e.color, "rgba(0,0,0,.4)", e.number))
    case Goalkeeper => Some(Disc(16.0, Or(e.color, "#f39c12"), "rgba(0,0,0,.4)", "TW"))
    case Ball => Some(Disc(10.0, "#fff", "#333", ""))
    case Cone => Some(Triangle(Or(e.color, "#e67e22")))
    case GoalLarge => Some(GoalFrame(25.0, 8.0, "#fff", 3.0))
    case GoalSmall => Some(GoalFrame(15.0, 6.0, "#ccc", 2.5))
    case _ => None
  }

  /** Seven of the fifteen kinds never appear in an exported animation. */
  lemma UndrawnKinds(e: FieldElement)
    ensures ShapeOf(e).None? <==> e.kind in {Trainer, Dummy, Pole, Ladder, Flag, Ring, GoalCone}
  {
  }

  /** `drawEl(el, pos)`: one call for a kind with a shape, none otherwise. */
  function DrawEl(e: FieldElement, pos: Point): seq<DrawCall> {
    match ShapeOf(e)
    case None => []
    case Some(sh) => [DrawCall(sh, pos.x, pos.y)]
  }

  /**
   * `renderFrame` skips an element when the time is before its start (default 0) or,
   * for a non-negative end (default −1), after its end. A NaN time skips nothing.
   */
  predicate Skipped(e: FieldElement, t: Option<real>) {
    t.Some? && Canvas.OutOfWindow(e, t.value)
  }

  /** While playing, the editor hides exactly the elements the export skips. */
  lemma SkippedMatchesPlayback(e: FieldElement, t: real)
    ensures Skipped(e, Some(t)) <==> Canvas.RenderModeOf(e, t, true) == Canvas.Hidden
  {
    Canvas.RenderModeCases(e, t, true);
  }

  /** The calls one element contributes to a frame. */
  function CallsOf(e: FieldElement, t: Option<real>): seq<DrawCall> {
    if Skipped(e, t) then [] else DrawEl(e, Place(e, t))
  }

  /** The element calls of a frame, in list order. */
  function Scene(els: seq<FieldElement>, t: Option<real>): seq<DrawCall>
    decreases |els|
  {
    if els == [] then [] else Scene(els[..|els| - 1], t) + CallsOf(els[|els| - 1], t)
  }

  /** The call of an element that is drawn. */
  function CallOf(e: FieldElement, t: Option<real>): DrawCall
    requires ShapeOf(e).Some?
  {
    DrawCall(ShapeOf(e).value, Place(e, t).x, Place(e, t).y)
  }

  /**
   * A frame holds one call per element that is neither skipped nor of an undrawn kind,
   * at the element's interpolated position, and nothing else.
   */
  lemma {:induction false} SceneMeaning(els: seq<FieldElement>, t: Option<real>)
    ensures |Scene(els, t)| <= |els|
    ensures forall c :: c in Scene(els, t) ==>
      exists e :: e in els && !Skipped(e, t) && ShapeOf(e).Some? && c == CallOf(e, t)
    ensures forall e :: e in els && !Skipped(e, t) && ShapeOf(e).Some? ==> CallOf(e, t) in Scene(els, t)
    decreases |els|
  {
    if els != [] {
      var init := els[..|els| - 1];
      var last := els[|els| - 1];
      SceneMeaning(init, t);
      assert els == init + [last];
      forall c | c in Scene(els, t)
        ensures exists e :: e in els && !Skipped(e, t) && ShapeOf(e).Some? && c == CallOf(e, t)
      {
        if c in Scene(init, t) {
          var e :| e in init && !Skipped(e, t) && ShapeOf(e).Some? && c == CallOf(e, t);
          assert e in els;
        } else {
          assert c in CallsOf(last, t);
          assert last in els;
        }
      }
      forall e | e in els && !Skipped(e, t) && ShapeOf(e).Some?
        ensures CallOf(e, t) in Scene(els, t)
      {
        if e in init {
          assert CallOf(e, t) in Scene(init, t);
        } else {
          assert e == last;
          assert CallsOf(last, t) == [CallOf(e, t)];
        }
      }
    }
  }

  /** At a NaN time every element of a drawn kind is drawn, at its own position. */
  lemma NaNFrameDrawsAll(els: seq<FieldElement>)
    ensures forall e :: e in els && ShapeOf(e).Some? ==> DrawCall(ShapeOf(e).value, e.x, e.y) in Scene(els, None)
  {
    SceneMeaning(els, None);
  }

  /**
   * `renderFrame(t)`: for each element, skip it when the time is outside its window,
   * else draw it at its interpolated position. Field lines and drawings are painted
   * first and are the same in every frame; they belong to the rasteriser.
   */
  method RenderFrame(els: seq<FieldElement>, t: Option<real>) returns (calls: seq<DrawCall>)
    ensures calls == Scene(els, t)
  {
    calls := [];
    for i := 0 to |els|
      invariant calls == Scene(els[..i], t)
    {
      var e := els[i];
      assert els[..i + 1][..i] == els[..i];
      var st := e.startTime.GetOr(0.0);
      var et := e.endTime.GetOr(-1.0);
      if t.Some? && t.value < st {
        continue;
      }
      if t.Some? && et >= 0.0 && t.value > et {
        continue;
      }
      var pos := Position(e, t);
      calls := calls + DrawEl(e, pos);
    }
    assert els[..|els|] == els;
  }

  // ---------------------------------------------------------------- the frame schedule

  /** `Math.round(1000 / fps)`: the frame delay in milliseconds. */
  function Delay(fps: real): int
    requires fps > 0.0
  {
    Round(1000.0 / fps)
  }

  /** `Math.ceil(animDuration * fps)`: the number of steps between the first and last frame. */
  function TotalFrames(duration: real, fps: real): int {
    Ceil(duration * fps)
  }

  /** The loop `for (i = 0; i <= totalFrames; i++)` runs this often. */
  function FrameCount(total: int): nat {
    if total >= 0 then total + 1 else 0
  }

  /** `(i / totalFrames) * animDuration`; NaN when there are no steps. */
  function FrameTime(i: nat, total: int, duration: real): Option<real> {
    if total == 0 then None else Some((i as real / total as real) * duration)
  }

  lemma StepTimes(i: nat, total: nat, duration: real)
    requires total > 0
    ensures FrameTime(i + 1, total, duration).value - FrameTime(i, total, duration).value == duration / total as real
  {
    var n := total as real;
    assert (i + 1) as real / n == i as real / n + 1.0 / n;
    assert ((i + 1) as real / n) * duration == (i as real / n) * duration + (1.0 / n) * duration;
    assert (1.0 / n) * duration == duration / n;
  }

  lemma TimeBounds(i: nat, j: nat, total: nat, duration: real)
    requires 0 <= i <= j <= total && total > 0 && duration >= 0.0
    ensures 0.0 <= FrameTime(i, total, duration).value <= FrameTime(j, total, duration).value <= duration
  {
    var n := total as real;
    var a := i as real / n;
    var b := j as real / n;
    Quotients(i as real, j as real, n);
    MulNonneg(a, duration);
    MulNonneg(b - a, duration);
    MulNonneg(1.0 - b, duration);
  }

  /** Dividing `0 <= x <= y <= n` by `n` keeps the order and lands in [0, 1]. */
  lemma Quotients(x: real, y: real, n: real)
    requires 0.0 <= x <= y <= n && n > 0.0
    ensures 0.0 <= x / n <= y / n <= 1.0
  {
    var a := x / n;
    var b := y / n;
    assert a * n == x && b * n == y;
    assert 0.0 <= a by {
      if a < 0.0 {
        MulPositive(-a, n);
      }
    }
    assert a <= b by {
      if a > b {
        MulPositive(a - b, n);
      }
    }
    assert b <= 1.0 by {
      if b > 1.0 {
        MulPositive(b - 1.0, n);
      }
    }
  }

  lemma MulPositive(x: real, y: real)
    requires x > 0.0 && y > 0.0
    ensures x * y > 0.0
  {
  }

  /**
   * With at least one step the first frame is at 0 and the last at the duration, the
   * times are evenly spaced by `duration / totalFrames`, and for a non-negative
   * duration they rise from 0 to the duration.
   */
  lemma FrameSchedule(total: nat, duration: real)
    requires total > 0
    ensures FrameTime(0, total, duration) == Some(0.0)
    ensures FrameTime(total, total, duration) == Some(duration)
    ensures forall i: nat :: i < total ==>
      FrameTime(i + 1, total, duration).value - FrameTime(i, total, duration).value == duration / total as real
    ensures duration >= 0.0 ==> forall i: nat, j: nat :: i <= j <= total ==>
      0.0 <= FrameTime(i, total, duration).value <= FrameTime(j, total, duration).value <= duration
  {
    var n := total as real;
    assert n / n == 1.0;
    EvenSteps(total, duration);
    if duration >= 0.0 {
      RisingTimes(total, duration);
    }
  }

  lemma EvenSteps(total: nat, duration: real)
    requires total > 0
    ensures forall i: nat :: i < total ==>
      FrameTime(i + 1, total, duration).value - FrameTime(i, total, duration).value == duration / total as real
  {
    forall i: nat | i < total
      ensures FrameTime(i + 1, total, duration).value - FrameTime(i, total, duration).value == duration / total as real
    {
      StepTimes(i, total, duration);
    }
  }

  lemma RisingTimes(total: nat, duration: real)
    requires total > 0 && duration >= 0.0
    ensures forall i: nat, j: nat :: i <= j <= total ==>
      0.0 <= FrameTime(i, total, duration).value <= FrameTime(j, total, duration).value <= duration
  {
    forall i: nat, j: nat | i <= j <= total
      ensures 0.0 <= FrameTime(i, total, duration).value <= FrameTime(j, total, duration).value <= duration
    {
      TimeBounds(i, j, total, duration);
    }
  }

  /**
   * A product `duration * fps` in (−1, 0] gives no steps: one frame, at time NaN, in
   * which every element of a drawn kind is drawn at its own position.
   */
  lemma SingleFrameAtNaN(duration: real, fps: real)
    requires -1.0 < duration * fps <= 0.0
    ensures TotalFrames(duration, fps) == 0 && FrameCount(TotalFrames(duration, fps)) == 1
    ensures FrameTime(0, TotalFrames(duration, fps), duration) == None
  {
  }

  // ---------------------------------------------------------------- the GIF

  /** The frame `addFrame` stores for painted pixels. */
  function FrameOf(pixels: seq<Gif.Pixel>, delay: int): (f: Gif.Frame)
    ensures |f.palette| == Gif.PaletteSize && |f.indexed| == |pixels| && f.delay == delay
  {
    var q := Gif.QuantizeSpec(pixels);
    Gif.Frame(q.palette, q.indexed, delay)
  }

  /**
   * The frames of an export: frame `i` is the scene at `FrameTime(i)` painted by
   * `paint` and quantised, with the rounded delay.
   */
  function Frames(els: seq<FieldElement>, duration: real, fps: real, paint: seq<DrawCall> -> seq<Gif.Pixel>): (r: seq<Gif.Frame>)
    requires fps > 0.0
    ensures |r| == FrameCount(TotalFrames(duration, fps))
    ensures forall i :: 0 <= i < |r| ==> |r[i].palette| == Gif.PaletteSize && r[i].delay == Delay(fps)
  {
    var total := TotalFrames(duration, fps);
    var r := seq(FrameCount(total), i requires 0 <= i < FrameCount(total) =>
      FrameOf(paint(Scene(els, FrameTime(i, total, duration))), Delay(fps)));
    assert forall i :: 0 <= i < |r| ==> r[i] == FrameOf(paint(Scene(els, FrameTime(i, total, duration))), Delay(fps));
    r
  }

  /**
   * `generateGif()`: an encoder of the canvas size with delay `Math.round(1000 / fps)`,
   * one frame per step from 0 to `totalFrames` inclusive, then `finish()`. Painting
   * the canvas into pixels is the parameter `paint`.
   */
  method GenerateGif(els: seq<FieldElement>, duration: real, fps: real, width: int, height: int,
                     paint: seq<DrawCall> -> seq<Gif.Pixel>) returns (bytes: seq<Lzw.byte>)
    requires fps > 0.0
    ensures bytes == Gif.Stream(width, height, Frames(els, duration, fps, paint))
  {
    var encoder := new Gif.GifEncoder(width, height);
    encoder.SetDelay(Round(1000.0 / fps));
    var total := Ceil(duration * fps);
    ghost var frames := Frames(els, duration, fps, paint);
    var i := 0;
    while i <= total
      invariant 0 <= i <= FrameCount(total)
      invariant encoder.width == width && encoder.height == height
      invariant encoder.Valid() && encoder.delay == Delay(fps)
      invariant encoder.frames == frames[..i]
    {
      var t := FrameTime(i, total, duration);
      var calls := RenderFrame(els, t);
      encoder.AddFrame(paint(calls));
      assert frames[..i + 1] == frames[..i] + [frames[i]];
      i := i + 1;
    }
    assert frames[..i] == frames;
    bytes := encoder.Finish();
  }

  /**
   * A product `duration * fps` of −1 or less gives a negative `totalFrames`, so the
   * loop adds no frame, and the stream `finish()` then writes announces a colour table
   * it does not contain: it does not read back as a GIF.
   */
  lemma NegativeDurationUnreadable(els: seq<FieldElement>, duration: real, fps: real, width: int, height: int,
                                   paint: seq<DrawCall> -> seq<Gif.Pixel>)
    requires fps > 0.0 && duration * fps <= -1.0
    ensures Frames(els, duration, fps, paint) == []
    ensures Gif.ReadGif(Gif.Stream(width, height, Frames(els, duration, fps, paint))) == None
  {
    Gif.EmptyStreamUnreadable(width, height);
  }
}
