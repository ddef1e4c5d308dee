/**
 * Hit-testing in field coordinates. Distances are compared squared: for a radius
 * r > 0, `sqrt(d2) < r` holds exactly when `d2 < r * r`, so no square root is needed.
 */
module HitTest {
  import opened Wrappers
  import opened SceneTypes

  function DistSq(px: real, py: real, qx: real, qy: real): (r: real)
    ensures r >= 0.0
  {
    (px - qx) * (px - qx) + (py - qy) * (py - qy)
  }

  /** `Math.max(0, Math.min(1, v))` */
  function Clamp01(v: real): (r: real)
    ensures 0.0 <= r <= 1.0
    ensures 0.0 <= v <= 1.0 ==> r == v
    ensures v < 0.0 ==> r == 0.0
    ensures v > 1.0 ==> r == 1.0
  {
    var m := if v < 1.0 then v else 1.0;
    if m > 0.0 then m else 0.0
  }

  /** The squared length of segment a→b. */
  function LenSq(ax: real, ay: real, ex: real, ey: real): real {
    (ex - ax) * (ex - ax) + (ey - ay) * (ey - ay)
  }

  function Dot(ux: real, uy: real, vx: real, vy: real): real {
    ux * vx + uy * vy
  }

  /** The coordinate at parameter u along a→b. */
  function Lerp(a: real, b: real, u: real): real {
    a + u * (b - a)
  }

  /** The projection parameter of p onto a→b, clamped to [0, 1] (a non-degenerate segment). */
  function ProjParam(px: real, py: real, ax: real, ay: real, ex: real, ey: real): (t: real)
    requires LenSq(ax, ay, ex, ey) != 0.0
    ensures 0.0 <= t <= 1.0
  {
    Clamp01(Dot(px - ax, py - ay, ex - ax, ey - ay) / LenSq(ax, ay, ex, ey))
  }

  /**
   * `pointToSegmentDist`, squared: the distance to `a` for a zero-length segment,
   * otherwise the distance to the point at the clamped projection parameter.
   */
  function SegmentDistSq(px: real, py: real, ax: real, ay: real, ex: real, ey: real): (r: real)
    ensures r >= 0.0
    ensures LenSq(ax, ay, ex, ey) == 0.0 ==> r == DistSq(px, py, ax, ay)
    ensures LenSq(ax, ay, ex, ey) != 0.0 ==>
      var t := ProjParam(px, py, ax, ay, ex, ey);
      r == DistSq(px, py, Lerp(ax, ex, t), Lerp(ay, ey, t))
  {
    if LenSq(ax, ay, ex, ey) == 0.0 then DistSq(px, py, ax, ay)
    else
      var t := ProjParam(px, py, ax, ay, ex, ey);
      DistSq(px, py, Lerp(ax, ex, t), Lerp(ay, ey, t))
  }

  lemma MulNonneg(x: real, y: real)
    requires x >= 0.0 && y >= 0.0
    ensures x * y >= 0.0
  {
  }

  lemma MulNonpos(x: real, y: real)
    requires x <= 0.0 && y <= 0.0
    ensures x * y >= 0.0
  {
    MulNonneg(-x, -y);
  }

  lemma SquareNonneg(x: real)
    ensures x * x >= 0.0
  {
  }

  /** The squared distance from p to the point at parameter u, with w = p − a and d = b − a. */
  function Along(wx: real, wy: real, dx: real, dy: real, u: real): real {
    (wx - u * dx) * (wx - u * dx) + (wy - u * dy) * (wy - u * dy)
  }

  /** Along(s) − Along(t) = (s − t)(L(s + t) − 2W) with L = |d|² and W = w·d. */
  lemma AlongDifference(wx: real, wy: real, dx: real, dy: real, s: real, t: real)
    ensures Along(wx, wy, dx, dy, s) - Along(wx, wy, dx, dy, t)
      == (s - t) * (Dot(dx, dy, dx, dy) * (s + t) - 2.0 * Dot(wx, wy, dx, dy))
  {
  }

  /** The unconstrained minimiser q = W / L clamped to [0, 1] minimises over [0, 1]. */
  lemma ClampedMinimiser(L: real, W: real, s: real, t: real)
    requires L > 0.0 && 0.0 <= s <= 1.0 && t == Clamp01(W / L)
    ensures (s - t) * (L * (s + t) - 2.0 * W) >= 0.0
  {
    var q := W / L;
    assert W == q * L;
    if 0.0 <= q <= 1.0 {
      assert L * (s + t) - 2.0 * W == L * (s - t);
      MulNonneg(L, (s - t) * (s - t));
      assert (s - t) * (L * (s - t)) == L * ((s - t) * (s - t));
    } else if q < 0.0 {
      assert W < 0.0 by { MulNonpos(q, -L); }
      MulNonneg(L, s);
      MulNonneg(s, L * s - 2.0 * W);
    } else {
      assert W > L by { MulNonneg(q - 1.0, L); assert (q - 1.0) * L != 0.0; }
      MulNonneg(L, 1.0 - s);
      MulNonpos(s - 1.0, L * (s + 1.0) - 2.0 * W);
    }
  }

  /**
   * For a segment of non-zero length the result is the smallest squared distance from
   * p to any point of the segment: no point a + s(b − a) with s in [0, 1] is closer.
   */
  lemma SegmentDistIsMinimal(px: real, py: real, ax: real, ay: real, ex: real, ey: real, s: real)
    requires LenSq(ax, ay, ex, ey) != 0.0 && 0.0 <= s <= 1.0
    ensures SegmentDistSq(px, py, ax, ay, ex, ey) <= DistSq(px, py, Lerp(ax, ex, s), Lerp(ay, ey, s))
  {
    LenSqPositive(ax, ay, ex, ey);
    ProjectionNearest(px, py, ax, ay, ex, ey, s, ProjParam(px, py, ax, ay, ex, ey));
  }

  /** The point at the clamped projection parameter is at least as near as the point at s. */
  lemma ProjectionNearest(px: real, py: real, ax: real, ay: real, ex: real, ey: real, s: real, t: real)
    requires LenSq(ax, ay, ex, ey) > 0.0 && 0.0 <= s <= 1.0
    requires t == ProjParam(px, py, ax, ay, ex, ey)
    ensures DistSq(px, py, Lerp(ax, ex, t), Lerp(ay, ey, t)) <= DistSq(px, py, Lerp(ax, ex, s), Lerp(ay, ey, s))
  {
    var dx, dy := ex - ax, ey - ay;
    assert LenSq(ax, ay, ex, ey) == Dot(dx, dy, dx, dy);
    AlongMinimal(px - ax, py - ay, dx, dy, s, t);
    DistAlong(px, py, ax, ay, ex, ey, s);
    DistAlong(px, py, ax, ay, ex, ey, t);
  }

  /** The clamped projection parameter t is no farther from p than any s in [0, 1]. */
  lemma AlongMinimal(wx: real, wy: real, dx: real, dy: real, s: real, t: real)
    requires Dot(dx, dy, dx, dy) > 0.0 && 0.0 <= s <= 1.0
    requires t == Clamp01(Dot(wx, wy, dx, dy) / Dot(dx, dy, dx, dy))
    ensures Along(wx, wy, dx, dy, t) <= Along(wx, wy, dx, dy, s)
  {
    ClampedMinimiser(Dot(dx, dy, dx, dy), Dot(wx, wy, dx, dy), s, t);
    AlongDifference(wx, wy, dx, dy, s, t);
  }

  lemma LenSqPositive(ax: real, ay: real, ex: real, ey: real)
    requires LenSq(ax, ay, ex, ey) != 0.0
    ensures LenSq(ax, ay, ex, ey) > 0.0
  {
    SquareNonneg(ex - ax);
    SquareNonneg(ey - ay);
  }

  lemma DistAlong(px: real, py: real, ax: real, ay: real, ex: real, ey: real, u: real)
    ensures DistSq(px, py, Lerp(ax, ex, u), Lerp(ay, ey, u)) == Along(px - ax, py - ay, ex - ax, ey - ay, u)
  {
    assert px - Lerp(ax, ex, u) == (px - ax) - u * (ex - ax);
    assert py - Lerp(ay, ey, u) == (py - ay) - u * (ey - ay);
  }

  // ---------------------------------------------------------------- elements

  /** 30 for any type whose tag contains "goal" (goalkeeper included), 28 for ladder, else 20. */
  function HitRadius(t: ElementType): (r: real)
    ensures r > 0.0
  {
    if HasGoalTag(t) then 30.0 else if t == Ladder then 28.0 else 20.0
  }

  /** The radius by type, spelled out. */
  lemma HitRadiusByType(t: ElementType)
    ensures t in {Goalkeeper, GoalLarge, GoalSmall, GoalCone} ==> HitRadius(t) == 30.0
    ensures t == Ladder ==> HitRadius(t) == 28.0
    ensures !(t in {Goalkeeper, GoalLarge, GoalSmall, GoalCone, Ladder}) ==> HitRadius(t) == 20.0
  {
    GoalTagExactly(t);
  }

  /** The query point is strictly inside the element's hit radius. */
  predicate ElementHit(e: FieldElement, fx: real, fy: real) {
    DistSq(fx, fy, e.x, e.y) < HitRadius(e.kind) * HitRadius(e.kind)
  }

  /**
   * The scan from index n − 1 down to 0: the index of the first (topmost) entry
   * `hit` accepts, or None when no entry below index n is accepted.
   */
  function TopmostBelow<T>(s: seq<T>, hit: T -> bool, n: nat): (r: Option<nat>)
    requires n <= |s|
    ensures r.Some? ==> r.value < n
    decreases n
  {
    if n == 0 then None
    else if hit(s[n - 1]) then Some(n - 1)
    else TopmostBelow(s, hit, n - 1)
  }

  /** The scan finds the highest index below n that is hit, and None only when none is. */
  lemma {:induction false} TopmostBelowMeaning<T>(s: seq<T>, hit: T -> bool, n: nat)
    requires n <= |s|
    ensures var r := TopmostBelow(s, hit, n);
      (r.Some? ==> r.value < n && hit(s[r.value]) && forall j :: r.value < j < n ==> !hit(s[j]))
      && (r.None? ==> forall j :: 0 <= j < n ==> !hit(s[j]))
    decreases n
  {
    if n > 0 && !hit(s[n - 1]) {
      TopmostBelowMeaning(s, hit, n - 1);
    }
  }

  /** `hitTestElement`: the topmost element within its radius, or None. */
  function HitTestElement(els: seq<FieldElement>, fx: real, fy: real): Option<FieldElement> {
    match TopmostBelow(els, e => ElementHit(e, fx, fy), |els|)
    case None => None
    case Some(i) => Some(els[i])
  }

  /** The result is an element that is hit with no element above it hit; None means nothing is hit. */
  lemma HitTestElementMeaning(els: seq<FieldElement>, fx: real, fy: real)
    ensures var r := HitTestElement(els, fx, fy);
      (r.Some? ==> exists i :: (0 <= i < |els| && els[i] == r.value && ElementHit(els[i], fx, fy)
                                && forall j :: i < j < |els| ==> !ElementHit(els[j], fx, fy)))
      && (r.None? <==> forall j :: 0 <= j < |els| ==> !ElementHit(els[j], fx, fy))
  {
    TopmostBelowMeaning(els, e => ElementHit(e, fx, fy), |els|);
  }

  /** A generic element at (100, 100): a query 15 away is a hit, one 25 away is not. */
  lemma ElementHitExample(e: FieldElement)
    requires e.x == 100.0 && e.y == 100.0 && e.kind == Cone
    ensures ElementHit(e, 115.0, 100.0)
    ensures !ElementHit(e, 125.0, 100.0)
  {
    HitRadiusByType(Cone);
  }

  // ---------------------------------------------------------------- drawings

  /** Drawings are hit strictly within 15 field units. */
  const DrawingThreshold: real := 15.0

  predicate SegmentNear(p: Point, q: Point, fx: real, fy: real) {
    SegmentDistSq(fx, fy, p.x, p.y, q.x, q.y) < DrawingThreshold * DrawingThreshold
  }

  /** Some consecutive pair of samples is within the threshold, scanning from the first pair. */
  predicate AnySegmentNear(pts: seq<Point>, fx: real, fy: real)
    decreases |pts|
  {
    |pts| >= 2 && (SegmentNear(pts[0], pts[1], fx, fy) || AnySegmentNear(pts[1..], fx, fy))
  }

  lemma {:induction false} AnySegmentNearMeaning(pts: seq<Point>, fx: real, fy: real)
    ensures AnySegmentNear(pts, fx, fy) <==>
      exists j :: 0 <= j < |pts| - 1 && SegmentNear(pts[j], pts[j + 1], fx, fy)
    decreases |pts|
  {
    if |pts| >= 2 {
      AnySegmentNearMeaning(pts[1..], fx, fy);
      if exists j :: 0 <= j < |pts| - 1 && SegmentNear(pts[j], pts[j + 1], fx, fy) {
        var j :| 0 <= j < |pts| - 1 && SegmentNear(pts[j], pts[j + 1], fx, fy);
        if j > 0 {
          assert pts[1..][j - 1] == pts[j] && pts[1..][j] == pts[j + 1];
        }
      }
      if AnySegmentNear(pts[1..], fx, fy) && !SegmentNear(pts[0], pts[1], fx, fy) {
        var j :| 0 <= j < |pts[1..]| - 1 && SegmentNear(pts[1..][j], pts[1..][j + 1], fx, fy);
        assert pts[1..][j] == pts[j + 1] && pts[1..][j + 1] == pts[j + 2];
      }
    }
  }

  /**
   * Arrows and dashed lines by their end points, curves (two or more samples) by any
   * consecutive pair; zones and text are never hit.
   */
  predicate DrawingHit(d: Drawing, fx: real, fy: real) {
    match d.kind
    case Arrow => SegmentNear(Point(d.x1, d.y1), Point(d.x2, d.y2), fx, fy)
    case Dashed => SegmentNear(Point(d.x1, d.y1), Point(d.x2, d.y2), fx, fy)
    case Curved => d.points.Some? && |d.points.value| >= 2 && AnySegmentNear(d.points.value, fx, fy)
    case Zone => false
    case TextNote => false
  }

  /** `hitTestDrawing`: the topmost drawing hit, which is always an arrow, dashed line or curve. */
  function HitTestDrawing(drs: seq<Drawing>, fx: real, fy: real): Option<Drawing> {
    match TopmostBelow(drs, d => DrawingHit(d, fx, fy), |drs|)
    case None => None
    case Some(i) => Some(drs[i])
  }

  /** The result is a hit arrow, dashed line or curve with no drawing above it hit; None means nothing is hit. */
  lemma HitTestDrawingMeaning(drs: seq<Drawing>, fx: real, fy: real)
    ensures var r := HitTestDrawing(drs, fx, fy);
      (r.Some? ==> r.value.kind in {Arrow, Dashed, Curved})
      && (r.Some? ==> exists i :: (0 <= i < |drs| && drs[i] == r.value && DrawingHit(drs[i], fx, fy)
                                   && forall j :: i < j < |drs| ==> !DrawingHit(drs[j], fx, fy)))
      && (r.None? <==> forall j :: 0 <= j < |drs| ==> !DrawingHit(drs[j], fx, fy))
  {
    TopmostBelowMeaning(drs, d => DrawingHit(d, fx, fy), |drs|);
  }
}
