/**
 * Automatic placement of the elements an imported training plan calls for: two teams
 * of numbered players in rows, goals at fixed spots, cones on the corners or around
 * the perimeter, balls on a ring and other equipment in a centred line, each material
 * count capped first. The field is 800 x 600.
 */
module Placement {
  import opened Wrappers
  import opened Text
  import opened SceneTypes
  import opened TrainingPlan

  const FieldW: real := 800.0
  const FieldH: real := 600.0
  const CX: real := FieldW / 2.0
  const CY: real := FieldH / 2.0
  const Margin: real := 40.0

  const TeamBlue: string := "#3498db"
  const TeamRed: string := "#e74c3c"
  const DefaultColor: string := "#2c3e50"
  const ConeColor: string := "#f39c12"

  /** An element as the placement emits it; `keyframes` is always empty. */
  datatype PlacedElement = PlacedElement(
    kind: ElementType,
    x: real,
    y: real,
    color: string,
    rotation: real,
    number: string,
    labelText: string,
    keyframes: seq<Keyframe>)

  /** An unnumbered, unlabelled element without keyframes. */
  function Fixture(kind: ElementType, p: Point, color: string, rotation: real): PlacedElement {
    PlacedElement(kind, p.x, p.y, color, rotation, "", "", [])
  }

  function Min(a: int, b: int): int { if a <= b then a else b }

  // ---------------------------------------------------------------- players

  /** The blue team fills rows downwards from y = 120, the red team upwards from y = 480. */
  function RowY(row: nat, blue: bool): real {
    if blue then 120.0 + row as real * 70.0 else FieldH - 120.0 - row as real * 70.0
  }

  /** Players in the row starting at player `first` of a team of `size`: at most four. */
  function RowLength(first: nat, size: nat): int {
    Min(4, size - first)
  }

  /**
   * Player k (from 0) of a team of `size`: row k / 4, column k % 4 of a row of up to
   * four centred on CX and 100 apart, shirt number k + 1.
   */
  function TeamSlot(k: nat, size: nat, blue: bool): PlacedElement {
    var row := k / 4;
    var inRow := RowLength(row * 4, size);
    PlacedElement(PlayerStand, CX - ((inRow - 1) as real * 100.0) / 2.0 + (k % 4) as real * 100.0,
      RowY(row, blue), if blue then TeamBlue else TeamRed, 0.0, NatToString(k + 1), "", [])
  }

  /**
   * Every row holds at most four players, the player's row is full up to its last
   * member, and the row's first and last players sit symmetrically about CX on one line.
   */
  lemma TeamRowCentred(k: nat, size: nat, blue: bool)
    requires k < size
    ensures var first := k / 4 * 4;
      var last := first + RowLength(first, size) - 1;
      first <= k <= last < size && RowLength(first, size) <= 4
      && TeamSlot(first, size, blue).x + TeamSlot(last, size, blue).x == 2.0 * CX
      && TeamSlot(first, size, blue).y == TeamSlot(k, size, blue).y == TeamSlot(last, size, blue).y
  {
    var first := k / 4 * 4;
    var last := first + RowLength(first, size) - 1;
    assert first / 4 == k / 4 && first % 4 == 0;
    assert last / 4 == k / 4 && last % 4 == RowLength(first, size) - 1;
  }

  /** Consecutive rows of a team are 70 apart, towards the centre line. */
  lemma TeamRowsApart(k: nat, size: nat, blue: bool)
    ensures TeamSlot(k + 4, size, blue).y == TeamSlot(k, size, blue).y + (if blue then 70.0 else -70.0)
  {
    assert (k + 4) / 4 == k / 4 + 1;
  }

  lemma SlotArith(row: nat, col: nat)
    requires col < 4
    ensures (row * 4 + col) / 4 == row && (row * 4 + col) % 4 == col
  {
  }

  /** One team's loop: rows of up to four, numbered from 1 in order. */
  method PlaceTeam(size: nat, blue: bool) returns (els: seq<PlacedElement>)
    ensures |els| == size
    ensures forall k :: 0 <= k < size ==> els[k] == TeamSlot(k, size, blue)
  {
    els := [];
    var rows := (size + 3) / 4;
    var idx := 0;
    var row := 0;
    while row < rows && idx < size
      invariant 0 <= idx <= size && |els| == idx
      invariant idx < size ==> idx == row * 4
      invariant forall k :: 0 <= k < idx ==> els[k] == TeamSlot(k, size, blue)
      decreases size - idx
    {
      var inRow := Min(4, size - idx);
      var y := RowY(row, blue);
      var startX := CX - ((inRow - 1) as real * 100.0) / 2.0;
      var col := 0;
      while col < inRow
        invariant 0 <= col <= inRow && idx == row * 4 + col && |els| == idx
        invariant forall k :: 0 <= k < idx ==> els[k] == TeamSlot(k, size, blue)
      {
        SlotArith(row, col);
        idx := idx + 1;
        els := els + [PlacedElement(PlayerStand, startX + col as real * 100.0, y,
          if blue then TeamBlue else TeamRed, 0.0, NatToString(idx), "", [])];
        col := col + 1;
      }
      row := row + 1;
    }
  }

  /** `Math.ceil(n / 2)` */
  function BlueCount(n: nat): nat { (n + 1) / 2 }

  /**
   * `placePlayers(n)`: exactly n players, the first ceil(n/2) the blue team and the
   * rest the red team, each team numbered from 1.
   */
  method PlacePlayers(count: nat) returns (els: seq<PlacedElement>)
    ensures |els| == count
    ensures forall k :: 0 <= k < BlueCount(count) ==> els[k] == TeamSlot(k, BlueCount(count), true)
    ensures forall k :: 0 <= k < count - BlueCount(count) ==>
      els[BlueCount(count)..][k] == TeamSlot(k, count - BlueCount(count), false)
    ensures forall k :: 0 <= k < |els| ==> els[k].kind == PlayerStand
    ensures NoKeyframes(els)
  {
    var half := BlueCount(count);
    TeamsBalanced(count);
    var blueTeam := PlaceTeam(half, true);
    var redTeam := PlaceTeam(count - half, false);
    els := blueTeam + redTeam;
    JoinTeams(blueTeam, redTeam);
  }

  /** The two teams side by side: the blue players first, then the red ones at offset |blue|. */
  lemma JoinTeams(blue: seq<PlacedElement>, red: seq<PlacedElement>)
    requires forall k :: 0 <= k < |blue| ==> blue[k] == TeamSlot(k, |blue|, true)
    requires forall k :: 0 <= k < |red| ==> red[k] == TeamSlot(k, |red|, false)
    ensures forall k :: 0 <= k < |blue| ==> (blue + red)[k] == TeamSlot(k, |blue|, true)
    ensures (blue + red)[|blue|..] == red
    ensures forall k :: 0 <= k < |blue + red| ==> (blue + red)[k].kind == PlayerStand
    ensures NoKeyframes(blue + red)
  {
  }

  /** The blue team has the extra player when the count is odd, never more. */
  lemma TeamsBalanced(count: nat)
    ensures BlueCount(count) + (count - BlueCount(count)) == count
    ensures 0 <= BlueCount(count) - (count - BlueCount(count)) <= 1
  {
  }

  // ---------------------------------------------------------------- goals

  /** `placeLargeGoals`: up to two goals facing each other across the field. */
  method PlaceLargeGoals(count: nat) returns (els: seq<PlacedElement>)
    ensures NoKeyframes(els)
    ensures |els| == Min(count, 2)
    ensures |els| >= 1 ==> els[0] == Fixture(GoalLarge, Point(CX, Margin), DefaultColor, 0.0)
    ensures |els| == 2 ==> els[1] == Fixture(GoalLarge, Point(CX, FieldH - Margin), DefaultColor, 180.0)
    ensures |els| == 2 ==> els[0].y + els[1].y == FieldH && els[1].rotation - els[0].rotation == 180.0
  {
    els := [];
    if count >= 1 {
      els := els + [Fixture(GoalLarge, Point(CX, Margin), DefaultColor, 0.0)];
    }
    if count >= 2 {
      els := els + [Fixture(GoalLarge, Point(CX, FieldH - Margin), DefaultColor, 180.0)];
    }
  }

  /** The six small-goal spots: two at each end, one at each side. */
  const SmallGoalSpots: seq<Point> := [
    Point(CX - 120.0, Margin + 10.0), Point(CX + 120.0, Margin + 10.0),
    Point(CX - 120.0, FieldH - Margin - 10.0), Point(CX + 120.0, FieldH - Margin - 10.0),
    Point(Margin + 10.0, CY), Point(FieldW - Margin - 10.0, CY)]

  /** 0 above the centre line, 180 below it, 90 on the left and 270 on the right. */
  function FacingRotation(p: Point): real {
    if p.y < CY then 0.0 else if p.y > CY then 180.0 else if p.x < CX then 90.0 else 270.0
  }

  /** Every small-goal spot lies inside the margins, and the spots are pairwise different. */
  lemma SmallGoalSpotsInside()
    ensures forall i :: 0 <= i < |SmallGoalSpots| ==>
      Margin <= SmallGoalSpots[i].x <= FieldW - Margin && Margin <= SmallGoalSpots[i].y <= FieldH - Margin
    ensures forall i, j :: 0 <= i < j < |SmallGoalSpots| ==> SmallGoalSpots[i] != SmallGoalSpots[j]
  {
  }

  /** `placeSmallGoals`: the first min(count, 6) spots, each goal turned by its side. */
  method PlaceSmallGoals(count: nat) returns (els: seq<PlacedElement>)
    ensures NoKeyframes(els)
    ensures |els| == Min(count, |SmallGoalSpots|)
    ensures forall i :: 0 <= i < |els| ==>
      els[i] == Fixture(GoalSmall, SmallGoalSpots[i], DefaultColor, FacingRotation(SmallGoalSpots[i]))
  {
    els := [];
    var i := 0;
    while i < Min(count, |SmallGoalSpots|)
      invariant 0 <= i <= Min(count, |SmallGoalSpots|) && |els| == i
      invariant forall j :: 0 <= j < i ==>
        els[j] == Fixture(GoalSmall, SmallGoalSpots[j], DefaultColor, FacingRotation(SmallGoalSpots[j]))
    {
      var p := SmallGoalSpots[i];
      els := els + [Fixture(GoalSmall, p, DefaultColor, FacingRotation(p))];
      i := i + 1;
    }
  }

  // ---------------------------------------------------------------- cones

  const Corners: seq<Point> := [
    Point(Margin + 60.0, Margin + 60.0), Point(FieldW - Margin - 60.0, Margin + 60.0),
    Point(Margin + 60.0, FieldH - Margin - 60.0), Point(FieldW - Margin - 60.0, FieldH - Margin - 60.0)]

  /** Distance of the cone perimeter from the field edge. */
  const Inset: real := 70.0

  /**
   * Cone i of n around the perimeter: t = i / n walks the inset rectangle clockwise
   * from the top-left corner, a quarter of the turns per edge.
   */
  function PerimeterPoint(i: nat, n: nat): Point
    requires i < n
  {
    var t := i as real / n as real;
    if t < 0.25 then Point(Inset + (t / 0.25) * (FieldW - 2.0 * Inset), Inset)
    else if t < 0.5 then Point(FieldW - Inset, Inset + ((t - 0.25) / 0.25) * (FieldH - 2.0 * Inset))
    else if t < 0.75 then Point(FieldW - Inset - ((t - 0.5) / 0.25) * (FieldW - 2.0 * Inset), FieldH - Inset)
    else Point(Inset, FieldH - Inset - ((t - 0.75) / 0.25) * (FieldH - 2.0 * Inset))
  }

  lemma FractionBelowOne(i: nat, n: nat)
    requires i < n
    ensures 0.0 <= i as real / n as real < 1.0
  {
    var t := i as real / n as real;
    assert t * n as real == i as real;
  }

  /** Every perimeter cone lies on the rectangle inset 70 from the field edges. */
  lemma PerimeterOnInsetRectangle(i: nat, n: nat)
    requires i < n
    ensures var p := PerimeterPoint(i, n);
      Inset <= p.x <= FieldW - Inset && Inset <= p.y <= FieldH - Inset
      && (p.x == Inset || p.x == FieldW - Inset || p.y == Inset || p.y == FieldH - Inset)
  {
    FractionBelowOne(i, n);
  }

  /**
   * `placeCones`: up to four cones take the corners in order; more than four are
   * spread evenly around the perimeter.
   */
  method PlaceCones(count: nat) returns (els: seq<PlacedElement>)
    ensures NoKeyframes(els)
    ensures |els| == count
    ensures count <= 4 ==> forall i :: 0 <= i < count ==> els[i] == Fixture(Cone, Corners[i], ConeColor, 0.0)
    ensures count > 4 ==> forall i :: 0 <= i < count ==> els[i] == Fixture(Cone, PerimeterPoint(i, count), ConeColor, 0.0)
  {
    els := [];
    if count <= 4 {
      var i := 0;
      while i < Min(count, 4)
        invariant 0 <= i <= count && |els| == i
        invariant forall j :: 0 <= j < i ==> els[j] == Fixture(Cone, Corners[j], ConeColor, 0.0)
      {
        els := els + [Fixture(Cone, Corners[i], ConeColor, 0.0)];
        i := i + 1;
      }
    } else {
      var perimeter: seq<Point> := [];
      var i := 0;
      while i < count
        invariant 0 <= i <= count && |perimeter| == i
        invariant forall j :: 0 <= j < i ==> perimeter[j] == PerimeterPoint(j, count)
      {
        perimeter := perimeter + [PerimeterPoint(i, count)];
        i := i + 1;
      }
      i := 0;
      while i < |perimeter|
        invariant 0 <= i <= |perimeter| && |els| == i
        invariant forall j :: 0 <= j < i ==> els[j] == Fixture(Cone, perimeter[j], ConeColor, 0.0)
      {
        els := els + [Fixture(Cone, perimeter[i], ConeColor, 0.0)];
        i := i + 1;
      }
    }
  }

  // ---------------------------------------------------------------- balls and the rest

  /**
   * `placeBalls`: count balls on a circle of radius 40 about the centre. `unit(i, n)` is
   * the point (cos a, sin a) for a = 2 pi i / n - pi / 2.
   */
  method PlaceBalls(count: nat, unit: (nat, nat) -> Point) returns (els: seq<PlacedElement>)
    ensures NoKeyframes(els)
    ensures |els| == count
    ensures forall i :: 0 <= i < count ==>
      els[i] == Fixture(Ball, Point(CX + unit(i, count).x * 40.0, CY + unit(i, count).y * 40.0), DefaultColor, 0.0)
  {
    els := [];
    var i := 0;
    while i < count
      invariant 0 <= i <= count && |els| == i
      invariant forall j :: 0 <= j < i ==>
        els[j] == Fixture(Ball, Point(CX + unit(j, count).x * 40.0, CY + unit(j, count).y * 40.0), DefaultColor, 0.0)
    {
      var u := unit(i, count);
      els := els + [Fixture(Ball, Point(CX + u.x * 40.0, CY + u.y * 40.0), DefaultColor, 0.0)];
      i := i + 1;
    }
  }

  /** Element i of n in the centred line: 50 apart. */
  function LineX(i: nat, n: nat): real {
    CX - ((n as real - 1.0) * 50.0) / 2.0 + i as real * 50.0
  }

  /** The line is centred on CX and evenly spaced. */
  lemma LineCentred(n: nat)
    requires n > 0
    ensures LineX(0, n) + LineX(n - 1, n) == 2.0 * CX
    ensures forall i :: 0 <= i < n - 1 ==> LineX(i + 1, n) - LineX(i, n) == 50.0
  {
  }

  /** `placeGeneric`: count elements of the kind in a line through the centre. */
  method PlaceGeneric(kind: ElementType, count: nat) returns (els: seq<PlacedElement>)
    ensures NoKeyframes(els)
    ensures |els| == count
    ensures forall i :: 0 <= i < count ==> els[i] == Fixture(kind, Point(LineX(i, count), CY), DefaultColor, 0.0)
  {
    els := [];
    var startX := CX - ((count as real - 1.0) * 50.0) / 2.0;
    var i := 0;
    while i < count
      invariant 0 <= i <= count && |els| == i
      invariant forall j :: 0 <= j < i ==> els[j] == Fixture(kind, Point(LineX(j, count), CY), DefaultColor, 0.0)
    {
      els := els + [Fixture(kind, Point(startX + i as real * 50.0, CY), DefaultColor, 0.0)];
      i := i + 1;
    }
  }

  // ---------------------------------------------------------------- the whole layout

  /** `CAPS`: representative amounts per kind; other kinds are not capped. */
  function Cap(kind: ElementType): Option<nat> {
    match kind
    case Cone => Some(12)
    case Ball => Some(6)
    case GoalSmall => Some(4)
    case GoalLarge => Some(2)
    case Pole => Some(6)
    case Ladder => Some(4)
    case Dummy => Some(4)
    case _ => None
  }

  /** `Math.min(count, CAPS[type] ?? count)` */
  function CapCount(kind: ElementType, count: nat): (r: nat)
    ensures r <= count
    ensures Cap(kind).Some? ==> r == Min(count, Cap(kind).value)
    ensures Cap(kind).None? ==> r == count
  {
    match Cap(kind)
    case None => count
    case Some(m) => Min(count, m)
  }

  /** The capped record: same keys in the same order. */
  function CapAll(cs: seq<MaterialCount>): (r: seq<MaterialCount>)
    ensures |r| == |cs|
    ensures forall i :: 0 <= i < |cs| ==> r[i] == MaterialCount(cs[i].kind, CapCount(cs[i].kind, cs[i].count))
  {
    seq(|cs|, i requires 0 <= i < |cs| => MaterialCount(cs[i].kind, CapCount(cs[i].kind, cs[i].count)))
  }

  /** Looking a key up in the capped record gives the capped count. */
  lemma {:induction false} CountOfCapAll(cs: seq<MaterialCount>, kind: ElementType)
    ensures CountOf(CapAll(cs), kind) == CapCount(kind, CountOf(cs, kind))
    decreases |cs|
  {
    if cs != [] {
      assert CapAll(cs)[1..] == CapAll(cs[1..]);
      CountOfCapAll(cs[1..], kind);
    }
  }

  predicate IsPlayerKind(kind: ElementType) {
    kind in {PlayerStand, PlayerRun, PlayerPass}
  }

  /** The kinds with a dedicated layout (players included) in the `handled` list. */
  predicate Handled(kind: ElementType) {
    kind in {GoalLarge, GoalSmall, Cone, Ball, PlayerStand, PlayerRun, PlayerPass}
  }

  /** The counts of all non-player kinds, added up. */
  function NonPlayerTotal(cs: seq<MaterialCount>): nat
    decreases |cs|
  {
    if cs == [] then 0
    else NonPlayerTotal(cs[..|cs| - 1]) + (if IsPlayerKind(cs[|cs| - 1].kind) then 0 else cs[|cs| - 1].count)
  }

  /** The counts of the kinds laid out in a line, added up. */
  function GenericTotal(cs: seq<MaterialCount>): nat
    decreases |cs|
  {
    if cs == [] then 0
    else GenericTotal(cs[..|cs| - 1]) + (if Handled(cs[|cs| - 1].kind) then 0 else cs[|cs| - 1].count)
  }

  /** Appending a new key leaves earlier lookups alone. */
  lemma {:induction false} CountOfSnoc(init: seq<MaterialCount>, c: MaterialCount, kind: ElementType)
    requires forall j :: 0 <= j < |init| ==> init[j].kind != c.kind
    ensures CountOf(init + [c], kind) == if kind == c.kind then c.count else CountOf(init, kind)
    decreases |init|
  {
    if init != [] {
      assert (init + [c])[1..] == init[1..] + [c];
      CountOfSnoc(init[1..], c, kind);
    }
  }

  /** A key with no entry counts 0. */
  lemma {:induction false} CountOfAbsent(cs: seq<MaterialCount>, kind: ElementType)
    requires forall j :: 0 <= j < |cs| ==> cs[j].kind != kind
    ensures CountOf(cs, kind) == 0
    decreases |cs|
  {
    if cs != [] {
      CountOfAbsent(cs[1..], kind);
    }
  }

  /**
   * With one entry per key, the non-player total splits into the four dedicated
   * kinds and the line-laid rest.
   */
  lemma {:induction false} TotalSplits(cs: seq<MaterialCount>)
    requires DistinctKinds(cs)
    ensures NonPlayerTotal(cs) == CountOf(cs, GoalLarge) + CountOf(cs, GoalSmall) + CountOf(cs, Cone)
      + CountOf(cs, Ball) + GenericTotal(cs)
    decreases |cs|
  {
    if cs != [] {
      var init, c := cs[..|cs| - 1], cs[|cs| - 1];
      assert cs == init + [c];
      assert DistinctKinds(init);
      assert forall j :: 0 <= j < |init| ==> init[j].kind != c.kind by {
        forall j | 0 <= j < |init| ensures init[j].kind != c.kind {
          assert cs[j] == init[j];
        }
      }
      TotalSplits(init);
      CountOfAbsent(init, c.kind);
      CountOfSnoc(init, c, GoalLarge);
      CountOfSnoc(init, c, GoalSmall);
      CountOfSnoc(init, c, Cone);
      CountOfSnoc(init, c, Ball);
      var extra := if IsPlayerKind(c.kind) then 0 else c.count;
      assert NonPlayerTotal(cs) == NonPlayerTotal(init) + extra;
      if c.kind in {GoalLarge, GoalSmall, Cone, Ball} {
        assert GenericTotal(cs) == GenericTotal(init);
      } else {
        assert GenericTotal(cs) == GenericTotal(init) + extra;
      }
    }
  }

  /** Capping keeps the keys. */
  lemma CapAllDistinct(cs: seq<MaterialCount>)
    requires DistinctKinds(cs)
    ensures DistinctKinds(CapAll(cs))
  {
  }

  predicate NoKeyframes(els: seq<PlacedElement>) {
    forall i :: 0 <= i < |els| ==> els[i].keyframes == []
  }

  /** `elements.push(...placed)` when the count is truthy. */
  method PlaceIfAny(count: nat, placed: seq<PlacedElement>, els: seq<PlacedElement>) returns (r: seq<PlacedElement>)
    requires NoKeyframes(placed) && NoKeyframes(els)
    ensures r == if count != 0 then els + placed else els
    ensures NoKeyframes(r) && |r| == |els| + (if count != 0 then |placed| else 0) && r[..|els|] == els
  {
    r := els;
    if count != 0 {
      r := r + placed;
    }
  }

  /** The loop that fills `cappedCounts`. */
  method CapCounts(cs: seq<MaterialCount>) returns (capped: seq<MaterialCount>)
    ensures capped == CapAll(cs)
  {
    capped := [];
    var i := 0;
    while i < |cs|
      invariant 0 <= i <= |cs| && capped == CapAll(cs[..i])
    {
      capped := capped + [MaterialCount(cs[i].kind, CapCount(cs[i].kind, cs[i].count))];
      i := i + 1;
    }
    assert cs[..|cs|] == cs;
  }

  /** Players, then large goals, small goals, cones and balls, each when its count is non-zero. */
  method PlaceDedicated(playerCount: nat, capped: seq<MaterialCount>, unit: (nat, nat) -> Point)
    returns (els: seq<PlacedElement>)
    requires CountOf(capped, GoalLarge) <= 2 && CountOf(capped, GoalSmall) <= 4 && CountOf(capped, Cone) <= 12
    ensures |els| == playerCount + CountOf(capped, GoalLarge) + CountOf(capped, GoalSmall)
      + CountOf(capped, Cone) + CountOf(capped, Ball)
    ensures forall k :: 0 <= k < playerCount ==> els[k].kind == PlayerStand
    ensures NoKeyframes(els)
  {
    els := PlacePlayers(playerCount);
    var placed := PlaceLargeGoals(CountOf(capped, GoalLarge));
    els := PlaceIfAny(CountOf(capped, GoalLarge), placed, els);
    placed := PlaceSmallGoals(CountOf(capped, GoalSmall));
    els := PlaceIfAny(CountOf(capped, GoalSmall), placed, els);
    placed := PlaceCones(CountOf(capped, Cone));
    els := PlaceIfAny(CountOf(capped, Cone), placed, els);
    placed := PlaceBalls(CountOf(capped, Ball), unit);
    els := PlaceIfAny(CountOf(capped, Ball), placed, els);
  }

  /** The loop over the capped record laying every kind without a dedicated layout in a line. */
  method PlaceRest(capped: seq<MaterialCount>, start: seq<PlacedElement>, playerCount: nat)
    returns (els: seq<PlacedElement>)
    requires playerCount <= |start| && forall k :: 0 <= k < playerCount ==> start[k].kind == PlayerStand
    requires NoKeyframes(start)
    ensures |els| == |start| + GenericTotal(capped)
    ensures forall k :: 0 <= k < playerCount ==> els[k].kind == PlayerStand
    ensures NoKeyframes(els)
  {
    els := start;
    var i := 0;
    while i < |capped|
      invariant 0 <= i <= |capped|
      invariant |els| == |start| + GenericTotal(capped[..i])
      invariant forall k :: 0 <= k < playerCount ==> els[k].kind == PlayerStand
      invariant NoKeyframes(els)
    {
      assert capped[..i + 1][..i] == capped[..i];
      var entry := capped[i];
      if !Handled(entry.kind) && entry.count > 0 {
        var placed := PlaceGeneric(entry.kind, entry.count);
        els := els + placed;
      }
      i := i + 1;
    }
    assert capped[..|capped|] == capped;
  }

  /**
   * `placeElements`: a full green field for 14 or more players or any large goal, else
   * a half one; players first, then large goals, small goals, cones and balls, then
   * every other kind in a line, each with its capped count and no keyframes.
   */
  method PlaceElements(pr: ParseResult, unit: (nat, nat) -> Point) returns (els: seq<PlacedElement>, fieldType: FieldType)
    requires DistinctKinds(pr.materialCounts)
    ensures fieldType == if pr.playerCount >= 14 || pr.hasLargeGoals then FullGreen else HalfGreen
    ensures |els| == pr.playerCount + NonPlayerTotal(CapAll(pr.materialCounts))
    ensures forall k :: 0 <= k < pr.playerCount ==> els[k].kind == PlayerStand
    ensures NoKeyframes(els)
  {
    fieldType := if pr.playerCount >= 14 || pr.hasLargeGoals then FullGreen else HalfGreen;
    var capped := CapCounts(pr.materialCounts);
    CapAllDistinct(pr.materialCounts);
    CountOfCapAll(pr.materialCounts, GoalLarge);
    CountOfCapAll(pr.materialCounts, GoalSmall);
    CountOfCapAll(pr.materialCounts, Cone);
    els := PlaceDedicated(pr.playerCount, capped, unit);
    els := PlaceRest(capped, els, pr.playerCount);
    TotalSplits(capped);
  }
}
