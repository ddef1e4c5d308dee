/**
 * The scene's data model: element and drawing kinds, tool modes, field types,
 * keyframes, elements, drawings and the exercise concept.
 */
module SceneTypes {
  import opened Wrappers
  import opened Text

  /** The fifteen kinds of placeable element. */
  datatype ElementType =
    | PlayerRun | PlayerStand | PlayerPass
    | Goalkeeper | Trainer | Dummy
    | Ball | Cone | Pole | Ladder | Flag | Ring
    | GoalLarge | GoalSmall | GoalCone

  /** Every element kind, in declaration order. */
  const AllElementTypes: seq<ElementType> :=
    [PlayerRun, PlayerStand, PlayerPass, Goalkeeper, Trainer, Dummy,
     Ball, Cone, Pole, Ladder, Flag, Ring, GoalLarge, GoalSmall, GoalCone]

  /** The string tag of each kind, as stored in the `type` field. */
  function TypeTag(t: ElementType): string {
    match t
    case PlayerRun => "player-run"
    case PlayerStand => "player-stand"
    case PlayerPass => "player-pass"
    case Goalkeeper => "goalkeeper"
    case Trainer => "trainer"
    case Dummy => "dummy"
    case Ball => "ball"
    case Cone => "cone"
    case Pole => "pole"
    case Ladder => "ladder"
    case Flag => "flag"
    case Ring => "ring"
    case GoalLarge => "goal-large"
    case GoalSmall => "goal-small"
    case GoalCone => "goal-cone"
  }

  /** Reads a `type` string back; None for a string that is no element kind. */
  function ParseElementType(s: string): (r: Option<ElementType>)
    ensures r.Some? ==> TypeTag(r.value) == s
  {
    if s == "player-run" then Some(PlayerRun)
    else if s == "player-stand" then Some(PlayerStand)
    else if s == "player-pass" then Some(PlayerPass)
    else if s == "goalkeeper" then Some(Goalkeeper)
    else if s == "trainer" then Some(Trainer)
    else if s == "dummy" then Some(Dummy)
    else if s == "ball" then Some(Ball)
    else if s == "cone" then Some(Cone)
    else if s == "pole" then Some(Pole)
    else if s == "ladder" then Some(Ladder)
    else if s == "flag" then Some(Flag)
    else if s == "ring" then Some(Ring)
    else if s == "goal-large" then Some(GoalLarge)
    else if s == "goal-small" then Some(GoalSmall)
    else if s == "goal-cone" then Some(GoalCone)
    else None
  }

  /** Reading a kind's tag back gives the kind. */
  lemma ParseTypeTag(t: ElementType)
    ensures ParseElementType(TypeTag(t)) == Some(t)
  {
  }

  /** The kind is a closed set of exactly fifteen variants, each with its own tag. */
  lemma ElementTypeClosed(t: ElementType)
    ensures t in AllElementTypes
    ensures |AllElementTypes| == 15
    ensures forall i, j :: 0 <= i < j < |AllElementTypes| ==> AllElementTypes[i] != AllElementTypes[j]
    ensures forall u :: u != t ==> TypeTag(u) != TypeTag(t)
  {
    ParseTypeTag(t);
    forall u | u != t ensures TypeTag(u) != TypeTag(t) {
      ParseTypeTag(u);
    }
  }

  /** `ELEMENT_TYPE_NAMES`: the German display name of each kind. */
  function ElementTypeName(t: ElementType): string {
    match t
    case PlayerRun => "Spieler (Laufen)"
    case PlayerStand => "Spieler (Stehen)"
    case PlayerPass => "Spieler (Passen)"
    case Goalkeeper => "Torwart"
    case Trainer => "Trainer"
    case Dummy => "Dummy"
    case Ball => "Ball"
    case Cone => "Hütchen"
    case Pole => "Stange"
    case Ladder => "Leiter"
    case Flag => "Flagge"
    case Ring => "Ring"
    case GoalLarge => "Großtor"
    case GoalSmall => "Minitor"
    case GoalCone => "Hütchentor"
  }

  /** `type.startsWith('player')` */
  predicate IsPlayerTag(t: ElementType) {
    StartsWith(TypeTag(t), "player")
  }

  /** The tag test `startsWith('player')` picks exactly the three field-player kinds. */
  lemma PlayerTagExactly(t: ElementType)
    ensures IsPlayerTag(t) <==> t in {PlayerRun, PlayerStand, PlayerPass}
  {
    var tag := TypeTag(t);
    if t in {PlayerRun, PlayerStand, PlayerPass} {
      assert tag[..6] == "player";
    } else if t == Pole {
      DiffersAt(tag, "player", 1);
    } else {
      DiffersAt(tag, "player", 0);
    }
  }

  /** `type.includes('goal')` */
  predicate HasGoalTag(t: ElementType) {
    Contains(TypeTag(t), "goal")
  }

  /**
   * The substring test `includes('goal')` matches the three goal kinds and also
   * `goalkeeper`, whose tag begins with "goal".
   */
  lemma {:induction false} GoalTagExactly(t: ElementType)
    ensures HasGoalTag(t) <==> t in {Goalkeeper, GoalLarge, GoalSmall, GoalCone}
  {
    var tag := TypeTag(t);
    if t in {Goalkeeper, GoalLarge, GoalSmall, GoalCone} {
      assert tag[..4] == "goal";
      PrefixContains(tag, "goal");
    } else if t == Flag {
      DiffersAt(tag, "goal", 0);
      ShortNotContains(tag[1..], "goal");
    } else if t == Ring {
      DiffersAt(tag, "goal", 0);
      ShortNotContains(tag[1..], "goal");
    } else {
      assert 'g' !in tag;
      MissingCharNotContains(tag, "goal", 0);
    }
  }

  datatype DrawingType = Arrow | Dashed | Curved | Zone | TextNote

  /** A tool mode is `select` or one of the five drawing kinds. */
  datatype ToolMode = Select | Draw(kind: DrawingType)

  const AllToolModes: seq<ToolMode> :=
    [Select, Draw(Arrow), Draw(Dashed), Draw(Curved), Draw(Zone), Draw(TextNote)]

  lemma ToolModeClosed(m: ToolMode)
    ensures m in AllToolModes
    ensures |AllToolModes| == 6
  {
    match m
    case Select =>
    case Draw(k) =>
      match k
      case Arrow => assert AllToolModes[1] == m;
      case Dashed => assert AllToolModes[2] == m;
      case Curved => assert AllToolModes[3] == m;
      case Zone => assert AllToolModes[4] == m;
      case TextNote => assert AllToolModes[5] == m;
  }

  /** The four field backgrounds: full or half pitch, green or white. */
  datatype FieldType = FullGreen | FullWhite | HalfGreen | HalfWhite

  function FieldTag(f: FieldType): string {
    match f
    case FullGreen => "full-green"
    case FullWhite => "full-white"
    case HalfGreen => "half-green"
    case HalfWhite => "half-white"
  }

  /** `fieldType.includes('half')` */
  predicate IsHalfField(f: FieldType) {
    Contains(FieldTag(f), "half")
  }

  /** `fieldType.includes('green')` */
  predicate IsGreenField(f: FieldType) {
    Contains(FieldTag(f), "green")
  }

  lemma {:induction false} HalfFieldExactly(f: FieldType)
    ensures IsHalfField(f) <==> f in {HalfGreen, HalfWhite}
  {
    var tag := FieldTag(f);
    if f in {HalfGreen, HalfWhite} {
      assert tag[..4] == "half";
      PrefixContains(tag, "half");
    } else {
      assert 'a' !in tag;
      MissingCharNotContains(tag, "half", 1);
    }
  }

  lemma {:induction false} GreenFieldExactly(f: FieldType)
    ensures IsGreenField(f) <==> f in {FullGreen, HalfGreen}
  {
    var tag := FieldTag(f);
    if f in {FullGreen, HalfGreen} {
      assert tag[5..][..5] == "green";
      PrefixContains(tag[5..], "green");
      assert tag[1..][1..][1..][1..][1..] == tag[5..];
    } else {
      assert 'g' !in tag;
      MissingCharNotContains(tag, "green", 0);
    }
  }

  /** Each field type is exactly one combination of (full or half) with (green or white). */
  lemma FieldTypeCombinations(f: FieldType, g: FieldType)
    ensures IsHalfField(f) <==> f in {HalfGreen, HalfWhite}
    ensures IsGreenField(f) <==> f in {FullGreen, HalfGreen}
    ensures IsHalfField(g) == IsHalfField(f) && IsGreenField(g) == IsGreenField(f) ==> g == f
  {
    HalfFieldExactly(f);
    HalfFieldExactly(g);
    GreenFieldExactly(f);
    GreenFieldExactly(g);
  }

  /** A point in field space. */
  datatype Point = Point(x: real, y: real)

  /** A timestamped pose. */
  datatype Keyframe = Keyframe(t: real, x: real, y: real, rotation: real)

  /** The pose an element shows: position and rotation in degrees. */
  datatype Pose = Pose(x: real, y: real, rotation: real)

  function KeyframePose(k: Keyframe): Pose {
    Pose(k.x, k.y, k.rotation)
  }

  /**
   * A placeable element. `startTime`/`endTime` are read by the canvas but are not
   * part of the declared type, so they are optional here.
   */
  datatype FieldElement = FieldElement(
    id: int,
    kind: ElementType,
    x: real,
    y: real,
    color: string,
    rotation: real,
    number: string,
    labelText: string,
    keyframes: seq<Keyframe>,
    startTime: Option<real>,
    endTime: Option<real>)
  {
    function CurrentPose(): Pose {
      Pose(x, y, rotation)
    }

    function WithPose(p: Pose): FieldElement {
      this.(x := p.x, y := p.y, rotation := p.rotation)
    }
  }

  /**
   * An annotation. `label` (here `labelText`, since `label` is a keyword) is read and
   * written by the canvas but is not part of the declared type, so it is optional here
   * like `points` and `text`.
   */
  datatype Drawing = Drawing(
    id: int,
    kind: DrawingType,
    color: string,
    width: real,
    x1: real,
    y1: real,
    x2: real,
    y2: real,
    points: Option<seq<Point>>,
    text: Option<string>,
    labelText: Option<string>)

  datatype Phase = Phase(id: int, name: string, description: string)

  datatype ConceptData = ConceptData(
    name: string,
    category: string,
    duration: int,
    players: int,
    fieldSize: string,
    description: string,
    coachingPoints: seq<string>,
    variations: seq<string>,
    phases: seq<Phase>)

  /** The concept a fresh session starts with. */
  const DefaultConcept: ConceptData :=
    ConceptData("", "Aufwärmen", 15, 16, "", "", [""], [""], [Phase(1, "", "")])
}
