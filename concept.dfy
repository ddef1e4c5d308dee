/** Edits of the exercise concept (name, phases, coaching points, variations). */
module ConceptOps {
  import opened Wrappers
  import opened SceneTypes
  import SceneOps

  /** `Partial<ConceptData>`: each present field overwrites the concept's. */
  datatype ConceptPatch = ConceptPatch(
    name: Option<string>,
    category: Option<string>,
    duration: Option<int>,
    players: Option<int>,
    fieldSize: Option<string>,
    description: Option<string>,
    coachingPoints: Option<seq<string>>,
    variations: Option<seq<string>>,
    phases: Option<seq<Phase>>)

  /** `{ ...s.concept, ...updates }`: every field the patch carries is taken from it, every other kept. */
  function ApplyConceptPatch(c: ConceptData, p: ConceptPatch): (r: ConceptData)
    ensures r.name == (if p.name.Some? then p.name.value else c.name)
    ensures r.category == (if p.category.Some? then p.category.value else c.category)
    ensures r.duration == (if p.duration.Some? then p.duration.value else c.duration)
    ensures r.players == (if p.players.Some? then p.players.value else c.players)
    ensures r.fieldSize == (if p.fieldSize.Some? then p.fieldSize.value else c.fieldSize)
    ensures r.description == (if p.description.Some? then p.description.value else c.description)
    ensures r.coachingPoints == (if p.coachingPoints.Some? then p.coachingPoints.value else c.coachingPoints)
    ensures r.variations == (if p.variations.Some? then p.variations.value else c.variations)
    ensures r.phases == (if p.phases.Some? then p.phases.value else c.phases)
  {
    ConceptData(p.name.GetOr(c.name), p.category.GetOr(c.category), p.duration.GetOr(c.duration),
      p.players.GetOr(c.players), p.fieldSize.GetOr(c.fieldSize), p.description.GetOr(c.description),
      p.coachingPoints.GetOr(c.coachingPoints), p.variations.GetOr(c.variations), p.phases.GetOr(c.phases))
  }

  /** The patch that carries no field. */
  const EmptyPatch := ConceptPatch(None, None, None, None, None, None, None, None, None)

  /** An empty patch changes nothing, and applying the same patch twice is applying it once. */
  lemma ConceptPatchLaws(c: ConceptData, p: ConceptPatch)
    ensures ApplyConceptPatch(c, EmptyPatch) == c
    ensures ApplyConceptPatch(ApplyConceptPatch(c, p), p) == ApplyConceptPatch(c, p)
  {
  }

  /** `list.map((v, i) => i === index ? value : v)` */
  function ReplaceAt(s: seq<string>, index: int, v: string): (r: seq<string>)
    ensures |r| == |s|
    ensures forall i :: 0 <= i < |s| && i != index ==> r[i] == s[i]
  {
    seq(|s|, i requires 0 <= i < |s| => if i == index then v else s[i])
  }

  /** An index in range replaces that one entry; any other index changes nothing. */
  lemma ReplaceAtMeaning(s: seq<string>, index: int, v: string)
    ensures 0 <= index < |s| ==> ReplaceAt(s, index, v) == s[index := v]
    ensures !(0 <= index < |s|) ==> ReplaceAt(s, index, v) == s
  {
  }

  function PhaseId(p: Phase): int { p.id }

  /** `addPhase` with the id the caller supplies (the source uses the clock). */
  function AppendPhase(c: ConceptData, id: int): (r: ConceptData)
    ensures r.phases == c.phases + [Phase(id, "", "")]
    ensures r.(phases := c.phases) == c
  {
    c.(phases := c.phases + [Phase(id, "", "")])
  }

  function PatchPhase(p: Phase, name: Option<string>, description: Option<string>): Phase {
    Phase(p.id, name.GetOr(p.name), description.GetOr(p.description))
  }

  /** `updatePhase`: phases carrying `id` take the new name and/or description. */
  function UpdatePhase(c: ConceptData, id: int, name: Option<string>, description: Option<string>): (r: ConceptData)
    ensures |r.phases| == |c.phases|
    ensures forall i :: 0 <= i < |c.phases| ==> r.phases[i].id == c.phases[i].id
    ensures forall i :: 0 <= i < |c.phases| && c.phases[i].id != id ==> r.phases[i] == c.phases[i]
    ensures forall i :: 0 <= i < |c.phases| && c.phases[i].id == id ==>
      r.phases[i].name == name.GetOr(c.phases[i].name)
      && r.phases[i].description == description.GetOr(c.phases[i].description)
    ensures r.(phases := c.phases) == c
  {
    c.(phases := seq(|c.phases|, i requires 0 <= i < |c.phases| =>
      if c.phases[i].id == id then PatchPhase(c.phases[i], name, description) else c.phases[i]))
  }

  /** `removePhase`: drops every phase carrying `id`, the rest stay in order. */
  function RemovePhase(c: ConceptData, id: int): (r: ConceptData)
    ensures forall p :: p in r.phases <==> p in c.phases && p.id != id
    ensures (forall p :: p in c.phases ==> p.id != id) ==> r == c
    ensures r.(phases := c.phases) == c
  {
    c.(phases := SceneOps.RemoveById(c.phases, PhaseId, id))
  }

  function AddCoachingPoint(c: ConceptData): (r: ConceptData)
    ensures r.coachingPoints == c.coachingPoints + [""]
    ensures r.(coachingPoints := c.coachingPoints) == c
  {
    c.(coachingPoints := c.coachingPoints + [""])
  }

  function UpdateCoachingPoint(c: ConceptData, index: int, v: string): (r: ConceptData)
    ensures r.coachingPoints == ReplaceAt(c.coachingPoints, index, v)
    ensures r.(coachingPoints := c.coachingPoints) == c
  {
    c.(coachingPoints := ReplaceAt(c.coachingPoints, index, v))
  }

  function AddVariation(c: ConceptData): (r: ConceptData)
    ensures r.variations == c.variations + [""]
    ensures r.(variations := c.variations) == c
  {
    c.(variations := c.variations + [""])
  }

  function UpdateVariation(c: ConceptData, index: int, v: string): (r: ConceptData)
    ensures r.variations == ReplaceAt(c.variations, index, v)
    ensures r.(variations := c.variations) == c
  {
    c.(variations := ReplaceAt(c.variations, index, v))
  }
}
