/**
 * The structure of the training-plan parser: newline normalisation, sectioning by
 * header lines, phase building, material counting, the field-size choice and the
 * default and fallback rules, and the split into one result per training phase.
 * Regular-expression tests and the keyword heuristics are parameters.
 */
module TrainingPlan {
  import opened Wrappers
  import opened Text
  import opened SceneTypes

  // ---------------------------------------------------------------- material counts

  /** One entry of the `Record<ElementType, number>` of material counts. */
  datatype MaterialCount = MaterialCount(kind: ElementType, count: nat)

  /** A record has one entry per key. */
  predicate DistinctKinds(cs: seq<MaterialCount>) {
    forall i, j :: 0 <= i < j < |cs| ==> cs[i].kind != cs[j].kind
  }

  /** `counts[kind] || 0` */
  function CountOf(cs: seq<MaterialCount>, kind: ElementType): nat
    decreases |cs|
  {
    if cs == [] then 0
    else if cs[0].kind == kind then cs[0].count
    else CountOf(cs[1..], kind)
  }

  /** `counts[kind] = (counts[kind] || 0) + n`: an existing key keeps its place, a new one goes last. */
  function AddCount(cs: seq<MaterialCount>, kind: ElementType, n: nat): (r: seq<MaterialCount>)
    decreases |cs|
  {
    if cs == [] then [MaterialCount(kind, n)]
    else if cs[0].kind == kind then [MaterialCount(kind, cs[0].count + n)] + cs[1..]
    else [cs[0]] + AddCount(cs[1..], kind, n)
  }

  /** Adding to one key raises that key's count by n, leaves every other key alone and keeps keys distinct. */
  lemma {:induction false} AddCountMeaning(cs: seq<MaterialCount>, kind: ElementType, n: nat)
    requires DistinctKinds(cs)
    ensures DistinctKinds(AddCount(cs, kind, n))
    ensures CountOf(AddCount(cs, kind, n), kind) == CountOf(cs, kind) + n
    ensures forall k :: k != kind ==> CountOf(AddCount(cs, kind, n), k) == CountOf(cs, k)
    decreases |cs|
  {
    if cs != [] && cs[0].kind != kind {
      AddCountMeaning(cs[1..], kind, n);
      AddCountKinds(cs[1..], kind, n);
    } else if cs != [] {
      assert AddCount(cs, kind, n)[1..] == cs[1..];
    }
  }

  /** The keys after an addition are the old keys plus `kind`. */
  lemma {:induction false} AddCountKinds(cs: seq<MaterialCount>, kind: ElementType, n: nat)
    ensures forall m :: m in AddCount(cs, kind, n) ==> m.kind == kind || exists c :: c in cs && c.kind == m.kind
    decreases |cs|
  {
    if cs != [] && cs[0].kind != kind {
      AddCountKinds(cs[1..], kind, n);
    }
  }

  /** What the parser hands to the placement: concept, counts, player count, large goals. */
  datatype ParseResult = ParseResult(
    concept: ConceptData,
    materialCounts: seq<MaterialCount>,
    playerCount: nat,
    hasLargeGoals: bool)

  // ---------------------------------------------------------------- recognisers

  /**
   * The regular-expression tests the parser applies, as opaque predicates, and what the
   * keyword heuristics find in a text.
   */
  datatype Recognisers = Recognisers(
    /** Some phase pattern (`Erwärmung`, `Hauptteil`, `Abschlussspiel`, ...) matches. */
    phaseHeader: string -> bool,
    /** The line equals its upper-case form and holds a capital letter. */
    capsLine: string -> bool,
    /** The line is a title-only header (`TRAININGSPLANUNG`, `TRAINING`, `ÜBERSICHT`). */
    titleOnly: string -> bool,
    /** The material patterns, in table order; pattern i maps to `MaterialKinds[i]`. */
    materialPatterns: seq<string -> bool>,
    /** The skip list (`Leibchen`, `Markierungshemd`). */
    skipMaterial: string -> bool,
    /**
     * The category patterns, in the order `detectCategory` tries them, each applied to the
     * lower-cased text; pattern i names `Categories[i]`.
     */
    categoryPatterns: seq<string -> bool>,
    /** What the regex searches and keyword heuristics find in a text. */
    facts: string -> TextFacts)

  /** The kinds of the material table, in table order. */
  const MaterialKinds: seq<ElementType> := [Cone, Ball, GoalSmall, GoalLarge, Pole, Ladder, Dummy]

  /** A field-size mention `W x H m`, with its two numbers. */
  datatype SizeCandidate = SizeCandidate(text: string, width: nat, height: nat)

  /**
   * Regex and keyword findings in one text: every `Dauer: N min` value, the first bare
   * `N Minuten`, the `Anzahl Spieler: N` and `N Spieler` values, the field-size mentions,
   * and the coaching points, variations and description heuristics.
   */
  datatype TextFacts = TextFacts(
    durations: seq<nat>,
    minutes: Option<nat>,
    countedPlayers: Option<nat>,
    plainPlayers: Option<nat>,
    fieldSizes: seq<SizeCandidate>,
    coachingPoints: seq<string>,
    variations: seq<string>,
    description: string)

  // ---------------------------------------------------------------- text normalisation

  /** `replace(/\r\n/g, '\n')` */
  function ReplaceCrLf(s: string): string
    decreases |s|
  {
    if s == [] then []
    else if |s| >= 2 && s[0] == '\r' && s[1] == '\n' then "\n" + ReplaceCrLf(s[2..])
    else [s[0]] + ReplaceCrLf(s[1..])
  }

  /** `replace(/\r/g, '\n')` */
  function ReplaceCr(s: string): (r: string)
    ensures |r| == |s|
    ensures forall i :: 0 <= i < |s| ==> r[i] == if s[i] == '\r' then '\n' else s[i]
  {
    seq(|s|, i requires 0 <= i < |s| => if s[i] == '\r' then '\n' else s[i])
  }

  /** `extractText`: both replacements in turn. */
  function ExtractText(raw: string): string {
    ReplaceCr(ReplaceCrLf(raw))
  }

  /** Line breaks read left to right: CRLF and a lone CR each become one LF. */
  function NormaliseNewlines(s: string): string
    decreases |s|
  {
    if s == [] then []
    else if s[0] == '\r' then "\n" + NormaliseNewlines(if |s| >= 2 && s[1] == '\n' then s[2..] else s[1..])
    else [s[0]] + NormaliseNewlines(s[1..])
  }

  /** The first line-break unit of non-empty text: a CRLF pair or a single character. */
  function HeadUnit(raw: string): string
    requires raw != []
  {
    if |raw| >= 2 && raw[0] == '\r' && raw[1] == '\n' then raw[..2] else raw[..1]
  }

  /** `extractText` turns every CRLF and every lone CR into exactly one LF and keeps all else. */
  lemma {:induction false} ExtractTextNormalises(raw: string)
    ensures ExtractText(raw) == NormaliseNewlines(raw)
    decreases |raw|
  {
    if raw != [] {
      var rest := raw[|HeadUnit(raw)|..];
      ExtractTextNormalises(rest);
      UnitStep(raw);
    }
  }

  /** Both readings treat the first unit alike and continue with the rest. */
  lemma UnitStep(raw: string)
    requires raw != []
    ensures var rest := raw[|HeadUnit(raw)|..];
      ExtractText(raw) == ReplaceCr(if |HeadUnit(raw)| == 2 then "\n" else HeadUnit(raw)) + ExtractText(rest)
      && NormaliseNewlines(raw) == ReplaceCr(if |HeadUnit(raw)| == 2 then "\n" else HeadUnit(raw)) + NormaliseNewlines(rest)
  {
    var rest := raw[|HeadUnit(raw)|..];
    var head := if |HeadUnit(raw)| == 2 then "\n" else HeadUnit(raw);
    assert ReplaceCrLf(raw) == head + ReplaceCrLf(rest);
    ReplaceCrConcat(head, ReplaceCrLf(rest));
  }

  lemma ReplaceCrConcat(a: string, b: string)
    ensures ReplaceCr(a + b) == ReplaceCr(a) + ReplaceCr(b)
  {
  }

  /** No carriage return survives. */
  lemma ExtractTextNoCr(raw: string)
    ensures '\r' !in ExtractText(raw)
  {
  }

  /** Text without carriage returns passes through unchanged. */
  lemma {:induction false} ExtractTextKeepsPlain(raw: string)
    requires '\r' !in raw
    ensures ExtractText(raw) == raw
    decreases |raw|
  {
    if raw != [] {
      ExtractTextKeepsPlain(raw[1..]);
      assert ReplaceCrLf(raw) == [raw[0]] + ReplaceCrLf(raw[1..]);
      assert ReplaceCrLf(raw[1..]) == raw[1..] by { ReplaceCrLfPlain(raw[1..]); }
    }
  }

  lemma {:induction false} ReplaceCrLfPlain(s: string)
    requires '\r' !in s
    ensures ReplaceCrLf(s) == s
    decreases |s|
  {
    if s != [] {
      ReplaceCrLfPlain(s[1..]);
    }
  }

  // ---------------------------------------------------------------- lines

  /** Splits text into lines: `split('\n')`. */
  function Lines(text: string): seq<string> {
    Split(text, {'\n'})
  }

  // ---------------------------------------------------------------- sections

  datatype Section = Section(name: string, lines: seq<string>)

  const GeneralSection: string := "Allgemein"

  /** A section with at least one non-blank line. */
  predicate HasContent(s: Section) {
    |NonBlank(s.lines)| > 0
  }

  /**
   * A trimmed, non-empty line opens a section when a phase pattern or the caps rule
   * matches; the caps rule's length is counted in UTF-16 code units.
   */
  predicate IsHeader(rec: Recognisers, trimmed: string) {
    rec.phaseHeader(trimmed) || (Utf16Length(trimmed) >= 3 && rec.capsLine(trimmed))
  }

  /**
   * The state of the section loop after the given lines: the finished sections and the
   * open one.
   */
  datatype ScanState = ScanState(sections: seq<Section>, current: Section)

  function SectionScan(rec: Recognisers, lines: seq<string>): ScanState
    decreases |lines|
  {
    if lines == [] then ScanState([], Section(GeneralSection, []))
    else ScanStep(rec, SectionScan(rec, lines[..|lines| - 1]), lines[|lines| - 1])
  }

  /** One turn of the section loop: a blank line is kept, a header closes the open section, any other line joins it. */
  function ScanStep(rec: Recognisers, st: ScanState, line: string): ScanState {
    var cur := st.current;
    var t := Trim(line);
    if t == [] then st.(current := cur.(lines := cur.lines + [""]))
    else if IsHeader(rec, t) then
      ScanState(if HasContent(cur) || cur.name != GeneralSection then st.sections + [cur] else st.sections,
        Section(t, []))
    else st.(current := cur.(lines := cur.lines + [t]))
  }

  /** The sections `detectSections` returns for the given lines. */
  function Sectioned(rec: Recognisers, lines: seq<string>): seq<Section> {
    var st := SectionScan(rec, lines);
    if HasContent(st.current) || st.sections == [] then st.sections + [st.current] else st.sections
  }

  /** A content line together with the name of the section it belongs to. */
  datatype TaggedLine = TaggedLine(section: string, line: string)

  function TagSection(s: Section): seq<TaggedLine> {
    var nb := NonBlank(s.lines);
    seq(|nb|, i requires 0 <= i < |nb| => TaggedLine(s.name, nb[i]))
  }

  /** Every non-blank line of the sections, in order, tagged with its section's name. */
  function Tagged(secs: seq<Section>): seq<TaggedLine>
    decreases |secs|
  {
    if secs == [] then [] else Tagged(secs[..|secs| - 1]) + TagSection(secs[|secs| - 1])
  }

  /**
   * The reference reading: each trimmed line that is neither blank nor a header, tagged
   * with the most recent header before it (`Allgemein` before the first one), and that
   * last header.
   */
  datatype LabelState = LabelState(tagged: seq<TaggedLine>, header: string)

  function Labelled(rec: Recognisers, lines: seq<string>): LabelState
    decreases |lines|
  {
    if lines == [] then LabelState([], GeneralSection)
    else LabelStep(rec, Labelled(rec, lines[..|lines| - 1]), lines[|lines| - 1])
  }

  function LabelStep(rec: Recognisers, st: LabelState, line: string): LabelState {
    var t := Trim(line);
    if t == [] then st
    else if IsHeader(rec, t) then st.(header := t)
    else LabelState(st.tagged + [TaggedLine(st.header, t)], st.header)
  }

  lemma TaggedSnoc(secs: seq<Section>, s: Section)
    ensures Tagged(secs + [s]) == Tagged(secs) + TagSection(s)
  {
    assert (secs + [s])[..|secs|] == secs;
  }

  /** Adding a line to a section adds its tag when the line is not blank. */
  lemma TagSectionSnoc(s: Section, l: string)
    ensures TagSection(s.(lines := s.lines + [l])) == TagSection(s) + (if IsBlank(l) then [] else [TaggedLine(s.name, l)])
  {
    NonBlankSnoc(s.lines, l);
  }

  /** The loop state and the reference reading agree on what they have tagged so far. */
  predicate Agree(st: ScanState, lt: LabelState) {
    Tagged(st.sections) + TagSection(st.current) == lt.tagged && st.current.name == lt.header
  }

  /** One more line keeps the loop state in agreement with the reference reading. */
  lemma StepAgrees(rec: Recognisers, st: ScanState, lt: LabelState, line: string)
    requires Agree(st, lt)
    ensures Agree(ScanStep(rec, st, line), LabelStep(rec, lt, line))
  {
    var t := Trim(line);
    if t == [] {
      BlankAgrees(rec, st, lt, line);
    } else if IsHeader(rec, t) {
      HeaderAgrees(rec, st, lt, line);
    } else {
      ContentAgrees(rec, st, lt, line);
    }
  }

  lemma BlankAgrees(rec: Recognisers, st: ScanState, lt: LabelState, line: string)
    requires Agree(st, lt) && Trim(line) == []
    ensures Agree(ScanStep(rec, st, line), LabelStep(rec, lt, line))
  {
    var cur := st.current;
    assert ScanStep(rec, st, line) == st.(current := cur.(lines := cur.lines + [""]));
    assert LabelStep(rec, lt, line) == lt;
    TagSectionSnoc(cur, "");
    assert IsBlank("");
  }

  lemma HeaderAgrees(rec: Recognisers, st: ScanState, lt: LabelState, line: string)
    requires Agree(st, lt) && Trim(line) != [] && IsHeader(rec, Trim(line))
    ensures Agree(ScanStep(rec, st, line), LabelStep(rec, lt, line))
  {
    var cur := st.current;
    var t := Trim(line);
    var secs' := if HasContent(cur) || cur.name != GeneralSection then st.sections + [cur] else st.sections;
    assert ScanStep(rec, st, line) == ScanState(secs', Section(t, []));
    assert LabelStep(rec, lt, line) == lt.(header := t);
    TaggedSnoc(st.sections, cur);
    assert TagSection(Section(t, [])) == [];
    assert Tagged(secs') == Tagged(st.sections) + TagSection(cur);
    assert Tagged(secs') + [] == Tagged(secs');
  }

  lemma ContentAgrees(rec: Recognisers, st: ScanState, lt: LabelState, line: string)
    requires Agree(st, lt) && Trim(line) != [] && !IsHeader(rec, Trim(line))
    ensures Agree(ScanStep(rec, st, line), LabelStep(rec, lt, line))
  {
    var cur := st.current;
    var t := Trim(line);
    var cur' := cur.(lines := cur.lines + [t]);
    assert ScanStep(rec, st, line) == st.(current := cur');
    assert LabelStep(rec, lt, line) == LabelState(lt.tagged + [TaggedLine(lt.header, t)], lt.header);
    TrimTwice(line);
    TagSectionSnoc(cur, t);
    assert Tagged(st.sections) + TagSection(cur') == (Tagged(st.sections) + TagSection(cur)) + [TaggedLine(cur.name, t)];
  }

  /** The loop state agrees with the reference reading line by line. */
  lemma {:induction false} ScanAgrees(rec: Recognisers, lines: seq<string>)
    ensures Agree(SectionScan(rec, lines), Labelled(rec, lines))
    decreases |lines|
  {
    if lines != [] {
      var init := lines[..|lines| - 1];
      ScanAgrees(rec, init);
      StepAgrees(rec, SectionScan(rec, init), Labelled(rec, init), lines[|lines| - 1]);
    } else {
      assert TagSection(Section(GeneralSection, [])) == [];
    }
  }

  /**
   * `detectSections` returns at least one section, and its sections hold every
   * non-blank, non-header line, in order, under the most recent header.
   */
  lemma SectionedMeaning(rec: Recognisers, lines: seq<string>)
    ensures |Sectioned(rec, lines)| >= 1
    ensures Tagged(Sectioned(rec, lines)) == Labelled(rec, lines).tagged
  {
    ScanAgrees(rec, lines);
    var st := SectionScan(rec, lines);
    TaggedSnoc(st.sections, st.current);
  }

  /** `detectSections`: the loop over the lines with the open section in `current`. */
  method DetectSections(rec: Recognisers, text: string) returns (sections: seq<Section>)
    ensures sections == Sectioned(rec, Lines(text))
  {
    var lines := Lines(text);
    sections := [];
    var current := Section(GeneralSection, []);
    var i := 0;
    while i < |lines|
      invariant 0 <= i <= |lines|
      invariant ScanState(sections, current) == SectionScan(rec, lines[..i])
    {
      assert lines[..i + 1][..i] == lines[..i];
      var trimmed := Trim(lines[i]);
      if trimmed == [] {
        current := current.(lines := current.lines + [""]);
      } else {
        var isHeader := rec.phaseHeader(trimmed);
        if !isHeader && Utf16Length(trimmed) >= 3 && rec.capsLine(trimmed) {
          isHeader := true;
        }
        if isHeader {
          if HasContent(current) || current.name != GeneralSection {
            sections := sections + [current];
          }
          current := Section(trimmed, []);
        } else {
          current := current.(lines := current.lines + [trimmed]);
        }
      }
      i := i + 1;
    }
    assert lines[..|lines|] == lines;
    if HasContent(current) || |sections| == 0 {
      sections := sections + [current];
    }
  }

  // ---------------------------------------------------------------- phases

  /** A section that is neither title-only nor empty. */
  predicate Meaningful(rec: Recognisers, s: Section) {
    !rec.titleOnly(s.name) && HasContent(s)
  }

  /** `sections.filter(...)` keeping the meaningful sections in order. */
  function MeaningfulSections(rec: Recognisers, secs: seq<Section>): (r: seq<Section>)
    ensures |r| <= |secs|
    ensures forall i :: 0 <= i < |r| ==> Meaningful(rec, r[i])
    ensures forall s :: s in secs && Meaningful(rec, s) ==> s in r
    ensures forall s :: s in r ==> s in secs
    decreases |secs|
  {
    if secs == [] then []
    else
      var rest := MeaningfulSections(rec, secs[1..]);
      if Meaningful(rec, secs[0]) then [secs[0]] + rest else rest
  }

  /** A section's description: its non-blank lines joined by newlines. */
  function Description(s: Section): string {
    Join(NonBlank(s.lines), '\n')
  }

  /** `buildPhases` */
  function BuildPhases(rec: Recognisers, secs: seq<Section>): seq<Phase> {
    var m := MeaningfulSections(rec, secs);
    if |m| == 0 then [Phase(1, "Übung", "")]
    else if |m| == 1 then [Phase(1, m[0].name, Description(m[0]))]
    else seq(|m|, i requires 0 <= i < |m| => Phase(i + 1, m[i].name, Description(m[i])))
  }

  /**
   * There is always at least one phase; with no meaningful section it is the single
   * default phase, otherwise one phase per meaningful section, in order, numbered 1..m.
   */
  lemma BuildPhasesMeaning(rec: Recognisers, secs: seq<Section>)
    ensures var r := BuildPhases(rec, secs); var m := MeaningfulSections(rec, secs);
      |r| >= 1
      && (forall i :: 0 <= i < |r| ==> r[i].id == i + 1)
      && (|m| == 0 ==> r == [Phase(1, "Übung", "")])
      && (|m| > 0 ==> |r| == |m| && forall i :: 0 <= i < |m| ==> r[i].name == m[i].name && r[i].description == Description(m[i]))
  {
  }

  /** A title-only or empty section never becomes a phase of its own. */
  lemma BuildPhasesDropsTitles(rec: Recognisers, secs: seq<Section>, s: Section)
    requires s in MeaningfulSections(rec, secs)
    ensures !rec.titleOnly(s.name) && HasContent(s)
  {
  }

  // ---------------------------------------------------------------- material

  /** `stripBullet`: a leading `•`, `-`, `–` or `*` and the white space after it go. */
  function StripBullet(s: string): string {
    if s != [] && s[0] in {'\U{2022}', '-', '\U{2013}', '*'} then TrimStart(s[1..]) else s
  }

  function LowerAscii(c: char): char {
    if 'A' <= c <= 'Z' then (c as int + 32) as char else c
  }

  /** `/^Material[:\s]/i` */
  predicate IsMaterialLine(s: string) {
    |s| >= 9 && (forall i :: 0 <= i < 8 ==> LowerAscii(s[i]) == "material"[i]) && (s[8] == ':' || IsSpace(s[8]))
  }

  /** Drops leading colons and white space. */
  function DropSeparators(s: string): (r: string)
    ensures r == [] || (r[0] != ':' && !IsSpace(r[0]))
    decreases |s|
  {
    if s != [] && (s[0] == ':' || IsSpace(s[0])) then DropSeparators(s[1..]) else s
  }

  /** `replace(/^Material[:\s]*\/i, '')` on a material line. */
  function AfterMaterial(s: string): string
    requires IsMaterialLine(s)
  {
    DropSeparators(s[8..])
  }

  /** The items of one line: the comma- or semicolon-separated parts of a non-empty material line. */
  function ItemsOf(line: string): seq<string> {
    var t := StripBullet(Trim(line));
    if !IsMaterialLine(t) then []
    else
      var after := AfterMaterial(t);
      if after == [] then [] else Split(after, {',', ';'})
  }

  /** The items of all lines, in order. */
  function AllItems(lines: seq<string>): seq<string>
    decreases |lines|
  {
    if lines == [] then [] else AllItems(lines[..|lines| - 1]) + ItemsOf(lines[|lines| - 1])
  }

  /** The kind of the first pattern from index i on that matches the item. */
  function FirstMaterialFrom(pats: seq<string -> bool>, item: string, i: nat): (r: Option<ElementType>)
    decreases |pats| - i
  {
    if i >= |pats| || i >= |MaterialKinds| then None
    else if pats[i](item) then Some(MaterialKinds[i])
    else FirstMaterialFrom(pats, item, i + 1)
  }

  /** The first pattern of the table that matches wins. */
  lemma {:induction false} FirstMaterialMeaning(pats: seq<string -> bool>, item: string, i: nat)
    ensures var r := FirstMaterialFrom(pats, item, i);
      (r.None? <==> forall j :: i <= j < |pats| && j < |MaterialKinds| ==> !pats[j](item))
      && (r.Some? ==> exists j :: i <= j < |pats| && j < |MaterialKinds| && pats[j](item) && r.value == MaterialKinds[j]
                        && forall k :: i <= k < j ==> !pats[k](item))
    decreases |pats| - i
  {
    if i < |pats| && i < |MaterialKinds| && !pats[i](item) {
      FirstMaterialMeaning(pats, item, i + 1);
    }
  }

  /** What one item adds: nothing when blank, skip-listed or unmatched; else its kind and number (1 without one). */
  function Contribution(rec: Recognisers, item: string): Option<MaterialCount> {
    var clean := Trim(item);
    if clean == [] || rec.skipMaterial(clean) then None
    else
      match FirstMaterialFrom(rec.materialPatterns, clean, 0)
      case None => None
      case Some(kind) => Some(MaterialCount(kind, FirstNumber(clean).GetOr(1)))
  }

  /** The record after adding the items one by one. */
  function Tally(rec: Recognisers, items: seq<string>): seq<MaterialCount>
    decreases |items|
  {
    if items == [] then []
    else
      var counts := Tally(rec, items[..|items| - 1]);
      match Contribution(rec, items[|items| - 1])
      case None => counts
      case Some(m) => AddCount(counts, m.kind, m.count)
  }

  /** The material record of a text's lines. */
  function MaterialCounts(rec: Recognisers, lines: seq<string>): seq<MaterialCount> {
    Tally(rec, AllItems(lines))
  }

  /** The sum of what the items contribute to one kind. */
  function ItemTotal(rec: Recognisers, items: seq<string>, kind: ElementType): nat
    decreases |items|
  {
    if items == [] then 0
    else
      var c := Contribution(rec, items[|items| - 1]);
      ItemTotal(rec, items[..|items| - 1], kind) + (if c.Some? && c.value.kind == kind then c.value.count else 0)
  }

  /** The record has one entry per kind, and each kind's count is the sum over the items. */
  lemma {:induction false} TallyMeaning(rec: Recognisers, items: seq<string>)
    ensures DistinctKinds(Tally(rec, items))
    ensures forall kind :: CountOf(Tally(rec, items), kind) == ItemTotal(rec, items, kind)
    decreases |items|
  {
    if items != [] {
      var init := items[..|items| - 1];
      TallyMeaning(rec, init);
      var c := Contribution(rec, items[|items| - 1]);
      if c.Some? {
        AddCountMeaning(Tally(rec, init), c.value.kind, c.value.count);
      }
    }
  }

  /** One item's contribution: blank, skip-listed and unmatched items add nothing; a number-less item counts 1. */
  lemma ContributionMeaning(rec: Recognisers, item: string)
    ensures var clean := Trim(item);
      (clean == [] || rec.skipMaterial(clean) ==> Contribution(rec, item).None?)
      && (Contribution(rec, item).Some? ==>
            Contribution(rec, item).value.kind == FirstMaterialFrom(rec.materialPatterns, clean, 0).value
            && ((forall i :: 0 <= i < |clean| ==> !IsDigit(clean[i])) ==> Contribution(rec, item).value.count == 1))
  {
  }

  lemma TallySnoc(rec: Recognisers, items: seq<string>, x: string)
    ensures Tally(rec, items + [x]) == match Contribution(rec, x)
      case None => Tally(rec, items)
      case Some(m) => AddCount(Tally(rec, items), m.kind, m.count)
  {
    assert (items + [x])[..|items|] == items;
  }

  lemma PrefixStep(done: seq<string>, items: seq<string>, j: nat)
    requires j < |items|
    ensures done + items[..j + 1] == (done + items[..j]) + [items[j]]
  {
  }

  /** `for (const [pattern, elementType] of MATERIAL_MAP) { if (pattern.test(clean)) { ...; break; } }` */
  method MatchMaterial(pats: seq<string -> bool>, clean: string) returns (kind: Option<ElementType>)
    ensures kind == FirstMaterialFrom(pats, clean, 0)
  {
    kind := None;
    var i := 0;
    while i < |pats| && i < |MaterialKinds|
      invariant 0 <= i && (i <= |pats| || i == 0)
      invariant FirstMaterialFrom(pats, clean, 0) == FirstMaterialFrom(pats, clean, i)
      decreases |pats| - i
    {
      if pats[i](clean) {
        kind := Some(MaterialKinds[i]);
        return;
      }
      i := i + 1;
    }
  }

  /** The body of the inner loop of `extractMaterial`: one item's contribution added to the record. */
  method TallyItem(rec: Recognisers, counts0: seq<MaterialCount>, ghost done: seq<string>, item: string)
    returns (counts: seq<MaterialCount>)
    requires counts0 == Tally(rec, done)
    ensures counts == Tally(rec, done + [item])
  {
    TallySnoc(rec, done, item);
    counts := counts0;
    var clean := Trim(item);
    if clean != [] && !rec.skipMaterial(clean) {
      var kind := MatchMaterial(rec.materialPatterns, clean);
      if kind.Some? {
        var countMatch := FirstNumber(clean);
        counts := AddCount(counts, kind.value, if countMatch.Some? then countMatch.value else 1);
      }
    }
  }

  /** The inner loop of `extractMaterial`: adds the items of one material line to the record. */
  method TallyItems(rec: Recognisers, counts0: seq<MaterialCount>, ghost done: seq<string>, items: seq<string>)
    returns (counts: seq<MaterialCount>)
    requires counts0 == Tally(rec, done)
    ensures counts == Tally(rec, done + items)
  {
    counts := counts0;
    var j := 0;
    ghost var seen := done;
    assert done + items[..0] == done;
    while j < |items|
      invariant 0 <= j <= |items|
      invariant seen == done + items[..j]
      invariant counts == Tally(rec, seen)
    {
      PrefixStep(done, items, j);
      counts := TallyItem(rec, counts, seen, items[j]);
      seen := seen + [items[j]];
      j := j + 1;
    }
    assert items[..|items|] == items;
  }

  lemma AllItemsSnoc(lines: seq<string>, i: nat)
    requires i < |lines|
    ensures AllItems(lines[..i + 1]) == AllItems(lines[..i]) + ItemsOf(lines[i])
  {
    assert lines[..i + 1][..i] == lines[..i];
  }

  /** `extractMaterial`: the loop over the lines and, within a material line, over its items. */
  method ExtractMaterial(rec: Recognisers, text: string) returns (counts: seq<MaterialCount>)
    ensures counts == MaterialCounts(rec, Lines(text))
  {
    var lines := Lines(text);
    counts := [];
    var i := 0;
    while i < |lines|
      invariant 0 <= i <= |lines|
      invariant counts == Tally(rec, AllItems(lines[..i]))
    {
      AllItemsSnoc(lines, i);
      ghost var done := AllItems(lines[..i]);
      var trimmed := StripBullet(Trim(lines[i]));
      if IsMaterialLine(trimmed) && AfterMaterial(trimmed) != [] {
        var items := Split(AfterMaterial(trimmed), {',', ';'});
        assert ItemsOf(lines[i]) == items;
        counts := TallyItems(rec, counts, done, items);
      } else {
        assert ItemsOf(lines[i]) == [];
        assert done + [] == done;
      }
      i := i + 1;
    }
    assert lines[..|lines|] == lines;
  }

  // ---------------------------------------------------------------- field size, defaults

  function Area(c: SizeCandidate): nat { c.width * c.height }

  /** The index of the first candidate of largest area (the sort is stable and descending). */
  function LargestIndex(cs: seq<SizeCandidate>): (k: nat)
    requires |cs| > 0
    ensures k < |cs|
    ensures forall j :: 0 <= j < |cs| ==> Area(cs[j]) <= Area(cs[k])
    ensures forall j :: 0 <= j < k ==> Area(cs[j]) < Area(cs[k])
    decreases |cs|
  {
    if |cs| == 1 then 0
    else
      var k := LargestIndex(cs[..|cs| - 1]);
      if Area(cs[|cs| - 1]) > Area(cs[k]) then |cs| - 1 else k
  }

  /** `extractFieldSize`: the largest mention, or '' without one. */
  function FieldSize(cs: seq<SizeCandidate>): (r: string)
    ensures cs == [] ==> r == ""
    ensures cs != [] ==>
      exists k :: 0 <= k < |cs| && r == cs[k].text
        && (forall j :: 0 <= j < |cs| ==> Area(cs[j]) <= Area(cs[k]))
        && (forall j :: 0 <= j < k ==> Area(cs[j]) < Area(cs[k]))
  {
    if cs == [] then "" else cs[LargestIndex(cs)].text
  }

  function Sum(xs: seq<nat>): nat
    decreases |xs|
  {
    if xs == [] then 0 else Sum(xs[..|xs| - 1]) + xs[|xs| - 1]
  }

  /** `extractDuration`: the sum of all `Dauer` values, else the first minutes value, else 15. */
  function Duration(f: TextFacts): nat {
    if |f.durations| > 0 then Sum(f.durations)
    else if f.minutes.Some? then f.minutes.value
    else 15
  }

  /** `extractPlayerCount`: the `Anzahl Spieler` value, else the `N Spieler` value, else 16. */
  function PlayerCount(f: TextFacts): nat {
    if f.countedPlayers.Some? then f.countedPlayers.value
    else if f.plainPlayers.Some? then f.plainPlayers.value
    else 16
  }

  /** `points.length > 0 ? points : ['']` */
  function OrBlank(xs: seq<string>): (r: seq<string>)
    ensures |r| >= 1
    ensures |xs| > 0 ==> r == xs
  {
    if |xs| > 0 then xs else [""]
  }

  /** A section's own value wins unless it is the default 16. */
  function SectionPlayers(own: nat, global: nat): nat {
    if own != 16 then own else global
  }

  /** A section's own field size wins unless it is empty. */
  function SectionFieldSize(own: string, global: string): string {
    if own != "" then own else global
  }

  /** `extractDuration(sectionText) || 15` */
  function SectionDuration(f: TextFacts): nat {
    var d := Duration(f);
    if d == 0 then 15 else d
  }

  /**
   * The defaults: 15 minutes and 16 players when the text says nothing; a section
   * always has a positive duration; a section falls back to the global player count
   * exactly when its own count is 16, and to the global field size when it has none.
   */
  lemma DefaultsAndFallbacks(f: TextFacts, ownPlayers: nat, globalPlayers: nat, ownSize: string, globalSize: string)
    ensures f.durations == [] && f.minutes.None? ==> Duration(f) == 15
    ensures f.countedPlayers.None? && f.plainPlayers.None? ==> PlayerCount(f) == 16
    ensures SectionDuration(f) > 0 && (Duration(f) > 0 ==> SectionDuration(f) == Duration(f))
    ensures SectionPlayers(ownPlayers, globalPlayers) == (if ownPlayers == 16 then globalPlayers else ownPlayers)
    ensures SectionFieldSize(ownSize, globalSize) == globalSize <==> ownSize == "" || ownSize == globalSize
  {
  }

  // ---------------------------------------------------------------- name and category

  /** `/^Thema[:\s]/i`: `Thema` in any ASCII case, then a colon or white space. */
  predicate IsThemaLine(t: string) {
    |t| >= 6 && (forall i :: 0 <= i < 5 ==> LowerAscii(t[i]) == "thema"[i]) && (t[5] == ':' || IsSpace(t[5]))
  }

  /** `trimmed.replace(/^Thema[:\s]*\/i, '').trim()` on a `Thema` line. */
  function ThemaRest(t: string): string
    requires IsThemaLine(t)
  {
    Trim(DropSeparators(t[5..]))
  }

  /** `lines.indexOf(line)`: the first index holding the line. */
  function IndexOf(lines: seq<string>, line: string): (k: nat)
    requires line in lines
    ensures k < |lines| && lines[k] == line
    ensures forall j :: 0 <= j < k ==> lines[j] != line
  {
    if lines[0] == line then 0
    else
      assert line in lines[1..];
      1 + IndexOf(lines[1..], line)
  }

  /** The first non-blank line from index i on, trimmed. */
  function FirstNonBlankFrom(lines: seq<string>, i: nat): (r: Option<string>)
    decreases |lines| - i
  {
    if i >= |lines| then None
    else if !IsBlank(lines[i]) then Some(Trim(lines[i]))
    else FirstNonBlankFrom(lines, i + 1)
  }

  /** The first non-blank line from i on wins; there is none exactly when all are blank. */
  lemma {:induction false} FirstNonBlankMeaning(lines: seq<string>, i: nat)
    ensures var r := FirstNonBlankFrom(lines, i);
      (r.None? <==> forall j :: i <= j < |lines| ==> IsBlank(lines[j]))
      && (r.Some? ==> r.value != [])
      && (r.Some? ==>
            exists j :: i <= j < |lines| && !IsBlank(lines[j]) && r.value == Trim(lines[j])
                        && forall k :: i <= k < j ==> IsBlank(lines[k]))
    decreases |lines| - i
  {
    if i < |lines| && IsBlank(lines[i]) {
      FirstNonBlankMeaning(lines, i + 1);
    }
  }

  /**
   * The name line j yields under the `Thema` rule: the rest of the line when it is
   * non-empty, else the next non-blank line after the first line equal to it.
   */
  function ThemaAt(lines: seq<string>, j: nat): Option<string>
    requires j < |lines|
  {
    var t := Trim(lines[j]);
    if !IsThemaLine(t) then None
    else if ThemaRest(t) != [] then Some(ThemaRest(t))
    else FirstNonBlankFrom(lines, IndexOf(lines, lines[j]) + 1)
  }

  /** The `Thema` loop of `extractName`, from line i on: the first line that yields a name. */
  function ThemaNameFrom(lines: seq<string>, i: nat): Option<string>
    decreases |lines| - i
  {
    if i >= |lines| then None
    else if ThemaAt(lines, i).Some? then ThemaAt(lines, i)
    else ThemaNameFrom(lines, i + 1)
  }

  /** A name line j yields is non-empty and trimmed, and line j is a `Thema` line. */
  lemma ThemaAtMeaning(lines: seq<string>, j: nat)
    requires j < |lines|
    ensures var r := ThemaAt(lines, j);
      r.Some? ==> r.value != [] && Trim(r.value) == r.value && IsThemaLine(Trim(lines[j]))
  {
    var t := Trim(lines[j]);
    if IsThemaLine(t) {
      if ThemaRest(t) != [] {
        TrimTwice(DropSeparators(t[5..]));
      } else {
        ThemaNextLineTrimmed(lines, IndexOf(lines, lines[j]) + 1);
      }
    }
  }

  /** The next non-blank line the `Thema` rule falls back to is non-empty and trimmed. */
  lemma ThemaNextLineTrimmed(lines: seq<string>, k: nat)
    ensures var r := FirstNonBlankFrom(lines, k);
      r.Some? ==> r.value != [] && Trim(r.value) == r.value
  {
    FirstNonBlankMeaning(lines, k);
    if FirstNonBlankFrom(lines, k).Some? {
      var j :| k <= j < |lines| && !IsBlank(lines[j]) && FirstNonBlankFrom(lines, k).value == Trim(lines[j])
               && forall m :: k <= m < j ==> IsBlank(lines[m]);
      TrimTwice(lines[j]);
    }
  }

  /** The loop returns none exactly when no line from i on yields a name. */
  lemma {:induction false} ThemaNameNone(lines: seq<string>, i: nat)
    ensures ThemaNameFrom(lines, i).None? <==> forall j :: i <= j < |lines| ==> ThemaAt(lines, j).None?
    decreases |lines| - i
  {
    if i < |lines| && ThemaAt(lines, i).None? {
      ThemaNameNone(lines, i + 1);
    }
  }

  /** A name the loop returns is what the first line yielding a name yields. */
  lemma {:induction false} ThemaNameFirst(lines: seq<string>, i: nat)
    ensures var r := ThemaNameFrom(lines, i);
      r.Some? ==> exists j :: i <= j < |lines| && ThemaAt(lines, j) == r && forall k :: i <= k < j ==> ThemaAt(lines, k).None?
    decreases |lines| - i
  {
    if i < |lines| {
      if ThemaAt(lines, i).Some? {
        assert ThemaAt(lines, i) == ThemaNameFrom(lines, i);
      } else {
        ThemaNameFirst(lines, i + 1);
      }
    }
  }

  /**
   * The loop returns the name of the first `Thema` line that yields one: a non-empty
   * trimmed string. It returns none exactly when no line from i on yields a name.
   */
  lemma ThemaNameMeaning(lines: seq<string>, i: nat)
    ensures var r := ThemaNameFrom(lines, i);
      (r.None? <==> forall j :: i <= j < |lines| ==> ThemaAt(lines, j).None?)
      && (r.Some? ==> r.value != [] && Trim(r.value) == r.value
                      && exists j :: i <= j < |lines| && IsThemaLine(Trim(lines[j])) && ThemaAt(lines, j) == r
                                     && forall k :: i <= k < j ==> ThemaAt(lines, k).None?)
  {
    ThemaNameNone(lines, i);
    ThemaNameFirst(lines, i);
    var r := ThemaNameFrom(lines, i);
    if r.Some? {
      var j :| i <= j < |lines| && ThemaAt(lines, j) == r && forall k :: i <= k < j ==> ThemaAt(lines, k).None?;
      ThemaAtMeaning(lines, j);
    }
  }

  /** `filename.replace(/\.(docx|pdf)$/i, '')` */
  function DropDocExtension(f: string): (r: string)
    ensures r == f || (|f| >= 5 && r == f[..|f| - 5]) || (|f| >= 4 && r == f[..|f| - 4])
  {
    if |f| >= 5 && (forall i :: 0 <= i < 5 ==> LowerAscii(f[|f| - 5..][i]) == ".docx"[i]) then f[..|f| - 5]
    else if |f| >= 4 && (forall i :: 0 <= i < 4 ==> LowerAscii(f[|f| - 4..][i]) == ".pdf"[i]) then f[..|f| - 4]
    else f
  }

  /** `.replace(/[_-]/g, ' ')` */
  function UnderscoresToSpaces(s: string): string {
    seq(|s|, i requires 0 <= i < |s| => if s[i] == '_' || s[i] == '-' then ' ' else s[i])
  }

  /** The file-name fallback of `extractName`. */
  function FilenameStem(filename: string): string {
    UnderscoresToSpaces(DropDocExtension(filename))
  }

  /**
   * The fallback holds no `_` or `-`, and it keeps every other character of the name in
   * place, minus a `.docx` or `.pdf` suffix in any case.
   */
  lemma FilenameStemMeaning(filename: string)
    ensures var r := FilenameStem(filename);
      (forall i :: 0 <= i < |r| ==> r[i] != '_' && r[i] != '-')
      && (|r| == |filename| || |r| == |filename| - 4 || |r| == |filename| - 5)
      && (forall i :: 0 <= i < |r| ==> filename[i] == r[i] || filename[i] == '_' || filename[i] == '-')
  {
    var d := DropDocExtension(filename);
    assert |d| <= |filename| && forall i :: 0 <= i < |d| ==> d[i] == filename[i];
    var r := UnderscoresToSpaces(d);
    assert |r| == |d|;
    forall i | 0 <= i < |r|
      ensures r[i] != '_' && r[i] != '-'
      ensures filename[i] == r[i] || filename[i] == '_' || filename[i] == '-'
    {
      assert r[i] == if d[i] == '_' || d[i] == '-' then ' ' else d[i];
    }
  }

  /** A typical upload: the suffix goes whatever its case, separators become spaces. */
  lemma FilenameStemExample()
    ensures FilenameStem("Plan_A-1.PDF") == "Plan A 1"
  {
    var f := "Plan_A-1.PDF";
    assert ".docx"[0] == '.' && LowerAscii(f[|f| - 5..][0]) != ".docx"[0];
    assert f[|f| - 4..] == ".PDF";
    assert LowerAscii('P') == 'p' && LowerAscii('D') == 'd' && LowerAscii('F') == 'f';
    assert DropDocExtension(f) == "Plan_A-1";
  }

  /** A name with another suffix only has its separators replaced. */
  lemma FilenameStemKeepsOtherSuffix()
    ensures FilenameStem("notes.txt") == "notes.txt"
  {
    var f := "notes.txt";
    assert ".docx"[0] == '.' && LowerAscii(f[|f| - 5..][0]) != ".docx"[0];
    assert !(forall i :: 0 <= i < 5 ==> LowerAscii(f[|f| - 5..][i]) == ".docx"[i]);
    assert ".pdf"[1] == 'p' && LowerAscii(f[|f| - 4..][1]) != ".pdf"[1];
    assert !(forall i :: 0 <= i < 4 ==> LowerAscii(f[|f| - 4..][i]) == ".pdf"[i]);
    assert DropDocExtension(f) == f;
    assert '_' !in f && '-' !in f;
    assert UnderscoresToSpaces(f) == f;
  }

  /**
   * `extractName`: the first `Thema` line that yields a name, else the first non-blank
   * line when it is shorter than 100 code units and no title-only header, else the file
   * name's stem.
   */
  function ExtractName(rec: Recognisers, text: string, filename: string): string {
    var lines := Lines(text);
    match ThemaNameFrom(lines, 0)
    case Some(n) => n
    case None =>
      var first := FirstNonBlankFrom(lines, 0);
      if first.Some? && Utf16Length(first.value) < 100 && !rec.titleOnly(first.value) then first.value
      else FilenameStem(filename)
  }

  /**
   * The name is the file name's stem, or a non-empty trimmed line of the text. A `Thema`
   * line that yields a name wins. Without one, the first non-blank line is taken exactly
   * when it is shorter than 100 code units and not a title-only header.
   */
  lemma ExtractNameMeaning(rec: Recognisers, text: string, filename: string)
    ensures var r := ExtractName(rec, text, filename);
      var lines := Lines(text);
      (r == FilenameStem(filename) || (r != [] && Trim(r) == r))
      && ((exists j :: 0 <= j < |lines| && ThemaAt(lines, j).Some?) ==>
            ThemaNameFrom(lines, 0).Some? && r == ThemaNameFrom(lines, 0).value)
      && ((forall j :: 0 <= j < |lines| ==> ThemaAt(lines, j).None?) ==>
            var first := FirstNonBlankFrom(lines, 0);
            (first.None? ==> r == FilenameStem(filename))
            && (first.Some? && Utf16Length(first.value) < 100 && !rec.titleOnly(first.value) ==> r == first.value)
            && (first.Some? && (Utf16Length(first.value) >= 100 || rec.titleOnly(first.value)) ==> r == FilenameStem(filename)))
  {
    var lines := Lines(text);
    ThemaNameMeaning(lines, 0);
    FirstNonBlankMeaning(lines, 0);
    var first := FirstNonBlankFrom(lines, 0);
    if first.Some? {
      var j :| 0 <= j < |lines| && !IsBlank(lines[j]) && first.value == Trim(lines[j])
               && forall k :: 0 <= k < j ==> IsBlank(lines[k]);
      TrimTwice(lines[j]);
    }
  }

  /** The categories `detectCategory` can return, in the order it tries them. */
  const Categories: seq<string> := ["Aufwärmen", "Technik", "Taktik", "Spielform", "Torschuss", "Kondition", "Auslaufen"]

  /** The category of the first pattern from index i on that matches, `Taktik` when none does. */
  function CategoryFrom(pats: seq<string -> bool>, text: string, i: nat): string
    decreases |pats| - i
  {
    if i >= |pats| || i >= |Categories| then "Taktik"
    else if pats[i](text) then Categories[i]
    else CategoryFrom(pats, text, i + 1)
  }

  /** `detectCategory` */
  function DetectCategory(rec: Recognisers, text: string): string {
    CategoryFrom(rec.categoryPatterns, text, 0)
  }

  /**
   * The result is always one of the seven categories: that of the first pattern that
   * matches, or `Taktik` when none does.
   */
  lemma {:induction false} CategoryMeaning(pats: seq<string -> bool>, text: string, i: nat)
    ensures var r := CategoryFrom(pats, text, i);
      r in Categories
      && ((forall j :: i <= j < |pats| && j < |Categories| ==> !pats[j](text)) ==> r == "Taktik")
      && (forall j :: (i <= j < |pats| && j < |Categories| && pats[j](text)
                       && forall k :: i <= k < j ==> !pats[k](text)) ==> r == Categories[j])
    decreases |pats| - i
  {
    if i < |pats| && i < |Categories| && !pats[i](text) {
      CategoryMeaning(pats, text, i + 1);
    }
  }

  // ---------------------------------------------------------------- results

  /** `extractSectionData` */
  function SectionData(rec: Recognisers, sectionText: string, sectionName: string, globalPlayers: nat, globalSize: string)
    : ParseResult
  {
    var f := rec.facts(sectionText);
    var playerCount := SectionPlayers(PlayerCount(f), globalPlayers);
    var materials := MaterialCounts(rec, Lines(sectionText));
    var description := if f.description != "" then f.description else Join(NonBlank(Lines(sectionText)), '\n');
    var category := DetectCategory(rec, sectionName + "\n" + sectionText);
    var concept := ConceptData(sectionName, category, SectionDuration(f), playerCount,
      SectionFieldSize(FieldSize(f.fieldSizes), globalSize), description,
      OrBlank(f.coachingPoints), OrBlank(f.variations), [Phase(1, sectionName, "")]);
    ParseResult(concept, materials, playerCount, CountOf(materials, GoalLarge) > 0)
  }

  /** The sections that are training phases with content. */
  function PhaseSections(rec: Recognisers, secs: seq<Section>): (r: seq<Section>)
    ensures forall i :: 0 <= i < |r| ==> rec.phaseHeader(r[i].name) && HasContent(r[i])
    decreases |secs|
  {
    if secs == [] then []
    else
      var rest := PhaseSections(rec, secs[1..]);
      if rec.phaseHeader(secs[0].name) && HasContent(secs[0]) then [secs[0]] + rest else rest
  }

  /**
   * `parseTrainingPlan` after text extraction: one result per training-phase section
   * when there are several, else one result for the whole text.
   */
  function ParseTrainingPlan(rec: Recognisers, raw: string, filename: string): seq<ParseResult> {
    var text := ExtractText(raw);
    var sections := Sectioned(rec, Lines(text));
    var g := rec.facts(text);
    var globalPlayers := PlayerCount(g);
    var globalSize := FieldSize(g.fieldSizes);
    var phases := PhaseSections(rec, sections);
    if |phases| > 1 then
      seq(|phases|, i requires 0 <= i < |phases| =>
        SectionData(rec, Join(phases[i].lines, '\n'), phases[i].name, globalPlayers, globalSize))
    else
      var materials := MaterialCounts(rec, Lines(text));
      var concept := ConceptData(ExtractName(rec, text, filename), DetectCategory(rec, text), Duration(g), globalPlayers, globalSize, g.description,
        OrBlank(g.coachingPoints), OrBlank(g.variations), BuildPhases(rec, sections));
      [ParseResult(concept, materials, globalPlayers, CountOf(materials, GoalLarge) > 0)]
  }

  /**
   * Several training-phase sections give one result each, named and categorised after the
   * section; otherwise there is exactly one result, named by `extractName` and categorised
   * from the whole text. Every category is one of the seven, every material record has one
   * entry per kind, and `hasLargeGoals` says whether it counts a large goal.
   */
  lemma ParseTrainingPlanMeaning(rec: Recognisers, raw: string, filename: string)
    ensures var r := ParseTrainingPlan(rec, raw, filename);
      var text := ExtractText(raw);
      var phases := PhaseSections(rec, Sectioned(rec, Lines(text)));
      (|phases| > 1 ==>
         |r| == |phases|
         && forall i :: 0 <= i < |r| ==>
              r[i].concept.name == phases[i].name
              && r[i].concept.category == DetectCategory(rec, phases[i].name + "\n" + Join(phases[i].lines, '\n'))
              && r[i].concept.category in Categories
              && DistinctKinds(r[i].materialCounts)
              && (r[i].hasLargeGoals <==> CountOf(r[i].materialCounts, GoalLarge) > 0))
      && (|phases| <= 1 ==>
            |r| == 1 && r[0].concept.name == ExtractName(rec, text, filename)
            && r[0].concept.category == DetectCategory(rec, text) && r[0].concept.category in Categories
            && DistinctKinds(r[0].materialCounts)
            && (r[0].hasLargeGoals <==> CountOf(r[0].materialCounts, GoalLarge) > 0))
  {
    var phases := PhaseSections(rec, Sectioned(rec, Lines(ExtractText(raw))));
    if |phases| > 1 {
      SeveralPhasesMeaning(rec, raw, filename);
    } else {
      SinglePlanMeaning(rec, raw, filename);
    }
  }

  /** Several training-phase sections: one result per section, named and categorised by it. */
  lemma SeveralPhasesMeaning(rec: Recognisers, raw: string, filename: string)
    requires |PhaseSections(rec, Sectioned(rec, Lines(ExtractText(raw))))| > 1
    ensures var r := ParseTrainingPlan(rec, raw, filename);
      var phases := PhaseSections(rec, Sectioned(rec, Lines(ExtractText(raw))));
      |r| == |phases|
      && forall i :: 0 <= i < |r| ==>
           r[i].concept.name == phases[i].name
           && r[i].concept.category == DetectCategory(rec, phases[i].name + "\n" + Join(phases[i].lines, '\n'))
           && r[i].concept.category in Categories
           && DistinctKinds(r[i].materialCounts)
           && (r[i].hasLargeGoals <==> CountOf(r[i].materialCounts, GoalLarge) > 0)
  {
    var text := ExtractText(raw);
    var r := ParseTrainingPlan(rec, raw, filename);
    var phases := PhaseSections(rec, Sectioned(rec, Lines(text)));
    var g := rec.facts(text);
    forall i | 0 <= i < |r|
      ensures r[i].concept.name == phases[i].name
      ensures r[i].concept.category == DetectCategory(rec, phases[i].name + "\n" + Join(phases[i].lines, '\n'))
      ensures r[i].concept.category in Categories
      ensures DistinctKinds(r[i].materialCounts)
      ensures r[i].hasLargeGoals <==> CountOf(r[i].materialCounts, GoalLarge) > 0
    {
      SectionDataMeaning(rec, Join(phases[i].lines, '\n'), phases[i].name, PlayerCount(g), FieldSize(g.fieldSizes));
    }
  }

  /** At most one training-phase section: one result for the whole text. */
  lemma SinglePlanMeaning(rec: Recognisers, raw: string, filename: string)
    requires |PhaseSections(rec, Sectioned(rec, Lines(ExtractText(raw))))| <= 1
    ensures var r := ParseTrainingPlan(rec, raw, filename);
      var text := ExtractText(raw);
      |r| == 1 && r[0].concept.name == ExtractName(rec, text, filename)
      && r[0].concept.category == DetectCategory(rec, text) && r[0].concept.category in Categories
      && DistinctKinds(r[0].materialCounts)
      && (r[0].hasLargeGoals <==> CountOf(r[0].materialCounts, GoalLarge) > 0)
  {
    var text := ExtractText(raw);
    TallyMeaning(rec, AllItems(Lines(text)));
    CategoryMeaning(rec.categoryPatterns, text, 0);
  }

  /** A section's result is named after the section and has one material entry per kind. */
  lemma SectionDataMeaning(rec: Recognisers, sectionText: string, sectionName: string, globalPlayers: nat, globalSize: string)
    ensures var r := SectionData(rec, sectionText, sectionName, globalPlayers, globalSize);
      r.concept.name == sectionName && r.concept.phases == [Phase(1, sectionName, "")]
      && DistinctKinds(r.materialCounts) && r.materialCounts == MaterialCounts(rec, Lines(sectionText))
      && (r.hasLargeGoals <==> CountOf(r.materialCounts, GoalLarge) > 0)
      && r.concept.category == DetectCategory(rec, sectionName + "\n" + sectionText) && r.concept.category in Categories
  {
    TallyMeaning(rec, AllItems(Lines(sectionText)));
    CategoryMeaning(rec.categoryPatterns, sectionName + "\n" + sectionText, 0);
  }
}
