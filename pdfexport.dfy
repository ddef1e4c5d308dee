/**
 * The helpers of the PDF export: HTML escaping of user text, the list items of the
 * coaching points and variations, and the material table that counts the scene's
 * elements per display name.
 */
module PdfExport {
  import opened Wrappers
  import opened Text
  import opened SceneTypes

  // ---------------------------------------------------------------- escaping

  /** `s.replace(/c/g, rep)`: every occurrence of `c` becomes `rep`. */
  function ReplaceAll(s: string, c: char, rep: string): string
    decreases |s|
  {
    if s == [] then []
    else (if s[0] == c then rep else [s[0]]) + ReplaceAll(s[1..], c, rep)
  }

  /** `escapeHtml`: the chain of four replacements, ampersands first. */
  function EscapeHtml(s: string): string {
    ReplaceAll(ReplaceAll(ReplaceAll(ReplaceAll(s, '&', "&amp;"), '<', "&lt;"), '>', "&gt;"), '"', "&quot;")
  }

  /** What one character becomes: the four entities, everything else (the single quote too) unchanged. */
  function Entity(c: char): string {
    if c == '&' then "&amp;"
    else if c == '<' then "&lt;"
    else if c == '>' then "&gt;"
    else if c == '"' then "&quot;"
    else [c]
  }

  /** The reference reading of escaping: each character replaced by its entity. */
  function EscapeEach(s: string): string
    decreases |s|
  {
    if s == [] then [] else Entity(s[0]) + EscapeEach(s[1..])
  }

  lemma {:induction false} ReplaceAllAppend(a: string, b: string, c: char, rep: string)
    ensures ReplaceAll(a + b, c, rep) == ReplaceAll(a, c, rep) + ReplaceAll(b, c, rep)
    decreases |a|
  {
    if a != [] {
      ReplaceAllAppend(a[1..], b, c, rep);
      assert (a + b)[0] == a[0];
      assert (a + b)[1..] == a[1..] + b;
      var h := if a[0] == c then rep else [a[0]];
      var x := ReplaceAll(a[1..], c, rep);
      var y := ReplaceAll(b, c, rep);
      assert ReplaceAll(a + b, c, rep) == h + (x + y);
      assert ReplaceAll(a, c, rep) == h + x;
      assert h + (x + y) == (h + x) + y;
    } else {
      assert a + b == b;
    }
  }

  /** A string without `c` is left as it is. */
  lemma {:induction false} ReplaceAllAbsent(s: string, c: char, rep: string)
    requires c !in s
    ensures ReplaceAll(s, c, rep) == s
    decreases |s|
  {
    if s != [] {
      ReplaceAllAbsent(s[1..], c, rep);
    }
  }

  lemma ReplaceAllSingle(x: char, c: char, rep: string)
    ensures ReplaceAll([x], c, rep) == if x == c then rep else [x]
  {
    assert [x][1..] == [];
  }

  /** The later replacements leave the entities of the earlier ones alone. */
  lemma AmpStays()
    ensures ReplaceAll("&amp;", '<', "&lt;") == "&amp;"
    ensures ReplaceAll("&amp;", '>', "&gt;") == "&amp;"
    ensures ReplaceAll("&amp;", '"', "&quot;") == "&amp;"
  {
  }

  lemma LtGtStay()
    ensures ReplaceAll("&lt;", '>', "&gt;") == "&lt;"
    ensures ReplaceAll("&lt;", '"', "&quot;") == "&lt;"
    ensures ReplaceAll("&gt;", '"', "&quot;") == "&gt;"
  {
  }

  /** The chain of replacements on one character gives its entity. */
  lemma EscapeOne(c: char)
    ensures EscapeHtml([c]) == Entity(c)
  {
    var r1 := ReplaceAll([c], '&', "&amp;");
    var r2 := ReplaceAll(r1, '<', "&lt;");
    var r3 := ReplaceAll(r2, '>', "&gt;");
    var r4 := ReplaceAll(r3, '"', "&quot;");
    assert EscapeHtml([c]) == r4;
    ReplaceAllSingle(c, '&', "&amp;");
    AmpStays();
    LtGtStay();
    if c != '&' {
      assert r1 == [c];
      ReplaceAllSingle(c, '<', "&lt;");
      if c != '<' {
        assert r2 == [c];
        ReplaceAllSingle(c, '>', "&gt;");
        if c != '>' {
          assert r3 == [c];
          ReplaceAllSingle(c, '"', "&quot;");
        }
      }
    }
  }

  /** The chain of replacements agrees with replacing each character by its entity. */
  lemma {:induction false} EscapeHtmlIsEscapeEach(s: string)
    ensures EscapeHtml(s) == EscapeEach(s)
    decreases |s|
  {
    if s != [] {
      EscapeHtmlIsEscapeEach(s[1..]);
      var c := [s[0]];
      var rest := s[1..];
      assert s == c + rest;
      var a1 := ReplaceAll(c, '&', "&amp;");
      var b1 := ReplaceAll(rest, '&', "&amp;");
      ReplaceAllAppend(c, rest, '&', "&amp;");
      var a2 := ReplaceAll(a1, '<', "&lt;");
      var b2 := ReplaceAll(b1, '<', "&lt;");
      ReplaceAllAppend(a1, b1, '<', "&lt;");
      var a3 := ReplaceAll(a2, '>', "&gt;");
      var b3 := ReplaceAll(b2, '>', "&gt;");
      ReplaceAllAppend(a2, b2, '>', "&gt;");
      ReplaceAllAppend(a3, b3, '"', "&quot;");
      EscapeOne(s[0]);
    }
  }

  /** The escaped text holds no `<`, `>` or `"`. */
  lemma {:induction false} EscapeHtmlSafe(s: string)
    ensures '<' !in EscapeHtml(s) && '>' !in EscapeHtml(s) && '"' !in EscapeHtml(s)
    decreases |s|
  {
    EscapeHtmlIsEscapeEach(s);
    EscapeEachSafe(s);
  }

  lemma {:induction false} EscapeEachSafe(s: string)
    ensures '<' !in EscapeEach(s) && '>' !in EscapeEach(s) && '"' !in EscapeEach(s)
    decreases |s|
  {
    if s != [] {
      EscapeEachSafe(s[1..]);
    }
  }

  /** Text without `&`, `<`, `>` and `"` passes unchanged; single quotes are never escaped. */
  lemma EscapeHtmlPlain(s: string)
    requires '&' !in s && '<' !in s && '>' !in s && '"' !in s
    ensures EscapeHtml(s) == s
  {
    ReplaceAllAbsent(s, '&', "&amp;");
    ReplaceAllAbsent(s, '<', "&lt;");
    ReplaceAllAbsent(s, '>', "&gt;");
    ReplaceAllAbsent(s, '"', "&quot;");
  }

  /** Decoding of the four entities, left to right; any other character is kept. */
  function Unescape(s: string): string
    decreases |s|
  {
    if s == [] then []
    else if StartsWith(s, "&amp;") then "&" + Unescape(s[5..])
    else if StartsWith(s, "&lt;") then "<" + Unescape(s[4..])
    else if StartsWith(s, "&gt;") then ">" + Unescape(s[4..])
    else if StartsWith(s, "&quot;") then "\"" + Unescape(s[6..])
    else [s[0]] + Unescape(s[1..])
  }

  lemma UnescapeEntity(c: char, rest: string)
    ensures Unescape(Entity(c) + rest) == [c] + Unescape(rest)
  {
    var e := Entity(c);
    var s := e + rest;
    assert s[..|e|] == e;
    assert s[|e|..] == rest;
    if c == '&' {
      assert StartsWith(s, "&amp;");
    } else if c == '<' {
      assert !StartsWith(s, "&amp;") by { assert s[1] == 'l'; }
      assert StartsWith(s, "&lt;");
    } else if c == '>' {
      assert !StartsWith(s, "&amp;") by { assert s[1] == 'g'; }
      assert !StartsWith(s, "&lt;") by { assert s[1] == 'g'; }
      assert StartsWith(s, "&gt;");
    } else if c == '"' {
      assert !StartsWith(s, "&amp;") by { assert s[1] == 'q'; }
      assert !StartsWith(s, "&lt;") by { assert s[1] == 'q'; }
      assert !StartsWith(s, "&gt;") by { assert s[1] == 'q'; }
      assert StartsWith(s, "&quot;");
    } else {
      assert s[0] == c;
      assert !StartsWith(s, "&amp;") && !StartsWith(s, "&lt;") && !StartsWith(s, "&gt;") && !StartsWith(s, "&quot;");
    }
  }

  /** Decoding the entities recovers the text that was escaped. */
  lemma {:induction false} UnescapeEscapeHtml(s: string)
    ensures Unescape(EscapeHtml(s)) == s
  {
    EscapeHtmlIsEscapeEach(s);
    UnescapeEscapeEach(s);
  }

  lemma {:induction false} UnescapeEscapeEach(s: string)
    ensures Unescape(EscapeEach(s)) == s
    decreases |s|
  {
    if s != [] {
      UnescapeEscapeEach(s[1..]);
      UnescapeEntity(s[0], EscapeEach(s[1..]));
      assert s == [s[0]] + s[1..];
    }
  }

  /** Every `&` of the escaped text opens one of the four entities. */
  predicate OpensEntity(s: string, i: nat)
    requires i < |s|
  {
    var t := s[i..];
    StartsWith(t, "&amp;") || StartsWith(t, "&lt;") || StartsWith(t, "&gt;") || StartsWith(t, "&quot;")
  }

  lemma {:induction false} AmpersandsOpenEntities(s: string)
    ensures var e := EscapeHtml(s);
      forall i :: 0 <= i < |e| && e[i] == '&' ==> OpensEntity(e, i)
  {
    EscapeHtmlIsEscapeEach(s);
    EscapeEachAmpersands(s);
  }

  /** Within an entity, only its first character is an ampersand, and it opens the entity. */
  lemma EntityOpens(c: char, tail: string, i: nat)
    requires i < |Entity(c)| && (Entity(c) + tail)[i] == '&'
    ensures OpensEntity(Entity(c) + tail, i)
  {
    var e := Entity(c);
    var s := e + tail;
    assert s[0..] == s;
    assert s[..|e|] == e;
    if c == '&' {
      assert i == 0 && StartsWith(s, "&amp;");
    } else if c == '<' {
      assert i == 0 && StartsWith(s, "&lt;");
    } else if c == '>' {
      assert i == 0 && StartsWith(s, "&gt;");
    } else if c == '"' {
      assert i == 0 && StartsWith(s, "&quot;");
    } else {
      assert false;
    }
  }

  lemma {:induction false} EscapeEachAmpersands(s: string)
    ensures forall i :: 0 <= i < |EscapeEach(s)| && EscapeEach(s)[i] == '&' ==> OpensEntity(EscapeEach(s), i)
    decreases |s|
  {
    if s != [] {
      EscapeEachAmpersands(s[1..]);
      var head := Entity(s[0]);
      var tail := EscapeEach(s[1..]);
      var e := head + tail;
      forall i | 0 <= i < |e| && e[i] == '&'
        ensures OpensEntity(e, i)
      {
        if i < |head| {
          EntityOpens(s[0], tail, i);
        } else {
          var j := i - |head|;
          assert 0 <= j < |tail| && tail[j] == e[i];
          assert OpensEntity(tail, j);
          assert e[i..] == tail[j..];
        }
      }
    }
  }

  // ---------------------------------------------------------------- lists

  /** One list item: `<li>${escapeHtml(p)}</li>`. */
  function ListItem(p: string): string {
    "<li>" + EscapeHtml(p) + "</li>"
  }

  function ConcatItems(ps: seq<string>): string
    decreases |ps|
  {
    if ps == [] then [] else ListItem(ps[0]) + ConcatItems(ps[1..])
  }

  /** The list of coaching points or variations: blank entries are dropped before rendering. */
  function ListHtml(points: seq<string>): string {
    ConcatItems(NonBlank(points))
  }

  lemma {:induction false} ConcatItemsEmpty(ps: seq<string>)
    ensures ConcatItems(ps) == [] <==> ps == []
  {
    if ps != [] {
      assert ConcatItems(ps)[0] == '<';
    }
  }

  /**
   * The list (and with it its heading, which appears only for a non-empty list) is
   * empty exactly when every entry is blank; a non-blank entry is rendered as an item
   * and a blank one never is.
   */
  lemma ListHtmlMeaning(points: seq<string>)
    ensures ListHtml(points) == [] <==> forall p :: p in points ==> IsBlank(p)
    ensures forall p :: p in NonBlank(points) <==> p in points && !IsBlank(p)
  {
    NonBlankMeaning(points);
    ConcatItemsEmpty(NonBlank(points));
    if NonBlank(points) != [] {
      assert NonBlank(points)[0] in NonBlank(points);
    }
  }

  // ---------------------------------------------------------------- material table

  /** The German display name of each kind; the three player kinds share `Spieler`. */
  function MaterialLabel(t: ElementType): string {
    match t
    case PlayerRun => "Spieler"
    case PlayerStand => "Spieler"
    case PlayerPass => "Spieler"
    case Goalkeeper => "Torwart"
    case Trainer => "Trainer"
    case Dummy => "Dummy"
    case Ball => "Ball"
    case Cone => "Hütchen"
    case Pole => "Stange"
    case Ladder => "Leiter"
    case Flag => "Flagge"
    case Ring => "Ring"
    case GoalLarge => "Großtor"
    case GoalSmall => "Minitor"
    case GoalCone => "Hütchentor"
  }

  /** `nameMap[el.type] || el.type`: the display name of a known tag, else the tag itself. */
  function MaterialName(tag: string): string {
    match ParseElementType(tag)
    case Some(t) => MaterialLabel(t)
    case None => tag
  }

  /** The players share one row; an unknown tag keeps its own name; the other kinds are told apart. */
  lemma MaterialNameMeaning(tag: string)
    ensures MaterialName("player-run") == MaterialName("player-stand") == MaterialName("player-pass") == "Spieler"
    ensures ParseElementType(tag).None? ==> MaterialName(tag) == tag
    ensures forall t, u :: MaterialLabel(t) == MaterialLabel(u) ==> t == u || (IsPlayerTag(t) && IsPlayerTag(u))
  {
  }

  /** One row of the table: a display name and how many elements carry it. */
  datatype TableRow = TableRow(name: string, count: nat)

  /** Whether the table has a row for the name. */
  predicate HasRow(rows: seq<TableRow>, name: string)
    decreases |rows|
  {
    rows != [] && (rows[0].name == name || HasRow(rows[1..], name))
  }

  /** No name has two rows. */
  predicate DistinctNames(rows: seq<TableRow>)
    decreases |rows|
  {
    rows == [] || (!HasRow(rows[1..], rows[0].name) && DistinctNames(rows[1..]))
  }

  /** The count a name has in the table, 0 when it has no row. */
  function CountIn(rows: seq<TableRow>, name: string): nat
    decreases |rows|
  {
    if rows == [] then 0
    else if rows[0].name == name then rows[0].count
    else CountIn(rows[1..], name)
  }

  function TotalCount(rows: seq<TableRow>): nat
    decreases |rows|
  {
    if rows == [] then 0 else rows[0].count + TotalCount(rows[1..])
  }

  /** `counts[name] = (counts[name] || 0) + 1`: an existing row keeps its place, a new name is appended. */
  function Bump(rows: seq<TableRow>, name: string): seq<TableRow>
    decreases |rows|
  {
    if rows == [] then [TableRow(name, 1)]
    else if rows[0].name == name then [rows[0].(count := rows[0].count + 1)] + rows[1..]
    else [rows[0]] + Bump(rows[1..], name)
  }

  /** Counting a name adds its row if it had none, and no other. */
  lemma {:induction false} BumpRows(rows: seq<TableRow>, name: string, n: string)
    ensures HasRow(Bump(rows, name), n) <==> n == name || HasRow(rows, n)
    decreases |rows|
  {
    if rows != [] && rows[0].name != name {
      BumpRows(rows[1..], name, n);
      assert Bump(rows, name)[1..] == Bump(rows[1..], name);
    } else if rows != [] {
      assert Bump(rows, name)[1..] == rows[1..];
    }
  }

  /** Counting a name adds one to its count and to the total, and keeps the names distinct. */
  lemma {:induction false} BumpMeaning(rows: seq<TableRow>, name: string)
    requires DistinctNames(rows)
    ensures DistinctNames(Bump(rows, name))
    ensures forall n :: CountIn(Bump(rows, name), n) == CountIn(rows, n) + (if n == name then 1 else 0)
    ensures TotalCount(Bump(rows, name)) == TotalCount(rows) + 1
    decreases |rows|
  {
    if rows == [] {
    } else if rows[0].name != name {
      BumpMeaning(rows[1..], name);
      var b := Bump(rows, name);
      assert b[1..] == Bump(rows[1..], name);
      BumpRows(rows[1..], name, rows[0].name);
    } else {
      var b := Bump(rows, name);
      assert b[1..] == rows[1..];
      CountInAbsent(rows[1..], name);
    }
  }

  /** A name without a row counts 0. */
  lemma {:induction false} CountInAbsent(rows: seq<TableRow>, name: string)
    requires !HasRow(rows, name)
    ensures CountIn(rows, name) == 0
    decreases |rows|
  {
    if rows != [] {
      CountInAbsent(rows[1..], name);
    }
  }

  /** The table after counting the given element tags. */
  function Table(tags: seq<string>): seq<TableRow>
    decreases |tags|
  {
    if tags == [] then [] else Bump(Table(tags[..|tags| - 1]), MaterialName(tags[|tags| - 1]))
  }

  /** How many of the tags have the given display name. */
  function NameOccurrences(tags: seq<string>, name: string): nat
    decreases |tags|
  {
    if tags == [] then 0
    else NameOccurrences(tags[..|tags| - 1], name) + (if MaterialName(tags[|tags| - 1]) == name then 1 else 0)
  }

  /**
   * One row per display name; each row counts the elements with that name; the counts
   * add up to the number of elements; and a name has a row exactly when some element
   * carries it.
   */
  lemma {:induction false} TableMeaning(tags: seq<string>)
    ensures DistinctNames(Table(tags))
    ensures forall n :: CountIn(Table(tags), n) == NameOccurrences(tags, n)
    ensures TotalCount(Table(tags)) == |tags|
    ensures forall n :: HasRow(Table(tags), n) <==> NameOccurrences(tags, n) > 0
    decreases |tags|
  {
    if tags != [] {
      var init := tags[..|tags| - 1];
      var last := MaterialName(tags[|tags| - 1]);
      TableMeaning(init);
      BumpMeaning(Table(init), last);
      forall n ensures HasRow(Table(tags), n) <==> NameOccurrences(tags, n) > 0 {
        BumpRows(Table(init), last, n);
      }
    }
  }

  /** `buildMaterialTable`: the `forEach` that fills the `counts` record, element by element. */
  method BuildMaterialTable(tags: seq<string>) returns (rows: seq<TableRow>)
    ensures rows == Table(tags)
  {
    rows := [];
    var i := 0;
    while i < |tags|
      invariant 0 <= i <= |tags|
      invariant rows == Table(tags[..i])
    {
      assert tags[..i + 1][..i] == tags[..i];
      rows := Bump(rows, MaterialName(tags[i]));
      i := i + 1;
    }
    assert tags[..|tags|] == tags;
  }
}
