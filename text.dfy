/**
 * String helpers with the semantics of the JavaScript built-ins the source uses:
 * `startsWith`, `includes`, `trim`, `split`, `join`, `String(n)` and `parseInt`.
 * Strings are sequences of Unicode scalar values.
 */
module Text {
  import opened Wrappers

  /** `s.startsWith(p)` */
  predicate StartsWith(s: string, p: string) {
    |p| <= |s| && s[..|p|] == p
  }

  /** `s.includes(sub)`: some suffix of `s` starts with `sub`. */
  predicate Contains(s: string, sub: string)
    decreases |s|
  {
    StartsWith(s, sub) || (|s| > 0 && Contains(s[1..], sub))
  }

  /** A string too short to hold `sub` does not contain it. */
  lemma {:induction false} ShortNotContains(s: string, sub: string)
    requires |s| < |sub|
    ensures !Contains(s, sub)
    decreases |s|
  {
    if |s| > 0 {
      ShortNotContains(s[1..], sub);
    }
  }

  /** A string lacking some character of `sub` does not contain `sub`. */
  lemma {:induction false} MissingCharNotContains(s: string, sub: string, k: nat)
    requires k < |sub| && sub[k] !in s
    ensures !Contains(s, sub)
    decreases |s|
  {
    if |s| > 0 {
      assert s == [s[0]] + s[1..];
      MissingCharNotContains(s[1..], sub, k);
      if |sub| <= |s| {
        assert s[..|sub|][k] == s[k];
      }
    }
  }

  /** A string that differs from `p` at some position within `p` does not start with `p`. */
  lemma DiffersAt(s: string, p: string, i: nat)
    requires i < |p| && (i >= |s| || s[i] != p[i])
    ensures !StartsWith(s, p)
  {
    if |p| <= |s| {
      assert s[..|p|][i] == s[i];
    }
  }

  /** A string starting with `p` contains `p`. */
  lemma PrefixContains(s: string, p: string)
    requires |p| <= |s| && s[..|p|] == p
    ensures Contains(s, p)
  {
  }

  predicate IsDigit(c: char) {
    '0' <= c <= '9'
  }

  function DigitChar(d: nat): (c: char)
    requires d < 10
    ensures IsDigit(c)
  {
    ['0', '1', '2', '3', '4', '5', '6', '7', '8', '9'][d]
  }

  function DigitValue(c: char): (d: nat)
    requires IsDigit(c)
    ensures d < 10
  {
    (c as int - '0' as int) as nat
  }

  lemma DigitRoundTrip(d: nat)
    requires d < 10
    ensures DigitValue(DigitChar(d)) == d
  {
  }

  predicate AllDigits(s: string) {
    forall i :: 0 <= i < |s| ==> IsDigit(s[i])
  }

  /** `String(n)` for a non-negative integer: its decimal digits, without leading zeros. */
  function NatToString(n: nat): (s: string)
    ensures 1 <= |s| && AllDigits(s)
    decreases n
  {
    if n < 10 then [DigitChar(n)] else NatToString(n / 10) + [DigitChar(n % 10)]
  }

  /** `parseInt` of a run of decimal digits. */
  function ParseDigits(s: string): nat
    requires AllDigits(s)
    decreases |s|
  {
    if s == [] then 0 else 10 * ParseDigits(s[..|s| - 1]) + DigitValue(s[|s| - 1])
  }

  lemma {:induction false} ParseNatToString(n: nat)
    ensures ParseDigits(NatToString(n)) == n
    decreases n
  {
    var s := NatToString(n);
    if n < 10 {
      DigitRoundTrip(n);
    } else {
      ParseNatToString(n / 10);
      assert s[..|s| - 1] == NatToString(n / 10);
      DigitRoundTrip(n % 10);
    }
  }

  /** `String(n)` never has a leading zero unless it is "0". */
  lemma {:induction false} NatToStringNoLeadingZero(n: nat)
    ensures NatToString(n)[0] == '0' <==> n == 0
    decreases n
  {
    if n >= 10 {
      NatToStringNoLeadingZero(n / 10);
    }
  }

  /**
   * `s.length` in JavaScript: UTF-16 code units, so a character above U+FFFF, stored as
   * a surrogate pair, counts two.
   */
  function Utf16Length(s: string): (n: nat)
    ensures |s| <= n <= 2 * |s|
    decreases |s|
  {
    if s == [] then 0 else (if s[0] as int > 0xFFFF then 2 else 1) + Utf16Length(s[1..])
  }

  /** Code units and characters agree exactly when no character lies above U+FFFF. */
  lemma {:induction false} Utf16LengthBmp(s: string)
    ensures Utf16Length(s) == |s| <==> forall i :: 0 <= i < |s| ==> s[i] as int <= 0xFFFF
    decreases |s|
  {
    if s != [] {
      Utf16LengthBmp(s[1..]);
      assert forall i :: 1 <= i < |s| ==> s[i] == s[1..][i - 1];
    }
  }

  /** "A" followed by U+1F600 is two characters but three code units. */
  lemma Utf16LengthExample()
    ensures |"A\U{1F600}"| == 2 && Utf16Length("A\U{1F600}") == 3
  {
  }

  /** The characters JavaScript's `trim` removes: WhiteSpace and LineTerminator. */
  predicate IsSpace(c: char) {
    c == ' ' || c == '\t' || c == '\n' || c == '\r' || c == '\U{000B}' || c == '\U{000C}'
    || c == '\U{00A0}' || c == '\U{FEFF}' || c == '\U{1680}' || ('\U{2000}' <= c <= '\U{200A}')
    || c == '\U{2028}' || c == '\U{2029}' || c == '\U{202F}' || c == '\U{205F}' || c == '\U{3000}'
  }

  function TrimStart(s: string): (r: string)
    ensures |r| <= |s|
    decreases |s|
  {
    if s != [] && IsSpace(s[0]) then TrimStart(s[1..]) else s
  }

  /** `trimStart` drops exactly the leading white space. */
  lemma {:induction false} TrimStartMeaning(s: string)
    ensures var r := TrimStart(s);
      r == s[|s| - |r|..]
      && (r == [] || !IsSpace(r[0]))
      && forall i :: 0 <= i < |s| - |r| ==> IsSpace(s[i])
    decreases |s|
  {
    if s != [] && IsSpace(s[0]) {
      TrimStartMeaning(s[1..]);
    }
  }

  function TrimEnd(s: string): (r: string)
    ensures |r| <= |s|
    decreases |s|
  {
    if s != [] && IsSpace(s[|s| - 1]) then TrimEnd(s[..|s| - 1]) else s
  }

  /** `trimEnd` drops exactly the trailing white space. */
  lemma {:induction false} TrimEndMeaning(s: string)
    ensures var r := TrimEnd(s);
      r == s[..|r|]
      && (r == [] || !IsSpace(r[|r| - 1]))
      && forall i :: |r| <= i < |s| ==> IsSpace(s[i])
    decreases |s|
  {
    if s != [] && IsSpace(s[|s| - 1]) {
      TrimEndMeaning(s[..|s| - 1]);
    }
  }

  /** `s.trim()` */
  function Trim(s: string): string {
    TrimEnd(TrimStart(s))
  }

  /** A string is blank when `s.trim()` is the empty string (falsy in JavaScript). */
  predicate IsBlank(s: string) {
    Trim(s) == []
  }

  /** `lines.filter(l => l.trim())` */
  function NonBlank(ls: seq<string>): (r: seq<string>)
    ensures |r| <= |ls|
    decreases |ls|
  {
    if ls == [] then []
    else NonBlank(ls[..|ls| - 1]) + (if IsBlank(ls[|ls| - 1]) then [] else [ls[|ls| - 1]])
  }

  lemma NonBlankSnoc(ls: seq<string>, l: string)
    ensures NonBlank(ls + [l]) == NonBlank(ls) + (if IsBlank(l) then [] else [l])
  {
    assert (ls + [l])[..|ls|] == ls;
  }

  /** The filter keeps exactly the non-blank strings, in order. */
  lemma {:induction false} NonBlankMeaning(ls: seq<string>)
    ensures forall x :: x in NonBlank(ls) <==> x in ls && !IsBlank(x)
    decreases |ls|
  {
    if ls != [] {
      NonBlankMeaning(ls[..|ls| - 1]);
      assert ls == ls[..|ls| - 1] + [ls[|ls| - 1]];
    }
  }

  lemma BlankIffAllSpace(s: string)
    ensures IsBlank(s) <==> forall i :: 0 <= i < |s| ==> IsSpace(s[i])
  {
    var a := TrimStart(s);
    TrimStartMeaning(s);
    TrimEndMeaning(a);
    if a != [] {
      assert a[0] == s[|s| - |a|];
      assert !IsSpace(a[0]);
    }
  }

  /** Trimming a trimmed string changes nothing. */
  lemma TrimTwice(s: string)
    ensures Trim(Trim(s)) == Trim(s)
  {
    var r := Trim(s);
    var a := TrimStart(s);
    TrimStartMeaning(s);
    TrimEndMeaning(a);
    TrimEndMeaning(r);
    if r != [] {
      assert r == a[..|r|];
      assert r[0] == a[0];
      assert TrimStart(r) == r;
    }
  }

  /** `s.split(sep)` where `sep` matches any single character of `seps`. */
  function Split(s: string, seps: set<char>): (parts: seq<string>)
    ensures |parts| >= 1
    ensures forall k :: 0 <= k < |parts| ==> forall c :: c in parts[k] ==> c !in seps
    decreases |s|
  {
    if s == [] then [[]]
    else if s[0] in seps then [[]] + Split(s[1..], seps)
    else
      var rest := Split(s[1..], seps);
      [[s[0]] + rest[0]] + rest[1..]
  }

  /** The separator characters of `s`, in order. */
  function SeparatorsOf(s: string, seps: set<char>): string
    decreases |s|
  {
    if s == [] then [] else (if s[0] in seps then [s[0]] else []) + SeparatorsOf(s[1..], seps)
  }

  /** The parts put back together, the k-th gap filled with the k-th separator. */
  function Interleave(parts: seq<string>, gaps: string): string
    requires |parts| == |gaps| + 1
    decreases |gaps|
  {
    if gaps == [] then parts[0] else parts[0] + [gaps[0]] + Interleave(parts[1..], gaps[1..])
  }

  /**
   * The parts are the separator-free runs of `s` in order: there is one more part than
   * separators, and putting each separator back between its two parts rebuilds `s`.
   */
  lemma {:induction false} SplitRuns(s: string, seps: set<char>)
    ensures |Split(s, seps)| == |SeparatorsOf(s, seps)| + 1
    ensures Interleave(Split(s, seps), SeparatorsOf(s, seps)) == s
    decreases |s|
  {
    if s != [] {
      SplitRuns(s[1..], seps);
      if s[0] in seps {
        SplitRunsAtSeparator(s, seps);
      } else {
        SplitRunsInRun(s, seps);
      }
    }
  }

  /** A leading separator closes an empty first part. */
  lemma SplitRunsAtSeparator(s: string, seps: set<char>)
    requires s != [] && s[0] in seps
    requires |Split(s[1..], seps)| == |SeparatorsOf(s[1..], seps)| + 1
    requires Interleave(Split(s[1..], seps), SeparatorsOf(s[1..], seps)) == s[1..]
    ensures |Split(s, seps)| == |SeparatorsOf(s, seps)| + 1
    ensures Interleave(Split(s, seps), SeparatorsOf(s, seps)) == s
  {
    var rest, gaps := Split(s[1..], seps), SeparatorsOf(s[1..], seps);
    assert SeparatorsOf(s, seps) == [s[0]] + gaps;
    assert Split(s, seps) == [[]] + rest;
    assert ([[]] + rest)[1..] == rest;
    assert ([s[0]] + gaps)[1..] == gaps;
    assert s == [] + [s[0]] + s[1..];
  }

  /** A leading non-separator joins the front of the first part. */
  lemma SplitRunsInRun(s: string, seps: set<char>)
    requires s != [] && s[0] !in seps
    requires |Split(s[1..], seps)| == |SeparatorsOf(s[1..], seps)| + 1
    requires Interleave(Split(s[1..], seps), SeparatorsOf(s[1..], seps)) == s[1..]
    ensures |Split(s, seps)| == |SeparatorsOf(s, seps)| + 1
    ensures Interleave(Split(s, seps), SeparatorsOf(s, seps)) == s
  {
    var rest, gaps := Split(s[1..], seps), SeparatorsOf(s[1..], seps);
    assert SeparatorsOf(s, seps) == gaps;
    assert Split(s, seps) == [[s[0]] + rest[0]] + rest[1..];
    InterleaveConsFront(s[0], rest, gaps);
    assert s == [s[0]] + s[1..];
  }

  /** Putting a character in front of the first part puts it in front of the whole. */
  lemma InterleaveConsFront(c: char, parts: seq<string>, gaps: string)
    requires |parts| == |gaps| + 1
    ensures Interleave([[c] + parts[0]] + parts[1..], gaps) == [c] + Interleave(parts, gaps)
  {
    var front := [[c] + parts[0]] + parts[1..];
    if gaps != [] {
      assert front[1..] == parts[1..];
      var tail := [gaps[0]] + Interleave(parts[1..], gaps[1..]);
      assert Interleave(parts, gaps) == parts[0] + tail;
      assert Interleave(front, gaps) == ([c] + parts[0]) + tail;
      ConcatAssoc([c], parts[0], tail);
    }
  }

  /** Concatenation is associative, for the steps where the solver needs it named. */
  lemma ConcatAssoc<T>(x: seq<T>, y: seq<T>, z: seq<T>)
    ensures x + (y + z) == (x + y) + z
  {
  }

  /** `parts.join(sep)` */
  function Join(parts: seq<string>, sep: char): string
    decreases |parts|
  {
    if parts == [] then []
    else if |parts| == 1 then parts[0]
    else parts[0] + [sep] + Join(parts[1..], sep)
  }

  /** Splitting on one character and joining with it gives back the string. */
  lemma {:induction false} JoinSplit(s: string, sep: char)
    ensures Join(Split(s, {sep}), sep) == s
    decreases |s|
  {
    if s != [] {
      JoinSplit(s[1..], sep);
      var rest := Split(s[1..], {sep});
      if s[0] != sep {
        if |rest| > 1 {
          assert Join([[s[0]] + rest[0]] + rest[1..], sep)
              == ([s[0]] + rest[0]) + [sep] + Join(rest[1..], sep);
          assert Join(rest, sep) == rest[0] + [sep] + Join(rest[1..], sep);
        }
      }
    }
  }

  /**
   * `s.match(/(\d+)/)` followed by `parseInt`: the value of the first run of ASCII digits,
   * or None when `s` has no digit.
   */
  function FirstNumber(s: string): (r: Option<nat>)
    ensures r.None? <==> forall i :: 0 <= i < |s| ==> !IsDigit(s[i])
    decreases |s|
  {
    if s == [] then None
    else if IsDigit(s[0]) then Some(ParseDigits(DigitRun(s)))
    else FirstNumber(s[1..])
  }

  /** The longest prefix of `s` made of digits. */
  function DigitRun(s: string): (r: string)
    ensures |r| <= |s| && AllDigits(r) && r == s[..|r|]
    ensures |r| == |s| || !IsDigit(s[|r|])
    decreases |s|
  {
    if s != [] && IsDigit(s[0]) then [s[0]] + DigitRun(s[1..]) else []
  }
}
