/**
 * The address text normalisers: `process_single_and_multi_line_address`,
 * `process_flat_address` and `process_span_address`.
 *
 * Two fixed regular expressions are modelled by scanners:
 * - `re.findall("\S+\s.*", s)`: from the scan position, skip whitespace,
 *   take the maximal run of non-whitespace; when one whitespace character
 *   follows (a line feed counts), the match is the run, that character and
 *   the rest of the line after it; when the run reaches the end of the text
 *   there are no further matches.
 * - `re.sub("[mM]aps\s+[a-zA-Z].*", "", s)`: every non-overlapping match,
 *   scanning left to right, is deleted.
 */
module AddressText {
  import opened Wrappers
  import opened Text
  import Dict

  /** A value `process_single_and_multi_line_address` returns: one string, or a list of line strings. */
  datatype FieldValue = Line(text: string) | Lines(lines: seq<string>)

  /** Index of the first non-whitespace character at or after `i`, or `|s|`. */
  function SkipSpaces(s: string, i: nat): (j: nat)
    requires i <= |s|
    ensures i <= j <= |s|
    ensures forall k :: i <= k < j ==> IsSpace(s[k])
    ensures j < |s| ==> !IsSpace(s[j])
    decreases |s| - i
  {
    if i == |s| || !IsSpace(s[i]) then i else SkipSpaces(s, i + 1)
  }

  /** Index of the first whitespace character at or after `i`, or `|s|`. */
  function SkipNonSpaces(s: string, i: nat): (j: nat)
    requires i <= |s|
    ensures i <= j <= |s|
    ensures forall k :: i <= k < j ==> !IsSpace(s[k])
    ensures j < |s| ==> IsSpace(s[j])
    decreases |s| - i
  {
    if i == |s| || IsSpace(s[i]) then i else SkipNonSpaces(s, i + 1)
  }

  /** `m` is matched in full by `\S+\s.*`: a non-empty run of non-whitespace, one whitespace character, then no line feed. */
  predicate IsWordLine(m: string) {
    exists b :: 0 < b < |m| && (forall k :: 0 <= k < b ==> !IsSpace(m[k])) && IsSpace(m[b]) && '\n' !in m[b + 1..]
  }

  /**
   * `re.findall("\S+\s.*", s)`. The search resumes where the previous match
   * ended, which is at a line feed or at the end of the text.
   */
  function WordLines(s: string): (ms: seq<string>)
    ensures 2 * |ms| <= |s|
    ensures forall m :: m in ms ==> 2 <= |m|
    decreases |s|
  {
    var a := SkipSpaces(s, 0);
    var b := SkipNonSpaces(s, a);
    if b == |s| then [] else [s[a..LineEnd(s, b + 1)]] + WordLines(s[LineEnd(s, b + 1)..])
  }

  /** Every match is matched in full by the pattern. */
  lemma {:induction false} WordLinesMatchPattern(s: string)
    ensures forall m :: m in WordLines(s) ==> IsWordLine(m)
    decreases |s|
  {
    var a := SkipSpaces(s, 0);
    var b := SkipNonSpaces(s, a);
    if b < |s| {
      var e := LineEnd(s, b + 1);
      WordLineAt(s, a, b, e);
      WordLinesMatchPattern(s[e..]);
      WordLinesFirst(s, a, b, e);
      WordLinesCons(s[a..e], WordLines(s[e..]));
    }
  }

  /** Where a whitespace character follows the first word, the first match runs to the end of its line. */
  lemma WordLinesFirst(s: string, a: nat, b: nat, e: nat)
    requires a == SkipSpaces(s, 0) && b == SkipNonSpaces(s, a) && b < |s|
    requires e == LineEnd(s, b + 1)
    ensures WordLines(s) == [s[a..e]] + WordLines(s[e..])
  {
    var ms := WordLines(s);
    assert ms == [s[a..e]] + WordLines(s[e..]);
  }

  lemma WordLinesCons(m: string, rest: seq<string>)
    requires IsWordLine(m) && forall x :: x in rest ==> IsWordLine(x)
    ensures forall x :: x in [m] + rest ==> IsWordLine(x)
  {
    forall x | x in [m] + rest ensures IsWordLine(x) {
      if x != m {
        assert x in rest;
      }
    }
  }

  lemma WordLineAt(s: string, a: nat, b: nat, e: nat)
    requires a < b < e <= |s|
    requires forall k :: a <= k < b ==> !IsSpace(s[k])
    requires IsSpace(s[b])
    requires forall k :: b < k < e ==> s[k] != '\n'
    ensures IsWordLine(s[a..e])
  {
    var m := s[a..e];
    assert forall k :: 0 <= k < b - a ==> m[k] == s[a + k];
    assert m[b - a] == s[b];
    assert m[b - a + 1..] == s[b + 1..e];
    assert '\n' !in m[b - a + 1..];
  }

  lemma {:induction false} SkipSpacesTo(s: string, i: nat, j: nat)
    requires i <= j <= |s|
    requires forall k :: i <= k < j ==> IsSpace(s[k])
    requires j < |s| ==> !IsSpace(s[j])
    ensures SkipSpaces(s, i) == j
    decreases j - i
  {
    if i < j { SkipSpacesTo(s, i + 1, j); }
  }

  lemma {:induction false} SkipNonSpacesTo(s: string, i: nat, j: nat)
    requires i <= j <= |s|
    requires forall k :: i <= k < j ==> !IsSpace(s[k])
    requires j < |s| ==> IsSpace(s[j])
    ensures SkipNonSpaces(s, i) == j
    decreases j - i
  {
    if i < j { SkipNonSpacesTo(s, i + 1, j); }
  }

  lemma {:induction false} LineEndTo(s: string, i: nat, j: nat)
    requires i <= j <= |s|
    requires forall k :: i <= k < j ==> s[k] != '\n'
    requires j < |s| ==> s[j] == '\n'
    ensures LineEnd(s, i) == j
    decreases j - i
  {
    if i < j { LineEndTo(s, i + 1, j); }
  }

  lemma SkipBlank(blank: string, t: string)
    requires AllSpace(blank)
    requires t == [] || !IsSpace(t[0])
    ensures SkipSpaces(blank + t, 0) == |blank|
  {
    SkipSpacesTo(blank + t, 0, |blank|);
  }

  lemma SkipWord(p: string, w: string, t: string)
    requires forall k :: 0 <= k < |w| ==> !IsSpace(w[k])
    requires t == [] || IsSpace(t[0])
    ensures SkipNonSpaces(p + w + t, |p|) == |p| + |w|
  {
    var s := p + w + t;
    assert forall k :: |p| <= k < |p| + |w| ==> s[k] == w[k - |p|];
    SkipNonSpacesTo(s, |p|, |p| + |w|);
  }

  lemma SkipLine(p: string, line: string, t: string)
    requires '\n' !in line
    requires t == [] || t[0] == '\n'
    ensures LineEnd(p + line + t, |p|) == |p| + |line|
  {
    var s := p + line + t;
    assert forall k :: |p| <= k < |p| + |line| ==> s[k] == line[k - |p|];
    LineEndTo(s, |p|, |p| + |line|);
  }

  lemma LeadingBlankEnd(blank: string, w: string, c: char, line: string, rest: string)
    requires AllSpace(blank)
    requires w != [] && forall k :: 0 <= k < |w| ==> !IsSpace(w[k])
    ensures SkipSpaces(blank + w + [c] + line + rest, 0) == |blank|
  {
    var u := w + [c] + line + rest;
    assert blank + w + [c] + line + rest == blank + u;
    SkipBlank(blank, u);
  }

  lemma LeadingWordEnd(blank: string, w: string, c: char, line: string, rest: string)
    requires forall k :: 0 <= k < |w| ==> !IsSpace(w[k])
    requires IsSpace(c)
    ensures SkipNonSpaces(blank + w + [c] + line + rest, |blank|) == |blank| + |w|
  {
    var v := [c] + line + rest;
    assert blank + w + [c] + line + rest == blank + w + v;
    SkipWord(blank, w, v);
  }

  lemma LeadingLineEnd(blank: string, w: string, c: char, line: string, rest: string)
    requires '\n' !in line
    requires rest == [] || rest[0] == '\n'
    ensures LineEnd(blank + w + [c] + line + rest, |blank| + |w| + 1) == |blank| + |w| + 1 + |line|
  {
    SkipLine(blank + w + [c], line, rest);
  }

  lemma LeadingLineSlice(blank: string, w: string, c: char, line: string, rest: string)
    ensures (blank + w + [c] + line + rest)[|blank|..|blank| + |w| + 1 + |line|] == w + [c] + line
  {
    var m := w + [c] + line;
    assert blank + w + [c] + line + rest == blank + m + rest;
    assert (blank + m + rest)[|blank|..|blank| + |m|] == m;
  }

  /** A word with no whitespace after it, behind blank text, is not matched: it produces nothing. */
  lemma WordLinesTrailingWord(blank: string, w: string)
    requires AllSpace(blank)
    requires forall k :: 0 <= k < |w| ==> !IsSpace(w[k])
    ensures WordLines(blank + w) == []
  {
    var s := blank + w;
    var a := SkipSpaces(s, 0);
    if w == [] {
      SkipSpacesTo(s, 0, |s|);
    } else {
      SkipSpacesTo(s, 0, |blank|);
      assert forall k :: a <= k < |s| ==> s[k] == w[k - a];
      SkipNonSpacesTo(s, a, |s|);
    }
  }

  /**
   * The shape of one match: after blank text, a word, one whitespace
   * character and the rest of that line make one match; scanning resumes at
   * the line feed that ends it (or at the end of the text).
   */
  lemma WordLinesLeadingLine(blank: string, w: string, c: char, line: string, rest: string)
    requires AllSpace(blank)
    requires w != [] && forall k :: 0 <= k < |w| ==> !IsSpace(w[k])
    requires IsSpace(c) && '\n' !in line
    requires rest == [] || rest[0] == '\n'
    ensures WordLines(blank + w + [c] + line + rest) == [w + [c] + line] + WordLines(rest)
  {
    var s := blank + w + [c] + line + rest;
    var a, b, e := |blank|, |blank| + |w|, |blank| + |w| + 1 + |line|;
    LeadingBlankEnd(blank, w, c, line, rest);
    LeadingWordEnd(blank, w, c, line, rest);
    LeadingLineEnd(blank, w, c, line, rest);
    LeadingLineSlice(blank, w, c, line, rest);
    assert s[e..] == rest;
  }

  /** `[item.strip() for item in re.findall("\S+\s.*", s)]`: every item is stripped and none is empty. */
  function StrippedWordLines(s: string): (r: seq<string>)
    ensures |r| == |WordLines(s)|
    ensures forall i :: 0 <= i < |r| ==> r[i] == Strip(WordLines(s)[i])
    ensures forall x :: x in r ==> x != [] && IsStripped(x)
  {
    var ms := WordLines(s);
    WordLinesMatchPattern(s);
    forall i | 0 <= i < |ms| ensures Strip(ms[i]) != [] {
      assert IsWordLine(ms[i]);
      StripNonEmpty(ms[i], 0);
    }
    seq(|ms|, i requires 0 <= i < |ms| => Strip(ms[i]))
  }

  /**
   * `process_single_and_multi_line_address`: a text without a line feed is
   * returned stripped; otherwise the stripped `\S+\s.*` matches, none of
   * them empty.
   */
  function ProcessSingleAndMultiLine(s: string): (r: FieldValue)
    ensures r.Line? <==> '\n' !in s
    ensures r.Line? ==> r.text == Strip(s)
    ensures r.Lines? ==> |r.lines| == |WordLines(s)|
    ensures r.Lines? ==> forall i :: 0 <= i < |r.lines| ==> r.lines[i] == Strip(WordLines(s)[i])
    ensures r.Lines? ==> forall x :: x in r.lines ==> x != [] && IsStripped(x)
  {
    if '\n' in s then Lines(StrippedWordLines(s)) else Line(Strip(s))
  }

  /** The blank text between the lines of the documented street address. */
  const DocPad := "\n            \n              "

  lemma DocPadBlank()
    ensures AllSpace(DocPad) && DocPad[0] == '\n'
  {
  }

  lemma DocLiterals()
    ensures "Aberystwyth" + [' '] + "Justice Centre " == "Aberystwyth Justice Centre "
    ensures "Y" + [' '] + "Lanfa" == "Y Lanfa"
    ensures "Trefechan" + ['\n'] + "" == "Trefechan\n"
  {
  }

  lemma DocWord(w: string)
    requires w in ["Aberystwyth", "Y", "Trefechan"]
    ensures w != [] && forall k :: 0 <= k < |w| ==> !IsSpace(w[k])
  {
  }

  lemma DocRestOfLine(l: string)
    requires l in ["Justice Centre ", "Lanfa", ""]
    ensures '\n' !in l
  {
  }

  /** One line of the documented street address, after its blank text. */
  lemma DocLine(w: string, c: char, l: string, line: string, rest: string)
    requires w in ["Aberystwyth", "Y", "Trefechan"]
    requires l in ["Justice Centre ", "Lanfa", ""]
    requires IsSpace(c) && line == w + [c] + l
    requires rest == [] || rest[0] == '\n'
    ensures WordLines(DocPad + line + rest) == [line] + WordLines(rest)
  {
    Regroup(DocPad, w, [c], l, rest);
    DocPadBlank();
    DocWord(w);
    DocRestOfLine(l);
    WordLinesLeadingLine(DocPad, w, c, l, rest);
  }

  /** The `\S+\s.*` matches in the text of the documented street address. */
  lemma DocStreetMatches(s: string)
    requires s == DocPad + "Aberystwyth Justice Centre " + (DocPad + "Y Lanfa" + (DocPad + "Trefechan\n" + ""))
    ensures WordLines(s) == ["Aberystwyth Justice Centre ", "Y Lanfa", "Trefechan\n"]
  {
    DocLiterals();
    var r2 := DocPad + "Trefechan\n" + "";
    var r1 := DocPad + "Y Lanfa" + r2;
    DocLine("Trefechan", '\n', "", "Trefechan\n", "");
    assert WordLines("") == [];
    DocLine("Y", ' ', "Lanfa", "Y Lanfa", r2);
    DocLine("Aberystwyth", ' ', "Justice Centre ", "Aberystwyth Justice Centre ", r1);
    ListOfThree("Aberystwyth Justice Centre ", "Y Lanfa", "Trefechan\n");
  }

  lemma ListOfThree<T>(a: T, b: T, c: T)
    ensures [a] + ([b] + ([c] + [])) == [a, b, c]
  {
  }

  /** A multi-line text whose three matches strip to three given lines becomes those lines. */
  lemma ThreeLines(s: string, x: string, y: string, z: string, a: string, b: string, c: string)
    requires '\n' in s && WordLines(s) == [x, y, z]
    requires Strip(x) == a && Strip(y) == b && Strip(z) == c
    ensures ProcessSingleAndMultiLine(s) == Lines([a, b, c])
  {
    var r := ProcessSingleAndMultiLine(s);
    assert r.Lines?;
    var ls := r.lines;
    assert |ls| == 3;
    assert ls[0] == a && ls[1] == b && ls[2] == c;
    SeqOfThree(ls);
  }

  lemma Regroup<T>(p: seq<T>, x: seq<T>, y: seq<T>, z: seq<T>, r: seq<T>)
    ensures p + (x + y + z) + r == p + x + y + z + r
  {
  }

  lemma SeqOfThree<T>(xs: seq<T>)
    requires |xs| == 3
    ensures xs == [xs[0], xs[1], xs[2]]
  {
  }

  /**
   * The documented example: the text of the `streetAddress` span of the
   * Aberystwyth court becomes its three address lines.
   */
  lemma DocStreetAddress(s: string)
    requires s == DocPad + "Aberystwyth Justice Centre " + (DocPad + "Y Lanfa" + (DocPad + "Trefechan\n" + ""))
    ensures ProcessSingleAndMultiLine(s) == Lines(["Aberystwyth Justice Centre", "Y Lanfa", "Trefechan"])
  {
    DocStreetMatches(s);
    DocPadBlank();
    assert s[0] == '\n';
    DocLinesStripped("Aberystwyth Justice Centre ", "Y Lanfa", "Trefechan\n");
    ThreeLines(s, "Aberystwyth Justice Centre ", "Y Lanfa", "Trefechan\n",
      "Aberystwyth Justice Centre", "Y Lanfa", "Trefechan");
  }

  /** The three raw lines of the documented street address strip to its three items. */
  lemma DocLinesStripped(x: string, y: string, z: string)
    requires x == "Aberystwyth Justice Centre " && y == "Y Lanfa" && z == "Trefechan\n"
    ensures Strip(x) == "Aberystwyth Justice Centre" && Strip(y) == "Y Lanfa" && Strip(z) == "Trefechan"
  {
    DocStrippedFirst();
    StripStripped(y);
    DocStrippedLast();
  }

  lemma DocStrippedFirst()
    ensures Strip("Aberystwyth Justice Centre ") == "Aberystwyth Justice Centre"
  {
    var x := "Aberystwyth Justice Centre";
    assert x + [' '] == "Aberystwyth Justice Centre ";
    StripTrailing(x, ' ');
  }

  lemma DocStrippedLast()
    ensures Strip("Trefechan\n") == "Trefechan"
  {
    var x := "Trefechan";
    assert x + ['\n'] == "Trefechan\n";
    StripTrailing(x, '\n');
  }

  predicate IsAsciiLetter(c: char) {
    'a' <= c <= 'z' || 'A' <= c <= 'Z'
  }

  /**
   * A match of `[mM]aps\s+[a-zA-Z]` starts at `i` and its letter is at `j`:
   * the whitespace run after "aps" is not empty and reaches up to `j`.
   */
  predicate MapsAt(s: string, i: nat, j: nat) {
    i + 4 < j < |s| && s[i] in "mM" && s[i + 1..i + 4] == "aps" &&
    (forall k :: i + 4 <= k < j ==> IsSpace(s[k])) && IsAsciiLetter(s[j])
  }

  /** Some match of `[mM]aps\s+[a-zA-Z].*` occurs in `s`. */
  predicate HasMaps(s: string) {
    exists i, j :: 0 <= i < j < |s| && MapsAt(s, i, j)
  }

  /** The letter of a match is where the whitespace run after "aps" ends, so there is at most one. */
  lemma MapsLetterUnique(s: string, i: nat)
    requires i + 4 <= |s|
    ensures forall j: nat :: MapsAt(s, i, j) ==> j == SkipSpaces(s, i + 4)
  {
    forall j: nat | MapsAt(s, i, j)
      ensures j == SkipSpaces(s, i + 4)
    {
      SkipSpacesTo(s, i + 4, j);
    }
  }

  /**
   * Where a match of `[mM]aps\s+[a-zA-Z].*` that starts at `i` ends, if one
   * starts there: `.*` runs from after the letter up to the next line feed.
   */
  function MapsMatchEnd(s: string, i: nat): (e: Option<nat>)
    requires i <= |s|
    ensures e.Some? <==> exists j: nat :: MapsAt(s, i, j)
    ensures forall j: nat :: MapsAt(s, i, j) ==> e == Some(LineEnd(s, j + 1))
    ensures e.Some? ==> i + 6 <= e.value <= |s|
  {
    if i + 4 <= |s| && (s[i] == 'm' || s[i] == 'M') && s[i + 1..i + 4] == "aps" then
      var j := SkipSpaces(s, i + 4);
      MapsLetterUnique(s, i);
      if i + 4 < j < |s| && IsAsciiLetter(s[j]) then
        assert MapsAt(s, i, j);
        Some(LineEnd(s, j + 1))
      else None
    else None
  }

  /** `re.sub("[mM]aps\s+[a-zA-Z].*", "", s[i..])` with matching resumed at `i`. */
  function RemoveMapsFrom(s: string, i: nat): (r: string)
    requires i <= |s|
    ensures |r| <= |s| - i
    ensures multiset(r) <= multiset(s[i..])
    decreases |s| - i
  {
    if i == |s| then []
    else
      match MapsMatchEnd(s, i)
      case Some(e) =>
        var r := RemoveMapsFrom(s, e);
        assert s[i..] == s[i..e] + s[e..];
        r
      case None =>
        assert s[i..] == [s[i]] + s[i + 1..];
        [s[i]] + RemoveMapsFrom(s, i + 1)
  }

  /** `re.sub("[mM]aps\s+[a-zA-Z].*", "", s)`: the result keeps only characters of `s`. */
  function RemoveMaps(s: string): (r: string)
    ensures |r| <= |s|
    ensures multiset(r) <= multiset(s)
  {
    assert s[0..] == s;
    RemoveMapsFrom(s, 0)
  }

  /** Text before the first match is kept as it is. */
  lemma {:induction false} RemoveMapsFromPrefix(s: string, a: nat, i: nat)
    requires a <= i <= |s|
    requires forall k :: a <= k < i ==> MapsMatchEnd(s, k).None?
    ensures RemoveMapsFrom(s, a) == s[a..i] + RemoveMapsFrom(s, i)
    decreases i - a
  {
    if a < i {
      RemoveMapsFromKeeps(s, a);
      RemoveMapsFromPrefix(s, a + 1, i);
      ConsSlice(s, a, i, RemoveMapsFrom(s, i));
    } else {
      assert s[a..i] == [];
    }
  }

  lemma ConsSlice<T>(s: seq<T>, a: nat, i: nat, rest: seq<T>)
    requires a < i <= |s|
    ensures [s[a]] + (s[a + 1..i] + rest) == s[a..i] + rest
  {
    assert s[a..i] == [s[a]] + s[a + 1..i];
  }

  /** Where no match starts, the character is kept. */
  lemma RemoveMapsFromKeeps(s: string, a: nat)
    requires a < |s| && MapsMatchEnd(s, a).None?
    ensures RemoveMapsFrom(s, a) == [s[a]] + RemoveMapsFrom(s, a + 1)
  {
  }

  /** The first match, starting at `i` and ending at `e`, is deleted and scanning resumes at `e`. */
  lemma RemoveMapsFirstMatch(s: string, i: nat, e: nat)
    requires i <= |s| && MapsMatchEnd(s, i) == Some(e)
    requires forall k :: 0 <= k < i ==> MapsMatchEnd(s, k).None?
    ensures RemoveMaps(s) == s[..i] + RemoveMapsFrom(s, e)
  {
    RemoveMapsFromPrefix(s, 0, i);
  }

  /** A match at or after `k` shortens what `RemoveMapsFrom(s, i)` keeps. */
  lemma {:induction false} RemoveMapsFromShortens(s: string, i: nat, k: nat, j: nat)
    requires i <= k && MapsAt(s, k, j)
    ensures |RemoveMapsFrom(s, i)| < |s| - i
    decreases |s| - i
  {
    match MapsMatchEnd(s, i)
    case Some(e) =>
    case None =>
      RemoveMapsFromShortens(s, i + 1, k, j);
  }

  /** `re.sub` changes the text exactly when the pattern occurs in it. */
  lemma RemoveMapsUnchanged(s: string)
    ensures RemoveMaps(s) == s <==> !HasMaps(s)
  {
    if HasMaps(s) {
      var k, j :| 0 <= k < j < |s| && MapsAt(s, k, j);
      RemoveMapsFromShortens(s, 0, k, j);
    } else {
      assert forall k :: 0 <= k < |s| ==> MapsMatchEnd(s, k).None?;
      RemoveMapsFromPrefix(s, 0, |s|);
    }
  }

  /**
   * `process_flat_address`: drop the "Maps and directions" tail, take the
   * `\S+\s.*` matches and strip each; every line is stripped and non-empty.
   */
  function ProcessFlatAddress(chunk: string): (r: seq<string>)
    ensures forall x :: x in r ==> x != [] && IsStripped(x)
  {
    StrippedWordLines(RemoveMaps(chunk))
  }

  /** The (attribute, processed text) pairs of a span address, in document order. */
  function SpanPairs(spans: seq<(string, string)>): (ps: seq<(string, FieldValue)>)
    ensures |ps| == |spans|
    ensures forall i :: 0 <= i < |spans| ==> ps[i] == (spans[i].0, ProcessSingleAndMultiLine(spans[i].1))
  {
    seq(|spans|, i requires 0 <= i < |spans| => (spans[i].0, ProcessSingleAndMultiLine(spans[i].1)))
  }

  /**
   * `process_span_address`: one entry per span attribute (the first attribute
   * value of each `span`), holding its processed text; a later span with the
   * same attribute overwrites an earlier one.
   */
  function ProcessSpanAddress(spans: seq<(string, string)>): (r: map<string, FieldValue>)
    ensures r.Keys == set sp | sp in spans :: sp.0
  {
    var ps := SpanPairs(spans);
    var attrs := set sp | sp in spans :: sp.0;
    var keys := set p | p in ps :: p.0;
    assert keys == attrs by {
      forall a | a in attrs ensures a in keys {
        var sp :| sp in spans && sp.0 == a;
        var i :| 0 <= i < |spans| && spans[i] == sp;
        assert ps[i] in ps;
      }
    }
    Dict.FromPairsKeys(ps);
    Dict.FromPairs(ps)
  }

  /** The span that is last for its attribute decides that attribute's value. */
  lemma SpanAddressLastWins(spans: seq<(string, string)>, j: nat)
    requires j < |spans|
    requires forall k :: j < k < |spans| ==> spans[k].0 != spans[j].0
    ensures ProcessSpanAddress(spans)[spans[j].0] == ProcessSingleAndMultiLine(spans[j].1)
  {
    Dict.FromPairsLastWins(SpanPairs(spans), j);
  }

  /**
   * A one-word line followed directly by a line feed takes the next line as its
   * rest: in `Court\nPhone: 123\nHigh Street\n` the label line `Phone: 123`
   * travels inside the match that starts at `Court`.
   */
  lemma ScannedLabelLine(s: string, word: string, phone: string, street: string)
    requires word == "Court" && phone == "Phone: 123" && street == "High Street"
    requires s == word + "\n" + phone + "\n" + street + "\n"
    ensures WordLines(s) == [word + "\n" + phone, street]
  {
    var w, l := "High", "Street";
    LabelLineParts(word, phone, street, w, l);
    OneWordLineTakesNext(word, phone, w, l);
  }

  /**
   * A line holding one word, then a line feed, then a line and a two-word
   * line: the scanner yields two items, the first spanning two lines.
   */
  lemma OneWordLineTakesNext(word: string, next: string, w: string, l: string)
    requires word != [] && forall k :: 0 <= k < |word| ==> !IsSpace(word[k])
    requires w != [] && forall k :: 0 <= k < |w| ==> !IsSpace(w[k])
    requires '\n' !in next && '\n' !in l
    ensures WordLines(word + "\n" + next + "\n" + (w + [' '] + l) + "\n") == [word + "\n" + next, w + [' '] + l]
  {
    var street := w + [' '] + l;
    OneWordLineFirst(word, next, street);
    TwoWordLineLast(w, l);
    ListOfTwo(word + "\n" + next, street);
  }

  lemma OneWordLineFirst(word: string, next: string, rest: string)
    requires word != [] && forall k :: 0 <= k < |word| ==> !IsSpace(word[k])
    requires '\n' !in next
    ensures WordLines(word + "\n" + next + "\n" + rest + "\n") == [word + "\n" + next] + WordLines("\n" + rest + "\n")
  {
    Regroup6(word, "\n", next, "\n", rest, "\n");
    WordLinesLeadingLine("", word, '\n', next, "\n" + rest + "\n");
  }

  lemma TwoWordLineLast(w: string, l: string)
    requires w != [] && forall k :: 0 <= k < |w| ==> !IsSpace(w[k])
    requires '\n' !in l
    ensures WordLines("\n" + (w + [' '] + l) + "\n") == [w + [' '] + l] + []
  {
    Regroup("\n", w, [' '], l, "\n");
    WordLinesLeadingLine("\n", w, ' ', l, "\n");
    assert "\n" == "\n" + "";
    WordLinesTrailingWord("\n", "");
  }

  lemma Regroup6<T>(a: seq<T>, b: seq<T>, c: seq<T>, d: seq<T>, e: seq<T>, f: seq<T>)
    ensures a + b + c + d + e + f == [] + a + b + c + (d + e + f)
  {
  }

  lemma ListOfTwo<T>(a: T, b: T)
    ensures [a] + ([b] + []) == [a, b]
  {
  }

  lemma LabelLineParts(word: string, phone: string, street: string, w: string, l: string)
    requires word == "Court" && phone == "Phone: 123" && street == "High Street"
    requires w == "High" && l == "Street"
    ensures word != [] && forall k :: 0 <= k < |word| ==> !IsSpace(word[k])
    ensures '\n' !in phone && '\n' !in l
    ensures w != [] && forall k :: 0 <= k < |w| ==> !IsSpace(w[k])
    ensures street == w + [' '] + l
  {
  }

  lemma LabelLineColons(word: string, phone: string, street: string)
    requires word == "Court" && phone == "Phone: 123" && street == "High Street"
    ensures '\n' !in word && ':' !in word && ':' in phone
    ensures '\n' !in street && ':' !in street
  {
  }
}
