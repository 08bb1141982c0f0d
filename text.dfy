/**
 * The string helpers of the scraper: `str.strip()`, `sep.join`, `str.split`,
 * colon removal, the line filter `remove_matched_line` and `list2line`,
 * and the three fixed regular expressions the record standardiser applies
 * to whole values (`.*:.*`, `.*enq.*` and a search for `solicitor`).
 *
 * Whitespace is Python 2's `\s` without the UNICODE flag: space, tab, line
 * feed, carriage return, vertical tab and form feed. `Strip` removes exactly
 * these, over the ASCII whitespace of `\s`. The regex `.` matches anything
 * but a line feed.
 */
module Text {
  import opened Wrappers

  predicate IsSpace(c: char) {
    c == ' ' || c == '\t' || c == '\n' || c == '\r' || c == '\U{000B}' || c == '\U{000C}'
  }

  predicate AllSpace(s: string) {
    forall k :: 0 <= k < |s| ==> IsSpace(s[k])
  }

  /** Neither end of `s` is whitespace. */
  predicate IsStripped(s: string) {
    s == [] || (!IsSpace(s[0]) && !IsSpace(s[|s| - 1]))
  }

  function TrimRight(s: string): (r: string)
    ensures |r| <= |s| && r == s[..|r|] && AllSpace(s[|r|..])
    ensures r == [] || !IsSpace(r[|r| - 1])
  {
    if s != [] && IsSpace(s[|s| - 1]) then
      var r := TrimRight(s[..|s| - 1]);
      assert s[|r|..] == s[..|s| - 1][|r|..] + [s[|s| - 1]];
      r
    else s
  }

  function TrimLeft(s: string): (r: string)
    ensures |r| <= |s| && r == s[|s| - |r|..] && AllSpace(s[..|s| - |r|])
    ensures r == [] || !IsSpace(r[0])
  {
    if s != [] && IsSpace(s[0]) then
      var r := TrimLeft(s[1..]);
      TrimLeftStep(s, r);
      r
    else s
  }

  /** Cutting one more leading whitespace character: the kept suffix and blank front carry over to `s`. */
  lemma TrimLeftStep(s: string, r: string)
    requires s != [] && IsSpace(s[0]) && |r| <= |s| - 1
    requires r == s[1..][|s| - 1 - |r|..] && AllSpace(s[1..][..|s| - 1 - |r|])
    ensures r == s[|s| - |r|..] && AllSpace(s[..|s| - |r|])
  {
    var n := |s| - |r|;
    assert s[1..][n - 1..] == s[n..];
    forall k | 0 < k < n ensures IsSpace(s[..n][k]) {
      assert s[..n][k] == s[1..][..n - 1][k - 1];
    }
  }

  /** `s.strip()`: the infix of `s` left when all leading and trailing whitespace is cut off. */
  function Strip(s: string): (r: string)
    ensures IsStripped(r)
    ensures StripStart(s) + |r| <= |s| && r == s[StripStart(s)..StripStart(s) + |r|]
    ensures AllSpace(s[..StripStart(s)]) && AllSpace(s[StripStart(s) + |r|..])
  {
    var t := TrimRight(s);
    var r := TrimLeft(t);
    StripSlices(s, t, r, StripStart(s));
    r
  }

  /** Where the text `Strip` keeps begins in `s`: after the leading whitespace. */
  function StripStart(s: string): nat {
    |TrimRight(s)| - |TrimLeft(TrimRight(s))|
  }

  /**
   * The slices behind `Strip`: when `t` is `s` without trailing whitespace and `r`
   * is `t` without leading whitespace, `r` is the slice of `s` at `i` with only
   * whitespace around it.
   */
  lemma StripSlices(s: string, t: string, r: string, i: nat)
    requires |t| <= |s| && t == s[..|t|] && AllSpace(s[|t|..])
    requires t == [] || !IsSpace(t[|t| - 1])
    requires |r| <= |t| && r == t[|t| - |r|..] && AllSpace(t[..|t| - |r|])
    requires r == [] || !IsSpace(r[0])
    requires i + |r| == |t|
    ensures IsStripped(r)
    ensures i + |r| <= |s| && r == s[i..i + |r|]
    ensures AllSpace(s[..i]) && AllSpace(s[i + |r|..])
  {
    assert s[..i] == t[..i];
    if r != [] {
      assert r[|r| - 1] == t[|t| - 1];
    }
  }

  /** Stripping keeps any text that has a non-whitespace character. */
  lemma StripNonEmpty(s: string, k: nat)
    requires k < |s| && !IsSpace(s[k])
    ensures Strip(s) != []
  {
    InsideBlankFrame(s, StripStart(s), |Strip(s)|, k);
  }

  /** A non-whitespace character lies inside any frame that has only whitespace outside it. */
  lemma InsideBlankFrame(s: string, i: nat, n: nat, k: nat)
    requires i + n <= |s| && AllSpace(s[..i]) && AllSpace(s[i + n..])
    requires k < |s| && !IsSpace(s[k])
    ensures i <= k < i + n
  {
    assert forall j :: 0 <= j < i ==> s[..i][j] == s[j];
    assert forall j :: i + n <= j < |s| ==> s[i + n..][j - i - n] == s[j];
  }

  /** `strip()` changes nothing in an already stripped text, so it is idempotent. */
  lemma StripStripped(s: string)
    requires IsStripped(s)
    ensures Strip(s) == s
  {
    if s != [] {
      assert TrimRight(s) == s;
    }
  }

  /** One trailing whitespace character after stripped text is removed by `Strip`. */
  lemma StripTrailing(x: string, c: char)
    requires x != [] && IsStripped(x) && IsSpace(c)
    ensures Strip(x + [c]) == x
  {
    assert (x + [c])[..|x|] == x;
    assert TrimRight(x + [c]) == TrimRight(x) == x;
  }

  /** `sep.join(items)` for a one-character separator. */
  function Join(items: seq<string>, sep: char): (r: string)
    ensures items == [] ==> r == ""
    ensures items != [] ==> |items[0]| <= |r| && r[..|items[0]|] == items[0]
  {
    if |items| == 0 then ""
    else if |items| == 1 then items[0]
    else
      var r := items[0] + [sep] + Join(items[1..], sep);
      assert r[..|items[0]|] == items[0];
      r
  }

  /** Joining separator-free items puts exactly one separator between every two of them. */
  lemma {:induction false} JoinSeparatorCount(items: seq<string>, sep: char)
    ensures items != [] && (forall x :: x in items ==> sep !in x) ==> multiset(Join(items, sep))[sep] + 1 == |items|
  {
    if items != [] && forall x :: x in items ==> sep !in x {
      JoinSeparatorCountFree(items, sep);
    }
  }

  lemma {:induction false} JoinSeparatorCountFree(items: seq<string>, sep: char)
    requires items != [] && forall x :: x in items ==> sep !in x
    ensures multiset(Join(items, sep))[sep] + 1 == |items|
  {
    assert items[0] in items;
    if |items| > 1 {
      var rest := Join(items[1..], sep);
      assert forall x :: x in items[1..] ==> x in items;
      JoinSeparatorCountFree(items[1..], sep);
      assert multiset(items[0] + [sep] + rest) == multiset(items[0]) + multiset([sep]) + multiset(rest);
    }
  }

  /** `s.split(sep)` for a one-character separator (the empty text splits into one empty part). */
  function Split(s: string, sep: char): (parts: seq<string>)
    ensures |parts| >= 1
  {
    if s == [] then [""]
    else
      var rest := Split(s[1..], sep);
      if s[0] == sep then [""] + rest else [[s[0]] + rest[0]] + rest[1..]
  }

  lemma {:induction false} SplitSeparatorFreePrefix(x: string, t: string, sep: char)
    requires sep !in x
    ensures Split(x + t, sep) == [x + Split(t, sep)[0]] + Split(t, sep)[1..]
  {
    if x != [] {
      assert (x + t)[1..] == x[1..] + t;
      SplitSeparatorFreePrefix(x[1..], t, sep);
      assert [x[0]] + (x[1..] + Split(t, sep)[0]) == x + Split(t, sep)[0];
    } else {
      assert x + t == t;
      assert x + Split(t, sep)[0] == Split(t, sep)[0];
      assert Split(t, sep) == [Split(t, sep)[0]] + Split(t, sep)[1..];
    }
  }

  /** Joining and splitting again gives back the items, provided no item contains the separator. */
  lemma {:induction false} SplitJoin(items: seq<string>, sep: char)
    requires |items| > 0
    requires forall x :: x in items ==> sep !in x
    ensures Split(Join(items, sep), sep) == items
  {
    var x := items[0];
    assert x in items;
    if |items| == 1 {
      SplitSeparatorFreePrefix(x, "", sep);
      assert x + "" == x;
    } else {
      var tail := items[1..];
      var rest := Join(tail, sep);
      assert forall y :: y in tail ==> y in items;
      SplitJoin(tail, sep);
      JoinCons(items, sep);
      SplitSeparatorFreePrefix(x, [sep] + rest, sep);
      SplitAfterSeparator(rest, sep);
      assert x + "" == x;
      assert items == [x] + tail;
    }
  }

  /** Text starting with the separator splits into an empty part followed by the parts of the rest. */
  lemma SplitAfterSeparator(rest: string, sep: char)
    ensures Split([sep] + rest, sep) == [""] + Split(rest, sep)
  {
    assert ([sep] + rest)[1..] == rest;
  }

  lemma JoinCons(items: seq<string>, sep: char)
    requires |items| > 1
    ensures Join(items, sep) == items[0] + ([sep] + Join(items[1..], sep))
  {
  }

  /** `re.sub(c, "", s)` for a single literal character `c`. */
  function DeleteAll(s: string, c: char): (r: string)
    ensures c !in r
    ensures multiset(r) == multiset(s)[c := 0]
    ensures c !in s ==> r == s
  {
    if s == [] then []
    else
      assert s == [s[0]] + s[1..];
      (if s[0] == c then [] else [s[0]]) + DeleteAll(s[1..], c)
  }

  /** Deleting works character by character, so the kept characters stay in their order. */
  lemma {:induction false} DeleteAllConcat(a: string, b: string, c: char)
    ensures DeleteAll(a + b, c) == DeleteAll(a, c) + DeleteAll(b, c)
  {
    if a != [] {
      var head: string := if a[0] == c then [] else [a[0]];
      TailOfConcat(a, b);
      DeleteAllCons(a + b, c);
      DeleteAllCons(a, c);
      DeleteAllConcat(a[1..], b, c);
      ConcatAssoc(head, DeleteAll(a[1..], c), DeleteAll(b, c));
    } else {
      assert a + b == b;
    }
  }

  lemma TailOfConcat<T>(a: seq<T>, b: seq<T>)
    requires a != []
    ensures (a + b)[0] == a[0] && (a + b)[1..] == a[1..] + b
  {
  }

  lemma ConcatAssoc<T>(x: seq<T>, y: seq<T>, z: seq<T>)
    ensures x + (y + z) == (x + y) + z
  {
  }

  lemma DeleteAllCons(s: string, c: char)
    requires s != []
    ensures DeleteAll(s, c) == (if s[0] == c then [] else [s[0]]) + DeleteAll(s[1..], c)
  {
  }

  /** `remove_colon`: every colon is gone and every other character is kept. */
  function RemoveColon(s: string): (r: string)
    ensures ':' !in r
    ensures forall c :: c != ':' ==> multiset(r)[c] == multiset(s)[c]
    ensures ':' !in s ==> r == s
  {
    DeleteAll(s, ':')
  }

  /** Colons are removed piece by piece: the other characters keep their order. */
  lemma RemoveColonConcat(a: string, b: string)
    ensures RemoveColon(a + b) == RemoveColon(a) + RemoveColon(b)
  {
    DeleteAllConcat(a, b, ':');
  }

  /** Deleting the colons a second time changes nothing. */
  lemma RemoveColonIdempotent(s: string)
    ensures RemoveColon(RemoveColon(s)) == RemoveColon(s)
  {
  }

  /** Index of the first line feed at or after `i`, or `|s|`. */
  function LineEnd(s: string, i: nat): (e: nat)
    requires i <= |s|
    ensures i <= e <= |s|
    ensures e < |s| ==> s[e] == '\n'
    ensures forall k :: i <= k < e ==> s[k] != '\n'
    decreases |s| - i
  {
    if i == |s| || s[i] == '\n' then i else LineEnd(s, i + 1)
  }

  /** What `.*` matches at the start of `s`: the text before the first line feed. */
  function FirstLine(s: string): (r: string)
    ensures '\n' !in r
    ensures |r| <= |s| && r == s[..|r|]
    ensures |r| < |s| ==> s[|r|] == '\n'
  {
    s[..LineEnd(s, 0)]
  }

  /** `re.search(p, s)` for a literal pattern `p`: `p` occurs somewhere in `s`. */
  predicate Contains(s: string, p: string)
    decreases |s|
  {
    |p| <= |s| && (s[..|p|] == p || Contains(s[1..], p))
  }

  /** `p` occurs in `s` starting at index `i`. */
  predicate OccursAt(s: string, p: string, i: nat) {
    i + |p| <= |s| && s[i..i + |p|] == p
  }

  /** `Contains` is the substring search: `p` occurs at some index of `s`. */
  lemma {:induction false} ContainsAt(s: string, p: string)
    ensures Contains(s, p) <==> exists i: nat :: OccursAt(s, p, i)
    decreases |s|
  {
    if |p| <= |s| {
      if s[..|p|] == p {
        assert OccursAt(s, p, 0);
      } else {
        ContainsAt(s[1..], p);
        if Contains(s[1..], p) {
          var j: nat :| OccursAt(s[1..], p, j);
          assert s[j + 1..j + 1 + |p|] == s[1..][j..j + |p|];
          assert OccursAt(s, p, j + 1);
        }
        if exists i: nat :: OccursAt(s, p, i) {
          var i: nat :| OccursAt(s, p, i);
          assert i != 0;
          assert s[1..][i - 1..i - 1 + |p|] == s[i..i + |p|];
          assert OccursAt(s[1..], p, i - 1);
        }
      }
    }
  }

  /** Whether `re.match('.*:.*', s)` succeeds: a colon before the first line feed. */
  predicate MatchesColonLine(s: string)
    ensures MatchesColonLine(s) <==> ':' in FirstLine(s)
    ensures '\n' !in s ==> (MatchesColonLine(s) <==> ':' in s)
  {
    var f := FirstLine(s);
    assert '\n' !in s ==> f == s;
    ':' in f
  }

  /** `re.match('.*enq.*', s).group(0)`: the whole first line when it contains "enq". */
  function EnquiryMatch(s: string): (m: Option<string>)
    ensures m.Some? ==> '\n' !in m.value && |m.value| <= |s| && m.value == s[..|m.value|] && Contains(m.value, "enq")
    ensures m.None? <==> !Contains(FirstLine(s), "enq")
    ensures m.Some? ==> m.value == FirstLine(s)
  {
    if Contains(FirstLine(s), "enq") then Some(FirstLine(s)) else None
  }

  /** Whether `re.findall('solicitor', s)` finds anything. */
  predicate MentionsSolicitor(s: string)
    ensures MentionsSolicitor(s) <==> exists i: nat :: OccursAt(s, "solicitor", i)
    ensures MentionsSolicitor(s) ==> 9 <= |s|
  {
    ContainsAt(s, "solicitor");
    Contains(s, "solicitor")
  }

  /** `remove_matched_line`: the lines `matches` rejects, in their original order. */
  function RemoveMatchedLine(matches: string -> bool, lines: seq<string>): (r: seq<string>)
    ensures |r| <= |lines|
    ensures forall x :: x in r ==> x in lines && !matches(x)
    ensures forall x :: x in lines && !matches(x) ==> x in r
  {
    if |lines| == 0 then []
    else (if matches(lines[0]) then [] else [lines[0]]) + RemoveMatchedLine(matches, lines[1..])
  }

  /** Filtering one more line appends it exactly when it does not match. */
  lemma RemoveMatchedLineSnoc(matches: string -> bool, xs: seq<string>, j: nat)
    requires j < |xs|
    ensures RemoveMatchedLine(matches, xs[..j + 1]) ==
      RemoveMatchedLine(matches, xs[..j]) + (if matches(xs[j]) then [] else [xs[j]])
  {
    assert xs[..j + 1] == xs[..j] + [xs[j]];
    RemoveMatchedLineConcat(matches, xs[..j], [xs[j]]);
    assert [xs[j]][1..] == [];
  }

  /** The filter works line by line: filtering a concatenation concatenates the filtered parts. */
  lemma {:induction false} RemoveMatchedLineConcat(matches: string -> bool, a: seq<string>, b: seq<string>)
    ensures RemoveMatchedLine(matches, a + b) == RemoveMatchedLine(matches, a) + RemoveMatchedLine(matches, b)
  {
    if |a| > 0 {
      var head := if matches(a[0]) then [] else [a[0]];
      TailOfConcat(a, b);
      RemoveMatchedLineCons(matches, a + b);
      RemoveMatchedLineCons(matches, a);
      RemoveMatchedLineConcat(matches, a[1..], b);
      ConcatAssoc(head, RemoveMatchedLine(matches, a[1..]), RemoveMatchedLine(matches, b));
    } else {
      assert a + b == b;
    }
  }

  lemma RemoveMatchedLineCons(matches: string -> bool, lines: seq<string>)
    requires lines != []
    ensures RemoveMatchedLine(matches, lines) ==
      (if matches(lines[0]) then [] else [lines[0]]) + RemoveMatchedLine(matches, lines[1..])
  {
  }

  /** Filtering a second time removes nothing more. */
  lemma {:induction false} RemoveMatchedLineIdempotent(matches: string -> bool, lines: seq<string>)
    ensures RemoveMatchedLine(matches, RemoveMatchedLine(matches, lines)) == RemoveMatchedLine(matches, lines)
  {
    if |lines| > 0 {
      var head := if matches(lines[0]) then [] else [lines[0]];
      var tail := RemoveMatchedLine(matches, lines[1..]);
      RemoveMatchedLineIdempotent(matches, lines[1..]);
      RemoveMatchedLineConcat(matches, head, tail);
      if !matches(lines[0]) {
        assert [lines[0]][1..] == [];
      }
    }
  }

  predicate AllPresent(items: seq<Option<string>>) {
    forall i :: 0 <= i < |items| ==> items[i].Some?
  }

  /** The strings of a list that holds no `None`. */
  function Present(items: seq<Option<string>>): (r: seq<string>)
    requires AllPresent(items)
    ensures |r| == |items|
    ensures forall i :: 0 <= i < |items| ==> r[i] == items[i].value
  {
    if |items| == 0 then [] else [items[0].value] + Present(items[1..])
  }

  /** The list `[Some(x) for x in xs]`. */
  function AllSome(xs: seq<string>): (r: seq<Option<string>>)
    ensures |r| == |xs| && AllPresent(r) && Present(r) == xs
  {
    seq(|xs|, i requires 0 <= i < |xs| => Some(xs[i]))
  }

  /** Appending one string appends its `Some`. */
  lemma AllSomeSnoc(xs: seq<string>, x: string)
    ensures AllSome(xs + [x]) == AllSome(xs) + [Some(x)]
  {
  }

  /**
   * `list2line`: the comma-joined strings, or `None` when the list holds a
   * `None` (the join raises and the exception is swallowed).
   */
  function List2Line(items: seq<Option<string>>): (r: Option<string>)
    ensures r.None? <==> !AllPresent(items)
    ensures items == [] ==> r == Some("")
  {
    if AllPresent(items) then Some(Join(Present(items), ',')) else None
  }

  /** A non-empty list of comma-free strings is recovered by splitting the joined line at commas. */
  lemma List2LineRoundTrip(items: seq<Option<string>>)
    requires |items| > 0 && AllPresent(items)
    requires forall x :: x in Present(items) ==> ',' !in x
    ensures List2Line(items).Some?
    ensures Split(List2Line(items).value, ',') == Present(items)
  {
    SplitJoin(Present(items), ',');
  }
}
