/**
 * `get_courts`: the links of one A-Z index page become a map from court
 * name to the absolute URL of the court's page. The page itself is given
 * as its anchors, (visible text, href) pairs in document order.
 */
module Directory {
  import opened Dict

  /** The (name, URL) pairs stored, in order: anchors whose text is longer than one character. */
  function KeptLinks(base: string, anchors: seq<(string, string)>): (pairs: seq<(string, string)>)
    ensures |pairs| <= |anchors|
    ensures forall p :: p in pairs ==> |p.0| > 1
  {
    if anchors == [] then []
    else
      var a := anchors[|anchors| - 1];
      KeptLinks(base, anchors[..|anchors| - 1]) + (if |a.0| > 1 then [(a.0, base + a.1)] else [])
  }

  /** Filtering one more anchor extends the pairs by at most that anchor's pair. */
  lemma KeptLinksSnoc(base: string, anchors: seq<(string, string)>, a: (string, string))
    ensures KeptLinks(base, anchors + [a]) == KeptLinks(base, anchors) + (if |a.0| > 1 then [(a.0, base + a.1)] else [])
  {
    assert (anchors + [a])[..|anchors|] == anchors;
  }

  /** A name is kept exactly when some anchor has it as a text longer than one character. */
  lemma {:induction false} KeptNames(base: string, anchors: seq<(string, string)>, name: string)
    ensures (exists p :: p in KeptLinks(base, anchors) && p.0 == name) <==>
      |name| > 1 && exists i :: 0 <= i < |anchors| && anchors[i].0 == name
  {
    if anchors != [] {
      var front, a := anchors[..|anchors| - 1], anchors[|anchors| - 1];
      var kept := KeptLinks(base, front);
      var added := if |a.0| > 1 then [(a.0, base + a.1)] else [];
      assert anchors == front + [a];
      KeptLinksSnoc(base, front, a);
      KeptNames(base, front, name);
      if exists p: (string, string) :: p in kept + added && p.0 == name {
        var p: (string, string) :| p in kept + added && p.0 == name;
        if p in kept {
          var i :| 0 <= i < |front| && front[i].0 == name;
          assert anchors[i] == front[i];
        } else {
          assert anchors[|front|].0 == name;
        }
      }
      if |name| > 1 && exists i :: 0 <= i < |anchors| && anchors[i].0 == name {
        var i :| 0 <= i < |anchors| && anchors[i].0 == name;
        if i < |front| {
          assert front[i] == anchors[i];
          var p: (string, string) :| p in kept && p.0 == name;
          assert p in kept + added;
        } else {
          assert (a.0, base + a.1) in kept + added;
        }
      }
    }
  }

  /** A name is stored exactly when some anchor has it as a text longer than one character. */
  lemma CourtNames(base: string, anchors: seq<(string, string)>, name: string)
    ensures name in FromPairs(KeptLinks(base, anchors)) <==>
      |name| > 1 && exists i :: 0 <= i < |anchors| && anchors[i].0 == name
  {
    FromPairsKeys(KeptLinks(base, anchors));
    KeptNames(base, anchors, name);
  }

  /** The URL stored for a name comes from the last anchor with that text. */
  lemma {:induction false} CourtLinkLastWins(base: string, anchors: seq<(string, string)>, i: nat)
    requires i < |anchors| && |anchors[i].0| > 1
    requires forall j :: i < j < |anchors| ==> anchors[j].0 != anchors[i].0
    ensures anchors[i].0 in FromPairs(KeptLinks(base, anchors))
    ensures FromPairs(KeptLinks(base, anchors))[anchors[i].0] == base + anchors[i].1
  {
    var front, a := anchors[..|anchors| - 1], anchors[|anchors| - 1];
    assert anchors == front + [a];
    KeptLinksSnoc(base, front, a);
    if |a.0| > 1 {
      FromPairsSnoc(KeptLinks(base, front), (a.0, base + a.1));
    } else {
      assert KeptLinks(base, anchors) == KeptLinks(base, front);
    }
    if i < |front| {
      CourtLinkLastWins(base, front, i);
    }
  }

  /** Visiting anchor `i` stores its pair when its text is longer than one character. */
  lemma LinksStep(base: string, anchors: seq<(string, string)>, i: nat)
    requires i < |anchors|
    ensures FromPairs(KeptLinks(base, anchors[..i + 1])) ==
      if |anchors[i].0| > 1 then FromPairs(KeptLinks(base, anchors[..i]))[anchors[i].0 := base + anchors[i].1]
      else FromPairs(KeptLinks(base, anchors[..i]))
  {
    var a := anchors[i];
    assert anchors[..i + 1] == anchors[..i] + [a];
    KeptLinksSnoc(base, anchors[..i], a);
    if |a.0| > 1 {
      FromPairsSnoc(KeptLinks(base, anchors[..i]), (a.0, base + a.1));
    } else {
      assert KeptLinks(base, anchors[..i + 1]) == KeptLinks(base, anchors[..i]);
    }
  }

  /** The loop of `get_courts` over the anchors of one index page. */
  method GetCourts(base: string, anchors: seq<(string, string)>) returns (links: map<string, string>)
    ensures links == FromPairs(KeptLinks(base, anchors))
  {
    links := map[];
    var i := 0;
    while i < |anchors|
      invariant 0 <= i <= |anchors|
      invariant links == FromPairs(KeptLinks(base, anchors[..i]))
    {
      LinksStep(base, anchors, i);
      links := StoreLink(links, base, anchors[i]);
      i := i + 1;
    }
    assert anchors[..i] == anchors;
  }

  /** The body of the loop: a text longer than one character stores its absolute URL under that text. */
  method StoreLink(links: map<string, string>, base: string, anchor: (string, string)) returns (stored: map<string, string>)
    ensures |anchor.0| > 1 ==> stored == links[anchor.0 := base + anchor.1]
    ensures |anchor.0| <= 1 ==> stored == links
  {
    var (text, href) := anchor;
    stored := links;
    if |text| > 1 {
      stored := stored[text := base + href];
    }
  }
}
