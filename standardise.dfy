/**
 * `standardise_dict_data_output` and `check_val`: one raw court record
 * (court name, URL, codes, addresses and contact dict) becomes the fields
 * of one CSV row.
 */
module Standardise {
  import opened Wrappers
  import opened Dict
  import opened Text
  import opened AddressText
  import opened Extraction

  /** `details_dict`: what the driver collects for one court. */
  datatype RawCourt = RawCourt(
    court: string,
    url: string,
    pros: map<string, string>,
    address: seq<AddressEntry>,
    contact: Assoc<string, ContactValue>)

  /**
   * One value of the `addresses` dict the standardiser builds: town, region
   * and street for a span address, only the street for a flat address.
   */
  datatype FoldedAddress =
    | SpanFold(town: Option<FieldValue>, region: Option<FieldValue>, streetAddress: string)
    | FlatFold(streetAddress: string)

  /**
   * The telephone or email field: the list itself when the record has no
   * contacts, otherwise the list passed through `list2line`.
   */
  datatype ContactField = Unconverted(items: seq<Option<string>>) | Converted(line: Option<string>)

  /** The tuple `standardise_dict_data_output` returns. */
  datatype Standardised = Standardised(
    courtName: string,
    crownCourtId: Option<string>,
    countyCourtId: Option<string>,
    telephone: ContactField,
    email: ContactField,
    addresses: map<string, FoldedAddress>)

  const CrownCodeKey := "Crown Court location code"
  const CountyCodeKey := "County Court location code"
  const TelephoneKey := "telephone - Enquiries:"
  const EmailKey := "email - Enquiries:"
  const StreetKey := "streetAddress"
  const TownKey := "addressLocality"
  const RegionKey := "addressRegion"

  /** The characters of a text, each as a one-character string. */
  function Chars(t: string): (cs: seq<string>)
    ensures |cs| == |t|
    ensures forall i :: 0 <= i < |t| ==> cs[i] == [t[i]]
  {
    seq(|t|, i requires 0 <= i < |t| => [t[i]])
  }

  /**
   * `"\n".join(v)` for the `streetAddress` value of a span address: a list
   * of lines is joined by line feeds, and a plain string, being iterable, is
   * joined character by character.
   */
  function JoinStreet(v: FieldValue): (street: string)
    ensures v.Lines? && v.lines != [] && (forall x :: x in v.lines ==> '\n' !in x) ==>
      multiset(street)['\n'] + 1 == |v.lines|
    ensures v.Line? && v.text != [] && '\n' !in v.text ==> multiset(street)['\n'] + 1 == |v.text|
  {
    match v
    case Lines(lines) =>
      JoinSeparatorCount(lines, '\n');
      Join(lines, '\n')
    case Line(text) =>
      CharsWithout(text, '\n');
      JoinSeparatorCount(Chars(text), '\n');
      Join(Chars(text), '\n')
  }

  /** A character missing from a text is missing from each of its one-character strings. */
  lemma CharsWithout(text: string, c: char)
    ensures c !in text ==> forall x :: x in Chars(text) ==> c !in x
  {
    var cs := Chars(text);
    forall x | x in cs ensures c !in text ==> c !in x {
      var i :| 0 <= i < |cs| && cs[i] == x;
    }
  }

  /** Splitting a joined street list at line feeds gives the lines back. */
  lemma StreetLinesRoundTrip(lines: seq<string>)
    requires lines != [] && forall x :: x in lines ==> '\n' !in x
    ensures Split(JoinStreet(Lines(lines)), '\n') == lines
  {
    SplitJoin(lines, '\n');
  }

  /** A one-line street string comes out with a line feed between every two characters. */
  lemma StreetTextSpelledOut(text: string)
    requires text != [] && '\n' !in text
    ensures Split(JoinStreet(Line(text)), '\n') == Chars(text)
  {
    CharsWithout(text, '\n');
    SplitJoin(Chars(text), '\n');
  }

  /** The addresses the standardiser can process: every span address has a street. */
  predicate HasStreets(entries: seq<AddressEntry>) {
    forall e :: e in entries && e.value.Span? ==> StreetKey in e.value.fields
  }

  /** The value stored in `addresses` for one address entry. */
  function FoldAddress(v: AddressValue): (f: FoldedAddress)
    requires v.Span? ==> StreetKey in v.fields
    ensures f.SpanFold? <==> v.Span?
    ensures v.Span? ==> f.town == Lookup(v.fields, TownKey) && f.region == Lookup(v.fields, RegionKey)
    ensures v.Span? ==> f.streetAddress == JoinStreet(v.fields[StreetKey])
  {
    match v
    case Span(fields) => SpanFold(Lookup(fields, TownKey), Lookup(fields, RegionKey), JoinStreet(fields[StreetKey]))
    case Flat(lines) => FlatFold(Join(RemoveMatchedLine(MatchesColonLine, lines), '\n'))
  }

  /** The street of a flat address holds exactly its lines without a colon, in order. */
  lemma FlatStreetLines(lines: seq<string>)
    requires forall x :: x in lines ==> '\n' !in x
    requires RemoveMatchedLine(MatchesColonLine, lines) != []
    ensures Split(FoldAddress(Flat(lines)).streetAddress, '\n') == RemoveMatchedLine(MatchesColonLine, lines)
    ensures forall x :: x in Split(FoldAddress(Flat(lines)).streetAddress, '\n') ==> ':' !in x
  {
    var kept := RemoveMatchedLine(MatchesColonLine, lines);
    var street := FoldAddress(Flat(lines)).streetAddress;
    assert street == Join(kept, '\n');
    forall x | x in kept ensures '\n' !in x && ':' !in x {
      assert x in lines && !MatchesColonLine(x);
    }
    SplitJoin(kept, '\n');
  }

  /**
   * `re.match` looks only at the first line of an item, so a one-word line
   * scanned together with the label line after it keeps that label: both
   * lines reach the street, whatever colon the label holds.
   */
  lemma ColonLabelAfterOneWordLine(word: string, tag: string, lines: seq<string>)
    requires '\n' !in word && ':' !in word && '\n' !in tag
    requires forall x :: x in lines ==> '\n' !in x && ':' !in x
    ensures Split(FoldAddress(Flat([word + "\n" + tag] + lines)).streetAddress, '\n') == [word, tag] + lines
    ensures tag in Split(FoldAddress(Flat([word + "\n" + tag] + lines)).streetAddress, '\n')
  {
    var first := word + "\n" + tag;
    assert FirstLine(first) == word by {
      assert first[|word|] == '\n' && first[..|word|] == word;
    }
    forall x | x in [first] + lines ensures !MatchesColonLine(x) {
      if x != first {
        assert x in lines;
      }
    }
    NoColonKeepsAll([first] + lines);
    var street := FoldAddress(Flat([first] + lines)).streetAddress;
    assert street == Join([first] + lines, '\n');
    JoinOneWordLine(word, tag, lines);
    forall x | x in [word, tag] + lines ensures '\n' !in x {
      if x != word && x != tag {
        assert x in lines;
      }
    }
    SplitJoin([word, tag] + lines, '\n');
  }

  /**
   * A one-word line, a line and a two-word line: the scanner yields two
   * items and the street of the flat address gets all three lines back.
   */
  lemma OneWordLineStreet(word: string, next: string, w: string, l: string)
    requires word != [] && forall k :: 0 <= k < |word| ==> !IsSpace(word[k])
    requires w != [] && forall k :: 0 <= k < |w| ==> !IsSpace(w[k])
    requires '\n' !in next && '\n' !in l
    requires ':' !in word && ':' !in w + [' '] + l
    ensures Split(FoldAddress(Flat(WordLines(word + "\n" + next + "\n" + (w + [' '] + l) + "\n"))).streetAddress, '\n')
      == [word, next, w + [' '] + l]
  {
    var street := w + [' '] + l;
    var first := word + "\n" + next;
    assert WordLines(first + "\n" + street + "\n") == [first] + [street] by {
      OneWordLineTakesNext(word, next, w, l);
      PairAsCons(first, street);
    }
    assert '\n' !in word && '\n' !in street by {
      NoSpaceNoLineFeed(word);
      NoSpaceNoLineFeed(w);
    }
    assert Split(FoldAddress(Flat([first] + [street])).streetAddress, '\n') == [word, next, street] by {
      ColonLabelAfterOneWordLine(word, next, [street]);
      TripleAsCons(word, next, street);
    }
  }

  lemma PairAsCons<T>(a: T, b: T)
    ensures [a, b] == [a] + [b]
  {
  }

  lemma TripleAsCons<T>(a: T, b: T, c: T)
    ensures [a, b] + [c] == [a, b, c]
  {
  }

  /** A word of non-space characters holds no line feed. */
  lemma NoSpaceNoLineFeed(word: string)
    requires forall k :: 0 <= k < |word| ==> !IsSpace(word[k])
    ensures '\n' !in word
  {
    forall k | 0 <= k < |word| ensures word[k] != '\n' {
      assert !IsSpace(word[k]);
    }
  }

  /**
   * The flat text `Court\nPhone: 123\nHigh Street\n`: the street built from
   * its scanned lines keeps the label line `Phone: 123`, colon and all.
   */
  lemma LabelLineReachesStreet(s: string, word: string, phone: string, street: string)
    requires word == "Court" && phone == "Phone: 123" && street == "High Street"
    requires s == word + "\n" + phone + "\n" + street + "\n"
    ensures Split(FoldAddress(Flat(WordLines(s))).streetAddress, '\n') == [word, phone, street]
    ensures ':' in phone
  {
    var w, l := "High", "Street";
    LabelLineParts(word, phone, street, w, l);
    LabelLineColons(word, phone, street);
    OneWordLineStreet(word, phone, w, l);
  }

  /** Joining with a line feed cannot tell a two-line item from its two lines. */
  lemma JoinOneWordLine(word: string, tag: string, lines: seq<string>)
    ensures Join([word + "\n" + tag] + lines, '\n') == Join([word, tag] + lines, '\n')
  {
    var first := word + "\n" + tag;
    JoinCons([word, tag] + lines, '\n');
    assert ([word, tag] + lines)[1..] == [tag] + lines;
    if lines == [] {
      assert Join([tag], '\n') == tag;
    } else {
      JoinCons([first] + lines, '\n');
      assert ([first] + lines)[1..] == lines;
      JoinCons([tag] + lines, '\n');
      assert ([tag] + lines)[1..] == lines;
    }
  }

  /** The (kind, folded address) pairs, in the order of the entries. */
  function FoldPairs(entries: seq<AddressEntry>): (ps: seq<(string, FoldedAddress)>)
    requires HasStreets(entries)
    ensures |ps| == |entries|
    ensures forall i :: 0 <= i < |entries| ==> ps[i] == (entries[i].kind, FoldAddress(entries[i].value))
  {
    seq(|entries|, i requires 0 <= i < |entries| && HasStreets(entries) =>
      assert entries[i] in entries; (entries[i].kind, FoldAddress(entries[i].value)))
  }

  /** The `addresses` dict: each entry stored under its kind, a later one overwriting. */
  function FoldAddresses(entries: seq<AddressEntry>): (addresses: map<string, FoldedAddress>)
    requires HasStreets(entries)
    ensures entries == [] ==> addresses == map[]
    ensures entries != [] ==> var last := entries[|entries| - 1];
      last.kind in addresses && addresses[last.kind] == FoldAddress(last.value)
  {
    FromPairs(FoldPairs(entries))
  }

  /** One more entry stores its folded address under its kind. */
  lemma FoldAddressesStep(entries: seq<AddressEntry>, i: nat)
    requires i < |entries| && HasStreets(entries)
    ensures HasStreets(entries[..i]) && HasStreets(entries[..i + 1])
    ensures FoldAddresses(entries[..i + 1]) ==
      FoldAddresses(entries[..i])[entries[i].kind := FoldAddress(entries[i].value)]
  {
    var item := entries[i];
    assert item in entries;
    assert forall e :: e in entries[..i + 1] ==> e in entries;
    FoldPairsSnoc(entries, i);
    FromPairsSnoc(FoldPairs(entries[..i]), (item.kind, FoldAddress(item.value)));
  }

  lemma FoldPairsSnoc(entries: seq<AddressEntry>, i: nat)
    requires i < |entries| && HasStreets(entries[..i + 1]) && HasStreets(entries[..i])
    requires entries[i].value.Span? ==> StreetKey in entries[i].value.fields
    ensures FoldPairs(entries[..i + 1]) == FoldPairs(entries[..i]) + [(entries[i].kind, FoldAddress(entries[i].value))]
  {
    var after := FoldPairs(entries[..i + 1]);
    var want := FoldPairs(entries[..i]) + [(entries[i].kind, FoldAddress(entries[i].value))];
    assert |after| == |want|;
    forall k | 0 <= k < |after| ensures after[k] == want[k] {
      assert entries[..i + 1][k] == entries[k];
      if k < i {
        assert entries[..i][k] == entries[k];
      }
    }
  }

  /** Every kind that occurs is stored, and nothing else. */
  lemma AddressKinds(entries: seq<AddressEntry>, kind: string)
    requires HasStreets(entries)
    ensures kind in FoldAddresses(entries) <==> exists i :: 0 <= i < |entries| && entries[i].kind == kind
  {
    var ps := FoldPairs(entries);
    FromPairsKeys(ps);
    if kind in FoldAddresses(entries) {
      var p :| p in ps && p.0 == kind;
      var i :| 0 <= i < |ps| && ps[i] == p;
    }
    if exists i :: 0 <= i < |entries| && entries[i].kind == kind {
      var i :| 0 <= i < |entries| && entries[i].kind == kind;
      assert ps[i] in ps;
    }
  }

  /** The last entry of a kind decides what is stored for it. */
  lemma AddressLastWins(entries: seq<AddressEntry>, j: nat)
    requires HasStreets(entries)
    requires j < |entries|
    requires forall k :: j < k < |entries| ==> entries[k].kind != entries[j].kind
    ensures entries[j].kind in FoldAddresses(entries)
    ensures FoldAddresses(entries)[entries[j].kind] == FoldAddress(entries[j].value)
  {
    var ps := FoldPairs(entries);
    assert entries[j] in entries;
    FromPairsLastWins(ps, j);
  }

  /** The telephone list built from the `telephone - Enquiries:` value. */
  function TelephoneItems(tele: Option<ContactValue>): (items: seq<Option<string>>)
    ensures tele.Some? && tele.value.Multiple? ==>
      |items| == |tele.value.items| && forall i :: 0 <= i < |items| ==> items[i] == Some(tele.value.items[0])
    ensures !(tele.Some? && tele.value.Multiple?) ==> |items| == 1
    ensures !(tele.Some? && tele.value.Multiple?) ==>
      (items[0].Some? <==> tele.Some? && tele.value.text != "")
    ensures tele.Some? && tele.value.Single? && tele.value.text != "" ==> items == [Some(tele.value.text)]
  {
    match tele
    case Some(Multiple(xs)) => seq(|xs|, i requires 0 <= i < |xs| => Some(xs[0]))
    case Some(Single(t)) => [if t != "" then Some(t) else None]
    case None => [None]
  }

  /** Python truthiness of a looked-up contact value. */
  predicate Truthy(v: Option<ContactValue>)
    ensures Truthy(v) <==> v.Some? && v.value != Single("") && v.value != Multiple([])
  {
    match v
    case None => false
    case Some(Single(t)) => t != ""
    case Some(Multiple(xs)) => xs != []
  }

  /** The email list built from a truthy `email - Enquiries:` value. */
  function EnquiryEmailItems(v: ContactValue): (items: seq<Option<string>>)
    ensures v.Multiple? ==> AllPresent(items) && Present(items) == RemoveMatchedLine(MentionsSolicitor, v.items)
    ensures v.Single? ==> items == [if MentionsSolicitor(v.text) then None else Some(v.text)]
  {
    match v
    case Multiple(xs) => AllSome(RemoveMatchedLine(MentionsSolicitor, xs))
    case Single(t) => if MentionsSolicitor(t) then [None] else [Some(t)]
  }

  /** The value the fallback loop's `line` holds after visiting one contact value. */
  function LineAfter(line: Option<string>, v: ContactValue): (after: Option<string>)
    ensures line.Some? ==> after.Some?
    ensures v.Single? ==> after == Some(v.text)
    ensures v.Multiple? && v.items != [] ==> after == Some(v.items[|v.items| - 1])
    ensures v == Multiple([]) ==> after == line
  {
    match v
    case Single(t) => Some(t)
    case Multiple(xs) => if xs == [] then line else Some(xs[|xs| - 1])
  }

  /** What one visited line adds to the email list: its first line, when that mentions "enq" and the line has no "solicitor". */
  function Contribution(line: string): (found: seq<string>)
    ensures |found| <= 1
    ensures found == [] <==> MentionsSolicitor(line) || !Contains(FirstLine(line), "enq")
    ensures found != [] ==> found[0] == FirstLine(line) && Contains(found[0], "enq")
  {
    if MentionsSolicitor(line) then []
    else match EnquiryMatch(line)
      case Some(m) => [m]
      case None => []
  }

  /** The fallback loop over the contact values: the final `line` and every match it appended. */
  function Fallback(values: seq<ContactValue>): (state: (Option<string>, seq<string>))
    ensures forall x :: x in state.1 ==> '\n' !in x && Contains(x, "enq")
  {
    if values == [] then (None, [])
    else
      var prev := Fallback(values[..|values| - 1]);
      var line := LineAfter(prev.0, values[|values| - 1]);
      (line, prev.1 + (if line.Some? then Contribution(line.value) else []))
  }

  /** The fallback loop never reads an unset `line`: the first value is not an empty list. */
  predicate FallbackDefined(values: seq<ContactValue>) {
    values == [] || values[0] != Multiple([])
  }

  /** Once a value has been visited, `line` is set. */
  lemma {:induction false} FallbackLineSet(values: seq<ContactValue>)
    requires values != [] && FallbackDefined(values)
    ensures Fallback(values).0.Some?
  {
    if |values| > 1 {
      FallbackLineSet(values[..|values| - 1]);
    }
  }

  /** The fallback keeps the contributions of earlier values when later ones are visited. */
  lemma {:induction false} FallbackGrows(values: seq<ContactValue>, n: nat)
    requires n <= |values|
    ensures Fallback(values[..n]).1 <= Fallback(values).1
    decreases |values|
  {
    if n < |values| {
      var front := values[..|values| - 1];
      assert values[..n] == front[..n];
      FallbackGrows(front, n);
    } else {
      assert values[..n] == values;
    }
  }

  /**
   * Every match is collected, not only the first: each non-empty value whose
   * visited line (the text, or a list's last item) contributes, has its
   * contribution in the result.
   */
  lemma FallbackCollectsEvery(values: seq<ContactValue>, i: nat)
    requires i < |values|
    requires LineAfter(None, values[i]).Some?
    requires Contribution(LineAfter(None, values[i]).value) != []
    ensures Contribution(LineAfter(None, values[i]).value)[0] in Fallback(values).1
  {
    var before := Fallback(values[..i]).1;
    var after := Fallback(values[..i + 1]).1;
    var found := Contribution(LineAfter(None, values[i]).value);
    FallbackStepAt(values, i);
    assert after[|before|] == found[0];
    FallbackGrows(values, i + 1);
    assert Fallback(values).1[|before|] == found[0];
  }

  /** A value that sets `line` by itself appends its own contribution, whatever came before. */
  lemma FallbackStepAt(values: seq<ContactValue>, i: nat)
    requires i < |values|
    requires LineAfter(None, values[i]).Some?
    ensures Fallback(values[..i + 1]).1 == Fallback(values[..i]).1 + Contribution(LineAfter(None, values[i]).value)
  {
    FallbackSnoc(values[..i], values[i], values[..i + 1]);
    assert LineAfter(Fallback(values[..i]).0, values[i]) == LineAfter(None, values[i]);
  }

  /** One more value: `line` moves on to it and its contribution, if any, is appended. */
  lemma FallbackSnoc(front: seq<ContactValue>, v: ContactValue, values: seq<ContactValue>)
    requires values == front + [v]
    ensures var line := LineAfter(Fallback(front).0, v);
      Fallback(values) == (line, Fallback(front).1 + (if line.Some? then Contribution(line.value) else []))
  {
    assert values[..|values| - 1] == front;
    var state := Fallback(values);
    assert state == (LineAfter(Fallback(front).0, v), Fallback(front).1 +
      (if LineAfter(Fallback(front).0, v).Some? then Contribution(LineAfter(Fallback(front).0, v).value) else []));
  }

  /** `line` is the text, or the last item, of one of the values. */
  predicate Visited(values: seq<ContactValue>, line: string) {
    exists i :: 0 <= i < |values| && LineAfter(None, values[i]) == Some(line)
  }

  /**
   * The fallback only collects what it should: `line` always comes from a
   * value, and every match is the first line of such a visited line that
   * does not mention "solicitor".
   */
  lemma {:induction false} FallbackSound(values: seq<ContactValue>)
    ensures Fallback(values).0.Some? ==> Visited(values, Fallback(values).0.value)
    ensures forall x :: x in Fallback(values).1 ==>
      exists line :: Visited(values, line) && !MentionsSolicitor(line) && x == FirstLine(line)
  {
    if values != [] {
      var front := values[..|values| - 1];
      var last := values[|values| - 1];
      FallbackSound(front);
      forall line | Visited(front, line) ensures Visited(values, line) {
        var i :| 0 <= i < |front| && LineAfter(None, front[i]) == Some(line);
        assert values[i] == front[i];
      }
      var prev := Fallback(front);
      var line := LineAfter(prev.0, last);
      if line.Some? && line != prev.0 {
        assert LineAfter(None, last) == line;
        assert Visited(values, line.value);
      }
      forall x | x in Fallback(values).1
        ensures exists l :: Visited(values, l) && !MentionsSolicitor(l) && x == FirstLine(l)
      {
        if x !in prev.1 {
          assert Visited(values, line.value) && !MentionsSolicitor(line.value) && x == FirstLine(line.value);
        }
      }
    }
  }

  /** An empty list value visits the previous value's line again. */
  lemma FallbackEmptyListRepeats(values: seq<ContactValue>, line: string)
    requires Fallback(values).0 == Some(line)
    ensures Fallback(values + [Multiple([])]).1 == Fallback(values).1 + Contribution(line)
  {
    assert (values + [Multiple([])])[..|values|] == values;
  }

  /** The email list: the filtered Enquiries email, or else the fallback matches. */
  function EmailItems(contact: Assoc<string, ContactValue>): (items: seq<Option<string>>)
    ensures var e := Get(contact, EmailKey);
      !AllPresent(items) <==> e.Some? && e.value.Single? && e.value.text != "" && MentionsSolicitor(e.value.text)
    ensures !Truthy(Get(contact, EmailKey)) ==> AllPresent(items) && Present(items) == Fallback(Values(contact)).1
  {
    var e := Get(contact, EmailKey);
    if Truthy(e) then
      var items := EnquiryEmailItems(e.value);
      assert e.value.Single? ==> (AllPresent(items) <==> items[0].Some?);
      items
    else AllSome(Fallback(Values(contact)).1)
  }

  /** What the standardiser can process without raising. */
  predicate Processable(rec: RawCourt) {
    HasStreets(rec.address) &&
    (rec.contact != [] && !Truthy(Get(rec.contact, EmailKey)) ==> FallbackDefined(Values(rec.contact)))
  }

  /** The output of `standardise_dict_data_output`, field by field. */
  function StandardiseSpec(rec: RawCourt): (out: Standardised)
    requires Processable(rec)
    ensures out.courtName == rec.court
    ensures out.crownCourtId.Some? <==> CrownCodeKey in rec.pros
    ensures out.countyCourtId.Some? <==> CountyCodeKey in rec.pros
    ensures CrownCodeKey in rec.pros ==> out.crownCourtId == Some(rec.pros[CrownCodeKey])
    ensures CountyCodeKey in rec.pros ==> out.countyCourtId == Some(rec.pros[CountyCodeKey])
    ensures out.addresses == FoldAddresses(rec.address)
    ensures out.telephone.Unconverted? <==> rec.contact == []
    ensures out.email.Unconverted? <==> rec.contact == []
  {
    Standardised(
      rec.court,
      Lookup(rec.pros, CrownCodeKey),
      Lookup(rec.pros, CountyCodeKey),
      if rec.contact == [] then Unconverted([]) else Converted(List2Line(TelephoneItems(Get(rec.contact, TelephoneKey)))),
      if rec.contact == [] then Unconverted([]) else Converted(List2Line(EmailItems(rec.contact))),
      FoldAddresses(rec.address))
  }

  /** The address loop of `standardise_dict_data_output`. */
  method StandardiseAddresses(entries: seq<AddressEntry>) returns (addresses: map<string, FoldedAddress>)
    requires HasStreets(entries)
    ensures addresses == FoldAddresses(entries)
  {
    addresses := map[];
    var i := 0;
    while i < |entries|
      invariant 0 <= i <= |entries|
      invariant HasStreets(entries[..i])
      invariant addresses == FoldAddresses(entries[..i])
    {
      var item := entries[i];
      FoldAddressesStep(entries, i);
      addresses := addresses[item.kind := FoldAddress(item.value)];
      i := i + 1;
    }
    assert entries[..i] == entries;
  }

  /** The telephone part of `standardise_dict_data_output`, before `list2line`. */
  method CollectTelephone(teleEnq: Option<ContactValue>) returns (telephone: seq<Option<string>>)
    ensures telephone == TelephoneItems(teleEnq)
  {
    telephone := [];
    match teleEnq {
      case Some(Multiple(xs)) =>
        var j := 0;
        while j < |xs|
          invariant 0 <= j <= |xs|
          invariant |telephone| == j
          invariant forall k :: 0 <= k < j ==> telephone[k] == Some(xs[0])
        {
          telephone := telephone + [Some(xs[0])];
          j := j + 1;
        }
      case Some(Single(t)) =>
        telephone := telephone + [if t != "" then Some(t) else None];
      case None =>
        telephone := telephone + [None];
    }
  }

  /** The email part for a truthy Enquiries email, before `list2line`. */
  method CollectEnquiryEmail(emailEnq: ContactValue) returns (email: seq<Option<string>>)
    ensures email == EnquiryEmailItems(emailEnq)
  {
    match emailEnq {
      case Multiple(xs) =>
        email := CollectWithoutSolicitor(xs);
      case Single(t) =>
        email := [];
        if !MentionsSolicitor(t) {
          email := email + [Some(t)];
        } else {
          email := email + [None];
        }
    }
  }

  /** The list comprehension over an Enquiries email list: the entries without "solicitor". */
  method CollectWithoutSolicitor(xs: seq<string>) returns (email: seq<Option<string>>)
    ensures email == AllSome(RemoveMatchedLine(MentionsSolicitor, xs))
  {
    email := [];
    var j := 0;
    while j < |xs|
      invariant 0 <= j <= |xs|
      invariant email == AllSome(RemoveMatchedLine(MentionsSolicitor, xs[..j]))
    {
      WithoutSolicitorStep(xs, j);
      email := KeepUnlessSolicitor(email, xs[j]);
      j := j + 1;
    }
    assert xs[..j] == xs;
  }

  /** The comprehension's filter on one entry: appended unless it mentions "solicitor". */
  method KeepUnlessSolicitor(email: seq<Option<string>>, x: string) returns (kept: seq<Option<string>>)
    ensures MentionsSolicitor(x) ==> kept == email
    ensures !MentionsSolicitor(x) ==> kept == email + [Some(x)]
  {
    kept := email;
    if !MentionsSolicitor(x) {
      kept := kept + [Some(x)];
    }
  }

  /** One more entry is appended exactly when it does not mention "solicitor". */
  lemma WithoutSolicitorStep(xs: seq<string>, j: nat)
    requires j < |xs|
    ensures AllSome(RemoveMatchedLine(MentionsSolicitor, xs[..j + 1])) ==
      AllSome(RemoveMatchedLine(MentionsSolicitor, xs[..j])) + (if MentionsSolicitor(xs[j]) then [] else [Some(xs[j])])
  {
    var kept := RemoveMatchedLine(MentionsSolicitor, xs[..j]);
    RemoveMatchedLineSnoc(MentionsSolicitor, xs, j);
    if !MentionsSolicitor(xs[j]) {
      AllSomeSnoc(kept, xs[j]);
    }
  }

  /** The fallback loop of `standardise_dict_data_output`, before `list2line`. */
  method CollectFallbackEmail(values: seq<ContactValue>) returns (email: seq<Option<string>>)
    requires FallbackDefined(values)
    ensures email == AllSome(Fallback(values).1)
  {
    email := [];
    var line: Option<string> := None;
    var k := 0;
    while k < |values|
      invariant 0 <= k <= |values|
      invariant AllPresent(email)
      invariant (line, Present(email)) == Fallback(values[..k])
    {
      assert values[..k + 1][..k] == values[..k];
      line := VisitValue(line, values[k]);
      FallbackLineSet(values[..k + 1]);
      assert line.Some?;
      email := MatchLine(email, line.value);
      k := k + 1;
    }
    assert values[..k] == values;
  }

  /** The `line` assignments for one contact value: a string, or each item of a list in turn. */
  method VisitValue(line: Option<string>, v: ContactValue) returns (after: Option<string>)
    ensures after == LineAfter(line, v)
  {
    after := line;
    match v {
      case Multiple(xs) =>
        var x := 0;
        while x < |xs|
          invariant 0 <= x <= |xs|
          invariant after == if x == 0 then line else Some(xs[x - 1])
        {
          after := Some(xs[x]);
          x := x + 1;
        }
      case Single(t) =>
        after := Some(t);
    }
  }

  /** The test of one visited line: its first line is appended when it has "enq" and no "solicitor". */
  method MatchLine(email: seq<Option<string>>, l: string) returns (email': seq<Option<string>>)
    requires AllPresent(email)
    ensures AllPresent(email')
    ensures Present(email') == Present(email) + Contribution(l)
  {
    email' := email;
    if !MentionsSolicitor(l) {
      match EnquiryMatch(l) {
        case Some(m) =>
          email' := email + [Some(m)];
          assert Present(email') == Present(email) + [m];
        case None =>
      }
    }
  }

  /** `standardise_dict_data_output`. */
  method StandardiseDictDataOutput(rec: RawCourt) returns (out: Standardised)
    requires Processable(rec)
    ensures out == StandardiseSpec(rec)
  {
    var courtName := rec.court;
    var crownCourtId: Option<string> := None;
    var countyCourtId: Option<string> := None;
    if rec.pros != map[] {
      crownCourtId := Lookup(rec.pros, CrownCodeKey);
      countyCourtId := Lookup(rec.pros, CountyCodeKey);
    }
    var addresses := StandardiseAddresses(rec.address);
    if rec.contact == [] {
      out := Standardised(courtName, crownCourtId, countyCourtId, Unconverted([]), Unconverted([]), addresses);
    } else {
      var contact := rec.contact;
      var telephone := CollectTelephone(Get(contact, TelephoneKey));
      var emailEnq := Get(contact, EmailKey);
      var email;
      if Truthy(emailEnq) {
        email := CollectEnquiryEmail(emailEnq.value);
      } else {
        email := CollectFallbackEmail(Values(contact));
      }
      out := Standardised(courtName, crownCourtId, countyCourtId,
        Converted(List2Line(telephone)), Converted(List2Line(email)), addresses);
    }
  }

  /**
   * `check_val(kind, attr)` with the address dict passed in: the street of
   * any stored address, and the town or region of a span address when that
   * is a single string; anything missing, or a list, gives `None`.
   */
  function CheckVal(addresses: map<string, FoldedAddress>, kind: string, attr: string): (r: Option<string>)
    ensures r.Some? ==> kind in addresses
    ensures r.Some? ==> attr == "street_address" || attr == "town" || attr == "region"
    ensures attr == "street_address" ==> (r.Some? <==> kind in addresses)
    ensures attr == "street_address" && kind in addresses ==> r == Some(addresses[kind].streetAddress)
    ensures attr == "town" && kind in addresses && addresses[kind].SpanFold? ==> r == FieldText(addresses[kind].town)
    ensures attr == "region" && kind in addresses && addresses[kind].SpanFold? ==> r == FieldText(addresses[kind].region)
  {
    if kind !in addresses then None
    else match addresses[kind]
      case SpanFold(town, region, street) =>
        if attr == "street_address" then Some(street)
        else if attr == "town" then FieldText(town)
        else if attr == "region" then FieldText(region)
        else None
      case FlatFold(street) =>
        if attr == "street_address" then Some(street) else None
  }

  /** A field value that `.encode` accepts: a single string. */
  function FieldText(v: Option<FieldValue>): (r: Option<string>)
    ensures r.Some? <==> v.Some? && v.value.Line?
    ensures r.Some? ==> r.value == v.value.text
  {
    match v
    case Some(Line(t)) => Some(t)
    case _ => None
  }

  /** A flat address has no town or region. */
  lemma CheckValFlat(addresses: map<string, FoldedAddress>, kind: string)
    requires kind in addresses && addresses[kind].FlatFold?
    ensures CheckVal(addresses, kind, "town") == None
    ensures CheckVal(addresses, kind, "region") == None
  {
  }

  /** A telephone list of n numbers gives its first number n times, comma-joined. */
  lemma TelephoneFromList(rec: RawCourt, xs: seq<string>)
    requires Processable(rec)
    requires Get(rec.contact, TelephoneKey) == Some(Multiple(xs))
    requires xs != [] && ',' !in xs[0]
    ensures StandardiseSpec(rec).telephone.Converted?
    ensures StandardiseSpec(rec).telephone.line.Some?
    ensures Split(StandardiseSpec(rec).telephone.line.value, ',') == seq(|xs|, i => xs[0])
  {
    var items := TelephoneItems(Some(Multiple(xs)));
    assert items == AllSome(seq(|xs|, i => xs[0]));
    List2LineRoundTrip(items);
  }

  /** An empty telephone list gives the empty string. */
  lemma TelephoneFromEmptyList(rec: RawCourt)
    requires Processable(rec)
    requires Get(rec.contact, TelephoneKey) == Some(Multiple([]))
    ensures StandardiseSpec(rec).telephone == Converted(Some(""))
  {
  }

  /** A non-empty telephone string gives itself. */
  lemma TelephoneFromString(rec: RawCourt, t: string)
    requires Processable(rec)
    requires Get(rec.contact, TelephoneKey) == Some(Single(t)) && t != ""
    ensures StandardiseSpec(rec).telephone == Converted(Some(t))
  {
    assert Join([t], ',') == t;
  }

  /** A missing or empty telephone string gives `None`. */
  lemma TelephoneMissing(rec: RawCourt)
    requires Processable(rec) && rec.contact != []
    requires Get(rec.contact, TelephoneKey) == None || Get(rec.contact, TelephoneKey) == Some(Single(""))
    ensures StandardiseSpec(rec).telephone == Converted(None)
  {
  }

  /** An Enquiries email list keeps exactly its entries without "solicitor", in order. */
  lemma EmailFromList(rec: RawCourt, xs: seq<string>)
    requires Processable(rec)
    requires Get(rec.contact, EmailKey) == Some(Multiple(xs)) && xs != []
    requires forall x :: x in xs ==> ',' !in x
    ensures StandardiseSpec(rec).email.Converted?
    ensures StandardiseSpec(rec).email.line.Some?
    ensures RemoveMatchedLine(MentionsSolicitor, xs) == [] ==> StandardiseSpec(rec).email.line.value == ""
    ensures RemoveMatchedLine(MentionsSolicitor, xs) != [] ==>
      Split(StandardiseSpec(rec).email.line.value, ',') == RemoveMatchedLine(MentionsSolicitor, xs)
  {
    var kept := RemoveMatchedLine(MentionsSolicitor, xs);
    var items := AllSome(kept);
    if kept != [] {
      List2LineRoundTrip(items);
    }
  }

  /** An Enquiries email string gives itself, or `None` when it mentions "solicitor". */
  lemma EmailFromString(rec: RawCourt, t: string)
    requires Processable(rec)
    requires Get(rec.contact, EmailKey) == Some(Single(t)) && t != ""
    ensures StandardiseSpec(rec).email == Converted(if MentionsSolicitor(t) then None else Some(t))
  {
    assert Join([t], ',') == t;
  }

  /** Without an Enquiries email, every fallback match is kept, comma-joined, in visiting order. */
  lemma EmailFallback(rec: RawCourt)
    requires Processable(rec) && rec.contact != []
    requires !Truthy(Get(rec.contact, EmailKey))
    requires forall x :: x in Fallback(Values(rec.contact)).1 ==> ',' !in x
    ensures StandardiseSpec(rec).email.Converted?
    ensures StandardiseSpec(rec).email.line.Some?
    ensures Fallback(Values(rec.contact)).1 == [] ==> StandardiseSpec(rec).email.line.value == ""
    ensures Fallback(Values(rec.contact)).1 != [] ==>
      Split(StandardiseSpec(rec).email.line.value, ',') == Fallback(Values(rec.contact)).1
  {
    var found := Fallback(Values(rec.contact)).1;
    if found != [] {
      List2LineRoundTrip(AllSome(found));
    }
  }

  /** A record with no contacts keeps telephone and email as empty, unconverted lists. */
  lemma NoContacts(rec: RawCourt)
    requires Processable(rec) && rec.contact == []
    ensures StandardiseSpec(rec).telephone == Unconverted([])
    ensures StandardiseSpec(rec).email == Unconverted([])
  {
  }

  /** A record with every optional part empty gives the court name and nothing else. */
  lemma EmptyRecord(court: string, url: string)
    ensures Processable(RawCourt(court, url, map[], [], []))
    ensures StandardiseSpec(RawCourt(court, url, map[], [], [])) ==
      Standardised(court, None, None, Unconverted([]), Unconverted([]), map[])
  {
    assert FoldPairs([]) == [];
  }

  /**
   * A span visiting address and Enquiries telephone and email strings: the
   * row holds the telephone, the email, the visiting town, region and street
   * joined by line feeds, and nothing for a postal address.
   */
  lemma VisitingAddressScenario(rec: RawCourt, town: string, region: string, lines: seq<string>, tel: string, mail: string)
    requires rec.address == [AddressEntry("visiting", Span(map[TownKey := Line(town), RegionKey := Line(region), StreetKey := Lines(lines)]))]
    requires rec.contact == [(TelephoneKey, Single(tel)), (EmailKey, Single(mail))]
    requires tel != "" && mail != "" && !MentionsSolicitor(mail)
    ensures Processable(rec)
    ensures StandardiseSpec(rec).telephone == Converted(Some(tel))
    ensures StandardiseSpec(rec).email == Converted(Some(mail))
    ensures CheckVal(StandardiseSpec(rec).addresses, "visiting", "town") == Some(town)
    ensures CheckVal(StandardiseSpec(rec).addresses, "visiting", "region") == Some(region)
    ensures CheckVal(StandardiseSpec(rec).addresses, "visiting", "street_address") == Some(Join(lines, '\n'))
    ensures CheckVal(StandardiseSpec(rec).addresses, "postal", "street_address") == None
    ensures CheckVal(StandardiseSpec(rec).addresses, "postal", "town") == None
  {
    assert Get(rec.contact, EmailKey) == Some(Single(mail));
    assert Get(rec.contact, TelephoneKey) == Some(Single(tel));
    TelephoneFromString(rec, tel);
    EmailFromString(rec, mail);
    AddressLastWins(rec.address, 0);
    AddressKinds(rec.address, "postal");
  }

  /** Two Enquiries emails, one mentioning "solicitor": only the other is kept. */
  lemma SolicitorEmailScenario(rec: RawCourt, solicitors: string, enquiries: string)
    requires Processable(rec)
    requires Get(rec.contact, EmailKey) == Some(Multiple([solicitors, enquiries]))
    requires MentionsSolicitor(solicitors) && !MentionsSolicitor(enquiries)
    ensures StandardiseSpec(rec).email == Converted(Some(enquiries))
  {
    assert RemoveMatchedLine(MentionsSolicitor, [solicitors, enquiries]) == [enquiries];
    assert Join([enquiries], ',') == enquiries;
  }

  /** A flat postal address whose first line is a label with a colon: the label is dropped from the street. */
  lemma FlatPostalScenario(rec: RawCourt, heading: string, lines: seq<string>)
    requires HasStreets(rec.address)
    requires rec.address == [AddressEntry("postal", Flat([heading] + lines))]
    requires ':' in heading && '\n' !in heading
    requires forall x :: x in lines ==> ':' !in x
    ensures CheckVal(FoldAddresses(rec.address), "postal", "street_address") == Some(Join(lines, '\n'))
    ensures CheckVal(FoldAddresses(rec.address), "postal", "town") == None
  {
    assert FirstLine(heading) == heading;
    forall x | x in lines ensures !MatchesColonLine(x) {
      assert FirstLine(x) == x[..|FirstLine(x)|];
    }
    assert RemoveMatchedLine(MatchesColonLine, [heading] + lines) == RemoveMatchedLine(MatchesColonLine, lines);
    NoColonKeepsAll(lines);
    AddressLastWins(rec.address, 0);
  }

  /** Lines without a colon all survive the colon filter. */
  lemma {:induction false} NoColonKeepsAll(lines: seq<string>)
    requires forall x :: x in lines ==> !MatchesColonLine(x)
    ensures RemoveMatchedLine(MatchesColonLine, lines) == lines
  {
    if lines != [] {
      NoColonKeepsAll(lines[1..]);
    }
  }
}
