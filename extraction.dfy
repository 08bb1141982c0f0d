/**
 * The part of `extract_court_details` that does not depend on the HTML
 * parser. The parser's queries are replaced by plain sequences: the divs of
 * the address block, the dt/dd texts of the `pros` list, and the non-spacer
 * divs of the contact block, each in document order.
 */
module Extraction {
  import opened Wrappers
  import opened Dict
  import opened Text
  import opened AddressText

  /**
   * One `div` of the address block: its `id`, its `span` descendants as
   * (property attribute, text) pairs, and its visible text outside any `h2`.
   */
  datatype AddressDiv = AddressDiv(id: string, spans: seq<(string, string)>, flatText: string)

  /** The value of one address: the dict built from spans, or the flat lines. */
  datatype AddressValue = Span(fields: map<string, FieldValue>) | Flat(lines: seq<string>)

  /** The one-key dict `{div id: address value}` appended for each address div. */
  datatype AddressEntry = AddressEntry(kind: string, value: AddressValue)

  /** The id of the div holding the court codes, which the address loop skips. */
  const ProsId := "pros"

  /** A div with a span is a span address, any other div a flat address. */
  function ClassifyAddress(d: AddressDiv): (e: AddressEntry)
    ensures e.kind == d.id
    ensures e.value.Span? <==> d.spans != []
    ensures e.value.Span? ==> e.value.fields.Keys == set sp | sp in d.spans :: sp.0
    ensures e.value.Flat? ==> forall x :: x in e.value.lines ==> x != [] && IsStripped(x)
  {
    if d.spans != [] then AddressEntry(d.id, Span(ProcessSpanAddress(d.spans)))
    else AddressEntry(d.id, Flat(ProcessFlatAddress(d.flatText)))
  }

  /** The addresses list: one classified entry per div, in order, skipping the `pros` div. */
  function AddressEntries(divs: seq<AddressDiv>): (es: seq<AddressEntry>)
    ensures |es| <= |divs|
    ensures forall e :: e in es ==> e.kind != ProsId
  {
    if divs == [] then []
    else
      var d := divs[|divs| - 1];
      AddressEntries(divs[..|divs| - 1]) + (if d.id == ProsId then [] else [ClassifyAddress(d)])
  }

  /** Entries come out in the order of their divs. */
  lemma {:induction false} AddressEntriesConcat(a: seq<AddressDiv>, b: seq<AddressDiv>)
    ensures AddressEntries(a + b) == AddressEntries(a) + AddressEntries(b)
    decreases |b|
  {
    if b == [] {
      assert a + b == a;
    } else {
      var front := b[..|b| - 1];
      var d := b[|b| - 1];
      var extra := if d.id == ProsId then [] else [ClassifyAddress(d)];
      assert (a + b)[..|a + b| - 1] == a + front;
      assert (a + b)[|a + b| - 1] == d;
      AddressEntriesConcat(a, front);
      assert AddressEntries(a + b) == AddressEntries(a + front) + extra;
      assert AddressEntries(b) == AddressEntries(front) + extra;
      ConcatAssoc(AddressEntries(a), AddressEntries(front), extra);
    }
  }

  /** Every div other than `pros` yields its entry. */
  lemma {:induction false} AddressEntriesComplete(divs: seq<AddressDiv>, i: nat)
    requires i < |divs| && divs[i].id != ProsId
    ensures ClassifyAddress(divs[i]) in AddressEntries(divs)
  {
    if i < |divs| - 1 {
      AddressEntriesComplete(divs[..|divs| - 1], i);
    }
  }

  /** The address loop of `extract_court_details`. */
  method ExtractAddresses(divs: seq<AddressDiv>) returns (addresses: seq<AddressEntry>)
    ensures addresses == AddressEntries(divs)
  {
    addresses := [];
    var i := 0;
    while i < |divs|
      invariant 0 <= i <= |divs|
      invariant addresses == AddressEntries(divs[..i])
    {
      var item := divs[i];
      assert divs[..i + 1][..i] == divs[..i];
      if item.id != ProsId {
        addresses := addresses + [ClassifyAddress(item)];
      }
      i := i + 1;
    }
    assert divs[..i] == divs;
  }

  /** `remove_colon` applied to each text. */
  function RemoveColons(xs: seq<string>): (r: seq<string>)
    ensures |r| == |xs|
    ensures forall i :: 0 <= i < |xs| ==> r[i] == RemoveColon(xs[i])
  {
    seq(|xs|, i requires 0 <= i < |xs| => RemoveColon(xs[i]))
  }

  /** The (dt, dd) pairs of the codes list, colons removed, cut to the shorter list. */
  function ProsPairs(dts: seq<string>, dds: seq<string>): (ps: seq<(string, string)>)
    ensures |ps| == if |dts| <= |dds| then |dts| else |dds|
    ensures forall i :: 0 <= i < |ps| ==> ps[i] == (RemoveColon(dts[i]), RemoveColon(dds[i]))
  {
    Zip(RemoveColons(dts), RemoveColons(dds))
  }

  /**
   * The `pros` dict: empty when there is no codes div, otherwise
   * `dict(zip(dts, dds))` over the colon-free texts.
   */
  function ProsCodes(dl: Option<(seq<string>, seq<string>)>): (pros: map<string, string>)
    ensures dl.None? ==> pros == map[]
    ensures forall k :: k in pros ==> ':' !in k && ':' !in pros[k]
  {
    match dl
    case None => map[]
    case Some((dts, dds)) =>
      var ps := ProsPairs(dts, dds);
      var m := FromPairs(ps);
      assert forall k :: k in m ==> ':' !in k && ':' !in m[k] by {
        forall k | k in m ensures ':' !in k && ':' !in m[k] {
          FromPairsValueFrom(ps, k);
        }
      }
      m
  }

  /** A code label is stored exactly when some dt within the paired prefix has it. */
  lemma ProsKeys(dts: seq<string>, dds: seq<string>, k: string)
    ensures k in ProsCodes(Some((dts, dds))) <==>
      exists i :: 0 <= i < |dts| && i < |dds| && RemoveColon(dts[i]) == k
  {
    var ps := ProsPairs(dts, dds);
    FromPairsKeys(ps);
    if k in FromPairs(ps) {
      var p :| p in ps && p.0 == k;
      var i :| 0 <= i < |ps| && ps[i] == p;
    }
    if exists i :: 0 <= i < |dts| && i < |dds| && RemoveColon(dts[i]) == k {
      var i :| 0 <= i < |dts| && i < |dds| && RemoveColon(dts[i]) == k;
      assert ps[i] in ps;
    }
  }

  /** The dd paired with the last dt of a label is its value. */
  lemma ProsLastWins(dts: seq<string>, dds: seq<string>, i: nat)
    requires i < |dts| && i < |dds|
    requires forall j :: i < j < |dts| && j < |dds| ==> RemoveColon(dts[j]) != RemoveColon(dts[i])
    ensures RemoveColon(dts[i]) in ProsCodes(Some((dts, dds)))
    ensures ProsCodes(Some((dts, dds)))[RemoveColon(dts[i])] == RemoveColon(dds[i])
  {
    FromPairsLastWins(ProsPairs(dts, dds), i);
  }

  /**
   * One non-spacer `div` of the contact block: its `a` descendants as
   * (property attribute, text) pairs and its whole text.
   */
  datatype ContactBlock = ContactBlock(anchors: seq<(string, string)>, text: string)

  /** A contact value: one text, or the texts of several anchors of one kind. */
  datatype ContactValue = Single(text: string) | Multiple(items: seq<string>)

  /** The texts of the anchors whose property is `property`, in order. */
  function AnchorTexts(anchors: seq<(string, string)>, property: string): (texts: seq<string>)
    ensures |texts| <= |anchors|
    ensures forall t :: t in texts ==> (property, t) in anchors
  {
    if anchors == [] then []
    else
      var rest := AnchorTexts(anchors[1..], property);
      if anchors[0].0 == property then [anchors[0].1] + rest else rest
  }

  /** Every anchor of the property contributes its text. */
  lemma {:induction false} AnchorTextsComplete(anchors: seq<(string, string)>, property: string, i: nat)
    requires i < |anchors| && anchors[i].0 == property
    ensures anchors[i].1 in AnchorTexts(anchors, property)
  {
    if i > 0 {
      AnchorTextsComplete(anchors[1..], property, i - 1);
    }
  }

  /** Texts of consecutive runs of anchors come out in document order. */
  lemma {:induction false} AnchorTextsConcat(a: seq<(string, string)>, b: seq<(string, string)>, property: string)
    ensures AnchorTexts(a + b, property) == AnchorTexts(a, property) + AnchorTexts(b, property)
  {
    if a == [] {
      assert a + b == b;
    } else {
      assert (a + b)[1..] == a[1..] + b;
      AnchorTextsConcat(a[1..], b, property);
    }
  }

  /** A block without anchors is a category label. */
  predicate IsLabel(b: ContactBlock)
    ensures IsLabel(b) ==> AnchorTexts(b.anchors, "email") == [] && AnchorTexts(b.anchors, "telephone") == []
  {
    b.anchors == []
  }

  /** `re.sub("\n", "", block.text.strip())`. */
  function BlockText(b: ContactBlock): (t: string)
    ensures '\n' !in t
    ensures multiset(t) == multiset(Strip(b.text))['\n' := 0]
  {
    DeleteAll(Strip(b.text), '\n')
  }

  /** The channel of a value block: the property of its first anchor. */
  function BlockCategory(b: ContactBlock): (c: string)
    requires !IsLabel(b)
    ensures c == b.anchors[0].0
    ensures exists t :: (c, t) in b.anchors
  {
    assert b.anchors[0] in b.anchors;
    b.anchors[0].0
  }

  /**
   * The value of a block with anchors: every email text when there is more
   * than one email anchor, otherwise every telephone text when there is more
   * than one telephone anchor, otherwise the block's text.
   */
  function BlockValue(b: ContactBlock): (v: ContactValue)
    requires !IsLabel(b)
    ensures v.Multiple? ==> |v.items| > 1
    ensures v.Multiple? ==> (forall x :: x in v.items ==> ("email", x) in b.anchors) ||
                            (forall x :: x in v.items ==> ("telephone", x) in b.anchors)
    ensures v.Multiple? <==> |AnchorTexts(b.anchors, "email")| > 1 || |AnchorTexts(b.anchors, "telephone")| > 1
    ensures v.Single? ==> v.text == BlockText(b) && '\n' !in v.text
  {
    var emails := AnchorTexts(b.anchors, "email");
    var phones := AnchorTexts(b.anchors, "telephone");
    if |emails| > 1 then Multiple(emails)
    else if |phones| > 1 then Multiple(phones)
    else Single(BlockText(b))
  }

  /** Several email anchors win over several telephone anchors in one block. */
  lemma EmailPrecedence(b: ContactBlock)
    requires |AnchorTexts(b.anchors, "email")| > 1
    ensures !IsLabel(b)
    ensures BlockValue(b) == Multiple(AnchorTexts(b.anchors, "email"))
  {
  }

  /** With at most one email anchor, several telephone anchors give the telephone list. */
  lemma TelephoneListChosen(b: ContactBlock)
    requires |AnchorTexts(b.anchors, "email")| <= 1
    requires |AnchorTexts(b.anchors, "telephone")| > 1
    ensures !IsLabel(b)
    ensures BlockValue(b) == Multiple(AnchorTexts(b.anchors, "telephone"))
  {
  }

  /** `contact_category_keys`: the label texts, in order. */
  function Labels(blocks: seq<ContactBlock>): (ls: seq<string>)
    ensures forall l :: l in ls ==> '\n' !in l
  {
    if blocks == [] then []
    else
      var b := blocks[|blocks| - 1];
      Labels(blocks[..|blocks| - 1]) + (if IsLabel(b) then [BlockText(b)] else [])
  }

  /** `contact_category`: the channel of each value block, in order. */
  function Categories(blocks: seq<ContactBlock>): (cs: seq<string>)
    ensures |cs| <= |blocks|
  {
    if blocks == [] then []
    else
      var b := blocks[|blocks| - 1];
      Categories(blocks[..|blocks| - 1]) + (if IsLabel(b) then [] else [BlockCategory(b)])
  }

  /** `contact_category_values`: the value of each value block, in order. */
  function ContactValues(blocks: seq<ContactBlock>): (vs: seq<ContactValue>)
    ensures |vs| <= |blocks|
  {
    if blocks == [] then []
    else
      var b := blocks[|blocks| - 1];
      ContactValues(blocks[..|blocks| - 1]) + (if IsLabel(b) then [] else [BlockValue(b)])
  }

  /** Reading one more block extends the three lists by what that block adds. */
  lemma ContactListsStep(blocks: seq<ContactBlock>, i: nat)
    requires i < |blocks|
    ensures Labels(blocks[..i + 1]) == Labels(blocks[..i]) + (if IsLabel(blocks[i]) then [BlockText(blocks[i])] else [])
    ensures Categories(blocks[..i + 1]) == Categories(blocks[..i]) + (if IsLabel(blocks[i]) then [] else [BlockCategory(blocks[i])])
    ensures ContactValues(blocks[..i + 1]) == ContactValues(blocks[..i]) + (if IsLabel(blocks[i]) then [] else [BlockValue(blocks[i])])
  {
    assert blocks[..i + 1][..i] == blocks[..i];
  }

  /** Every channel and every value comes from a block with anchors. */
  lemma {:induction false} ValuesFromValueBlocks(blocks: seq<ContactBlock>)
    ensures forall c :: c in Categories(blocks) ==>
      exists i :: 0 <= i < |blocks| && !IsLabel(blocks[i]) && c == BlockCategory(blocks[i])
    ensures forall v :: v in ContactValues(blocks) ==>
      exists i :: 0 <= i < |blocks| && !IsLabel(blocks[i]) && v == BlockValue(blocks[i])
  {
    if blocks != [] {
      var n := |blocks| - 1;
      var front := blocks[..n];
      ValuesFromValueBlocks(front);
      forall i | 0 <= i < n ensures front[i] == blocks[i] { }
    }
  }

  /** Every block adds either a label or one channel together with one value. */
  lemma {:induction false} CategoriesMatchValues(blocks: seq<ContactBlock>)
    ensures |Categories(blocks)| == |ContactValues(blocks)|
    ensures |Labels(blocks)| + |Categories(blocks)| == |blocks|
  {
    if blocks != [] {
      CategoriesMatchValues(blocks[..|blocks| - 1]);
    }
  }

  /** The dict key of a channel under a label: `"{} - {}".format(channel, label)`. */
  function ContactKey(category: string, heading: string): (k: string)
    ensures |k| == |category| + 3 + |heading|
    ensures k[..|category|] == category && k[|category|..|category| + 3] == " - " && k[|category| + 3..] == heading
  {
    category + " - " + heading
  }

  /** `["{} - {}".format(b_, a_) for a_, b_ in zip(labels, categories)]`. */
  function FormatKeys(labels: seq<string>, categories: seq<string>): (ks: seq<string>)
    ensures |ks| == if |labels| <= |categories| then |labels| else |categories|
    ensures forall i :: 0 <= i < |ks| ==> ks[i] == ContactKey(categories[i], labels[i])
  {
    var z := Zip(labels, categories);
    seq(|z|, i requires 0 <= i < |z| => ContactKey(z[i].1, z[i].0))
  }

  /** The keys: labels and channels paired by position, cut to the shorter list. */
  function ContactKeys(blocks: seq<ContactBlock>): (ks: seq<string>)
    ensures |ks| == if |Labels(blocks)| <= |Categories(blocks)| then |Labels(blocks)| else |Categories(blocks)|
    ensures forall i :: 0 <= i < |ks| ==> ks[i] == ContactKey(Categories(blocks)[i], Labels(blocks)[i])
  {
    FormatKeys(Labels(blocks), Categories(blocks))
  }

  /** `contact_details = dict(zip(keys, contact_category_values))`, in insertion order. */
  function ContactDetails(blocks: seq<ContactBlock>): (details: Assoc<string, ContactValue>)
    ensures DistinctKeys(details)
  {
    FromPairsOrdered(Zip(ContactKeys(blocks), ContactValues(blocks)))
  }

  lemma KeysWithinValues(blocks: seq<ContactBlock>)
    ensures |ContactKeys(blocks)| <= |ContactValues(blocks)|
  {
    CategoriesMatchValues(blocks);
  }

  /** The value stored under the `j`-th key is the `j`-th value, unless a later key repeats it. */
  lemma ContactLookup(blocks: seq<ContactBlock>, j: nat)
    requires j < |ContactKeys(blocks)|
    requires forall k :: j < k < |ContactKeys(blocks)| ==> ContactKeys(blocks)[k] != ContactKeys(blocks)[j]
    ensures j < |ContactValues(blocks)|
    ensures Get(ContactDetails(blocks), ContactKeys(blocks)[j]) == Some(ContactValues(blocks)[j])
  {
    KeysWithinValues(blocks);
    ZipLookup(ContactKeys(blocks), ContactValues(blocks), j);
  }

  /** The contact loop of `extract_court_details` and its final `dict(zip(...))`. */
  method ExtractContacts(blocks: seq<ContactBlock>) returns (details: Assoc<string, ContactValue>)
    ensures details == ContactDetails(blocks)
  {
    var labels, categories, values := AccumulateContacts(blocks);
    var keys := FormatKeys(labels, categories);
    details := FromPairsOrdered(Zip(keys, values));
  }

  /** The loop over the contact blocks, appending to the three lists. */
  method AccumulateContacts(blocks: seq<ContactBlock>)
    returns (labels: seq<string>, categories: seq<string>, values: seq<ContactValue>)
    ensures labels == Labels(blocks)
    ensures categories == Categories(blocks)
    ensures values == ContactValues(blocks)
  {
    labels, categories, values := [], [], [];
    var i := 0;
    while i < |blocks|
      invariant 0 <= i <= |blocks|
      invariant labels == Labels(blocks[..i])
      invariant categories == Categories(blocks[..i])
      invariant values == ContactValues(blocks[..i])
    {
      ContactListsStep(blocks, i);
      labels, categories, values := AddBlock(labels, categories, values, blocks[i]);
      i := i + 1;
    }
    assert blocks[..i] == blocks;
  }

  /** One iteration of the contact loop: a label block adds its text, any other block its channel and value. */
  method AddBlock(labels: seq<string>, categories: seq<string>, values: seq<ContactValue>, block: ContactBlock)
    returns (labels': seq<string>, categories': seq<string>, values': seq<ContactValue>)
    ensures labels' == labels + (if IsLabel(block) then [BlockText(block)] else [])
    ensures categories' == categories + (if IsLabel(block) then [] else [BlockCategory(block)])
    ensures values' == values + (if IsLabel(block) then [] else [BlockValue(block)])
  {
    labels', categories', values' := labels, categories, values;
    if block.anchors == [] {
      labels' := labels + [BlockText(block)];
    } else {
      categories' := categories + [BlockCategory(block)];
      values' := values + [BlockValue(block)];
    }
  }

  /** What the parser hands over for one court page. */
  datatype CourtPage = CourtPage(
    addressDivs: seq<AddressDiv>,
    prosList: Option<(seq<string>, seq<string>)>,
    contactBlocks: seq<ContactBlock>)

  /** `extract_court_details` without the fetching and parsing. */
  method ExtractCourtDetails(page: CourtPage)
    returns (addresses: seq<AddressEntry>, contact: Assoc<string, ContactValue>, pros: map<string, string>)
    ensures addresses == AddressEntries(page.addressDivs)
    ensures contact == ContactDetails(page.contactBlocks)
    ensures pros == ProsCodes(page.prosList)
  {
    addresses := ExtractAddresses(page.addressDivs);
    pros := ProsCodes(page.prosList);
    contact := ExtractContacts(page.contactBlocks);
  }
}
