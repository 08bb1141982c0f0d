# CourtScraper normalisation layer in Dafny

`CourtScraper.py` crawls the UK court and tribunal finder and writes one CSV row per
court. This project models the part between the HTML parser and the CSV writer. That
part is plain string, list and dictionary manipulation:

- the text normalisers `remove_matched_line`, `list2line`, `remove_colon`,
  `process_flat_address`, `process_single_and_multi_line_address` and
  `process_span_address`;
- the DOM-independent loops of `extract_court_details`: the address dispatch, the
  `pros` dt/dd pairing and the contact-block accumulation with its key zipping;
- the index-link filter loop of `get_courts`;
- the record standardiser `standardise_dict_data_output` and its lookup `check_val`.

The HTML is replaced by abstract inputs:

- an address `div` is its id, its `(property, text)` span pairs and its flat text;
- a contact block is its `(property, text)` anchors and its text;
- an index page is its `(text, href)` anchors.

Modules, one per file:

- `Wrappers` (`wrappers.dfy`): `Option`.
- `Dict` (`dict.dfy`): Python dicts. A dict used only for lookup is a `map` built by
  `FromPairs`, where the last write wins. The contact dict, whose iteration order the
  email fallback depends on, is an insertion-ordered association list (`Assoc`).
- `Text` (`text.dfy`): ASCII `strip`, join and split, `remove_colon`,
  `remove_matched_line`, `list2line`, and the fixed regular expressions
  `.*:.*`, `.*enq.*` and `solicitor`.
- `AddressText` (`address_text.dfy`): the `findall("\S+\s.*")` scanner, the
  "Maps and Direction" removal, and the flat, single/multi-line and span address processors.
- `Extraction` (`extraction.dfy`): the loops of `extract_court_details`.
- `Directory` (`directory.dfy`): the loop of `get_courts`.
- `Standardise` (`standardise.dfy`): `standardise_dict_data_output` and `check_val`.

Loops that append to lists or fill dicts are `method`s. Each is proved equal to a
specification function (`ExtractAddresses`, `ExtractContacts`, `GetCourts`,
`StandardiseAddresses`, `CollectTelephone`, `CollectEnquiryEmail`,
`CollectFallbackEmail`, `StandardiseDictDataOutput` and their helpers). The lemmas then state the
behaviour of those functions.

Regular expressions follow Python 2 `re` without the UNICODE flag:

- `\s` is one of space, tab, `\n`, `\r`, vertical tab and form feed;
- `.` matches anything but `\n`;
- `re.match('.*:.*', x)` holds when the first line of `x` has a colon;
- `re.match('.*enq.*', x).group(0)` is the first line of `x`, when that line contains `enq`.

### Where the code may surprise

The model follows the code:

- A telephone list of n numbers yields its first number n times, not each number
  (`Standardise.TelephoneFromList`).
- An empty telephone list yields `""`, since `','.join([])` is `""`
  (`Standardise.TelephoneFromEmptyList`).
- The email fallback appends every matching contact value, not just the first
  (`Standardise.FallbackCollectsEvery`).
- When nothing matches in the fallback, the email is `""`, not `None`
  (`Standardise.EmailFallback`).
- A court without contacts keeps telephone and email as the empty lists they were
  initialised to, not strings (`Standardise.NoContacts`).
- A span `streetAddress` that is a plain string, because its text had no line feed, is
  joined character by character: `"\n".join("abc")` is `"a\nb\nc"`
  (`Standardise.StreetTextSpelledOut`).
- An empty list value in the fallback loop leaves `line` as it was, so the previous
  value is matched again (`Standardise.FallbackEmptyListRepeats`).
- Because of how `findall("\S+\s.*")` scans, a one-word line followed directly by a
  line feed takes the following line as its own rest. A one-word last line with no
  trailing whitespace is dropped (`AddressText.WordLinesLeadingLine`,
  `AddressText.WordLinesTrailingWord`).
- A flat address loses only the items whose first line has a colon, because
  `re.match('.*:.*', x)` stops at the first line feed. An item scanned as a one-word
  line plus the next line therefore keeps a colon label on its second line. For
  `Court\nPhone: 123\nHigh Street\n` the street is `Court\nPhone: 123\nHigh Street`
  (`Standardise.ColonLabelAfterOneWordLine`, `Standardise.LabelLineReachesStreet`).

## Model

| member | source | states |
|---|---|---|
| Text.RemoveMatchedLine | CourtScraper.py:23-26 | keeps exactly the lines that do not match, and only lines of the input |
| Text.RemoveMatchedLineSnoc | CourtScraper.py:23-26 | unfolding step for loop proofs: one more line is appended to the result exactly when it does not match |
| Text.RemoveMatchedLineConcat | CourtScraper.py:23-26 | filtering distributes over concatenation, so the original order is kept |
| Text.RemoveMatchedLineIdempotent | CourtScraper.py:23-26 | filtering twice is the same as filtering once |
| Text.List2Line | CourtScraper.py:28-34 | `None` exactly when some item is `None`; `""` for the empty list |
| Text.List2LineRoundTrip | CourtScraper.py:28-34 | for comma-free present items, splitting the joined line at commas gives the items back |
| Text.Join | CourtScraper.py:124 | joining nothing gives `""`, and the result starts with the first item |
| Text.JoinSeparatorCount | CourtScraper.py:124 | joining separator-free items puts exactly one separator between every two items |
| Text.SplitJoin | CourtScraper.py:124 | joining separator-free lines and splitting at the separator gives the lines back |
| Text.RemoveColon | CourtScraper.py:476 | the result has no colon, every other character occurs as often as in the input, and colon-free text is unchanged |
| Text.RemoveColonConcat | CourtScraper.py:476 | colons are removed piece by piece, so the kept characters stay in their order |
| Text.RemoveColonIdempotent | CourtScraper.py:476 | removing colons twice is the same as removing them once |
| Text.Strip | CourtScraper.py:280 | the result has no whitespace at either end and is a slice of the input with only whitespace around it |
| Text.StripStripped | CourtScraper.py:280 | a text without surrounding whitespace is its own strip |
| Text.StripNonEmpty | CourtScraper.py:280 | a text with a non-whitespace character strips to a non-empty text |
| Text.DeleteAll | CourtScraper.py:395 | the result lacks the deleted character, keeps every other character as often as in the input, and text without that character is unchanged |
| Text.DeleteAllConcat | CourtScraper.py:395 | deletion works piece by piece, so the kept characters stay in their order |
| Text.FirstLine | CourtScraper.py:26 | the longest prefix without a line feed: what `.*` matches from the start |
| Text.MatchesColonLine | CourtScraper.py:133 | `re.match('.*:.*', x)` holds exactly when the first line of `x` has a colon; for a text without a line feed, exactly when it has a colon |
| Text.MentionsSolicitor | CourtScraper.py:172-177 | `re.findall('solicitor', x)` finds something exactly when `solicitor` occurs at some index of `x`, so never in a text shorter than nine characters |
| Text.ContainsAt | CourtScraper.py:196-197 | the literal search behind `findall('solicitor')` and `.*enq.*` holds exactly when the pattern occurs at some index, in both directions |
| Text.EnquiryMatch | CourtScraper.py:197-199 | a match exists exactly when the first line contains `enq`, and then it is that first line |
| AddressText.SkipSpaces | CourtScraper.py:280 | stops at the first non-whitespace character from the start position |
| AddressText.SkipNonSpaces | CourtScraper.py:280 | stops at the first whitespace character from the start position |
| AddressText.WordLines | CourtScraper.py:280 | every match of `\S+\s.*` has at least two characters, so there are at most half as many matches as characters |
| AddressText.WordLinesMatchPattern | CourtScraper.py:280 | every scanned match is a non-space run, one whitespace character, then the rest of a line |
| AddressText.WordLinesFirst | CourtScraper.py:280 | unfolding step for loop proofs: the scan's first match runs from the first word to the end of its line, and the scan continues after it |
| AddressText.WordLinesLeadingLine | CourtScraper.py:280 | a word, a whitespace character and the rest of its line, after blank space, is the first match, and scanning continues at the next line feed |
| AddressText.WordLinesTrailingWord | CourtScraper.py:280 | a final word with nothing after it gives no match |
| AddressText.OneWordLineTakesNext | CourtScraper.py:250 | a one-word line followed by a line feed scans as one match with the next line, and a following two-word line is the second match |
| AddressText.ScannedLabelLine | CourtScraper.py:250 | `Court\nPhone: 123\nHigh Street\n` scans to `Court\nPhone: 123` and `High Street` |
| AddressText.StrippedWordLines | CourtScraper.py:280 | one stripped item per match, each non-empty and without surrounding whitespace |
| AddressText.ProcessSingleAndMultiLine | CourtScraper.py:263-280 | a text without a line feed gives its strip; otherwise one stripped, non-empty item per scanned match |
| AddressText.DocStreetMatches | CourtScraper.py:255 | the documented streetAddress text scans to its three raw lines |
| AddressText.DocStreetAddress | CourtScraper.py:255-257 | the documented streetAddress text gives `['Aberystwyth Justice Centre', 'Y Lanfa', 'Trefechan']` |
| AddressText.DocLinesStripped | CourtScraper.py:255-257 | the three raw documented lines strip to the three documented items |
| AddressText.DocStrippedFirst | CourtScraper.py:255-257 | the first raw documented line strips to the documented item |
| AddressText.DocStrippedLast | CourtScraper.py:255-257 | the last raw documented line strips to the documented item |
| AddressText.MapsMatchEnd | CourtScraper.py:250 | a match of `[mM]aps\s+[a-zA-Z].*` starts at a position exactly when `maps` or `Maps` is followed there by a non-empty whitespace run and a letter, and then it ends at the first line feed after that letter |
| AddressText.MapsLetterUnique | CourtScraper.py:250 | the letter of a match is where the whitespace run after `aps` ends, so `\s+` can only match that whole run |
| AddressText.RemoveMapsFrom | CourtScraper.py:250 | the substitution from a scan position keeps only characters of the rest of the text |
| AddressText.RemoveMapsFromShortens | CourtScraper.py:250 | a match at or after the scan position makes the result shorter |
| AddressText.RemoveMaps | CourtScraper.py:250 | removing the "Maps and Direction" text only removes characters |
| AddressText.RemoveMapsFromPrefix | CourtScraper.py:250 | text before the first match is kept as it is |
| AddressText.RemoveMapsFirstMatch | CourtScraper.py:250 | the first match is deleted, the text before it is kept, and scanning resumes after it |
| AddressText.RemoveMapsUnchanged | CourtScraper.py:250 | the substitution leaves the text unchanged exactly when the pattern does not occur in it |
| AddressText.ProcessFlatAddress | CourtScraper.py:230-250 | every item is non-empty and has no surrounding whitespace |
| AddressText.SpanPairs | CourtScraper.py:261 | one (property, processed text) pair per span, in order |
| AddressText.ProcessSpanAddress | CourtScraper.py:252-261 | the keys are exactly the span properties |
| AddressText.SpanAddressLastWins | CourtScraper.py:261 | a property's value comes from its last span |
| Dict.Lookup | CourtScraper.py:86-87 | `dict.get`: present exactly for a key of the map, and then its value |
| Dict.FromPairs | CourtScraper.py:434 | `dict(pairs)`: no pairs give the empty dict, and the last pair is always stored |
| Dict.FromPairsKeys | CourtScraper.py:361 | building a dict from pairs stores exactly the keys of the pairs |
| Dict.FromPairsSnoc | CourtScraper.py:461 | unfolding step for loop proofs: one more pair overwrites or adds exactly its own key |
| Dict.FromPairsLastWins | CourtScraper.py:461 | the last pair with a key decides its value |
| Dict.FromPairsValueFrom | CourtScraper.py:434 | every stored value comes from some pair with that key |
| Dict.Zip | CourtScraper.py:361 | `zip` is truncated to the shorter input and pairs elements by position |
| Dict.Get | CourtScraper.py:148-149 | `dict.get` on an ordered dict: absent exactly for a missing key, otherwise a stored pair's value |
| Dict.Values | CourtScraper.py:188-193 | `d.values()` lists one value per entry, in iteration order |
| Dict.Put | CourtScraper.py:434 | storing to an existing key keeps the key order; a new key is appended at the end |
| Dict.PutGet | CourtScraper.py:434 | after storing a key, it reads back the new value and every other key is unchanged |
| Dict.PutDistinct | CourtScraper.py:434 | storing keeps the keys distinct |
| Dict.FromPairsOrdered | CourtScraper.py:434 | the ordered dict built from pairs has distinct keys |
| Dict.OrderedAgreesWithMap | CourtScraper.py:434 | the ordered dict answers every lookup as the plain dict from the same pairs does |
| Dict.ZipLookup | CourtScraper.py:434 | a key with no later duplicate reads back the value at its own position |
| Extraction.ClassifyAddress | CourtScraper.py:320-348 | keeps the div id; a span address exactly when the div has spans, keyed by their properties; otherwise stripped, non-empty flat lines |
| Extraction.AddressEntries | CourtScraper.py:317-350 | at most one entry per div, and none for the `pros` div |
| Extraction.AddressEntriesConcat | CourtScraper.py:320-348 | the entries of two runs of divs are the entries of each, in order |
| Extraction.AddressEntriesComplete | CourtScraper.py:320-348 | every non-`pros` div contributes its entry |
| Extraction.ExtractAddresses | CourtScraper.py:317-350 | the address loop builds exactly the specified entries |
| Extraction.RemoveColons | CourtScraper.py:361 | each text without its colons, by position |
| Extraction.ProsPairs | CourtScraper.py:361 | de-coloned dt/dd texts paired by position, truncated to the shorter list |
| Extraction.ProsCodes | CourtScraper.py:357-361 | no `pros` div gives the empty dict, and no key or value holds a colon |
| Extraction.ProsKeys | CourtScraper.py:361 | a code name is stored exactly when it is a de-coloned dt text with a dd at the same position |
| Extraction.ProsLastWins | CourtScraper.py:361 | a code's value is the dd beside its last dt |
| Extraction.AnchorTexts | CourtScraper.py:404-407 | the texts of the anchors with a property, each from such an anchor |
| Extraction.AnchorTextsComplete | CourtScraper.py:404-407 | every anchor with the property has its text collected |
| Extraction.AnchorTextsConcat | CourtScraper.py:404-407 | the texts of two runs of anchors are those of each run, in document order |
| Extraction.IsLabel | CourtScraper.py:394 | a block without anchors has no email or telephone anchors |
| Extraction.BlockText | CourtScraper.py:395 | the stripped text without line feeds; its order follows from `Text.DeleteAllConcat` |
| Extraction.BlockCategory | CourtScraper.py:401 | the property of the block's first anchor |
| Extraction.BlockValue | CourtScraper.py:399-428 | a list exactly when there is more than one email or more than one telephone anchor; otherwise the block's line-feed-free text |
| Extraction.EmailPrecedence | CourtScraper.py:399-409 | more than one email anchor gives the email list, whatever the telephones |
| Extraction.TelephoneListChosen | CourtScraper.py:399-424 | with at most one email anchor, more than one telephone anchor gives the telephone list |
| Extraction.Labels | CourtScraper.py:394-396 | the label texts hold no line feed |
| Extraction.Categories | CourtScraper.py:399-426 | at most one channel per block |
| Extraction.ContactValues | CourtScraper.py:399-428 | at most one value per block |
| Extraction.ValuesFromValueBlocks | CourtScraper.py:399-428 | every channel and every value comes from a block with anchors |
| Extraction.ContactListsStep | CourtScraper.py:379-428 | unfolding step for the loop proof: one more block extends the three lists by exactly what that block adds |
| Extraction.CategoriesMatchValues | CourtScraper.py:379-428 | every non-label block adds one category and one value, so the two lists have the same length |
| Extraction.ContactKey | CourtScraper.py:431 | the key is the category, `" - "`, then the label |
| Extraction.FormatKeys | CourtScraper.py:431 | one `"<category> - <label>"` key per position, up to the shorter of the two lists |
| Extraction.ContactKeys | CourtScraper.py:431 | one key per position, up to the shorter of labels and categories |
| Extraction.ContactDetails | CourtScraper.py:434 | the contact dict has distinct keys |
| Extraction.KeysWithinValues | CourtScraper.py:431-434 | there are never more keys than values |
| Extraction.ContactLookup | CourtScraper.py:434 | a key with no later duplicate reads the value at its position |
| Extraction.ExtractContacts | CourtScraper.py:379-434 | the contact loop builds exactly the specified dict |
| Extraction.AccumulateContacts | CourtScraper.py:379-428 | the loop over the blocks builds exactly the specified labels, categories and values |
| Extraction.AddBlock | CourtScraper.py:394-428 | one iteration appends a label's text, or a value block's channel and value |
| Extraction.ExtractCourtDetails | CourtScraper.py:288-436 | returns the specified addresses, contact dict and codes |
| Directory.KeptLinks | CourtScraper.py:453-461 | at most one pair per anchor, each named by a text longer than one character |
| Directory.KeptLinksSnoc | CourtScraper.py:455-461 | unfolding step for loop proofs: one more anchor adds at most its own pair |
| Directory.KeptNames | CourtScraper.py:455-461 | a name is kept exactly when it is longer than one character and is the text of some anchor |
| Directory.LinksStep | CourtScraper.py:455-461 | unfolding step for the loop proof: one more anchor stores `base` plus its href under its text when the text is longer than one character, and changes nothing otherwise |
| Directory.CourtNames | CourtScraper.py:453-461 | a name is stored exactly when it is longer than one character and is the text of some anchor |
| Directory.CourtLinkLastWins | CourtScraper.py:459-461 | a name's URL is `base` plus the href of its last anchor |
| Directory.GetCourts | CourtScraper.py:451-463 | the loop builds exactly the specified dict |
| Directory.StoreLink | CourtScraper.py:455-461 | a text longer than one character stores its absolute URL under that text; a shorter one leaves the dict unchanged |
| Standardise.Chars | CourtScraper.py:124 | a string iterates as its characters |
| Standardise.JoinStreet | CourtScraper.py:124 | a street list gets one line feed between every two lines; a street string one between every two characters |
| Standardise.CharsWithout | CourtScraper.py:124 | a character missing from a street string is missing from each of its characters |
| Standardise.StreetLinesRoundTrip | CourtScraper.py:124 | a street list joined by line feeds splits back into the list |
| Standardise.StreetTextSpelledOut | CourtScraper.py:124 | a street string comes out one character per line |
| Standardise.FoldAddress | CourtScraper.py:117-135 | a span address folds to town, region and street, a flat one to a street only; town and region are `dict.get` lookups, and the street is the joined `streetAddress` |
| Standardise.FlatStreetLines | CourtScraper.py:129-135 | for lines without a line feed, the street of a flat address is exactly its colon-free lines, in order, joined by line feeds |
| Standardise.ColonLabelAfterOneWordLine | CourtScraper.py:133 | an item made of a colon-free line, a line feed and a label line is kept whole, so the label, colon and all, is a line of the street |
| Standardise.OneWordLineStreet | CourtScraper.py:133 | a one-word line, any next line and a two-word line scan to two items, and the flat street splits back into all three lines |
| Standardise.LabelLineReachesStreet | CourtScraper.py:133 | the street built from the scanned lines of `Court\nPhone: 123\nHigh Street\n` is those three lines, the colon label included |
| Standardise.FoldPairs | CourtScraper.py:104-135 | one (kind, folded address) pair per entry, in order |
| Standardise.FoldAddresses | CourtScraper.py:104-135 | no entries give no addresses, and the last entry's kind always holds that entry's folded address |
| Standardise.FoldPairsSnoc | CourtScraper.py:104-135 | unfolding step for loop proofs: one more entry appends its (kind, folded address) pair |
| Standardise.FoldAddressesStep | CourtScraper.py:120-131 | unfolding step for the loop proof: one more entry stores its folded address under its kind and changes nothing else |
| Standardise.AddressKinds | CourtScraper.py:104-135 | a kind is stored exactly when some entry has it |
| Standardise.AddressLastWins | CourtScraper.py:120-131 | a later entry of the same kind overwrites an earlier one |
| Standardise.TelephoneItems | CourtScraper.py:156-159 | a list gives its first item once per item; a non-empty string gives exactly itself; an empty or missing value gives `None` |
| Standardise.Truthy | CourtScraper.py:166 | Python truthiness: a value that is present and neither `""` nor `[]` |
| Standardise.EnquiryEmailItems | CourtScraper.py:169-181 | a list gives its entries without `solicitor` in order; a string gives itself, or `None` when it has `solicitor` |
| Standardise.LineAfter | CourtScraper.py:188-194 | a string becomes `line`, a non-empty list's last item becomes `line`, an empty list leaves it as it was |
| Standardise.Contribution | CourtScraper.py:196-199 | at most one match, present exactly when there is no `solicitor` and the first line contains `enq`, and then it is that first line |
| Standardise.Fallback | CourtScraper.py:184-199 | every collected match is one line that contains `enq` |
| Standardise.FallbackSound | CourtScraper.py:184-199 | `line` always comes from a value, and every collected match is the first line of such a visited line that has no `solicitor` |
| Standardise.FallbackLineSet | CourtScraper.py:185-194 | after a first value that is not an empty list, `line` is always set |
| Standardise.FallbackGrows | CourtScraper.py:185-199 | visiting more values only appends matches |
| Standardise.FallbackCollectsEvery | CourtScraper.py:185-199 | every contact value whose visited line contributes has its match collected |
| Standardise.FallbackStepAt | CourtScraper.py:185-199 | unfolding step: a value that sets `line` by itself appends its own contribution to the matches, whatever came before |
| Standardise.FallbackEmptyListRepeats | CourtScraper.py:188-199 | an empty list value visits the previous line again |
| Standardise.EmailItems | CourtScraper.py:166-199 | the list holds a `None` exactly when the Enquiries email is one non-empty string that mentions `solicitor`; without a truthy Enquiries email it is the fallback matches |
| Standardise.StandardiseSpec | CourtScraper.py:36-211 | keeps the court name; each code is the `pros` value of its key, and present exactly when the key is; telephone and email stay unconverted exactly when there are no contacts; the addresses are the folded address entries |
| Standardise.StandardiseAddresses | CourtScraper.py:94-135 | the address loop builds exactly the specified dict |
| Standardise.CollectTelephone | CourtScraper.py:156-159 | the telephone appends build exactly the specified list |
| Standardise.CollectEnquiryEmail | CourtScraper.py:166-181 | the email appends build exactly the specified list |
| Standardise.CollectWithoutSolicitor | CourtScraper.py:172 | the comprehension appends exactly the entries without `solicitor`, in order |
| Standardise.KeepUnlessSolicitor | CourtScraper.py:172 | an entry is appended exactly when it does not mention `solicitor` |
| Standardise.CollectFallbackEmail | CourtScraper.py:184-199 | the fallback loop collects exactly the specified matches |
| Standardise.VisitValue | CourtScraper.py:187-194 | the assignments to `line` for one value leave the specified line: the string, the last list item, or the old line for an empty list |
| Standardise.MatchLine | CourtScraper.py:196-199 | the test of one visited line appends exactly its contribution |
| Standardise.StandardiseDictDataOutput | CourtScraper.py:36-211 | returns exactly the specified record |
| Standardise.CheckVal | CourtScraper.py:213-222 | `None` unless the kind is stored and the attribute is one of the three; a stored street is always returned; a span address's town and region are returned when they are single strings |
| Standardise.FieldText | CourtScraper.py:218 | only a single-string town or region can be returned |
| Standardise.CheckValFlat | CourtScraper.py:213-222 | a flat address has no town and no region |
| Standardise.TelephoneFromList | CourtScraper.py:156-157 | a list of n numbers gives its first number n times, comma-joined |
| Standardise.TelephoneFromEmptyList | CourtScraper.py:156-157 | an empty telephone list gives `""` |
| Standardise.TelephoneFromString | CourtScraper.py:158-159 | a non-empty telephone string gives itself |
| Standardise.TelephoneMissing | CourtScraper.py:158-159 | a missing or empty telephone gives `None` |
| Standardise.EmailFromList | CourtScraper.py:169-172 | an email list gives its entries without `solicitor`, in order, comma-joined, and `""` when none is left |
| Standardise.EmailFromString | CourtScraper.py:174-181 | an email string gives itself, or `None` when it has `solicitor` |
| Standardise.EmailFallback | CourtScraper.py:184-205 | without an Enquiries email, the result is every fallback match comma-joined, or `""` when there is none |
| Standardise.NoContacts | CourtScraper.py:144-211 | no contacts leaves telephone and email as empty lists |
| Standardise.EmptyRecord | CourtScraper.py:66-211 | a record with only a name gives the name, no codes, empty lists and no addresses |
| Standardise.VisitingAddressScenario | CourtScraper.py:36-222 | a span visiting address and Enquiries strings give the telephone, the email, town, region and the joined street, and nothing for a postal address |
| Standardise.SolicitorEmailScenario | CourtScraper.py:169-172 | of two Enquiries emails, the one mentioning `solicitor` is dropped |
| Standardise.FlatPostalScenario | CourtScraper.py:129-135 | a flat postal address loses its colon label line, and the rest is the street |
| Standardise.NoColonKeepsAll | CourtScraper.py:133 | lines without a colon all survive the colon filter |

## Left out

- Fetching and parsing HTML (`soup`, `requests`, BeautifulSoup and every
  `find`/`find_all` query). Pages, divs, spans, contact blocks and index anchors are
  given as abstract sequences. The `item(text=True)` filter that skips `h2` text is
  done by whoever builds the flat text.
- The `__main__` driver: CSV writing, counters, `print` and its broken exception handler.
- `time.sleep(random.uniform(...))`: timing and randomness only.
- The index URL built in `get_courts` (`base + buff + chr(char)`), which is only fetched.
- `Standardise.CheckVal`: does not model `.encode('utf-8')`, and takes the address dict
  as a parameter instead of reading the module global `addresses`. A failing
  `.encode` on a missing key or a list value is modelled as `None`.
- General regular expressions and Unicode. Only the fixed patterns are modelled, over
  ASCII whitespace.
- `Extraction.ContactKey`: is total, but the source raises `UnicodeEncodeError` on a
  label or category holding a non-ASCII character, such as a no-break space or `’`.
  `"{} - {}".format(...)` builds a Python 2 byte string, and the module has no
  `unicode_literals`. The model has no text encoding, so this failure is not modelled.
- `Extraction.FormatKeys`: is total, but in the source one non-ASCII label or category
  makes the whole key comprehension raise, as for `ContactKey`.
- `AddressText.StrippedWordLines`: strips only the ASCII whitespace that `\s` matches.
  Python's `unicode.strip()` also removes Unicode whitespace such as U+00A0, which `\S`
  counts as a word character. So a line such as `u"\xa0 \n"` gives the source an empty
  item, and the non-empty promise holds only for text whose whitespace is ASCII.
- `AddressText.ProcessSingleAndMultiLine`: inherits the ASCII-only strip of
  `StrippedWordLines`. With Unicode whitespace such as U+00A0, the source can return
  an empty item.
- `AddressText.ProcessFlatAddress`: inherits the ASCII-only strip. A scanned line of
  U+00A0 and whitespace strips to an empty item in the source.
- Python 2 dict iteration order is arbitrary. The contact dict is modelled in insertion
  order, which fixes the order in which the email fallback visits values.
- An address item dict has one key, and it is modelled by its one (kind, value) pair.
- `Standardise.StandardiseDictDataOutput`: requires every span address to have a
  `streetAddress`. Without one, the source raises a `TypeError` joining `None`.
- `Standardise.StandardiseDictDataOutput`: requires that the email fallback does not
  start on an empty list value. Otherwise the source reads the unbound `line`.
- Divs without an `id` and spans without attributes make the source raise. The model
  gives each an id or property.
- A contact block whose first anchor has no `property` makes the source raise. Other
  property-less anchors are modelled with a property that is neither email nor telephone.
- `Directory.GetCourts`: anchors whose `.string` is `None` make `len` raise, and are not modelled.
- The `else: email.append(None)` branch after `if email_enq / elif not email_enq` cannot
  be reached, and is not modelled.
