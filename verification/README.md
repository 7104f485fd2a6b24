# Contact extraction and search: a Dafny model

This project models the decision logic of a contact-discovery service. The service has four parts:

- **Scraper.** It loads a business website in a headless browser. It extracts phone numbers, a postal address, coordinates and social-profile links, and explores up to seven "contact-like" pages of the same site as fallbacks.
- **Search endpoint.** It retrieves stored records through a text index or a regex query. It then filters them by distance, fuzzy-ranks them, sorts them and pages them.
- **Schedule.** It reads a CSV list of sites, scrapes every site that is online, and upserts the result into the contacts collection by URL.
- **Text heuristics.** These find phone numbers and address lines in raw text, and all three parts above use them.

Everything outside this logic becomes a parameter of the model. That covers the browser, the database, the regular expressions, libphonenumber, Fuse.js, the haversine formula, `parseFloat`, `decodeURIComponent`, URL normalisation and the liveness probe. Each is passed in as a function (see `Snapshot.Env`, `Search.Store`, `Search.Ranker` and `Ingest.Io`). A rendered page is replaced by a snapshot of what the scraper reads from it (`Snapshot.Page`).

Modules, one per file:

| module | models |
|---|---|
| `Wrappers` | `Option` and `Attempt` (a value or a thrown error message) |
| `Seqs` | duplicate-free sequences, `Array.from(new Set(…))` as `Dedup`, `filter`, `slice(0, n)` |
| `Text` | the JavaScript string operations used: `trim`, `toLowerCase`, `includes`, `startsWith`, `replace`, `split`, `join` |
| `Records` | the scrape result and the stored document |
| `Heuristics` | `extractPhoneNumbers` and `extractAddressFromText` (src/utils/utils.ts) |
| `JsonLd` | JSON values and the depth-first `findGeo` / `findAddress` |
| `Snapshot` | the page snapshot and the external behaviour the scraper uses |
| `Location` | the address and coordinate cascade of the in-page evaluation |
| `Extraction` | per-page extraction, social links, fallback links, the merge loop, success and error |
| `Sorting` | a stable insertion sort standing for `Array.prototype.sort` |
| `Search` | the `search` and `getById` handlers |
| `Ingest` | the CSV schedule and the upsert by URL |

Some behaviours of the code are easy to miss, and the model keeps them:

- **Socials across pages.** A later page's socials overwrite the same platform, because the merge is an object spread; the merge does not just fill empty slots.
- **First fallback page.** It is visited even when the primary page already resolved both the address and the coordinates. The stop test runs only after a visit.
- **`getById` with no match.** It answers 200 "Contact found!" with a null result, not an error.
- **Phone duplicates.** Phones are deduplicated as identical strings only. A canonical `+15551234567` and a heuristic `5551234567` both remain.

## Model

| member | source | states |
|---|---|---|
| Heuristics.ExtractPhoneNumbers | src/utils/utils.ts:35-49 | empty text or no match gives `[]`; no duplicates; every entry holds only digits and `+` and has 10 or 11 digits; every phone-shaped stripped match is present, and every entry comes from some match |
| Heuristics.Digits | src/utils/utils.ts:43 | exactly the digit characters of the match, in order: the generic `filter` keeping digits |
| Heuristics.KeepDialable | src/utils/utils.ts:41 | exactly the digits and plus signs of the match, in order: the generic `filter` keeping them |
| Heuristics.PhoneCandidates | src/utils/utils.ts:41-46 | an entry is kept iff its stripped match has 10 or 11 digits, and every entry comes from a match |
| Heuristics.PhoneCandidatesIsFilter | src/utils/utils.ts:41-46 | the candidates are exactly the stripped matches filtered on their shape: the phone-shaped ones, in match order, each as often as it was matched |
| Heuristics.KeepDialableKeepsDigits | src/utils/utils.ts:42-45 | stripping to digits and `+` keeps exactly the digits of the match, so the length test sees the same digits |
| Heuristics.PhoneNumbersInFirstMatchOrder | src/utils/utils.ts:41-48 | the candidates are a subsequence of the stripped matches, and the numbers come out in the order of their first occurrence among the candidates |
| Heuristics.NonBlankLines | src/utils/utils.ts:25 | a line is present iff it is the non-empty trimmed form of some piece between line breaks, in the order of the pieces; every line is trimmed at both ends |
| Heuristics.FirstAddressLine | src/utils/utils.ts:27-32 | a result exists iff some line matches, and it is the trimmed match of the first matching line |
| Heuristics.ExtractAddressFromText | src/utils/utils.ts:24-33 | null exactly when no non-blank line matches; otherwise the trimmed match of the first matching non-blank line |
| Heuristics.BlankLinesNeverExamined | src/utils/utils.ts:25-30 | two patterns that agree on every non-empty string give the same address for every text |
| JsonLd.Search | src/scrapping/contact.scrapping.ts:115-121 | a node's own hit wins; otherwise the result is the first child result the `if (found)` test accepts, in value order, unless an earlier child throws, which ends the search with that error; nothing when every child continues |
| JsonLd.SearchFrom | src/scrapping/contact.scrapping.ts:116-119 | the loop over `Object.values` returns the first accepted child result; nothing when every child continues |
| JsonLd.SearchFindsANode | src/scrapping/contact.scrapping.ts:115-121 | whatever the search returns is the node test's result at some node inside the tree |
| JsonLd.SearchFaultHasASource | src/scrapping/contact.scrapping.ts:115-121 | a thrown error comes from some node of the tree whose own test throws |
| JsonLd.SearchMissesNothing | src/scrapping/contact.scrapping.ts:115-121 | when every hit in the tree passes the `if (found)` test, finding nothing means no node of the tree yields anything |
| JsonLd.GeoProbe | src/scrapping/contact.scrapping.ts:103-114 | a node test never throws |
| JsonLd.FindGeo | src/scrapping/contact.scrapping.ts:102-122 | a `geo` child with truthy latitude and longitude wins over the node's own pair, which wins over nested nodes; any result is the pair of some node in the tree, and there is none exactly when no node of the tree has a pair |
| JsonLd.FindGeoTakesFirstChild | src/scrapping/contact.scrapping.ts:115-120 | below a node without a pair of its own, the result is that of the first value, in enumeration order, that has one; none when no value has one |
| JsonLd.IsPostalAddress | src/scrapping/contact.scrapping.ts:125 | `@type?.includes` throws exactly when `@type` is present, not null, and neither a string nor an array |
| JsonLd.PostalParts | src/scrapping/contact.scrapping.ts:126-132 | at most five parts, and none exactly when no part is truthy |
| JsonLd.AddressProbe | src/scrapping/contact.scrapping.ts:125-137 | the node test throws exactly when the `@type` test throws |
| JsonLd.FindAddress | src/scrapping/contact.scrapping.ts:124-145 | a PostalAddress with truthy parts gives them joined with ", "; otherwise a non-empty string `address`; a bad `@type` throws, and every error comes from a node whose `@type` test throws; any hit comes from some node; when no node yields an empty string, nothing exactly when no node yields anything |
| JsonLd.FindAddressTakesFirstChild | src/scrapping/contact.scrapping.ts:138-143 | below a node that is not an address, the result is that of the first value, in enumeration order, yielding a non-empty address, unless an earlier value throws; nothing when every value continues |
| Location.ReadMapUrl | src/scrapping/contact.scrapping.ts:56-71 | one map URL sets coordinates from the `@`/`!` pair and the address from the decoded `q=` value; it throws exactly when the decoding throws |
| Location.ScanMapUrls | src/scrapping/contact.scrapping.ts:54-72 | the first URL that yields coordinates or a non-empty address decides; a decode error before that throws; nothing found means no URL yields |
| Location.MapStage | src/scrapping/contact.scrapping.ts:54-94 | a decode error in the iframes before any yields throws; an iframe that yields first gives coordinates or an address; otherwise the stage throws exactly when a decode error in the links comes before any link yields, and a link that yields first gives coordinates or an address |
| Location.MapStageReadsLinksLast | src/scrapping/contact.scrapping.ts:71-76 | an iframe that yields first decides alone, so the links are never read; when no iframe yields or throws, the links are scanned from the state the iframes left |
| Location.ReadScript | src/scrapping/contact.scrapping.ts:147-148 | coordinates and a non-empty address already set are kept; unset coordinates become `findGeo`'s |
| Location.FirstGeo | src/scrapping/contact.scrapping.ts:98-150 | the reference definition: the coordinates of the first parsed script whose `findGeo` finds any; none exactly when no script has any |
| Location.FirstLdAddress | src/scrapping/contact.scrapping.ts:98-150 | the reference definition: the non-empty address of the first parsed script whose `findAddress` yields one; none exactly when no script does |
| Location.ScanScripts | src/scrapping/contact.scrapping.ts:97-155 | set coordinates and a non-empty address are never overwritten; unset coordinates become those of the first parsed script that has any; a falsy address becomes non-empty exactly when some parsed script yields a non-empty address, and then it is the first such; unparsable scripts are skipped |
| Location.LdStage | src/scrapping/contact.scrapping.ts:96-155 | the JSON-LD scripts are not read once coordinates are set; otherwise the coordinates become the first script's that has any, and a falsy address the first non-empty script address |
| Location.MetaCoords | src/scrapping/contact.scrapping.ts:158-167 | coordinates exactly when the content has a `;` and both of the first two pieces are non-empty |
| Location.MetaStage | src/scrapping/contact.scrapping.ts:157-168 | consulted only while coordinates are unset; never touches the address |
| Location.FirstOsm | src/scrapping/contact.scrapping.ts:171-182 | the first OpenStreetMap iframe with `mlat` and `mlon` decides |
| Location.OsmStage | src/scrapping/contact.scrapping.ts:170-183 | consulted only while coordinates are unset; never touches the address |
| Location.FirstAddressTag | src/scrapping/contact.scrapping.ts:186-193 | none exactly when no `<address>` has a trimmed length strictly between 15 and 300; otherwise the trimmed text of the first that has |
| Location.AddressTagStage | src/scrapping/contact.scrapping.ts:185-194 | consulted only while the address is falsy; never touches coordinates |
| Location.FirstCandidate | src/scrapping/contact.scrapping.ts:208-215 | the first element of a selector with plausible trimmed length that the address pattern matches |
| Location.SelectorContribution | src/scrapping/contact.scrapping.ts:208-214 | a selector contributes exactly when it has a candidate element |
| Location.FirstFill | src/scrapping/contact.scrapping.ts:206-218 | the reference definition: the first selector contribution that is a non-empty address; none exactly when no selector contributes one |
| Location.SelectorAddress | src/scrapping/contact.scrapping.ts:206-218 | the address the selectors supply is `extractAddressFromText` of the first candidate of the first selector for which that is non-empty; none exactly when no selector yields one |
| Location.SelectorLoop | src/scrapping/contact.scrapping.ts:206-218 | never touches coordinates; a non-empty address ends it; a falsy address ends up non-empty exactly when some selector contributes a non-empty address, and then it is the first such contribution |
| Location.SelectorStage | src/scrapping/contact.scrapping.ts:196-219 | consulted only while the address is falsy; never touches coordinates; a falsy address becomes the selectors' address when they supply one, and stays falsy otherwise |
| Location.FirstWindow | src/scrapping/contact.scrapping.ts:226-232 | the first window starting before the last line that the pattern matches; none exactly when no such window matches |
| Location.FooterLines | src/scrapping/contact.scrapping.ts:225 | one trimmed line per `\n`-separated piece, blank lines kept |
| Location.FooterStage | src/scrapping/contact.scrapping.ts:221-234 | consulted only while the address is falsy; a footer without a line break is never matched; a falsy address with a matching window becomes the first matching window, and without one nothing changes |
| Location.Locate | src/scrapping/contact.scrapping.ts:50-237 | the evaluation throws exactly when the map stage throws; otherwise the coordinates are the map's, else the first JSON-LD script's, else the meta tag's, else the first OpenStreetMap iframe's; the address is the map's, else (only when the map gave no coordinates) the first JSON-LD address, else the `<address>` element, the selectors, the footer, the first non-empty one winning |
| Location.Cascade | src/scrapping/contact.scrapping.ts:96-234 | from what the maps gave, each later source fills only what is still unset, in priority order: coordinates from JSON-LD, meta tag, OpenStreetMap; the address from JSON-LD (only without map coordinates), `<address>`, selectors, footer |
| Location.LaterStages | src/scrapping/contact.scrapping.ts:157-234 | set coordinates stay, else they come from the meta tag, else from the first OpenStreetMap iframe; a non-empty address stays, else it is the first non-empty one of `<address>`, selectors and footer |
| Location.ScanScriptsAsWritten | src/scrapping/contact.scrapping.ts:97-155 | as written, a script that does not parse, or on which `findAddress` throws while the address is falsy, ends the whole evaluation; when it does not throw, it agrees with the corrected loop |
| Location.LocateAsWritten | src/scrapping/contact.scrapping.ts:50-237 | as written, the evaluation agrees with the corrected one whenever it returns, and throws whenever the map stage throws |
| Location.UnparsableScriptThrowsAsWritten | src/scrapping/contact.scrapping.ts:97-153 | with no map and a single script that does not parse, the written evaluation throws |
| Location.UnparsableScriptLosesAddressAsWritten | src/scrapping/contact.scrapping.ts:97-194 | with no map, a single unparsable script and a plausible `<address>` element, the written evaluation returns nothing while the corrected one returns that address |
| Location.ScanScriptsAgreeWithoutFailures | src/scrapping/contact.scrapping.ts:97-155 | when every script parses and `findAddress` never throws, both loops give the same result |
| Location.SelectorStageAsWritten | src/scrapping/contact.scrapping.ts:206-212 | as written, the selector stage throws exactly when the address is falsy and some selector element has a trimmed length strictly between 15 and 300; otherwise it changes nothing |
| Location.SelectorStageAgreesWhenItReturns | src/scrapping/contact.scrapping.ts:196-219 | where the written selector stage returns, the corrected one gives the same location |
| Location.FooterStageAsWritten | src/scrapping/contact.scrapping.ts:221-228 | as written, the footer stage throws exactly when the address is falsy and there is a footer with a line break; otherwise it changes nothing |
| Location.FooterStageAgreesWhenItReturns | src/scrapping/contact.scrapping.ts:221-234 | where the written footer stage returns, the corrected one gives the same location |
| Location.FooterLosesMapCoordinatesAsWritten | src/scrapping/contact.scrapping.ts:50-240 | map coordinates without a `q=` address, no `<address>`, no selector hit and a two-line footer: the written evaluation returns nothing, while the corrected one keeps the map coordinates |
| Location.MapLinksIgnoredWhenIframesYield | src/scrapping/contact.scrapping.ts:71-94 | when an iframe yields coordinates or an address before any decode error, the map links do not matter |
| Location.MapCoordinatesAreFinal | src/scrapping/contact.scrapping.ts:96-183 | coordinates from a map are the result's, and the JSON-LD, meta and OpenStreetMap sources do not matter |
| Location.LaterAddressSourcesIgnored | src/scrapping/contact.scrapping.ts:185-234 | once the coordinate stages leave a non-empty address, `<address>`, selectors and footer do not matter |
| Location.AddressStagesKeepCoordinates | src/scrapping/contact.scrapping.ts:185-236 | the address stages never change the coordinates |
| Extraction.ValidPhones | src/scrapping/contact.scrapping.ts:248-255 | exactly the canonical forms of the raw numbers libphonenumber accepts |
| Text.CollapseSpaces | src/scrapping/contact.scrapping.ts:243 | white space is left only as single plain spaces, a non-empty input gives a non-empty result, and the first character is white space iff the input's is |
| Text.CollapseFrom | src/scrapping/contact.scrapping.ts:243 | the character-at-a-time reading of `replace(/\s+/g, " ")` keeps every non-space character, in order |
| Text.CollapseSpacesIsCharByChar | src/scrapping/contact.scrapping.ts:243 | the run-at-a-time collapse equals the character-at-a-time reference on every input |
| Text.CollapseSpacesKeepsNonSpaces | src/scrapping/contact.scrapping.ts:243 | collapsing white space keeps every other character, in order |
| Text.TrimKeepsNonSpaces | src/scrapping/contact.scrapping.ts:243 | `trim()` drops white space only |
| Extraction.VisibleTextKeepsWords | src/scrapping/contact.scrapping.ts:242-243 | the visible text keeps every non-space character of the body text, in order |
| Extraction.VisibleTextSingleSpaced | src/scrapping/contact.scrapping.ts:242-243 | the visible text has no white space at either end, and its only white space is single plain spaces between words |
| Extraction.TelTargets | src/scrapping/contact.scrapping.ts:257-259 | exactly the trimmed targets of the anchors whose `href` attribute starts with `tel:`, each read from the resolved `href` with the first `tel:` removed |
| Extraction.AddLink | src/scrapping/contact.scrapping.ts:277-285 | a filled slot is never overwritten; an empty slot gets the link, in its original case, iff the lower-cased link names the platform (twitter: `twitter.com` or `x.com`) |
| Extraction.CollectSocials | src/scrapping/contact.scrapping.ts:276-285 | slots filled before the loop keep their link |
| Extraction.FirstMarked | src/scrapping/contact.scrapping.ts:276-285 | the reference definition: the first link naming the platform, or none when no link does |
| Extraction.CollectSocialsIsFirstMarked | src/scrapping/contact.scrapping.ts:276-285 | the single pass gives each platform exactly its first naming link |
| Extraction.PageSocials | src/scrapping/contact.scrapping.ts:272-285 | a platform has a slot iff some link names it, holding the first such link |
| Extraction.PagePhones | src/scrapping/contact.scrapping.ts:245-290 | no duplicates; a number is present iff it is a valid canonical number of the text or of a `tel:` link, or a heuristic number of the address or of the text |
| Extraction.PageAddress | src/scrapping/contact.scrapping.ts:270 | the cascade's address when non-empty, else the first address line of the visible text |
| Extraction.IsFallback | src/scrapping/contact.scrapping.ts:300-321 | the test reads the resolved `href`, so a relative link counts as an absolute `http` one: an `http` link that does not mention the host never qualifies; a link whose resolved href does not start with `http` (`mailto:`, `tel:`, `javascript:`) and mentions "contact" when lower-cased always does; a qualifying anchor names one of the ten keywords in its lower-cased href or text |
| Extraction.FallbackAnchors | src/scrapping/contact.scrapping.ts:300-321 | exactly the anchors passing the keyword and host test, in document order, each as many times as it occurs in the page |
| Extraction.RepeatedFallbackTakesTwoSlots | src/scrapping/contact.scrapping.ts:307-324 | a qualifying link that occurs twice is kept twice and takes two of the seven slots |
| Extraction.Assemble | src/scrapping/contact.scrapping.ts:270-293 | the returned object: the cascade's non-empty address else the text's first address line, the cascade's coordinates or none when it threw, the deduplicated phones of the four sources, and the first link naming each platform |
| Extraction.ExtractPage | src/scrapping/contact.scrapping.ts:242-294 | no coordinates when the evaluation threw, else those of the highest-priority source; the highest-priority non-empty address, else the first address line of the visible text; a phone is present iff it is a valid number of the text or a `tel:` link, or a heuristic number of the address or the text, with no repeats; each platform gets its first naming link (built on the corrected cascade) |
| Extraction.FallbackLinks | src/scrapping/contact.scrapping.ts:300-324 | the i-th link is the href of the i-th fallback anchor, and there are seven of them or all fallback anchors if fewer |
| Extraction.MergePage | src/scrapping/contact.scrapping.ts:347-359 | phones become a duplicate-free union extending the old list; the page's socials override, and a platform only the old result has keeps its link; address and coordinates are adopted only if still unset |
| Extraction.VisitFallbacks | src/scrapping/contact.scrapping.ts:326-366 | a non-empty address, set coordinates, the earlier phones (as a prefix) and every platform that has a link survive the loop; a platform no successful visit names keeps its link; every phone of the result was already there or comes from a successful visit; a first visit that succeeds contributes all its phones and platforms, its non-empty address when the address is falsy, and its coordinates when none are set |
| Extraction.FailedVisitSkipped | src/scrapping/contact.scrapping.ts:363-365 | a visit that throws is swallowed and the loop goes on with the next link from the same state |
| Extraction.UnresolvedMergeContinues | src/scrapping/contact.scrapping.ts:347-362 | a successful visit that leaves the address or the coordinates unknown is merged and the loop goes on with the next link from the merged state |
| Extraction.VisitCompose | src/scrapping/contact.scrapping.ts:326-366 | a run over `a` that ends unresolved never stopped early: running over `a + b` is running over `b` from where `a` left off |
| Extraction.EveryVisitBeforeResolvedContributes | src/scrapping/contact.scrapping.ts:326-366 | every link reached while the result is unresolved is visited, and a successful visit contributes all its phones and platforms, and its address and coordinates where those were still unknown |
| Extraction.AllVisitsFailing | src/scrapping/contact.scrapping.ts:363-365 | failed visits are swallowed: when all fail, the result is untouched |
| Extraction.NoVisitsAfterResolved | src/scrapping/contact.scrapping.ts:360-362 | once address and coordinates are both set, later links are never visited |
| Extraction.FirstFallbackAlwaysVisited | src/scrapping/contact.scrapping.ts:326-362 | the first fallback page is merged even when the primary page resolved everything |
| Extraction.ErrorText | src/scrapping/contact.scrapping.ts:370 | the error message, or "scraping failed" when it is empty |
| Extraction.Initial | src/scrapping/contact.scrapping.ts:9-15 | the result starts with no phones, no socials and `success` false |
| Extraction.AssignMain | src/scrapping/contact.scrapping.ts:297-298 | every key of the primary page's data is copied; null coordinates are stored as null |
| Extraction.Scrape | src/scrapping/contact.scrapping.ts:8-376 | `success` iff the primary page and the host name both succeed, exactly when there is no error; a primary failure leaves the initial result plus the error; phones stay duplicate-free, and each comes from the primary page or a successful fallback visit; the primary page's address and coordinates are final, and so is a platform link no fallback page names; a first fallback visit that succeeds contributes its phones and platforms, and the address and coordinates the primary page lacked (built on the corrected cascade) |
| Extraction.ScrapeKeepsEveryReachedVisit | src/scrapping/contact.scrapping.ts:324-366 | every fallback link reached while the address or the coordinates are unknown is visited, and a successful visit contributes all its phones and platforms, and the address and coordinates still unknown before it |
| Extraction.MergeNeverUnsetsCoords | src/scrapping/contact.scrapping.ts:357-359 | once the primary page's data is in, the result always has a `coords` key |
| Extraction.PrimaryAddressIsFinal | src/scrapping/contact.scrapping.ts:354-356 | a non-empty address from the primary page is the final address |
| Sorting.Insert | src/services/contact.service.ts:125-135 | inserting adds exactly the one element |
| Sorting.Sort | src/services/contact.service.ts:125-135 | the sorted hits are a permutation of the input |
| Sorting.SortOrdered | src/services/contact.service.ts:125-135 | under a comparator describing a total preorder, the result is in order |
| Sorting.InsertOrdered | src/services/contact.service.ts:125-135 | insertion into an ordered sequence keeps it ordered |
| Search.WithDefaults | src/services/contact.service.ts:10-24 | absent parameters take the defaults `q = ""`, `limit = 20`, `page = 1`, `sort_by = "score"`, descending order |
| Search.MessageOr | src/services/contact.service.ts:155 | the error message, or the fallback text when it is empty |
| Search.TextTier | src/services/contact.service.ts:33-41 | at most 200 text-search results; an error counts as none |
| Search.Retrieve | src/services/contact.service.ts:33-73 | text-search results win; only when there are none is the ObjectId lookup or the regex query (capped at 200) used; an ObjectId found gives the 200 reply with that document, a null lookup the 500 reply with the `toObject` TypeError, a lookup error the 500 reply with its message; a regex error becomes a 500 reply |
| Search.Radius | src/services/contact.service.ts:91 | `maxDistance`, or 10000 when it is falsy |
| Search.CloseEnough | src/services/contact.service.ts:76-92 | a document without coordinates, or with a latitude or longitude that is 0 or NaN, never survives; a surviving one is within the radius |
| Search.GeoFilter | src/services/contact.service.ts:75-93 | without truthy `lat` and `lng` nothing is removed; otherwise exactly the documents with truthy coordinates within the radius survive, in their order and with their multiplicity |
| Search.SortHits | src/services/contact.service.ts:122-136 | the sorted hits are a permutation of the fuzzy hits |
| Search.ScoreCmp | src/services/contact.service.ts:125-128 | antisymmetric, and `a` sorts before `b` exactly when its score is lower (ascending) or higher (descending) |
| Search.FieldCmp | src/services/contact.service.ts:129-136 | a tie exactly when the field values are `===`; otherwise `a` sorts after `b` exactly when its value is larger (ascending) or smaller (descending); the result is always 0, 1 or -1 |
| Search.ScoreCmpConsistent | src/services/contact.service.ts:126 | the score comparator describes a total preorder |
| Search.ScoreSortOrdersScores | src/services/contact.service.ts:124-127 | scores are non-decreasing for "asc" and non-increasing otherwise |
| Search.FieldSortOrdersValues | src/services/contact.service.ts:128-135 | for ordered field values, "asc" puts larger values later and descending order earlier; equal values tie |
| Search.JsSlice | src/services/contact.service.ts:139 | in-range bounds give exactly that slice; never longer than the input |
| Search.PageOf | src/services/contact.service.ts:138-139 | for `limit >= 0`, at most `limit` results, and for a page in range exactly `sorted[(page-1)*limit ..]` up to `limit` of them |
| Search.CeilDiv | src/services/contact.service.ts:145 | the least integer not below the quotient |
| Search.PageCount | src/services/contact.service.ts:145 | `pages` is not finite for `limit` 0, and for a positive `limit` the least page count covering `total` |
| Search.Rank | src/services/contact.service.ts:75-150 | no survivors of the geo filter gives the 200 reply with total 0; otherwise `total` is the fuzzy-hit count, `pages` its page count, and the results the requested page of the sorted hits |
| Search.SearchContacts | src/services/contact.service.ts:8-157 | 400 exactly for a blank query; otherwise the retrieval answers directly or its candidates are ranked |
| Search.RegexTierOnlyAfterEmptyText | src/services/contact.service.ts:43-73 | when text search finds something, the regex query does not matter |
| Search.BlankQueryNeedsNoLookup | src/services/contact.service.ts:26-31 | a blank query is rejected whatever the database holds |
| Search.PaginationExample | src/services/contact.service.ts:138-145 | 45 hits, limit 20, page 3: the last 5 hits, and 3 pages |
| Search.GetById | src/services/contact.service.ts:159-175 | 200 with the document whenever the lookup succeeds, null included; otherwise the error message or "Contact not found!" |
| Ingest.Assign | src/schedules/contact.schedule.ts:29-31 | the document keeps its `id`; every scraped key is overwritten: URL, phones, socials, address, `success`, a null `coords` as none, a present `coords` as its value and a present `error` as its text; a missing `coords` or `error` key keeps the stored value |
| Ingest.Create | src/schedules/contact.schedule.ts:32-33 | a new document with the given `id`, the scrape's URL, phones, socials, address, `success`, coordinates and error, and schema defaults (`error: ""`, no coordinates) for what the scrape lacks |
| Ingest.Upsert | src/schedules/contact.schedule.ts:22-34 | an existing URL is updated in place: same keys, same counter, same `id`; a new URL adds exactly one document with the next `id`; other documents are untouched |
| Ingest.UpsertAsWritten | src/schedules/contact.schedule.ts:28-34 | as written, the stored alternate names are never the line's |
| Ingest.AlternateNamesLostAsWritten | src/schedules/contact.schedule.ts:28 | a concrete line whose alternate names are lost |
| Ingest.UpsertDiffersOnlyInNames | src/schedules/contact.schedule.ts:26-34 | the corrected upsert differs from the written one only in the stored names |
| Ingest.UpsertPreservesValid | src/schedules/contact.schedule.ts:22-34 | every document stays filed under its URL with a distinct `id` below the counter |
| Ingest.NoDuplicateUrl | src/schedules/contact.schedule.ts:22-34 | in a valid collection two documents never share a URL |
| Ingest.LooksLikeDomain | src/schedules/contact.schedule.ts:17-18 | the line is processed exactly when its first comma-separated field contains a dot |
| Ingest.ProcessLine | src/schedules/contact.schedule.ts:17-37 | no dot in the first field, or an offline site, changes nothing; a URL that cannot be normalised, or one the online check rejects, throws; an online site with fewer than four fields throws, and with four or more its scrape is upserted under the line's names (through the corrected upsert) |
| Ingest.ProcessLineTouchesOneUrl | src/schedules/contact.schedule.ts:22-34 | a line changes at most the document of one URL |
| Ingest.Run | src/schedules/contact.schedule.ts:9-42 | an empty file changes nothing (lines go through the corrected upsert) |
| Ingest.RunPreservesValid | src/schedules/contact.schedule.ts:16-38 | the collection stays valid over any file |
| Ingest.RunStopsAtThrow | src/schedules/contact.schedule.ts:9-42 | a throwing line ends the run: later lines are not processed and earlier writes stay |
| Ingest.RunAppend | src/schedules/contact.schedule.ts:16-38 | lines are handled in file order, each from the collection the previous ones left |

## Left out

- Ingest.NoDuplicateUrl: holds for one run at a time; the schedule runs at startup and again monthly, and two runs that overlap can both find no document for a URL and both create one, which the model, running lines one after another, does not represent.
- The regular expressions of src/utils/regex, the Google Maps pattern, the `q=` pattern and the OpenStreetMap pattern are not part of this model. They are parameters, and so `addressRegex.test` carries no `lastIndex` state.
- Browser work is not modelled: launching, navigation, timeouts, the settle delays, the no-op "Close" evaluation and closing the browser. A page is a snapshot; each page's outcome is a given `Attempt`.
- libphonenumber parsing, validation and E.164 formatting are a parameter (`canonicalPhone`).
- `parseFloat` and number-to-text conversion are parameters. Numbers are reals or NaN, with no floating-point rounding.
- Text is compared character by character. `toLowerCase` maps the ASCII letters only, and lengths count characters rather than UTF-16 code units.
- Fuse.js scoring and its 0.4 threshold, and the `_score` text `(1 - score).toFixed(3)`, are a parameter (`fuzzy`) and are left out.
- The haversine distance is a parameter (`distance`).
- The Mongo queries are parameters: the text index, the regex query, `findById`, `findOne`, and `Types.ObjectId.isValid`. The database failing to save or create a document is left out.
- `makeValidUrl` and `isWebsiteOnline` are parameters (`validUrl`, `online`). `online` may reject (`None`), as `https.request` does on a URL that is not `https:`.
- `new URL(url).hostname` is a given outcome (`Site.host`).
- `logger`, on the server side, is only a side effect and is left out. Inside the page it matters; see Findings.
- Search.Request: fractional `limit` and `page` values are not modelled; they are integers.
- Search.FieldSortOrdersValues: the ordering is proved only for field values that compare like numbers. For mixed or incomparable values, `Array.prototype.sort` gives an implementation-defined order, while the model gives the insertion-sort order.
- Search.SortHits: JavaScript's sort is stable, and so is the insertion sort, but stability is not stated as a property.
- Records.ContactRecord: the socials sub-document's default of "" for a missing platform is an absent key, and a stored `coords` of `{}` is `None` like null. Both are falsy wherever they are read.
- Extraction.ExtractPage: composed with the corrected cascade `Location.Locate`. With the cascade as written (`Location.LocateAsWritten`), a page that makes it throw contributes no coordinates and only the visible-text address; see Findings.
- Extraction.Scrape: the pages it merges are described by their outcomes; where they come from `ExtractPage`, the same note applies.
- Ingest.ProcessLine: writes through the corrected `Ingest.Upsert`; the written one (`Ingest.UpsertAsWritten`) differs only in the stored names (`Ingest.UpsertDiffersOnlyInNames`).
- Ingest.Run: the same holds, line by line.
- The server wiring, the cron trigger, the rate limiter and the connection handling are not part of this model.

## Findings

| source | as written | input that shows it | evidently intended | confidence | as-written member | corrected member |
|---|---|---|---|---|---|---|
| src/schedules/contact.schedule.ts:28 | the alternate names are assigned to `company_all_available_names`, but the schema (src/models/contact.model.ts:40) declares `company_all_Available_names`, so under the schema's strict mode the list is never stored | a new site on the line `acme.com,Acme,Acme Ltd,Acme\|ACME Inc` is stored with an empty names list | the names split from field 3 are stored on the document | high; not executed | Ingest.UpsertAsWritten (with Ingest.AlternateNamesLostAsWritten) | Ingest.Upsert |
| src/scrapping/contact.scrapping.ts:151-153 | the `catch` of the JSON-LD loop calls `logger`, a binding of the server's module that does not exist in the page where the `page.evaluate` callback runs, so a script that fails to parse (or whose `@type` makes `findAddress` throw) makes the whole evaluation throw and the page's location data stays null | a page with no Google Maps link, an empty `<script type="application/ld+json">` and an `<address>` element holding "12 Long Street, Springfield": the evaluation yields neither address nor coordinates | the failing script is skipped and the later sources still run | medium (it depends on the page not defining its own `logger`); not executed | Location.LocateAsWritten (with Location.UnparsableScriptLosesAddressAsWritten) | Location.Locate |
| src/scrapping/contact.scrapping.ts:206-232 | the selector loop calls `addressRegex.test` and `extractAddressFromText`, and the footer loop `addressRegex.test`; all are bindings of the server's module that do not exist in the page, so the first selector element of plausible length, or any footer with a line break, makes the whole evaluation throw and the location data, map coordinates included, stays null | a Google Maps iframe whose `src` has `@48.1,11.5` and no `q=`, no JSON-LD, no `<address>`, and a footer "Acme GmbH\nMain St 1": the page gets no coordinates | the selectors and footer are matched against the address pattern and the map coordinates survive | medium (it depends on the page not defining these names); not executed | Location.SelectorStageAsWritten, Location.FooterStageAsWritten, Location.LocateAsWritten (with Location.FooterLosesMapCoordinatesAsWritten) | Location.SelectorStage, Location.FooterStage, Location.Locate |
