# ClaimSignal client logic in Dafny

ClaimSignal is a web application for public adjusters and contractors. They
keep a history of insurance-company adjusters, their claims and their
interactions, and the application scores each adjuster's risk. This project models, and proves properties of,
the logic that the client pages and the client store run on the data before
it is shown or sent:

- the privacy masks for claim numbers, names, addresses, e-mail addresses and
  phone numbers (`client/src/lib/privacy.ts`, module `Privacy`);
- on the risk-alerts page: the risk score, its band, the per-adjuster claim
  tally, the sorted and filtered adjuster lists, the colour buckets and the
  top-ten carrier breakdown (`RiskAlerts`);
- on the supplements page: the RCV/ACV increase totals, the status counts,
  the scope-driver toggle, the create guard and the dollar input formatting
  (`Supplements`);
- on the reports page: the CSV export with RFC 4180 quoting, the
  carrier-analysis rows and the interaction-history collection (`Reports`,
  with the per-carrier selections in `ByCarrier`);
- on the analytics dashboard: carriers, status counts, per-carrier statistics,
  the resolution rate and the risk distribution (`Analytics`);
- the in-memory adjuster store (`Store`);
- on the claim page: the adjusters still available for linking, the
  timeline, and the email and link guards (`ClaimPage`);
- on the case-study page: the tag lists, `parseInt(...) || 0`, the create
  guard and the resolved-claims filter (`CaseStudies`);
- the search filters and risk colouring of the adjuster directory
  (`AdjusterSearch`) and of the home page (`Home`).

Shared modules hold the JavaScript primitives the pages use:
- `Strings`: `trim`, `toLowerCase`, `includes`, `split`, `join`, digits and
  `String(n)`;
- `Seqs`: `filter`, filter counts, subsequences, `Array.from(new Set(...))`
  and `map`;
- `Sorting`: the stable descending sort;
- `Wrappers`: the `Option` type;
- `Records`: the records the pages read.

Modelling conventions:
- Pure expressions become functions with contracts and lemmas.
- Code that updates a local variable step by step, or fills a dictionary in a
  loop, becomes a method with a loop. Each such method is proved against a
  specification function.
- Page and store state that handlers replace becomes a class. Its methods
  state the whole new state.
- Network fetches are function parameters. The random interaction id is a
  parameter too.
- Dates are integer timestamps, and money is integer cents.
- Where a doc comment and the code disagree, the model follows the code.
  The one such case is `maskAddress`: its comment gives "St" for "Street",
  while the code yields "S***" (`Privacy.MaskStreetDocExample`).

## Model

| member | source | states |
|---|---|---|
| Privacy.MaskClaimNumber | client/src/lib/privacy.ts:10-14 | empty gives empty; length at most 4 is kept; otherwise the result has length 8, starts with `***-` and ends with the last four characters |
| Privacy.MaskClaimNumberOnlySuffix | client/src/lib/privacy.ts:13 | two long claim numbers with the same last four characters mask alike |
| Privacy.MaskClaimNumberIdempotent | client/src/lib/privacy.ts:10-14 | masking twice equals masking once |
| Privacy.MaskWord | client/src/lib/privacy.ts:23-24 | a word no longer than the limit is kept; a longer one becomes its first character and `***` |
| Privacy.MaskNameWords | client/src/lib/privacy.ts:22-25 | one output word per input word, each masked with limit 1 |
| Privacy.MaskName | client/src/lib/privacy.ts:20-26 | empty gives empty; the mask reveals nothing new: every character of the result is `*` or a character of the name |
| Privacy.MaskNameKeepsWords | client/src/lib/privacy.ts:20-26 | splitting the masked name on spaces gives the masked words of the name: the word count is kept |
| Privacy.MaskNameIdempotent | client/src/lib/privacy.ts:20-26 | masking a name twice equals masking once |
| Privacy.MaskStreetWord | client/src/lib/privacy.ts:42-48 | an all-digit first token is kept; every other word is masked with limit 2; `MaskStreetKeepsWords` and `MaskStreetDocExample` build the street mask from it |
| Privacy.MaskStreetWords | client/src/lib/privacy.ts:41-48 | one output word per street word, each masked by its position |
| Privacy.MaskStreet | client/src/lib/privacy.ts:41-48 | every character of the masked street is `*` or a character of the street |
| Privacy.MaskStreetKeepsWords | client/src/lib/privacy.ts:41-48 | splitting the masked street on spaces gives the masked street words |
| Privacy.AddressParts | client/src/lib/privacy.ts:36 | one part per comma-separated field, each trimmed and free of commas |
| Privacy.MaskAddress | client/src/lib/privacy.ts:32-56 | empty gives empty; apart from `*` and the space after the comma, every character of the result is a character of the address |
| Privacy.MaskAddressShape | client/src/lib/privacy.ts:32-56 | a non-empty address with several parts gives street plus city; one with a single part gives the masked street alone |
| Privacy.MaskStreetDocExample | client/src/lib/privacy.ts:28-48 | the code masks "123 Main Street" to "123 M*** S***", not to the commented "St" |
| Privacy.MaskLabels | client/src/lib/privacy.ts:67-72 | the last domain label (the TLD) is kept and every other label is masked with limit 1 |
| Privacy.MaskDomainLabels | client/src/lib/privacy.ts:67-72 | splitting the masked domain on dots gives the masked labels |
| Privacy.MaskDomain | client/src/lib/privacy.ts:67-72 | every character of the masked domain is `*` or a character of the domain |
| Privacy.EmailLocal | client/src/lib/privacy.ts:64 | the local part is the longest prefix of the address without `@`: it is a prefix, holds no `@`, and is followed by `@` unless it is the whole address |
| Privacy.EmailDomain | client/src/lib/privacy.ts:64 | empty without `@`; otherwise the text right after the local part and its `@`, up to the next `@` or the end |
| Privacy.MaskEmail | client/src/lib/privacy.ts:62-65 | a missing local part or domain returns the input unchanged |
| Privacy.MaskEmailShape | client/src/lib/privacy.ts:64-76 | the result splits on `@` into exactly the masked local part and the masked domain: one `@` only |
| Privacy.MaskEmailIdempotent | client/src/lib/privacy.ts:62-77 | masking an e-mail address twice equals masking once |
| Privacy.MaskPhone | client/src/lib/privacy.ts:83-89 | fewer than four digits returns the input; otherwise `***-` and the last four digits of the digit string |
| Privacy.MaskPhoneDigits | client/src/lib/privacy.ts:86-88 | the masked number shows at most four digits, and they are the last four of the input |
| Privacy.MaskPhoneIdempotent | client/src/lib/privacy.ts:83-89 | masking a phone number twice equals masking once |
| RiskAlerts.RiskScore | client/src/pages/risk-alerts.tsx:15-35 | the score lies in 15..100 and is 50 plus the keyword-group adjustments plus the claim bonus |
| RiskAlerts.CalculateRiskScore | client/src/pages/risk-alerts.tsx:15-35 | the step-by-step computation equals `RiskScore` and lies in 0..100 |
| RiskAlerts.AddIfMentioned | client/src/pages/risk-alerts.tsx:20-27 | one keyword-group step adds its amount exactly when the impression includes either of its two keywords, and nothing otherwise |
| RiskAlerts.ScoreDependsOnlyOnProfile | client/src/pages/risk-alerts.tsx:19-28 | impressions with the same keyword presence score alike, so a keyword counts once however often it occurs |
| RiskAlerts.ScoreIgnoresCase | client/src/pages/risk-alerts.tsx:19 | lower-casing the impression first does not change the score |
| RiskAlerts.ScoreClaimCount | client/src/pages/risk-alerts.tsx:31 | the score is monotone in the claim count; crossing from at most 5 to more than 5 adds exactly 5; otherwise it is unchanged |
| RiskAlerts.UnresponsiveHasResponsive | client/src/pages/risk-alerts.tsx:21-27 | an impression including "unresponsive" also includes "responsive" |
| RiskAlerts.UnresponsiveCancels | client/src/pages/risk-alerts.tsx:21-27 | for such an impression the +10 and −10 of the two groups cancel |
| RiskAlerts.GetRiskLevel | client/src/pages/risk-alerts.tsx:37-42 | High Risk iff at least 75, Elevated iff 60..74, Moderate iff 40..59, Low Risk iff below 40 |
| RiskAlerts.RiskLevelMonotone | client/src/pages/risk-alerts.tsx:37-42 | a higher score never gets a lower band |
| RiskAlerts.TallyClaimCounts | client/src/pages/risk-alerts.tsx:78-81 | each adjuster's tally (0 when absent) equals the number of junction rows with its id; stored tallies are at least 1 |
| RiskAlerts.TallyStep | client/src/pages/risk-alerts.tsx:79-80 | counting one more junction row into a correct tally of the rows before it gives a correct tally, and keeps every stored count at least 1 |
| RiskAlerts.ClaimCountSnoc | client/src/pages/risk-alerts.tsx:79-80 | one more junction row raises exactly its adjuster's count by one |
| RiskAlerts.AdjustersWithScores | client/src/pages/risk-alerts.tsx:84-88 | same length, sorted by non-increasing score, and a permutation of the scored adjusters |
| RiskAlerts.ScoredMembers | client/src/pages/risk-alerts.tsx:84-87 | every entry after sorting is one of the adjusters with its tallied count and the score of that count |
| RiskAlerts.HighRiskAdjusters | client/src/pages/risk-alerts.tsx:91 | exactly the entries with score at least 60 |
| RiskAlerts.HighRiskSorted | client/src/pages/risk-alerts.tsx:91 | the high-risk list keeps the sorted order and is a subsequence of the sorted list |
| RiskAlerts.BucketsPartition | client/src/pages/risk-alerts.tsx:204-208 | the RED, YELLOW and GREEN counts add up to the number of adjusters |
| RiskAlerts.TallyCarriers | client/src/pages/risk-alerts.tsx:94-97 | the dictionary's keys, in insertion order, are the distinct carriers; each count is the number of adjusters with that carrier |
| RiskAlerts.TopTen | client/src/pages/risk-alerts.tsx:98-100 | at most ten entries, sorted by non-increasing count, drawn from the entries, none smaller than an entry left out |
| RiskAlerts.CarrierBreakdown | client/src/pages/risk-alerts.tsx:94-100 | at most ten entries, sorted, each a carrier with its adjuster count of at least 1; with at most ten carriers every one appears |
| RiskAlerts.CarrierPresent | client/src/pages/risk-alerts.tsx:95-96 | every carrier that occurs has a count of at least 1 |
| Supplements.Increase | client/src/pages/supplements.tsx:199-200 | zero iff the revised value (null as 0) is at most the original; otherwise the difference |
| Supplements.TotalAppend | client/src/pages/supplements.tsx:198-205 | the total over a concatenation is the sum of the totals |
| Supplements.TotalRcvIncrease | client/src/pages/supplements.tsx:198-201 | at least each supplement's RCV increase, and 0 exactly when no supplement raises its RCV |
| Supplements.TotalAcvIncrease | client/src/pages/supplements.tsx:202-205 | at least each supplement's ACV increase, and 0 exactly when no supplement raises its ACV |
| Supplements.TotalZero | client/src/pages/supplements.tsx:198-205 | for either reduction: the total bounds every increase and is 0 exactly when every increase is 0 |
| Supplements.TotalBoundsEach | client/src/pages/supplements.tsx:198-205 | each supplement's increase is at most the total, so the total is never negative |
| Supplements.TotalOnlyIncreases | client/src/pages/supplements.tsx:202-205 | supplements at or below their original contribute nothing |
| Supplements.TotalRcvAtLeastNet | client/src/pages/supplements.tsx:198-201 | the RCV total is at least the net change |
| Supplements.TotalRcvIsNet | client/src/pages/supplements.tsx:198-201 | when no supplement lowers its RCV, the total equals the net change |
| Supplements.PendingCount | client/src/pages/supplements.tsx:206 | at most the number of supplements, and zero iff none is "pending" or "submitted" |
| Supplements.OpAppliedCount | client/src/pages/supplements.tsx:207 | at most the number of supplements, and zero iff none has O&P status "Applied" |
| Supplements.PendingComplement | client/src/pages/supplements.tsx:206 | the pending count and the count of the rest add up to the total |
| Supplements.Toggled | client/src/pages/supplements.tsx:220-222 | checking appends the driver after the kept list; unchecking removes every occurrence and keeps the others, in order and multiplicity |
| Supplements.ToggleOnThenOff | client/src/pages/supplements.tsx:220-222 | checking then unchecking equals unchecking |
| Supplements.ToggleOffIdempotent | client/src/pages/supplements.tsx:222 | unchecking twice equals unchecking once, and unchecking an absent driver changes nothing |
| Supplements.CreateRequest | client/src/pages/supplements.tsx:209-215 | nothing is created iff the claim id or the title is empty; otherwise the form is sent as it is; `SupplementsPage.HandleCreate` submits exactly this request and leaves the form |
| Supplements.FormatDollarInput | client/src/pages/supplements.tsx:46-49 | empty iff the cents are null or 0 |
| Supplements.FormatDollarInputRoundTrip | client/src/pages/supplements.tsx:46-49 | reading the two-decimal text back gives the cents |
| Supplements.SupplementsPage.ToggleScopeDriver | client/src/pages/supplements.tsx:217-231 | the edited supplement, or else the new form, gets the toggled driver list; nothing else changes |
| Supplements.SupplementsPage.HandleCreate | client/src/pages/supplements.tsx:209-215 | reports missing fields and submits nothing, or submits the form; the form is unchanged |
| ByCarrier.DistinctCarriers | client/src/pages/analytics.tsx:42 | no duplicates, at most one per adjuster; exactly the trimmed, non-empty carriers of the adjusters |
| ByCarrier.AdjustersOf | client/src/pages/analytics.tsx:53 | exactly the adjusters whose trimmed carrier is the given one |
| ByCarrier.ClaimsOf | client/src/pages/analytics.tsx:54 | exactly the claims with a carrier whose trim is the given one |
| ByCarrier.OpenResolvedBound | client/src/pages/analytics.tsx:59-60 | open plus resolved is at most the number of claims |
| ByCarrier.CarrierHasAdjuster | client/src/pages/reports.tsx:106-108 | every listed carrier has at least one adjuster |
| Reports.CellText | client/src/pages/reports.tsx:150 | falsy values (null, undefined, empty, 0, false) give empty text; a string gives itself; a non-zero number its decimal form |
| Reports.DoubleQuotes | client/src/pages/reports.tsx:150 | text without quotes is unchanged; only quotes are added; never shorter |
| Reports.ReadQuotedEscaped | client/src/pages/reports.tsx:150 | reading a quoted field back recovers the original text (section 2, rule 7 of RFC 4180) |
| Reports.ParseRecordField | client/src/pages/reports.tsx:150 | a quoted field followed by the end of the line is the whole record; followed by a comma, it is the first field before the rest of the record |
| Reports.ParseQuotedLine | client/src/pages/reports.tsx:150 | a line of quoted fields joined by commas reads back as exactly those fields, even with commas inside them |
| Reports.Get | client/src/pages/reports.tsx:150 | a missing key reads as undefined; otherwise the value is one stored under that key |
| Reports.CsvLines | client/src/pages/reports.tsx:146-151 | one header line of the first row's keys, then exactly one line per data row |
| Reports.Csv | client/src/pages/reports.tsx:147-151 | no rows give an empty document; otherwise it starts with the header line and a line break (`CsvLineCount` gives every line) |
| Reports.DataLineFields | client/src/pages/reports.tsx:147-150 | each data line reads back as the row's cells, as many as there are headers |
| Reports.FalsyCellIsEmpty | client/src/pages/reports.tsx:150 | a falsy value is written as `""` |
| Reports.HeaderLineFields | client/src/pages/reports.tsx:147-149 | the header line splits on commas into the headers when they contain none |
| Reports.CsvLineCount | client/src/pages/reports.tsx:148-151 | without newlines in the values, the document splits into exactly the header and data lines |
| Reports.CarrierRowOf | client/src/pages/reports.tsx:107-117 | open plus resolved is at most the total claims; high-risk adjusters are at most the total adjusters |
| Reports.CarrierAnalysis | client/src/pages/reports.tsx:105-118 | one row per distinct trimmed non-empty carrier, in order |
| Reports.CarrierAnalysisRows | client/src/pages/reports.tsx:106-118 | every non-blank carrier has a row; no carrier has two; each row keeps the bounds |
| Reports.ZeroCountIsEmpty | client/src/pages/reports.tsx:114-150 | a zero count is written as an empty field |
| Reports.CollectedComplete | client/src/pages/reports.tsx:124-140 | every fetched interaction of every adjuster yields a row |
| Reports.CollectedSound | client/src/pages/reports.tsx:124-140 | every row comes from a fetched interaction of one of the adjusters |
| Reports.InteractionHistory | client/src/pages/reports.tsx:122-141 | the nested loops and sort give the collected rows, as a permutation, sorted newest first |
| Reports.HistoryCsv | client/src/pages/reports.tsx:128-136 | the history export has the seven column names as header and one line per collected row, each reading back as the row's cells; the date field is never empty |
| Analytics.Carriers | client/src/pages/analytics.tsx:42 | at most one carrier per adjuster, none repeated and none empty |
| Analytics.CarriersExact | client/src/pages/analytics.tsx:42 | `carriers` has no duplicates and holds exactly the trimmed non-empty carriers |
| Analytics.StatusCount | client/src/pages/analytics.tsx:44-46 | `openClaims`, `resolvedClaims` and `stalledClaims`: at most the number of claims, and 0 exactly when no claim has that status |
| Analytics.StatusCountsBound | client/src/pages/analytics.tsx:44-46 | open plus resolved plus stalled is at most the number of claims |
| Analytics.HighRiskAdjusters | client/src/pages/analytics.tsx:48-50 | at most the number of adjusters, and zero iff no impression mentions "high" |
| Analytics.StatOf | client/src/pages/analytics.tsx:53-61 | counts the carrier's adjusters and claims; open plus resolved is at most its claims |
| Analytics.CarrierStats | client/src/pages/analytics.tsx:52-62 | one entry per carrier, each the statistics of its name, sorted by non-increasing claim count |
| Analytics.CarrierStatsNamesDistinct | client/src/pages/analytics.tsx:52-62 | no carrier has two entries |
| Analytics.Percentage | client/src/pages/analytics.tsx:138 | 0 without a total; otherwise the nearest integer to the percentage, halves up; at most 100 for a part of the total; 0 for none; 100 for all |
| Analytics.ResolutionRate | client/src/pages/analytics.tsx:138 | 0 with no claims; in 0..100; 0 when none is resolved; 100 when all are |
| Analytics.RiskShare | client/src/pages/analytics.tsx:322-325 | the count of impressions mentioning the level, and a share of at most 100 |
| Analytics.RiskDistribution | client/src/pages/analytics.tsx:321-325 | three cards, each share in 0..100 |
| Analytics.RiskBucketsOverlap | client/src/pages/analytics.tsx:321-325 | an impression mentioning two levels counts in both cards, so the counts can exceed the number of adjusters |
| Analytics.RiskBucketsOverlapExample | client/src/pages/analytics.tsx:321-325 | "low to medium" is such an impression |
| Store.AddedTo | client/src/lib/store.ts:165-177 | same length and ids; others unchanged; each matching adjuster has the new interaction first, its old ones after it, and all other fields kept |
| Store.AddedToUnknownId | client/src/lib/store.ts:166-177 | with no adjuster of that id the list is unchanged |
| Store.AddedToCounts | client/src/lib/store.ts:169-174 | the matching adjuster's interaction count grows by exactly one; the others' not at all |
| Store.AddedToContainsNew | client/src/lib/store.ts:170-173 | the matching adjuster's interactions gain exactly the new one |
| Store.AdjusterStore.SetSearchQuery | client/src/lib/store.ts:164 | only the search query changes |
| Store.AdjusterStore.AddInteraction | client/src/lib/store.ts:165-177 | the adjusters become `AddedTo` of the old list; the query is unchanged |
| ClaimPage.LinkedIds | client/src/pages/claim.tsx:216 | exactly the ids of the linked adjusters, none when the claim has none |
| ClaimPage.AvailableAdjusters | client/src/pages/claim.tsx:216-217 | an order-preserving subset, disjoint from the linked ids, holding every unlinked adjuster |
| ClaimPage.MergedMembers | client/src/pages/claim.tsx:567-569 | every merged item comes from its list with the matching `itemType`, and every interaction and attachment is there |
| ClaimPage.Timeline | client/src/pages/claim.tsx:567-570 | length is interactions plus attachments; sorted by non-increasing date; a permutation of the merged items; each tagged by its source |
| ClaimPage.TimelineItemTypes | client/src/pages/claim.tsx:567-569 | exactly one "interaction" item per interaction and one "attachment" item per attachment |
| ClaimPage.EmailRequest | client/src/pages/claim.tsx:150-163 | nothing iff the subject or body is empty; otherwise an email with the form's fields, empty notes sent as absent |
| ClaimPage.LinkRequest | client/src/pages/claim.tsx:121-125 | nothing iff no adjuster is selected; otherwise the selected id; `ClaimDetail.HandleLinkAdjuster` appends exactly the requested id to the linked adjusters, and nothing without one |
| ClaimPage.ClaimDetail.HandleSaveEmail | client/src/pages/claim.tsx:150-163 | reports the missing subject or body and submits nothing, or submits the email; the form is unchanged |
| ClaimPage.ClaimDetail.HandleLinkAdjuster | client/src/pages/claim.tsx:121-125 | links the selected adjuster, or does nothing without a selection |
| CaseStudies.AddTag | client/src/pages/case-studies.tsx:273 | a blank input leaves the list; otherwise the trimmed input is appended; `AddTagClean` and `RemoveAddedTag` prove the list stays clean and the add can be undone |
| CaseStudies.AddTagClean | client/src/pages/case-studies.tsx:271-275 | adding keeps every tag non-empty and trimmed |
| CaseStudies.RemoveTagClean | client/src/pages/case-studies.tsx:295 | removing keeps every tag non-empty and trimmed |
| CaseStudies.RemoveAddedTag | client/src/pages/case-studies.tsx:273-295 | removing the tag just added gives the list back |
| Seqs.RemoveIndex | client/src/pages/case-studies.tsx:295 | an index in range drops exactly that element and keeps the rest in order; any other index changes nothing |
| Seqs.RemoveIndexIsSubsequence | client/src/pages/case-studies.tsx:295-334 | removal keeps the remaining tags in order |
| CaseStudies.ParseIntOrZero | client/src/pages/case-studies.tsx:364 | no digit after the whitespace and sign gives 0; a negative result needs a minus sign |
| CaseStudies.NonNumericIsZero | client/src/pages/case-studies.tsx:364 | a value without digits reads as 0 |
| CaseStudies.ParseIntOrZeroOfIntToString | client/src/pages/case-studies.tsx:364 | the decimal text of a number reads back as that number |
| CaseStudies.CreateDisabled | client/src/pages/case-studies.tsx:369 | enabled iff no create is pending and the title and carrier are non-empty |
| CaseStudies.ResolvedClaims | client/src/pages/case-studies.tsx:132 | an order-preserving subset holding exactly the claims whose status is "resolved" or "closed" |
| CaseStudies.CaseStudyForm.AddFrictionSignal | client/src/pages/case-studies.tsx:271-275 | a non-blank input appends its trim and clears the input; a blank one changes nothing |
| CaseStudies.CaseStudyForm.RemoveFrictionSignal | client/src/pages/case-studies.tsx:295 | the signal at the index is removed; nothing else changes |
| CaseStudies.CaseStudyForm.AddAction | client/src/pages/case-studies.tsx:310-314 | the friction rule, for the actions list |
| CaseStudies.CaseStudyForm.RemoveAction | client/src/pages/case-studies.tsx:334 | the action at the index is removed; nothing else changes |
| CaseStudies.CaseStudyForm.SetDenialsOvercome | client/src/pages/case-studies.tsx:364 | the denials count becomes `ParseIntOrZero` of the input |
| CaseStudies.CaseStudyForm.Create | client/src/pages/case-studies.tsx:367-369 | submits the draft iff the button is enabled |
| AdjusterSearch.FilteredAdjusters | client/src/pages/adjusters.tsx:30-37 | an order-preserving subset holding exactly the adjusters whose lower-cased name, carrier or non-null region includes the lower-cased query; none before the list loads |
| AdjusterSearch.EmptyQueryKeepsAll | client/src/pages/adjusters.tsx:31-35 | an empty query keeps every adjuster |
| AdjusterSearch.QueryCaseIgnored | client/src/pages/adjusters.tsx:31 | the query's case does not matter |
| AdjusterSearch.GetRiskColor | client/src/pages/adjusters.tsx:39-49 | neutral iff null or empty; red iff a negative keyword; green iff a positive keyword and no negative one; amber iff neither |
| AdjusterSearch.NegativeBeforePositive | client/src/pages/adjusters.tsx:42-47 | an impression with both kinds of keyword is red |
| AdjusterSearch.RiskColorIgnoresCase | client/src/pages/adjusters.tsx:41 | the colour ignores the impression's case |
| Home.SearchResults | client/src/pages/home.tsx:16-21 | empty for a query of at most one character; otherwise an order-preserving subset of exactly the adjusters whose name or carrier includes the query, ignoring case |
| Home.EnterTarget | client/src/pages/home.tsx:23-27 | navigates iff the key is Enter and there are results, and then to the first result's page; `ShortQueryStays` and `EnterOpensAMatch` show it never navigates on a short query and always opens a matching adjuster |
| Home.ShortQueryStays | client/src/pages/home.tsx:16-24 | a query of at most one character never navigates |
| Home.EnterOpensAMatch | client/src/pages/home.tsx:16-27 | with a long enough query and a match, Enter opens the page of a matching adjuster |
| Records.OrElse | client/src/pages/reports.tsx:135-136 | the `or` of a nullable text and a fallback: a non-empty value is kept; null and empty fall back; it gives the Outcome and Claim ID cells that `HistoryCsv` reads back |

## Left out

- Rendering, dialogs, toasts, React effects, react-query caching and every
  `fetch` are not modelled. The interaction fetch of the history report is a
  function parameter. The mutations a handler triggers are modelled as the
  requests it submits, appended to a list field.
- What happens after a mutation succeeds or fails is not modelled. That is
  resetting the forms, closing dialogs and invalidating queries, all driven
  by network results.
- `Reports.InteractionHistory`: a failed fetch of an adjuster, or a response
  that is not JSON, aborts the whole export in the source (the `try` at
  reports.tsx:73 has no `catch`), so no file is written. The model's fetch
  parameter can only answer with interactions or with none, and the report
  always produces rows; the aborting path is not modelled.
- `RiskAlerts.TallyCarriers`: assumes no carrier name is an array index such
  as "7" and none is an `Object.prototype` member such as "constructor" or
  "__proto__". `Object.entries` lists array-index keys first, in numeric
  order, not in insertion order; and the prototype names are tallied
  differently (`carrierCounts[c] || 0` finds the inherited member, and an
  assignment to `__proto__` is ignored). With those names the top-ten
  breakdown can differ from the model.
- The random interaction id (`Math.random().toString(36)`) is not modelled.
  `AddInteraction` takes the new id as a parameter.
- `Strings.ToLower`: lower-cases only ASCII letters. JavaScript's
  `toLowerCase` also maps non-ASCII letters.
- Unicode code units are not modelled. String lengths count Dafny characters,
  not UTF-16 code units. This matters for `query.length > 1` on the home page
  and the `length <= 4` test of the claim-number mask.
- `Analytics.Percentage`: rounds the exact ratio. JavaScript rounds the
  floating-point value of `count / total * 100`, which can differ on a half
  only by floating-point error.
- `Supplements.FormatDollarInput`: models `toFixed(2)` on whole cents exactly.
  Floating-point input and `parseDollarInput` (`parseFloat`) are not modelled.
- `CaseStudies.ParseIntOrZero`: reads decimal digits only. `parseInt` without a
  radix also reads the `0x` hexadecimal prefix, but a number input never
  produces that. Its whitespace set is the one `trim` uses.
- Date strings are not parsed; every date is already an integer timestamp.
  The timeline and history sorts compare those timestamps. An unparseable date
  (`NaN` in JavaScript) is not modelled.
- The sorts are modelled as a stable sort, as JavaScript's `Array.prototype.sort`
  is required to be.
- `Store`: the store's per-adjuster `metrics` record is not modelled. It is
  copied unchanged like the other fields.
- Record fields the modelled code never reads are left out of the datatypes.
- The repository's Python entry point only starts the development server
  and is not part of this model.
- The file-upload handler of the claim page is not modelled. It depends on a
  file picker and the object store.
