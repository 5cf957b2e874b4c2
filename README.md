# Weekly security summary: classifier, statistics, state lookup and AI-client helpers

This project models the deterministic core of a Nigerian security-incident
web map and its weekly report. There are three parts.

- **server.js**
  - The keyword classifier `classifyIncident` tries ordered rules, and the first match wins.
  - `computeStats` counts the items by type and by day, collects the affected states and sums abductions and fatalities. It fails on the whole batch when a timestamp does not parse.
  - The report route chooses between real and fallback data, and maps the collected states to map regions.
- **utils/mapUtils.js**
  - `stateNameToId` removes all whitespace from a name and looks it up in a fixed table. The table maps the 36 states and the FCT to their ISO 3166-2:NG codes.
- **groqService.js**
  - `extractRiskLevel` searches a reply for a risk level, in priority order, with a default.
  - The state filter and zero-match short-circuit of `generateStateRiskAssessment`.
  - The brace extraction and fallback records of `classifyIncident`.
  - The batching of `enrichIncidentData`: the first 50 items in batches of 5, and the rest passed through.

The call to the language model (`callGroq`), `JSON.parse` and the
timestamp-to-day conversion (`new Date(ts).toISOString().split('T')[0]`)
are function parameters. For the first two, `None` stands for a thrown
exception. For the day conversion, `None` stands for an invalid date.

Modules:
- `Text`: `includes`, ASCII `toLowerCase`, and the `\s` whitespace class.
- `Wrappers`: `Option` and `Result`.
- `Tally`: counter dictionaries.
- `MapUtils`.
- `WeeklySummary`: server.js.
- `GroqService`.
- `ClassifyExamples` and `GroqExamples`: concrete inputs.

`computeStats` and `enrichIncidentData` are methods with loops. Each is proved equal to a specification function (`StatsOf`) or to an element-wise description (`Enrich`, `Batches`). The rest is pure functions and lemmas.

## Model

| member | source | states |
|---|---|---|
| Text.Lower | server.js:98 | `toLowerCase` keeps the length and maps each capital A–Z to its lower-case letter, leaving every other character as it is |
| Text.LowerIdempotent | server.js:98 | lower-casing twice is lower-casing once |
| Text.StripSpaces | utils/mapUtils.js:33 | `replace(/\s+/g, '')` leaves no whitespace character and keeps only characters of the input |
| Text.StripSpacesIdempotent | utils/mapUtils.js:33 | stripping whitespace twice is stripping it once |
| Text.StripSpacesConcat | utils/mapUtils.js:33 | stripping distributes over concatenation, so runs of whitespace anywhere are removed independently |
| Tally.Inc | server.js:86 | `d[k] = (d[k] \|\| 0) + 1` adds key `k` with one more than before (1 when absent) and keeps every other counter |
| Tally.TotalInc | server.js:86 | one increment raises the sum of all counters by exactly one |
| Tally.CountTotal | server.js:84-88 | counting a list of keys one by one gives counters that add up to the list's length |
| Tally.CountOccurrences | server.js:84-88 | a key has a counter exactly when it occurs, and the counter equals its number of occurrences |
| Tally.CountPositive | server.js:86 | no counter present is zero |
| MapUtils.StateNameToId | utils/mapUtils.js:22-34 | the result is "" or an `NG-XY` code; it is non-empty exactly when the whitespace-stripped name is a table key, and then reading the code back gives that key |
| MapUtils.TableCodes | utils/mapUtils.js:23-32 | every value of the table is `NG-` followed by two capital letters |
| MapUtils.TableInverse | utils/mapUtils.js:23-32 | reading any value of the table back gives its key, so distinct keys have distinct codes |
| MapUtils.IdInjective | utils/mapUtils.js:23-33 | two names with the same non-empty code have the same whitespace-stripped form |
| MapUtils.WhitespaceIrrelevant | utils/mapUtils.js:33 | a name and its whitespace-stripped form get the same code |
| MapUtils.SpacesBetweenIgnored | utils/mapUtils.js:33 | any run of whitespace between two parts of a name does not change the code |
| MapUtils.KeysCapitalised | utils/mapUtils.js:24-31 | every table key starts with a capital letter |
| MapUtils.LowerInitialUnknown | utils/mapUtils.js:23-33 | the lookup is case-sensitive: a name whose first non-space character is not a capital gets "" |
| MapUtils.PlainLookup | utils/mapUtils.js:33 | a name without whitespace is looked up as it is |
| MapUtils.TwoWordLookup | utils/mapUtils.js:33 | two words separated by whitespace are looked up as their concatenation |
| MapUtils.LagosExample | utils/mapUtils.js:28 | "Lagos" gives `NG-LA` |
| MapUtils.LowerCaseLagosExample | utils/mapUtils.js:33 | "lagos" gives "" |
| MapUtils.UpperCaseLagosExample | utils/mapUtils.js:33 | "LAGOS" gives "" |
| MapUtils.AkwaIbomExample | utils/mapUtils.js:24 | "Akwa Ibom" gives `NG-AK` |
| MapUtils.CrossRiverExample | utils/mapUtils.js:25 | "Cross  River" (two spaces) gives `NG-CR` |
| MapUtils.NassarawaExample | utils/mapUtils.js:28 | the spelling "Nassarawa" is unknown and gives "" |
| WeeklySummary.LabelsDistinct | server.js:99-103 | the five returned type names are pairwise distinct, so the per-type counters keep the types apart |
| WeeklySummary.FirstMatchIsFirst | server.js:99-103 | the rule list yields the type of the lowest-numbered rule that fires |
| WeeklySummary.FirstMatchNone | server.js:103 | when no rule fires the result is `Other` |
| WeeklySummary.FirstMatchOther | server.js:99-103 | with rules that never name `Other`, the result is `Other` exactly when no rule fires |
| WeeklySummary.RulesUnfolded | server.js:99-103 | the four keyword rules tried in order are the chain of `if`s of the source |
| WeeklySummary.ClassifyIncident | server.js:97-104 | the type is the first-match result of the four rules on the lower-cased text |
| WeeklySummary.ClassifyIgnoresCase | server.js:98 | two texts with the same lower-case form get the same type |
| WeeklySummary.ClassifyLowered | server.js:98 | classifying the lower-cased text gives the same type |
| WeeklySummary.ClassifyOther | server.js:103 | `Other` exactly when no keyword of any rule occurs in the lower-cased text |
| WeeklySummary.ClassifyPriority | server.js:99-102 | a keyword of an earlier rule wins over all later ones (kidnap/abduct > bandit > herdsmen > boko/iswap/ipob) |
| WeeklySummary.FirstUndated | server.js:87 | the index of the first item whose timestamp does not parse; none exactly when all parse |
| WeeklySummary.StatsOf | server.js:75-95 | `computeStats` succeeds exactly when every timestamp parses, and otherwise fails at the first item whose timestamp does not |
| WeeklySummary.ComputeStats | server.js:75-95 | the loop that updates the counters, the state set and the two sums in place returns exactly `StatsOf` |
| WeeklySummary.AddAll | server.js:90 | adding each element of a list to a set yields the set plus the list's elements |
| WeeklySummary.StepStats | server.js:84-93 | one more item adds one to its type's counter, one to its day's counter, its states to the set and its figures to the sums; the type is `TypeOf`, the classifier on title and summary joined by one space (server.js:85), and a figure is `Amount`, a missing one read as 0 (`\|\| 0`, server.js:91-92) |
| WeeklySummary.UndatedAt | server.js:87 | an item whose timestamp does not parse, after items whose timestamps all do, is where the whole call fails |
| WeeklySummary.StatsCounts | server.js:84-88 | the type counters and the day counters each add up to the number of items, and no type counter is zero |
| WeeklySummary.TypeCountOccurrences | server.js:85-86 | a type has a counter exactly when some item has that type, and the counter is the number of such items |
| WeeklySummary.StatesOfMembers | server.js:90 | a state is collected exactly when some item lists it (a missing list counts as empty) |
| WeeklySummary.SumOfConcat | server.js:91-92 | the abduction and fatality sums add over a split of the items |
| WeeklySummary.SumOfNonNegative | server.js:91-92 | with no negative figure the sums are not negative |
| WeeklySummary.EmptyStats | server.js:76-82 | no items give no counters, no states and zero totals |
| WeeklySummary.ReportData | server.js:17-18 | the report uses the fallback only when the real list is empty; a cached non-empty list is used as it is, without a cache entry the scrape is used or, when it is empty, the fallback, and an empty cached list hides the scrape and gives the fallback |
| WeeklySummary.AffectedIds | server.js:21 | every collected state's code is among the ids, every id is "" or the code of a table key that is the stripped form of a collected state, and "" appears only for a state the table does not know |
| ClassifyExamples.OtherWhenNoKeyword | server.js:103 | a text whose lower-case form has none of the seven keywords is `Other` |
| ClassifyExamples.BanditsAbductExample | server.js:99-100 | "bandits abduct villagers" is Kidnapping |
| ClassifyExamples.BanditOverBokoExample | server.js:100-102 | "Bandits and Boko Haram fighters clash" is Banditry |
| ClassifyExamples.HerdsmenOverIswapExample | server.js:101-102 | "Herdsmen and ISWAP fighters clash" is Herders’ Attacks |
| ClassifyExamples.HerdersExample | server.js:101 | "Herders clash leaves 3 dead in Plateau" is Other: "herders" does not contain "herdsmen" |
| ClassifyExamples.IpobExample | server.js:102 | "Suspected IPOB members kill two truck drivers in Imo" is Terrorism |
| ClassifyExamples.GunmenAbductExample | server.js:99 | "Gunmen abduct 12 in Zamfara village" is Kidnapping |
| GroqService.FirstMentioned | groqService.js:302-308 | the index of the first level of a list that the text mentions; none exactly when it mentions none |
| GroqService.ExtractRiskLevel | groqService.js:300-310 | `Mentions` is one of the three phrasings `Risk Level: X`, `X Risk` and `risk level is x` (groqService.js:303-305); the result is mentioned by the text when any level is, no level tried earlier is mentioned, and it is Medium when none is |
| GroqService.RiskPriority | groqService.js:301-307 | a mentioned level wins over every level tried later |
| GroqService.RiskMedium | groqService.js:300-309 | Medium exactly when neither Critical nor High is mentioned, and Medium is mentioned or Low is not |
| GroqService.ShortLowerCaseMentionsNone | groqService.js:303-305 | a lower-case text shorter than 17 characters matches none of the three phrasings |
| GroqService.FirstIndex | groqService.js:59 | the first position of a character, none exactly when it does not occur |
| GroqService.LastIndex | groqService.js:59 | the last position of a character, none exactly when it does not occur |
| GroqService.JsonBlock | groqService.js:59-60 | a match exists exactly when some `{` is followed later by a `}`; it is the greedy span from the first `{` of the reply to its last `}` |
| GroqService.ClassifyResponse | groqService.js:57-82 | without a brace block the first 100 characters of the reply are the only fact, a parse failure gives no facts, and otherwise the parsed object is returned |
| GroqService.FallbackShape | groqService.js:63-81 | every fallback (`Fallback`, the objects of groqService.js:64-71 and 74-81) is Other, Medium, zero casualties, Unknown perpetrators, no locations, and at most one fact that is a prefix of the reply of at most 100 characters |
| GroqService.NoBraceFallsBack | groqService.js:59-71 | a reply without `{` always falls back, whatever the parser |
| GroqService.ClosingFirstFallsBack | groqService.js:59-71 | a reply whose every `}` comes before its every `{` falls back |
| GroqService.ClassifyIncident | groqService.js:55-82 | a failed model call propagates; a reply always yields a record |
| GroqService.StateIncidents | groqService.js:118-120 | an incident is about the state (`AboutState`) when its lower-cased title and summary, joined with no separator, contain the lower-cased state name; each incident about the state occurs in the result exactly as often as in the input, and no other incident occurs in it |
| GroqService.StateIncidentsConcat | groqService.js:118-120 | the filter keeps the input order: filtering two parts one after the other is filtering the whole |
| GroqService.StateRiskAssessment | groqService.js:117-153 | the state name is kept, the count is the length of the filtered list (every matching incident counted as often as it occurs), failure only when some incident matched, and the risk level is read out of the analysis |
| GroqService.NoMatchSkipsModel | groqService.js:122-129 | with no incident about the state the result is the fixed Low assessment with count 0, whatever the model would reply |
| GroqService.NoneAboutState | groqService.js:118-122 | with no incident about the state the filtered list is empty |
| GroqService.MatchAsksModel | groqService.js:131-152 | with some incident about the state, the model is asked with exactly the filtered incidents, and its failure or reply decides the result |
| GroqService.StateNameCase | groqService.js:119 | state names with the same lower-case form select the same incidents |
| GroqService.MatchAcrossJoin | groqService.js:119 | a state name split between the end of the title and the start of the summary still matches |
| GroqService.Enrich | groqService.js:226-241 | an item keeps its title, summary and other fields; a failed classification leaves it unchanged, and a success adds the classification's category, severity, casualties, locations and perpetrators |
| GroqService.BatchesCover | groqService.js:222-225 | the batches start at 0, are consecutive, hold 1 to 5 items each, and together hold exactly the enriched items |
| GroqService.BatchPrefixCalls | groqService.js:222-223 | the first k batches hold min(5k, limit) items |
| GroqService.EnrichIncidentData | groqService.js:218-257 | same length and order as the input: items before index 50 are enriched one by one, later items are unchanged, and the batches used are those of `min(n, 50)` |
| GroqExamples.CriticalOverLowExample | groqService.js:301-306 | "Risk Level: Low. Critical Risk" gives Critical |
| GroqExamples.LowerCaseColonExample | groqService.js:303-309 | "risk level: high" gives the default Medium |
| GroqExamples.JoinMatchExample | groqService.js:119 | title "Attack in La" with summary "gos market" is about Lagos |
| GroqExamples.NigeriaCountsForNigerExample | groqService.js:119 | an incident mentioning Nigeria is counted for the state of Niger |
| GroqExamples.TwoObjectsExample | groqService.js:59-61 | the greedy match of "{a} {b}" is the whole reply, so when that text does not parse the reply falls back with no facts |
| GroqExamples.PlainReplyExample | groqService.js:63-71 | the reply "no json here" becomes the fallback record with that reply as its one fact |

## Left out

- `toLowerCase` is modelled on the ASCII letters A–Z only. Unicode case mapping is not modelled; some of it changes a text's length.
- GroqService.ClassifyResponse: strings are sequences of Unicode code points, while `substring(0, 100)` counts UTF-16 code units. For a reply with characters outside the Basic Multilingual Plane, the source's fallback fact holds fewer characters than the model's, and it may end in half of a surrogate pair. The same holds for every string length in the model.
- Timestamp parsing and ISO formatting are a parameter from timestamp to day (`None` for an invalid date). Calendar arithmetic is not modelled.
- `callGroq` (an HTTP POST), the prompt texts and `JSON.parse` are parameters. The model's reply is modelled as a function of what its prompt is built from.
- Classification: the parsed object is assumed to have the record's fields. A reply that parses to something else (a missing field, an array) is not modelled.
- `Promise.all` is modelled as the batch's items processed in order. Results keep their order either way, so the result is the same. The 2-second delay between batches and the timing of the calls are left out. The returned batch ranges stand for the order of the calls.
- Incidents are records with a title, a summary, a map standing for their other fields, and an optional enrichment. JavaScript's spread and overwrite of arbitrary fields is not modelled beyond that.
- WeeklySummary.Item: title and summary are assumed to be present strings. In the source a missing summary joins as the text "undefined".
- WeeklySummary.ComputeStats: the set of states is a mathematical set, so the insertion order that `Array.from` keeps is not modelled. WeeklySummary.AffectedIds is therefore a set of ids rather than an ordered array with repeats.
- Non-numeric `abducted`/`fatalities` values are not modelled: with them `+=` would concatenate strings. Falsy numbers and missing fields count as 0, as `|| 0` makes them.
- MapUtils.StateNameToId: keys inherited from JavaScript's object prototype, such as "constructor", are not modelled; the table is a finite map.
- The rest of the report route is not modelled: PDF layout, chart URLs, image download, `getHighlightedMapBuffer` (SVG rewriting and rasterisation) and `getWeekLabel` (wall-clock arithmetic).
- `generateFictitiousData` draws its timestamps, states and figures from `Math.random`. Only its titles appear, as classifier examples.
- The news cache, the scraper and deduplication come from outside server.js. The route receives them as parameters, and they are not part of this model.
- pdfReportService.js and public/script.js (email, scheduling, Leaflet map UI) are not part of this model.
- The prompt-only AI methods of the client are not modelled: `analyzeIncidents`, `generateWeeklyBriefing`, `generateNarrativeSummary`, `detectPatterns` and `generateAlert`. Each only builds a prompt and returns the model's reply.
