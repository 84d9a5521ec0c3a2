# volley-viewer core, modelled in Dafny

volley-viewer reads a JSON export from a volleyball scouting app and shows
per-player statistics for each match. This project models its two core
libraries and proves properties of the model:

- `src/lib/extract.ts` finds "event-like" records in a JSON document whose
  shape is not known in advance, and tallies them for a quick look. It has
  four parts:
  - the key-bag normaliser, which unwraps an optional `{keys: {...}}`
    export envelope;
  - the database-root selector, which probes four known database keys;
  - a breadth-first search with a visited set and a budget of 50 000
    dequeues;
  - the summary tables.
- `src/lib/matchStats.ts` builds one row per match for a chosen player. A
  row holds outcome counts per skill, a decision rate (points over attempts)
  and an effect rate (mean outcome weight, clamped to [0, 1]). Rows are
  sorted by match name.

How JavaScript is represented:

- **JSON values (`Json`).** A parsed document is a heap of array and object
  nodes. A value is `undefined`, `null`, a boolean, a number, a string, or a
  reference to a node.
  - Node identity is the heap index. So the search's identity-keyed `Set`
    is a set of indices, and shared references and cycles can be written
    down.
  - `??`, truthiness, `typeof … === "object"`, `Array.isArray` and property
    access are functions on this heap.
- **Maps (`Assoc`).** A `Map` is an association list in insertion order.
  `Put` replaces the value of an existing key in place and appends a new key
  at the end, as `Map.prototype.set` does.
- **Sorting (`Sorting`).** `Array.prototype.sort` is modelled as an
  insertion sort, `SortBy`, under a comparator given as a "less or equal"
  predicate. It is stable by construction; no lemma states stability.
- **Loops.** Each source loop is a `method` with a `while`/`for` loop. Each
  is proved against a function that states what the loop computes (`Run`,
  `Tally`, `Accumulate`, `Stats`, …). The properties are lemmas about those
  functions.

Modules:

- `Optional`, `Sums`, `Assoc`, `Sorting`: shared vocabulary.
- `Json`: the heap model of JSON values.
- `Extract`: the normaliser, the root selector and the search.
- `Summary`: `summarizeEvents`.
- `MatchStats`: `matchStats.ts`.
- `ExtractExamples`, `MatchStatsExamples`: worked inputs, proved end to end.

In these places the model follows the code as written:

- **The "unknown" bucket.** A type or result label falls back to "unknown"
  only when the field is absent or `null`; an empty string stays an empty
  label. The player label uses "unknown" for any falsy value: missing, `null`,
  `false`, `0` or `""` (`Summary.MissingPlayerIsUnknown`).
- **Duplicate match ids.** When two matches share an id, the row's name comes
  from the *last* of them, because `new Map(...)` keeps the last value while
  keeping the first key's position (`MatchStats.MatchNameOf`).
- **The visited set.** Only objects and arrays are remembered. Falsy values
  are skipped. Truthy primitives cost a step and are otherwise ignored
  (`Extract.StepSkips`).

## Model

| member | source | states |
|---|---|---|
| Json.IsObject | src/lib/extract.ts:18-20 | `typeof x === "object" && x !== null`: a reference to a node, array or object. It is the guard in `EventLikeIff` and `NormalizeToKeyBag` |
| Json.Coalesce | src/lib/extract.ts:24-25 | `a ?? b ?? …` is the first value that is neither `undefined` nor `null`, or the last value when all of them are |
| Json.CoalesceIsString | src/lib/extract.ts:24-26 | `typeof (a ?? b ?? …) === "string"` holds exactly when the first present value of the chain is a string |
| Extract.IsEventLike | src/lib/extract.ts:22-27 | defines the event-like test; `EventLikeIff` states it field by field |
| Extract.EventLikeIff | src/lib/extract.ts:22-27 | a value is event-like iff all three hold: it is an object; the first present of `type`/`skill`/`label` is a string; the first present of `result`/`outcome` is a string |
| Extract.TypeShadowsSkill | src/lib/extract.ts:24-26 | a present non-string `type` makes the record not event-like, whatever `skill` or `label` hold |
| Extract.NormalizeToKeyBag | src/lib/extract.ts:31-36 | the result depends on the root: a non-object root gives a fresh empty object and leaves the existing heap unchanged; an object root whose `keys` is an object gives that `keys` object; any other object root gives the root itself. The bag is always an object, and a well-formed heap stays well-formed |
| Extract.PickDbRoot | src/lib/extract.ts:39-47 | the value under the first of the four database keys that is present, in the listed order; the bag itself when none is present |
| Extract.EventsIn | src/lib/extract.ts:67-69 | the elements taken from a collection are exactly `eventCount` many. Each is event-like, and a value is taken iff it is an element of the array and event-like |
| Extract.EventCount | src/lib/extract.ts:67 | the `reduce` that counts the event-like elements; `EventsIn` states that this is the number of elements the filter keeps |
| Extract.EventsInAppend | src/lib/extract.ts:69 | taking the events keeps their order: the events of `a + b` are those of `a` followed by those of `b`, and a single element is kept iff it is event-like |
| Extract.CollectionThreshold | src/lib/extract.ts:66-68 | the integer test `2 * eventCount >= length` on a non-empty array is equivalent to the source's ratio test `eventCount / length >= 0.5`, so an array that is exactly half events is a collection |
| Extract.Step | src/lib/extract.ts:58-80 | each iteration of the loop costs exactly one step of the budget |
| Extract.StepSkips | src/lib/extract.ts:59-62 | a falsy value, a primitive, or an already seen node is dequeued and costs one step; nothing else changes |
| Extract.StepObject | src/lib/extract.ts:63-79 | an unseen object node is marked seen, and all its values are enqueued in key order |
| Extract.StepArray | src/lib/extract.ts:63-75 | an unseen array is marked seen. A non-empty array with at least half event-like elements has those elements appended to the output in order, and nothing is enqueued; any other array has all its elements enqueued |
| Extract.Run | src/lib/extract.ts:58-80 | the loop run to its end: iterate `Step` while the queue is non-empty and the budget is not spent. `RunBudget`, `RunOutput`, `RunCollectsOnce` and `RunFindsReachable` state what it reaches |
| Extract.RunBudget | src/lib/extract.ts:55-58 | the search always stops, within 50 000 dequeues; when it stops, the queue is empty or the budget is spent |
| Extract.StepEmits | src/lib/extract.ts:62-70 | one step appends to the output only the events of the collection it takes. That collection was unseen before the step and is seen after it; the seen set only grows |
| Extract.RunOutput | src/lib/extract.ts:58-82 | the final output is the events of the collections taken, concatenated in the order the search reached them |
| Extract.RunCollectsOnce | src/lib/extract.ts:62-70 | every collection taken is a collection node that was unseen at the start, and no node is taken twice, even when it is reachable several times or through a cycle |
| Extract.StepClosed | src/lib/extract.ts:59-79 | one step keeps the invariant that every child of a seen object or sub-threshold array is seen or queued. Only the dequeued node becomes seen, and the rest of the queue is kept |
| Extract.RunClosed | src/lib/extract.ts:58-80 | the invariant holds to the end of the run and the seen set only grows. When the queue runs empty, every reference that was ever queued has been seen |
| Extract.RunSeenCollected | src/lib/extract.ts:63-70 | every collection node the run marks seen is one whose events it takes |
| Extract.PathSeen | src/lib/extract.ts:58-80 | when the queue is empty and the invariant holds, every node along a path from a seen node is seen |
| Extract.RunFindsReachable | src/lib/extract.ts:50-83 | completeness: when the search ends by emptying its queue, it has taken every collection reachable from the root through objects and sub-threshold arrays |
| Extract.EventsOfEventLike | src/lib/extract.ts:69 | everything the search outputs is event-like |
| Extract.TakeEvents | src/lib/extract.ts:69 | the `for … of` loop appends exactly the event-like elements, in order |
| Extract.EnqueueAll | src/lib/extract.ts:73-78 | the `for … of` loop appends every element to the queue, in order |
| Extract.FindEventArrays | src/lib/extract.ts:50-83 | the loop computes `Run` from `[root]`. Its output is the events of the collections it took; each of them is event-like; every collection taken is a collection node, and none is taken twice. The search ends with an empty queue or a spent budget; in the first case it has taken every reachable collection |
| ExtractExamples.SharedCollectionTakenOnce | src/lib/extract.ts:58-82 | a collection referenced twice, under a root that references itself, has its event output once, and the search ends after four dequeues |
| ExtractExamples.ExactlyHalfIsCollection | src/lib/extract.ts:66-70 | `[event, 1]` is exactly half events, so it is a collection and its event is output |
| ExtractExamples.BelowHalfIsSearched | src/lib/extract.ts:66-79 | `[event, 1, 2]` is below the threshold, so it is searched into; the event object is then walked as an object, and nothing is output |
| ExtractExamples.NonObjectRootFindsNothing | src/lib/extract.ts:31-47 | a document that is not an object gives an empty key bag. That bag is its own database root, and the search finds no events |
| Summary.TypeLabel | src/lib/extract.ts:91 | defines the type label; `EventLabels` states its value for an event-like record |
| Summary.ResultLabel | src/lib/extract.ts:92 | defines the result label; `EventLabels` states its value for an event-like record |
| Summary.PlayerLabel | src/lib/extract.ts:93 | defines the player label; `MissingPlayerIsUnknown` states its value for a falsy player |
| Summary.EventLabels | src/lib/extract.ts:91-92 | an event-like record is tallied under its own type string and its own result string |
| Summary.MissingPlayerIsUnknown | src/lib/extract.ts:93 | every falsy player (missing, `null`, `false`, `0` or `""`) falls into the "unknown" bucket |
| Summary.Bump | src/lib/extract.ts:95-97 | one `m.set(k, (m.get(k) ?? 0) + 1)`; `BumpCounts` and `BumpKeys` state its effect |
| Summary.BumpCounts | src/lib/extract.ts:95-97 | a bump adds one to the count of its label and leaves every other count unchanged; a new label starts from 0 |
| Summary.BumpKeys | src/lib/extract.ts:95-97 | a new label goes at the end of the map, and a label already present keeps its place |
| Summary.Tally | src/lib/extract.ts:95-97 | the frequency map after the loop, as repeated `Bump`s in insertion order; `TallyKeys`, `TallyCounts` and `TallySum` state its contents |
| Summary.TallyKeys | src/lib/extract.ts:95-97 | the tally has one entry per distinct label, and no label twice |
| Summary.TallyCounts | src/lib/extract.ts:95-97 | the tally counts every label exactly as often as it occurs among the records |
| Summary.TallySum | src/lib/extract.ts:95-97 | the counts of the tally add up to the number of records |
| Summary.ByCountDesc | src/lib/extract.ts:101 | the comparator `b[1] - a[1]` read as "`a` may come first": `a` has a count at least that of `b`; `ByCountDescIsPreorder` states it is a total preorder |
| Summary.ByCountDescIsPreorder | src/lib/extract.ts:101 | ordering by non-increasing count is a total preorder, so the sorted tally is ordered |
| Summary.SortedTallyIsFrequencyTable | src/lib/extract.ts:100-101 | the sorted tally has one row per distinct label, holding that label's number of occurrences (at least 1). Rows are ordered by non-increasing count and the counts sum to the number of records |
| Summary.Top | src/lib/extract.ts:107 | `slice(0, 30)`: the result is the first `min(n, 30)` rows of the table, in order |
| Summary.SummarizeEvents | src/lib/extract.ts:85-109 | `total` is the number of records. The type table and the result table are the frequency tables of their labels. The player table is the first 30 rows of the player labels' frequency table |
| MatchStats.ResultsListed | src/lib/matchStats.ts:31 | every outcome is listed in `RESULTS`, so every reduction over it sees every count |
| MatchStats.EMPTY | src/lib/matchStats.ts:33-35 | `emptyCounts()`; `EmptyCounts` states that every outcome starts at zero |
| MatchStats.EmptyCounts | src/lib/matchStats.ts:33-35 | every outcome of the empty counts is 0, and so is their total |
| MatchStats.Weight | src/lib/matchStats.ts:56 | `weightsForSkill[r] ?? 0`, also `w?.[r] ?? 0` at line 114: the weight of an outcome, or 0 when the row has none; `ScoreTerms` states the score with it |
| MatchStats.With | src/lib/matchStats.ts:95 | writing `c[r]` changes only the count of `r` |
| MatchStats.Inc | src/lib/matchStats.ts:95 | `c[r] += 1` raises the count of `r` by one and leaves the other counts alone |
| MatchStats.Total | src/lib/matchStats.ts:43 | `RESULTS.reduce((s, r) => s + counts[r], 0)`, also at lines 52, 109 and 121; `TotalInc`, `TotalPlus` and `EmptyCounts` state how it behaves |
| MatchStats.TotalInc | src/lib/matchStats.ts:95-109 | one more outcome raises the total by one |
| MatchStats.Plus | src/lib/matchStats.ts:105-108 | summing two records of counts adds them outcome by outcome |
| MatchStats.TotalPlus | src/lib/matchStats.ts:105-109 | the total of a sum of counts is the sum of the totals |
| MatchStats.ScoreTerms | src/lib/matchStats.ts:55-58 | the score is the sum of count times weight over the four outcomes; a missing weight counts as 0 |
| MatchStats.ScoreBounded | src/lib/matchStats.ts:55-58 | with weights in [0, 1], the score lies between 0 and the total |
| MatchStats.Clamp01 | src/lib/matchStats.ts:37-40 | the result lies in [0, 1]: a value already in [0, 1] is kept, a value below 0 becomes 0, and a value above 1 becomes 1 |
| MatchStats.DecisionRate | src/lib/matchStats.ts:42-46 | the decision rate lies in [0, 1], and it is 0 when there are no attempts |
| MatchStats.DecisionRateShare | src/lib/matchStats.ts:42-46 | with at least one attempt, the decision rate times the total is the number of points |
| MatchStats.EffectRate | src/lib/matchStats.ts:48-60 | the effect rate lies in [0, 1], and it is 0 when there are no attempts |
| MatchStats.EffectRateIsMeanScore | src/lib/matchStats.ts:48-60 | with weights in [0, 1] and at least one attempt, the effect rate times the total is the weighted score, so clamping never bites |
| MatchStats.Ratio01Exact | src/lib/matchStats.ts:117-118 | for a score between 0 and the total, the match-level effect rate times the total is the score |
| MatchStats.ForPlayer | src/lib/matchStats.ts:87 | the filter keeps each event with the given player, as often as it occurs, and drops every other event; `null` selects the events recorded without a player |
| MatchStats.ForPlayerAppend | src/lib/matchStats.ts:87 | the filter keeps the order of the events: filtering `a + b` gives the filtered `a` followed by the filtered `b` |
| MatchStats.ForPlayerSingle | src/lib/matchStats.ts:87 | a single event is kept iff it carries the given player; with `ForPlayerAppend` this fixes the filter's result, order included |
| MatchStats.ForPlayerMembers | src/lib/matchStats.ts:87 | an event is kept iff it is in the list and carries the given player |
| MatchStats.IndexMatches | src/lib/matchStats.ts:86 | `new Map(matches.map(...))` as repeated `Put`s; `IndexMatchesAbsent` and `IndexMatchesLast` state what it finds |
| MatchStats.IndexMatchesAbsent | src/lib/matchStats.ts:86 | the match index finds nothing for an id exactly when no match carries that id |
| MatchStats.IndexMatchesLast | src/lib/matchStats.ts:86 | the match index returns the last match carrying an id |
| MatchStats.MatchName | src/lib/matchStats.ts:103 | the indexed match's name, or the placeholder; `MatchNameOf` and `MatchNameMissing` state both cases |
| MatchStats.MatchNameOf | src/lib/matchStats.ts:86-103 | a row is named after the last match carrying its id |
| MatchStats.MatchNameMissing | src/lib/matchStats.ts:103 | a row whose id has no match is named "(名称未設定)" |
| MatchStats.AddEvent | src/lib/matchStats.ts:93-97 | one pass of the first loop's body; `AddEventKeys`, `AddEventSkills` and `AddEventCounts` state its effect |
| MatchStats.AddEventKeys | src/lib/matchStats.ts:93-97 | one pass adds the event's match to the grouping's keys, and no other key, keeping them distinct |
| MatchStats.AddEventSkills | src/lib/matchStats.ts:93-97 | one pass adds the event's skill under the event's match only, keeping skills distinct |
| MatchStats.AddEventCounts | src/lib/matchStats.ts:93-97 | one pass raises the count of exactly the event's match, skill and result by one |
| MatchStats.AddEventKeyOrder | src/lib/matchStats.ts:93-97 | one pass appends the event's match to the grouping's keys when it is new, and otherwise keeps their order |
| MatchStats.Accumulate | src/lib/matchStats.ts:92-98 | `acc` after the first loop; the `Accumulate…` lemmas below state its keys, skills and counts |
| MatchStats.AccumulateKeys | src/lib/matchStats.ts:92-98 | the grouping has one entry per distinct match id among the player's events, none twice |
| MatchStats.AccumulateOrder | src/lib/matchStats.ts:92-98 | the grouping holds its matches in the order in which the player's events first mention them |
| Assoc.PutKeyOrder | src/lib/matchStats.ts:97 | `acc.set` keeps the order of the keys, and appends a key only when it is new |
| MatchStats.AccumulateSkills | src/lib/matchStats.ts:92-98 | within a match, the grouping has one entry per distinct skill played in that match, none twice |
| MatchStats.AccumulateCounts | src/lib/matchStats.ts:92-98 | the count stored for match, skill and outcome is the number of events with that match, skill and outcome |
| MatchStats.AccumulateMatchTotal | src/lib/matchStats.ts:92-98 | the counts stored for a match add up to the number of its events |
| MatchStats.AccumulateSum | src/lib/matchStats.ts:92-98 | all stored counts add up to the number of events grouped |
| MatchStats.AccumulatePoints | src/lib/matchStats.ts:92-98 | the points stored for a match are the number of its events that scored a point |
| MatchStats.AccumulateScore | src/lib/matchStats.ts:92-115 | scoring a match's stored counts, each skill under its own weights, gives the sum of the weights of its events' outcomes |
| MatchStats.InMatchPositive | src/lib/matchStats.ts:92-98 | the match id of any of the events has at least one event counted under it |
| MatchStats.SumCountsTotal | src/lib/matchStats.ts:105-109 | the total of `totalCounts` is the sum of the per-skill totals |
| MatchStats.SumCountsPoints | src/lib/matchStats.ts:105-117 | the points of `totalCounts` are the sum of the per-skill points |
| MatchStats.SkillStatsFind | src/lib/matchStats.ts:120-129 | `bySkill` holds an entry for exactly the skills that have counts. Each entry has that skill's counts, its total, its decision rate, and its effect rate under that skill's weights |
| MatchStats.SkillStatsTotal | src/lib/matchStats.ts:105-129 | the totals of the `bySkill` entries add up to the match total |
| MatchStats.StatsAt | src/lib/matchStats.ts:102-132 | before sorting, row `k` is the row built from entry `k` of `acc`, so the rows follow `acc`'s order, which `AccumulateOrder` shows is the order of first mention |
| MatchStats.MatchStat | src/lib/matchStats.ts:103-131 | the row built for one entry of `acc`; `MatchStatFields` and `StatsRow` state what it holds |
| MatchStats.MatchStatFields | src/lib/matchStats.ts:103-131 | a row has the match's id and name, and its total is that of the summed counts. Its decision rate is points over total; its effect rate is the clamped mean score; both lie in [0, 1] |
| MatchStats.StatsRow | src/lib/matchStats.ts:92-132 | every row summarises its match exactly. The match has events, and the total is their number. The decision rate is points over that number; the effect rate is the clamped mean of the events' weights. The per-skill entries are the events' counts for each skill and add up to the total |
| MatchStats.StatsMatchIds | src/lib/matchStats.ts:102-132 | there is one row per grouped match, and no two rows share a match id |
| MatchStats.SortedMatchIds | src/lib/matchStats.ts:134 | sorting keeps the set of match ids and keeps them distinct |
| MatchStats.ByNamePreorder | src/lib/matchStats.ts:134 | a total preorder on names gives a total preorder on rows |
| MatchStats.PlayerMatchStats | src/lib/matchStats.ts:87-134 | the whole result: filter, group, build rows, sort by name; `PlayerMatchStatsRows` and `PlayerMatchStatsTable` state its properties |
| MatchStats.PlayerMatchStatsRows | src/lib/matchStats.ts:87-134 | every returned row summarises exactly the player's events in its match |
| MatchStats.PlayerMatchStatsTable | src/lib/matchStats.ts:87-134 | there is exactly one row per match in which the player has events, and matches without events are omitted. Row totals add up to the player's event count. Rows are ordered by name whenever the collation is a total preorder |
| MatchStats.AddCounts | src/lib/matchStats.ts:107 | the inner loop adds one skill's counts to the running total, outcome by outcome |
| MatchStats.AddScore | src/lib/matchStats.ts:113-114 | the inner loop adds one skill's weighted score to the running score |
| MatchStats.SumSkillCounts | src/lib/matchStats.ts:105-108 | the loop ends with the sum of all skills' counts |
| MatchStats.SumSkillScores | src/lib/matchStats.ts:111-115 | the loop ends with the sum of all skills' scores, each under its own weights |
| MatchStats.BuildBySkill | src/lib/matchStats.ts:120-129 | the loop writes one entry per skill |
| MatchStats.GroupByMatch | src/lib/matchStats.ts:92-98 | the first loop builds the grouping of the events by match and skill |
| MatchStats.MatchRows | src/lib/matchStats.ts:100-132 | the second loop builds one row per entry of `acc`, in `acc`'s order |
| MatchStats.BuildPlayerMatchStats | src/lib/matchStats.ts:78-136 | every row summarises the player's events in its match. There is one row per match with such events, and no match id twice. Totals add up to the player's event count. Rows are sorted by name when the collation is a total preorder |
| MatchStatsExamples.SpikeCountsRates | src/lib/matchStats.ts:42-60 | one point and one miss, weighted 1 and 0, give a decision rate of 1/2 and an effect rate of 1/2 |
| MatchStatsExamples.SingleMatchTable | src/lib/matchStats.ts:87-134 | a player whose events all lie in one match gets exactly one row, and that row summarises those events |
| MatchStatsExamples.TwoSpikesScenario | src/lib/matchStats.ts:78-136 | when player "p1" has exactly one spike point and one spike miss in match "m1", whatever other events exist, there is one row. It is named "(名称未設定)", has total 2, and both rates are 1/2 |
| MatchStatsExamples.ExampleEvents | src/lib/matchStats.ts:78-136 | the same holds for a concrete list that also has another player's serve |

## Left out

- `formatPct` (src/lib/matchStats.ts:138-141) is display formatting over floating point; it is not modelled.
- Numbers are modelled as exact reals. So `NaN` (the first branch of `clamp01`, src/lib/matchStats.ts:38), infinities and rounding are not modelled; nor is the falsiness of `NaN` in the search's `!cur` test.
- MatchStats.ByName: the `"ja"` collation of `localeCompare` is a parameter `nameLe`. Sortedness is proved for any collation that is a total preorder; the ordering itself is not modelled.
- Summary.Stringify: `String(v)` of a non-string is an unspecified parameter `show`.
- Json.Values: `Object.values` orders integer-like keys numerically before the other keys; the model keeps the fields in the order the node lists them.
- Json.Get: property access on an array or a primitive always gives `undefined`, and inherited properties are not modelled. The one inherited property the core reads is `keys` on an array root, where the source gets the function `Array.prototype.keys`. `isObject` rejects a function (`typeof` is `"function"`), so `normalizeToKeyBag` returns the root in both the source and the model.
- Extract.Run: the heap is fixed during the search; the source only reads the document too.
- The weights are a total function from skill to a row. A skill missing from the weights (`w?.[r]` in src/lib/matchStats.ts:114, or the `TypeError` in `calcEffectRate`) is not modelled. A missing outcome inside a row weighs 0, as in the source.
- MatchStats.PlayerMatchStats: `out.sort` is modelled by value, not in place. The sort is stable by construction, but no lemma states stability.
- MatchStats.IndexMatches: the `Map` is an association list, so lookups are linear; the observable results are the same.
- MatchStats.BuildPlayerMatchStats: the decision rate is the exact quotient; there is no floating-point rounding. The source's `Player` type is not modelled, since the core never uses it; the `dateISO` field of `Match` is carried but unused, as in the source.
- The event canonicaliser and match resolver, which turn discovered records into `RallyEvent`s and `Match`es, are not part of this model. `buildPlayerMatchStats` takes both lists as inputs.
- `src/App.tsx` and the components (file input, fetch, key listing, rendering) are I/O and UI; they are not modelled.
